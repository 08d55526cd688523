/** What a carriage return that stands alone does to the events of a text. */
module SseReturns {
  import opened Wrappers
  import opened SseReader
  import opened SseStandard

  // ----- Events -----------------------------------------------------------------------------

  /** The data values of each event that an empty line closes; `open` are those seen so far. */
  function Events(lines: seq<string>, open: seq<string>): seq<seq<string>>
    decreases |lines|
  {
    if lines == [] then []
    else if lines[0] == "" then (if open == [] then [] else [open]) + Events(lines[1..], [])
    else
      match DataOf(lines[0])
      case Some(value) => Events(lines[1..], open + [value])
      case None => Events(lines[1..], open)
  }

  /** The values that are still open after the lines. */
  function OpenAfter(lines: seq<string>, open: seq<string>): seq<string>
    decreases |lines|
  {
    if lines == [] then open
    else if lines[0] == "" then OpenAfter(lines[1..], [])
    else
      match DataOf(lines[0])
      case Some(value) => OpenAfter(lines[1..], open + [value])
      case None => OpenAfter(lines[1..], open)
  }

  /** The payloads of events, without the closing mark. */
  function Spelled(events: seq<seq<string>>): seq<string> {
    if events == [] then []
    else
      var data := Join(events[|events| - 1]);
      Spelled(events[..|events| - 1]) + if data == "[DONE]" then [] else [data]
  }

  lemma {:induction false} OneMoreLine(lines: seq<string>, line: string, open: seq<string>)
    ensures
      var before := OpenAfter(lines, open);
      && Events(lines + [line], open) ==
           Events(lines, open) + (if line == "" && before != [] then [before] else [])
      && OpenAfter(lines + [line], open) ==
           if line == "" then []
           else match DataOf(line) case Some(value) => before + [value] case None => before
    decreases |lines|
  {
    if lines == [] {
      assert [] + [line] == [line] && [line][1..] == [];
    } else {
      assert (lines + [line])[1..] == lines[1..] + [line];
      OneMoreLine(lines[1..], line,
                  if lines[0] == "" then []
                  else match DataOf(lines[0]) case Some(value) => open + [value] case None => open);
    }
  }

  function Extended(blocks: seq<seq<string>>, line: string): (extended: seq<seq<string>>)
    requires blocks != []
    ensures extended != []
  {
    if line == "" then blocks + [[]] else blocks[..|blocks| - 1] + [blocks[|blocks| - 1] + [line]]
  }

  lemma BlocksExtended(lines: seq<string>, line: string)
    ensures Blocks(lines + [line]) == Extended(Blocks(lines), line)
  {
    assert (lines + [line])[..|lines|] == lines;
  }

  /** The closed blocks spell the events, and the last one holds the open values. */
  ghost predicate Reads(blocks: seq<seq<string>>, events: seq<seq<string>>, open: seq<string>) {
    && blocks != []
    && Payloads(DataOf, blocks[..|blocks| - 1]) == Spelled(events)
    && Values(DataOf, blocks[|blocks| - 1]) == open
  }

  lemma ReadsMore(blocks: seq<seq<string>>, events: seq<seq<string>>, open: seq<string>, line: string)
    requires Reads(blocks, events, open)
    ensures
      if line == "" then Reads(Extended(blocks, line), events + (if open != [] then [open] else []), [])
      else Reads(Extended(blocks, line), events,
                 match DataOf(line) case Some(value) => open + [value] case None => open)
  {
    var last := |blocks| - 1;
    if line == "" {
      assert Extended(blocks, line)[..last + 1] == blocks;
      OneMoreBlock(blocks, events, open);
    } else {
      assert Extended(blocks, line)[..last] == blocks[..last];
      OneMoreValue(blocks[last], line);
    }
  }

  /** The events of the lines, spelled out, are the payloads of their closed blocks. */
  lemma {:induction false} EventsOfBlocks(lines: seq<string>)
    ensures Reads(Blocks(lines), Events(lines, []), OpenAfter(lines, []))
    decreases |lines|
  {
    if lines == [] {
      assert Blocks(lines)[..0] == [];
    } else {
      EventsOfBlocks(lines[..|lines| - 1]);
      EventsOfMore(lines[..|lines| - 1], lines[|lines| - 1]);
      LastAside(lines);
    }
  }

  lemma LastAside<T>(s: seq<T>)
    requires s != []
    ensures s[..|s| - 1] + [s[|s| - 1]] == s
  {
  }

  lemma EventsOfMore(lines: seq<string>, line: string)
    requires Reads(Blocks(lines), Events(lines, []), OpenAfter(lines, []))
    ensures Reads(Blocks(lines + [line]), Events(lines + [line], []), OpenAfter(lines + [line], []))
  {
    ReadsMore(Blocks(lines), Events(lines, []), OpenAfter(lines, []), line);
    BlocksExtended(lines, line);
    EventsExtended(lines, line);
  }

  lemma EventsExtended(lines: seq<string>, line: string)
    ensures
      var events, open := Events(lines, []), OpenAfter(lines, []);
      && Events(lines + [line], []) == (if line == "" then events + (if open != [] then [open] else []) else events)
      && OpenAfter(lines + [line], []) ==
           if line == "" then [] else match DataOf(line) case Some(value) => open + [value] case None => open
  {
    OneMoreLine(lines, line, []);
    assert Events(lines, []) + [] == Events(lines, []);
  }

  lemma OneMoreBlock(blocks: seq<seq<string>>, events: seq<seq<string>>, open: seq<string>)
    requires blocks != []
    requires
      var last := |blocks| - 1;
      Payloads(DataOf, blocks[..last]) == Spelled(events) && Values(DataOf, blocks[last]) == open
    ensures Payloads(DataOf, blocks) == Spelled(events + (if open != [] then [open] else []))
  {
    assert (events + [open])[..|events|] == events && events + [] == events;
    assert Spelled(events) + [] == Spelled(events);
  }

  lemma OneMoreValue(block: seq<string>, line: string)
    ensures Values(DataOf, block + [line]) ==
            match DataOf(line) case Some(value) => Values(DataOf, block) + [value] case None => Values(DataOf, block)
  {
    assert (block + [line])[..|block|] == block;
    assert Values(DataOf, block) + [] == Values(DataOf, block);
  }

  // ----- The lines of the standard ----------------------------------------------------------

  /** A line split at its carriage returns. */
  function Parts(line: string): (parts: seq<string>)
    ensures parts != []
    decreases |line|
  {
    match LineEnd(line)
    case None => [line]
    case Some((stop, _)) => [line[..stop]] + Parts(line[stop + 1..])
  }

  function AllParts(lines: seq<string>): seq<string> {
    if lines == [] then [] else Parts(lines[0]) + AllParts(lines[1..])
  }

  lemma {:induction false} LineEndAt(text: string)
    ensures match LineEnd(text)
            case None => '\n' !in text && '\r' !in text
            case Some((stop, _)) =>
              text[stop] in {'\n', '\r'} && '\n' !in text[..stop] && '\r' !in text[..stop]
    decreases |text|
  {
    if text != "" && text[0] != '\n' && text[0] != '\r' {
      LineEndAt(text[1..]);
      assert text == [text[0]] + text[1..];
      match LineEnd(text[1..])
      case None =>
      case Some((stop, _)) => assert text[..stop + 1] == [text[0]] + text[1..][..stop];
    }
  }

  lemma {:induction false} PartsOfLine(raw: string, rest: string)
    requires '\n' !in raw
    ensures StandardLines(raw + "\n" + rest) == Parts(Trimmed(raw)) + StandardLines(rest)
    decreases |raw|
  {
    var line := Trimmed(raw);
    LineEndAt(line);
    match LineEnd(line)
    case None =>
      LastPart(raw, rest);
    case Some((stop, _)) =>
      FirstPart(raw, stop);
      PartsOfLine(raw[stop + 1..], rest);
      OneMorePart(line[..stop], raw[stop + 1..], rest);
      assert line == line[..stop] + "\r" + line[stop + 1..];
  }

  lemma OneMorePart(part: string, more: string, rest: string)
    requires '\n' !in part && '\r' !in part && '\n' !in more && more != ""
    requires StandardLines(more + "\n" + rest) == Parts(Trimmed(more)) + StandardLines(rest)
    ensures StandardLines((part + "\r" + more) + "\n" + rest) ==
            Parts(part + "\r" + Trimmed(more)) + StandardLines(rest)
  {
    PartThenRest(part, more, rest);
    var line := part + "\r" + Trimmed(more);
    ReturnAfter(part, Trimmed(more));
    assert line[..|part|] == part && line[|part| + 1..] == Trimmed(more);
  }

  lemma PartThenRest(part: string, more: string, rest: string)
    requires '\n' !in part && '\r' !in part && more != "" && more[0] != '\n'
    ensures StandardLines((part + "\r" + more) + "\n" + rest) == [part] + StandardLines(more + "\n" + rest)
  {
    assert (part + "\r" + more) + "\n" + rest == part + "\r" + (more + "\n" + rest);
    FirstStandardLine(part, more + "\n" + rest);
  }

  lemma LastPart(raw: string, rest: string)
    requires '\n' !in raw && '\r' !in Trimmed(raw)
    ensures StandardLines(raw + "\n" + rest) == [Trimmed(raw)] + StandardLines(rest)
  {
    var text := raw + "\n" + rest;
    NewlineAfter(raw, rest);
    assert text[..|raw|] == raw && text[|raw| + 1..] == rest;
    forall k | 0 <= k < |raw| && text[k] == '\r' ensures k == |raw| - 1 {
      assert k < |Trimmed(raw)| ==> Trimmed(raw)[k] != '\r';
    }
    FirstLineEnd(text, |raw|);
  }

  lemma FirstPart(raw: string, stop: nat)
    requires '\n' !in raw && stop < |Trimmed(raw)| && Trimmed(raw)[stop] == '\r'
    ensures
      var more := raw[stop + 1..];
      && raw == Trimmed(raw)[..stop] + "\r" + more && more != "" && more[0] != '\n'
      && Trimmed(more) == Trimmed(raw)[stop + 1..]
  {
    var more := raw[stop + 1..];
    assert stop + 1 < |raw| && more[0] == raw[stop + 1] && raw[stop + 1] in raw;
    assert more[|more| - 1] == raw[|raw| - 1];
  }

  /** The standard's lines are the parts of the lines that end. */
  lemma {:induction false} StandardIsParts(text: string)
    requires Tail(text) == ""
    ensures StandardLines(text) == AllParts(EndedLines(text))
    decreases |text|
  {
    match Newline(text)
    case None =>
    case Some(i) =>
      assert text == text[..i] + "\n" + text[i + 1..];
      PartsOfLine(text[..i], text[i + 1..]);
      StandardIsParts(text[i + 1..]);
  }

  // ----- When they make no difference -------------------------------------------------------

  /** A data line comes before the event closes. */
  predicate DataAhead(lines: seq<string>)
    decreases |lines|
  {
    lines != [] && lines[0] != "" && (DataOf(lines[0]).Some? || DataAhead(lines[1..]))
  }

  /** No part is data, and none is empty where that would split an event's data. */
  predicate Quiet(parts: seq<string>, splits: bool) {
    (forall part | part in parts :: DataOf(part).None?) && (splits ==> "" !in parts)
  }

  /**
   * No data line holds a carriage return, no other line hides a data line behind one, and none hides
   * an empty line between two data lines of an event. `begun`: the open event has data already.
   */
  predicate Harmless(lines: seq<string>, begun: bool)
    decreases |lines|
  {
    lines == []
    || if lines[0] == "" then Harmless(lines[1..], false)
       else if DataOf(lines[0]).Some? then '\r' !in lines[0] && Harmless(lines[1..], true)
       else Quiet(Parts(lines[0]), begun && DataAhead(lines[1..])) && Harmless(lines[1..], begun)
  }

  /** The last line is empty: no event is left open. */
  predicate Ends(lines: seq<string>) {
    lines != [] ==> lines[|lines| - 1] == ""
  }

  lemma WholeLine(line: string)
    requires '\r' !in line && '\n' !in line
    ensures Parts(line) == [line]
  {
    LineEndAt(line);
  }

  lemma {:induction false} IgnoredParts(parts: seq<string>, more: seq<string>, open: seq<string>)
    requires Quiet(parts, false)
    ensures Events(parts + more, open) ==
            if "" in parts && open != [] then [open] + Events(more, []) else Events(more, open)
    decreases |parts|
  {
    if parts == [] {
      assert parts + more == more;
    } else {
      assert (parts + more)[1..] == parts[1..] + more;
      IgnoredParts(parts[1..], more, if parts[0] == "" then [] else open);
    }
  }

  lemma {:induction false} NothingAhead(lines: seq<string>, open: seq<string>)
    requires !DataAhead(lines) && lines != [] && Ends(lines) && open != []
    ensures Events(lines, open) == [open] + Events(lines, [])
    decreases |lines|
  {
    if lines[0] != "" { NothingAhead(lines[1..], open); }
  }

  lemma {:induction false} NotBegun(lines: seq<string>)
    ensures Harmless(lines, true) ==> Harmless(lines, false)
    ensures !DataAhead(lines) ==> (Harmless(lines, true) <==> Harmless(lines, false))
    decreases |lines|
  {
    if lines != [] { NotBegun(lines[1..]); }
  }

  predicate NoNewlines(lines: seq<string>) {
    forall line | line in lines :: '\n' !in line
  }

  lemma {:induction false} HarmlessIsSame(lines: seq<string>, open: seq<string>)
    requires NoNewlines(lines) && Ends(lines) && Harmless(lines, open != [])
    ensures Events(AllParts(lines), open) == Events(lines, open)
    decreases |lines|
  {
    if lines != [] {
      var line, rest := lines[0], lines[1..];
      if line == "" || DataOf(line).Some? {
        WholeLine(line);
        HarmlessIsSame(rest, if line == "" then [] else open + [DataOf(line).value]);
        assert ([line] + AllParts(rest))[1..] == AllParts(rest);
      } else {
        IgnoredParts(Parts(line), AllParts(rest), open);
        if "" in Parts(line) && open != [] {
          NotBegun(rest);
          HarmlessIsSame(rest, []);
          NothingAhead(rest, open);
        } else {
          HarmlessIsSame(rest, open);
        }
      }
    }
  }

  // ----- When they do -----------------------------------------------------------------------

  function Data(lines: seq<string>): seq<string>
    decreases |lines|
  {
    if lines == [] then []
    else (match DataOf(lines[0]) case Some(value) => [value] case None => []) + Data(lines[1..])
  }

  function Flat(events: seq<seq<string>>): seq<string>
    decreases |events|
  {
    if events == [] then [] else events[0] + Flat(events[1..])
  }

  /** The values of the events are the values of the lines. */
  lemma {:induction false} EventsHoldData(lines: seq<string>, open: seq<string>)
    requires Ends(lines) && (lines == [] ==> open == [])
    ensures Flat(Events(lines, open)) == open + Data(lines)
    decreases |lines|
  {
    if lines != [] {
      var rest := lines[1..];
      match DataOf(lines[0])
      case Some(value) =>
        EventsHoldData(rest, open + [value]);
        assert open + [value] + Data(rest) == open + ([value] + Data(rest));
      case None =>
        EventsHoldData(rest, if lines[0] == "" then [] else open);
        assert [] + Data(rest) == Data(rest);
        if lines[0] == "" {
          FlatFirst(open, Events(rest, []));
        }
    }
  }

  lemma FlatFirst(open: seq<string>, events: seq<seq<string>>)
    ensures Flat((if open == [] then [] else [open]) + events) == open + Flat(events)
  {
    if open == [] {
      assert [] + events == events;
    } else {
      assert ([open] + events)[1..] == events;
    }
  }

  lemma {:induction false} DataConcat(a: seq<string>, b: seq<string>)
    ensures Data(a + b) == Data(a) + Data(b)
    decreases |a|
  {
    if a == [] {
      assert a + b == b;
    } else {
      assert (a + b)[1..] == a[1..] + b;
      DataConcat(a[1..], b);
    }
  }

  lemma {:induction false} DataHas(lines: seq<string>, value: string)
    ensures value in Data(lines) <==> exists line :: line in lines && DataOf(line) == Some(value)
    decreases |lines|
  {
    if lines != [] {
      DataHas(lines[1..], value);
      assert lines == [lines[0]] + lines[1..];
    }
  }

  lemma {:induction false} PartsHaveNoReturn(line: string)
    ensures forall part | part in Parts(line) :: '\r' !in part
    decreases |line|
  {
    LineEndAt(line);
    match LineEnd(line)
    case None =>
    case Some((stop, _)) => PartsHaveNoReturn(line[stop + 1..]);
  }

  lemma {:induction false} AllPartsHaveNoReturn(lines: seq<string>)
    ensures forall part | part in AllParts(lines) :: '\r' !in part
    decreases |lines|
  {
    if lines != [] {
      PartsHaveNoReturn(lines[0]);
      AllPartsHaveNoReturn(lines[1..]);
    }
  }

  /** A carriage return inside a data line: that value is none of the standard's. */
  lemma ReturnInDataDiffers(lines: seq<string>, line: string)
    requires line in lines && DataOf(line).Some? && '\r' in line
    ensures Data(AllParts(lines)) != Data(lines)
  {
    var value := DataOf(line).value;
    assert '\r' in value by {
      var k :| 0 <= k < |line| && line[k] == '\r';
      assert line == "data:" + line[5..] && k >= 5;
    }
    DataHas(lines, value);
    DataHas(AllParts(lines), value);
    AllPartsHaveNoReturn(lines);
    forall part | part in AllParts(lines) ensures DataOf(part) != Some(value) { assert '\r' !in part; }
  }

  /** The data lines hold no carriage return. */
  predicate WholeData(lines: seq<string>) {
    forall line | line in lines && DataOf(line).Some? :: '\r' !in line
  }

  /** No line that is not data has a part that is. */
  predicate NoneHidden(lines: seq<string>) {
    forall line | line in lines && DataOf(line).None? :: Quiet(Parts(line), false)
  }

  lemma {:induction false} HiddenDataDiffers(lines: seq<string>)
    requires NoNewlines(lines) && WholeData(lines)
    ensures |Data(AllParts(lines))| >= |Data(lines)|
    ensures !NoneHidden(lines) ==> |Data(AllParts(lines))| > |Data(lines)|
    decreases |lines|
  {
    if lines != [] {
      var line, rest := lines[0], lines[1..];
      assert lines == [line] + rest;
      HiddenDataDiffers(rest);
      DataConcat(Parts(line), AllParts(rest));
      if DataOf(line).Some? {
        WholeLine(line);
        assert [line][1..] == [];
      } else if !Quiet(Parts(line), false) {
        var part :| part in Parts(line) && DataOf(part).Some?;
        DataHas(Parts(line), DataOf(part).value);
      }
    }
  }

  /** How many events close; `begun`: the first has data already. */
  function Closings(lines: seq<string>, begun: bool): nat
    decreases |lines|
  {
    if lines == [] then 0
    else if lines[0] == "" then (if begun then 1 else 0) + Closings(lines[1..], false)
    else Closings(lines[1..], begun || DataOf(lines[0]).Some?)
  }

  lemma {:induction false} ClosingsOfEvents(lines: seq<string>, open: seq<string>)
    ensures |Events(lines, open)| == Closings(lines, open != [])
    decreases |lines|
  {
    if lines != [] {
      ClosingsOfEvents(lines[1..],
                       if lines[0] == "" then []
                       else match DataOf(lines[0]) case Some(value) => open + [value] case None => open);
    }
  }

  lemma {:induction false} IgnoredClosings(parts: seq<string>, more: seq<string>, begun: bool)
    requires Quiet(parts, false)
    ensures Closings(parts + more, begun) ==
            if "" in parts && begun then 1 + Closings(more, false) else Closings(more, begun)
    decreases |parts|
  {
    if parts == [] {
      assert parts + more == more;
    } else {
      assert (parts + more)[1..] == parts[1..] + more;
      IgnoredClosings(parts[1..], more, begun && parts[0] != "");
    }
  }

  lemma {:induction false} BegunCloses(lines: seq<string>)
    requires lines != [] && Ends(lines)
    ensures Closings(lines, true) == Closings(lines, false) + if DataAhead(lines) then 0 else 1
    decreases |lines|
  {
    if lines[0] != "" && DataOf(lines[0]).None? { BegunCloses(lines[1..]); }
  }

  /** A hidden empty line between data lines makes two events of one. */
  lemma {:induction false} HiddenClosingDiffers(lines: seq<string>, begun: bool)
    requires NoNewlines(lines) && Ends(lines) && WholeData(lines) && NoneHidden(lines)
    ensures Closings(AllParts(lines), begun) >= Closings(lines, begun)
    ensures !Harmless(lines, begun) ==> Closings(AllParts(lines), begun) > Closings(lines, begun)
    decreases |lines|
  {
    if lines != [] {
      var line, rest := lines[0], lines[1..];
      if line == "" || DataOf(line).Some? {
        WholeLine(line);
        HiddenClosingDiffers(rest, line != "");
        assert ([line] + AllParts(rest))[1..] == AllParts(rest);
      } else {
        IgnoredClosings(Parts(line), AllParts(rest), begun);
        if "" in Parts(line) && begun {
          HiddenClosingDiffers(rest, false);
          BegunCloses(rest);
          NotBegun(rest);
        } else {
          HiddenClosingDiffers(rest, begun);
        }
      }
    }
  }

  lemma {:induction false} PartsOfEmptyEnd(lines: seq<string>)
    requires Ends(lines)
    ensures Ends(AllParts(lines)) && (lines != [] ==> AllParts(lines) != [])
    decreases |lines|
  {
    if lines != [] {
      PartsOfEmptyEnd(lines[1..]);
      if |lines| == 1 { WholeLine(""); }
    }
  }

  /** The events are the same exactly where carriage returns are harmless. */
  lemma SameEventsExactly(lines: seq<string>)
    requires NoNewlines(lines) && Ends(lines)
    ensures Events(AllParts(lines), []) == Events(lines, []) <==> Harmless(lines, false)
  {
    var parts := AllParts(lines);
    if Harmless(lines, false) {
      HarmlessIsSame(lines, []);
    } else {
      PartsOfEmptyEnd(lines);
      EventsHoldData(lines, []);
      EventsHoldData(parts, []);
      assert [] + Data(lines) == Data(lines) && [] + Data(parts) == Data(parts);
      if !WholeData(lines) {
        var line :| line in lines && DataOf(line).Some? && '\r' in line;
        ReturnInDataDiffers(lines, line);
      } else if !NoneHidden(lines) {
        HiddenDataDiffers(lines);
      } else {
        HiddenClosingDiffers(lines, false);
        ClosingsOfEvents(lines, []);
        ClosingsOfEvents(parts, []);
      }
    }
  }

  // ----- The payloads -----------------------------------------------------------------------

  /** Values as they come out of lines: at least one, and no newline in any. */
  predicate Proper(event: seq<string>) {
    event != [] && NoNewlines(event)
  }

  lemma {:induction false} LastNewline(a: string, b: string, x: string, y: string)
    requires a + "\n" + x == b + "\n" + y && '\n' !in x && '\n' !in y
    ensures a == b && x == y
    decreases |x|
  {
    var whole := a + "\n" + x;
    assert whole[|a|] == '\n' && whole[|b|] == '\n';
    forall k | |a| < k < |whole| ensures whole[k] != '\n' { assert whole[k] == x[k - |a| - 1]; }
    forall k | |b| < k < |whole| ensures whole[k] != '\n' {
      assert whole[k] == (b + "\n" + y)[k] == y[k - |b| - 1];
    }
    assert |a| == |b|;
    assert a == whole[..|a|] == b && x == whole[|a| + 1..] == y;
  }

  lemma JoinedHasNewline(a: seq<string>)
    requires |a| > 1
    ensures '\n' in Join(a)
  {
    var n := |a| - 1;
    assert Join(a)[|Join(a[..n])|] == '\n';
  }

  /** Joined values can be told apart again. */
  lemma {:induction false} JoinIsInjective(a: seq<string>, b: seq<string>)
    requires Proper(a) && Proper(b) && Join(a) == Join(b)
    ensures a == b
    decreases |a|
  {
    var n, k := |a| - 1, |b| - 1;
    if n > 0 { JoinedHasNewline(a); }
    if k > 0 { JoinedHasNewline(b); }
    assert a[n] in a && b[k] in b;
    assert n == 0 <==> k == 0;
    if n > 0 {
      LastNewline(Join(a[..n]), Join(b[..k]), a[n], b[k]);
      JoinIsInjective(a[..n], b[..k]);
      assert a == a[..n] + [a[n]] && b == b[..k] + [b[k]];
    }
  }

  predicate NoMark(events: seq<seq<string>>) {
    forall event | event in events :: Join(event) != "[DONE]"
  }

  lemma {:induction false} SpelledIsInjective(a: seq<seq<string>>, b: seq<seq<string>>)
    requires NoMark(a) && NoMark(b) && Spelled(a) == Spelled(b)
    requires (forall event | event in a :: Proper(event)) && forall event | event in b :: Proper(event)
    ensures a == b && |Spelled(a)| == |a|
    decreases |a| + |b|
  {
    SpelledLength(a);
    SpelledLength(b);
    if a != [] {
      var n := |a| - 1;
      assert a == a[..n] + [a[n]] && b == b[..n] + [b[n]];
      assert Spelled(a)[..n] == Spelled(a[..n]) && Spelled(b)[..n] == Spelled(b[..n]);
      assert Spelled(a)[n] == Join(a[n]) && Spelled(b)[n] == Join(b[n]);
      SpelledIsInjective(a[..n], b[..n]);
      JoinIsInjective(a[n], b[n]);
    }
  }

  lemma {:induction false} SpelledLength(events: seq<seq<string>>)
    requires NoMark(events)
    ensures |Spelled(events)| == |events|
    ensures events != [] ==>
              var n := |events| - 1;
              Spelled(events) == Spelled(events[..n]) + [Join(events[n])] && |Spelled(events[..n])| == n
    decreases |events|
  {
    if events != [] { SpelledLength(events[..|events| - 1]); }
  }

  // ----- The closing mark -------------------------------------------------------------------

  const MARK := ["[DONE]"]

  /** The events that are not the closing mark. */
  function Kept(events: seq<seq<string>>): seq<seq<string>> {
    if events == [] then []
    else
      var n := |events| - 1;
      Kept(events[..n]) + if events[n] == MARK then [] else [events[n]]
  }

  lemma MarkIsProper()
    ensures Proper(MARK) && Join(MARK) == "[DONE]"
  {
    assert '\n' !in "[DONE]";
  }

  /** Spelling an event as the mark takes the mark. */
  lemma {:induction false} SpelledIsKept(events: seq<seq<string>>)
    requires forall event | event in events :: Proper(event)
    ensures Spelled(events) == Spelled(Kept(events)) && NoMark(Kept(events))
    ensures forall event | event in Kept(events) :: Proper(event)
    decreases |events|
  {
    if events != [] {
      var n := |events| - 1;
      SpelledIsKept(events[..n]);
      MarkIsProper();
      if Join(events[n]) == "[DONE]" { JoinIsInjective(events[n], MARK); }
      var kept := Kept(events[..n]);
      assert kept + [] == kept && (kept + [events[n]])[..|kept|] == kept;
    }
  }

  function Marks(values: seq<string>): nat
    decreases |values|
  {
    if values == [] then 0 else (if values[0] == "[DONE]" then 1 else 0) + Marks(values[1..])
  }

  lemma {:induction false} MarksConcat(a: seq<string>, b: seq<string>)
    ensures Marks(a + b) == Marks(a) + Marks(b)
    decreases |a|
  {
    if a == [] {
      assert a + b == b;
    } else {
      assert (a + b)[1..] == a[1..] + b;
      MarksConcat(a[1..], b);
    }
  }

  lemma {:induction false} FlatMore(events: seq<seq<string>>, event: seq<string>)
    ensures Flat(events + [event]) == Flat(events) + event
    decreases |events|
  {
    if events == [] {
      assert [] + [event] == [event] && [event][1..] == [] && event + [] == event && [] + event == event;
    } else {
      assert (events + [event])[1..] == events[1..] + [event];
      FlatMore(events[1..], event);
    }
  }

  /** Dropping the mark takes one event, one value and one mark away together. */
  lemma {:induction false} KeptCounts(events: seq<seq<string>>)
    ensures |Kept(events)| - Marks(Flat(Kept(events))) == |events| - Marks(Flat(events))
    ensures |Flat(Kept(events))| - Marks(Flat(Kept(events))) == |Flat(events)| - Marks(Flat(events))
    decreases |events|
  {
    if events != [] {
      var n := |events| - 1;
      KeptCounts(events[..n]);
      LastAside(events);
      OneEventCounts(events[..n], events[n]);
      OneEventCounts(Kept(events[..n]), events[n]);
      assert Kept(events[..n]) + [] == Kept(events[..n]);
      assert MARK[1..] == [];
    }
  }

  lemma OneEventCounts(events: seq<seq<string>>, event: seq<string>)
    ensures Marks(Flat(events + [event])) == Marks(Flat(events)) + Marks(event)
    ensures |Flat(events + [event])| == |Flat(events)| + |event|
  {
    FlatMore(events, event);
    MarksConcat(Flat(events), event);
  }

  /** No line that is not data has the closing mark as a part. */
  predicate NoHiddenMark(lines: seq<string>) {
    forall line | line in lines && DataOf(line).None? :: Some("[DONE]") !in DataOfAll(Parts(line))
  }

  function DataOfAll(lines: seq<string>): seq<Option<string>> {
    seq(|lines|, i requires 0 <= i < |lines| => DataOf(lines[i]))
  }

  lemma {:induction false} NoMarks(values: seq<string>)
    requires "[DONE]" !in values
    ensures Marks(values) == 0
    decreases |values|
  {
    if values != [] { NoMarks(values[1..]); }
  }

  lemma {:induction false} MarksAreShown(lines: seq<string>)
    requires NoNewlines(lines) && WholeData(lines) && NoHiddenMark(lines)
    ensures Marks(Data(AllParts(lines))) == Marks(Data(lines))
    decreases |lines|
  {
    if lines != [] {
      var line, rest := lines[0], lines[1..];
      assert lines == [line] + rest;
      MarksAreShown(rest);
      DataConcat(Parts(line), AllParts(rest));
      MarksConcat(Data(Parts(line)), Data(AllParts(rest)));
      DataConcat([line], rest);
      MarksConcat(Data([line]), Data(rest));
      MarksOfLine(line);
    }
  }

  lemma MarksOfLine(line: string)
    requires '\n' !in line
    requires if DataOf(line).Some? then '\r' !in line else Some("[DONE]") !in DataOfAll(Parts(line))
    ensures Marks(Data(Parts(line))) == Marks(Data([line]))
  {
    if DataOf(line).Some? {
      WholeLine(line);
    } else {
      NoMarkInParts(Parts(line));
      assert Data([line]) == [] + Data([]);
    }
  }

  lemma NoMarkInParts(parts: seq<string>)
    requires Some("[DONE]") !in DataOfAll(parts)
    ensures Marks(Data(parts)) == 0
  {
    DataHas(parts, "[DONE]");
    forall part | part in parts ensures DataOf(part) != Some("[DONE]") {
      var i :| 0 <= i < |parts| && parts[i] == part;
      assert DataOfAll(parts)[i] == DataOf(part);
    }
    NoMarks(Data(parts));
  }

  /** Where carriage returns are not harmless, the events that are kept differ as well. */
  lemma KeptEventsDiffer(lines: seq<string>)
    requires NoNewlines(lines) && Ends(lines) && WholeData(lines) && NoHiddenMark(lines) && !Harmless(lines, false)
    ensures Kept(Events(AllParts(lines), [])) != Kept(Events(lines, []))
  {
    var parts := AllParts(lines);
    PartsOfEmptyEnd(lines);
    EventsHoldData(lines, []);
    EventsHoldData(parts, []);
    assert [] + Data(lines) == Data(lines) && [] + Data(parts) == Data(parts);
    KeptCounts(Events(lines, []));
    KeptCounts(Events(parts, []));
    MarksAreShown(lines);
    HiddenDataDiffers(lines);
    if NoneHidden(lines) {
      HiddenClosingDiffers(lines, false);
      ClosingsOfEvents(lines, []);
      ClosingsOfEvents(parts, []);
    }
  }

  lemma {:induction false} EventsAreProper(lines: seq<string>, open: seq<string>)
    requires NoNewlines(lines) && NoNewlines(open)
    ensures forall event | event in Events(lines, open) :: Proper(event)
    decreases |lines|
  {
    if lines != [] {
      assert lines[0] in lines;
      EventsAreProper(lines[1..],
                      if lines[0] == "" then []
                      else match DataOf(lines[0]) case Some(value) => open + [value] case None => open);
    }
  }

  lemma {:induction false} EndedLinesHaveNoNewline(text: string)
    ensures NoNewlines(EndedLines(text))
    decreases |text|
  {
    match Newline(text)
    case None =>
    case Some(i) => EndedLinesHaveNoNewline(text[i + 1..]);
  }

  lemma {:induction false} PartsHaveNoNewline(line: string)
    ensures NoNewlines(Parts(line))
    decreases |line|
  {
    LineEndAt(line);
    match LineEnd(line)
    case None =>
    case Some((stop, _)) => PartsHaveNoNewline(line[stop + 1..]);
  }

  lemma {:induction false} AllPartsHaveNoNewline(lines: seq<string>)
    ensures NoNewlines(AllParts(lines))
    decreases |lines|
  {
    if lines != [] {
      PartsHaveNoNewline(lines[0]);
      AllPartsHaveNoNewline(lines[1..]);
    }
  }

  lemma NothingOpen(text: string)
    requires Tail(text) == "" && Ends(EndedLines(text))
    ensures Open(text) == []
  {
    var lines := EndedLines(text);
    if lines != [] {
      LastAside(lines);
      BlocksExtended(lines[..|lines| - 1], "");
    }
    assert Open(text) == Blocks(lines)[|Blocks(lines)| - 1] + [];
  }

  /** A text whose last line is empty leaves no event open. */
  lemma ClosedText(text: string)
    requires Tail(text) == "" && Ends(EndedLines(text))
    ensures Delivered(text) == Spelled(Events(EndedLines(text), []))
  {
    var lines := EndedLines(text);
    DeliveredInTwo(text);
    EventsOfBlocks(lines);
    NothingOpen(text);
    assert Spelled(Events(lines, [])) + [] == Spelled(Events(lines, []));
  }

  /**
   * For a text that ends with an empty line and has no bare data line: where its carriage returns are
   * harmless the payloads read are the standard's; and only there, unless a line that is not data hides
   * the closing mark.
   */
  lemma StandardUpToReturns(text: string)
    requires Tail(text) == "" && Ends(EndedLines(text))
    requires forall block | block in Closed(StandardLines(text)) :: "data" !in block
    ensures Harmless(EndedLines(text), false) ==> Delivered(text) == Standard(text)
    ensures NoMark(Events(EndedLines(text), [])) && NoMark(Events(StandardLines(text), [])) ==>
              (Delivered(text) == Standard(text) <==> Harmless(EndedLines(text), false))
    ensures NoHiddenMark(EndedLines(text)) ==>
              (Delivered(text) == Standard(text) <==> Harmless(EndedLines(text), false))
  {
    var lines, standard := EndedLines(text), StandardLines(text);
    StandardIsParts(text);
    EndedLinesHaveNoNewline(text);
    AllPartsHaveNoNewline(lines);
    SameEventsExactly(lines);
    ClosedText(text);
    SameFields(Closed(standard));
    EventsOfBlocks(standard);
    EventsAreProper(lines, []);
    EventsAreProper(standard, []);
    if NoMark(Events(lines, [])) && NoMark(Events(standard, [])) && Delivered(text) == Standard(text) {
      SpelledIsInjective(Events(lines, []), Events(standard, []));
    }
    if NoHiddenMark(lines) && !Harmless(lines, false) { HarmShows(text); }
  }

  lemma HarmShows(text: string)
    requires Tail(text) == "" && Ends(EndedLines(text)) && NoHiddenMark(EndedLines(text))
    requires forall block | block in Closed(StandardLines(text)) :: "data" !in block
    requires !Harmless(EndedLines(text), false)
    ensures Delivered(text) != Standard(text)
  {
    var lines, standard := EndedLines(text), StandardLines(text);
    EndedLinesHaveNoNewline(text);
    if WholeData(lines) {
      StandardIsParts(text);
      AllPartsHaveNoNewline(lines);
      ClosedText(text);
      SameFields(Closed(standard));
      EventsOfBlocks(standard);
      EventsAreProper(lines, []);
      EventsAreProper(standard, []);
      KeptEventsDiffer(lines);
      SpelledApart(Events(lines, []), Events(standard, []));
    } else {
      var line :| line in lines && DataOf(line).Some? && '\r' in line;
      ReturnIsInValue(line);
      ReturnInDataIsNotStandard(text, line, DataOf(line).value);
    }
  }

  lemma SpelledApart(a: seq<seq<string>>, b: seq<seq<string>>)
    requires (forall event | event in a :: Proper(event)) && forall event | event in b :: Proper(event)
    requires Kept(a) != Kept(b)
    ensures Spelled(a) != Spelled(b)
  {
    SpelledIsKept(a);
    SpelledIsKept(b);
    if Spelled(a) == Spelled(b) { SpelledIsInjective(Kept(a), Kept(b)); }
  }

  lemma ReturnIsInValue(line: string)
    requires DataOf(line).Some? && '\r' in line
    ensures '\r' in DataOf(line).value
  {
    var k :| 0 <= k < |line| && line[k] == '\r';
    assert line == "data:" + line[5..] && k >= 5;
  }

  /** A hidden closing mark is read by the standard alone, which drops it: no harm is seen. */
  lemma HiddenMarkIsDropped(name: string, mark: string)
    requires name != "" && '\n' !in name && '\r' !in name && DataOf(name + "\r" + mark).None? && DataOf(name).None?
    requires '\n' !in mark && '\r' !in mark && DataOf(mark) == Some("[DONE]")
    ensures
      var lines := [name + "\r" + mark] + [""];
      && !Harmless(lines, false) && Events(lines, []) == []
      && Events(AllParts(lines), []) == [MARK] && Spelled([MARK]) == []
  {
    var hidden := name + "\r" + mark;
    var lines := [hidden] + [""];
    HiddenPart(name, mark);
    HiddenEvent(name, mark, "[DONE]");
    TwoLines(hidden);
    MarkIsProper();
    assert [MARK][..0] == [];
    assert ([name] + [mark])[1] == mark;
    assert !Quiet(Parts(hidden), false);
  }

  lemma TwoLines(line: string)
    requires line != "" && DataOf(line).None?
    ensures AllParts([line] + [""]) == Parts(line) + [""]
    ensures Events([line] + [""], []) == []
    ensures ([line] + [""])[0] == line
  {
    var lines, last := [line] + [""], [""];
    assert lines[1..] == last && last[1..] == [];
    WholeLine("");
    assert AllParts(last) == [""] + AllParts([]) == [""];
    assert Events(lines, []) == Events(last, []) == Events([], []);
  }

  lemma HiddenPart(name: string, mark: string)
    requires '\n' !in name && '\r' !in name && '\n' !in mark && '\r' !in mark
    ensures Parts(name + "\r" + mark) == [name] + [mark]
  {
    var hidden := name + "\r" + mark;
    ReturnAfter(name, mark);
    assert hidden[..|name|] == name && hidden[|name| + 1..] == mark;
    WholeLine(mark);
  }

  lemma HiddenEvent(name: string, mark: string, value: string)
    requires name != "" && DataOf(name).None? && DataOf(mark) == Some(value)
    ensures Events([name] + [mark] + [""], []) == [[value]]
  {
    var three, two, one, open := [name] + [mark] + [""], [mark] + [""], [""], [value];
    assert three[0] == name && three[1..] == two && two[0] == mark && two[1..] == one && one[1..] == [];
    assert [] + [value] == open;
    assert Events(one, open) == [open] + Events([], []) == [open];
    assert Events(two, []) == Events(one, open);
    assert Events(three, []) == Events(two, []);
  }
}
