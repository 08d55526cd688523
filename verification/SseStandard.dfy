/** Where the reader of server-sent events agrees with the standard, and where it does not. */
module SseStandard {
  import opened Wrappers
  import opened SseReader

  // ----- The standard -----------------------------------------------------------------------

  /** Where the first line stops and the next one starts: at CR LF, at LF, or at CR. */
  function LineEnd(text: string): (r: Option<(nat, nat)>)
    ensures r.Some? ==> r.value.0 < r.value.1 <= |text|
  {
    if text == "" then None
    else if text[0] == '\n' then Some((0, 1))
    else if text[0] == '\r' then Some((0, if |text| > 1 && text[1] == '\n' then 2 else 1))
    else
      match LineEnd(text[1..])
      case None => None
      case Some(r) => Some((r.0 + 1, r.1 + 1))
  }

  /** The lines of an event stream as section 9.2.6 of the WHATWG HTML standard splits them. */
  function StandardLines(text: string): seq<string>
    decreases |text|
  {
    match LineEnd(text)
    case None => []
    case Some((stop, next)) => [text[..stop]] + StandardLines(text[next..])
  }

  /** The standard takes a line that is only the field's name for a field with an empty value. */
  function DataField(line: string): Option<string> {
    if line == "data" then Some("") else DataOf(line)
  }

  /** Where the first colon is. */
  function Colon(line: string): (at: Option<nat>)
    ensures match at
            case None => ':' !in line
            case Some(i) => i < |line| && line[i] == ':' && ':' !in line[..i]
  {
    if line == "" then None
    else if line[0] == ':' then Some(0)
    else
      match Colon(line[1..])
      case None => assert line == [line[0]] + line[1..]; None
      case Some(i) => assert line[..i + 1] == [line[0]] + line[1..][..i]; Some(i + 1)
  }

  /** Section 9.2.6: the name before the first colon, and the value after it without one leading space. */
  function FieldOf(line: string): (string, string) {
    match Colon(line)
    case None => (line, "")
    case Some(i) =>
      var value := line[i + 1..];
      (line[..i], if value != "" && value[0] == ' ' then value[1..] else value)
  }

  /** A line is data exactly if its field is named so, and then with its value. */
  lemma DataFieldIsStandard(line: string)
    ensures DataField(line) == if FieldOf(line).0 == "data" then Some(FieldOf(line).1) else None
  {
    if "data:" <= line {
      assert line == "data" + ":" + line[5..];
      ColonAfter("data", line[5..]);
    }
    match Colon(line)
    case None =>
    case Some(i) =>
      assert line == line[..i] + ":" + line[i + 1..];
      assert line[i] in line && ':' !in "data";
  }

  lemma {:induction false} ColonAfter(name: string, rest: string)
    requires ':' !in name
    ensures Colon(name + ":" + rest) == Some(|name|)
    decreases |name|
  {
    if name != "" {
      assert (name + ":" + rest)[1..] == name[1..] + ":" + rest;
      ColonAfter(name[1..], rest);
    }
  }

  /** Section 9.2.6: each value is appended to the buffer with a newline, and the last newline is removed. */
  function Buffer(values: seq<string>): string {
    if values == [] then "" else Buffer(values[..|values| - 1]) + values[|values| - 1] + "\n"
  }

  lemma {:induction false} JoinIsBuffer(values: seq<string>)
    requires values != []
    ensures Buffer(values) == Join(values) + "\n"
    decreases |values|
  {
    var n := |values| - 1;
    if n == 0 {
      assert values[..0] == [];
      assert "" + values[0] == values[0];
    } else {
      JoinIsBuffer(values[..n]);
    }
  }

  /** All blocks that an empty line closes. */
  function Closed(lines: seq<string>): seq<seq<string>> {
    Blocks(lines)[..|Blocks(lines)| - 1]
  }

  /** The data of the events section 9.2.6 dispatches, without the closing mark. */
  function Standard(text: string): seq<string> {
    Payloads(DataField, Closed(StandardLines(text)))
  }

  /** Every carriage return stands before a newline. */
  predicate NoLoneReturn(text: string) {
    forall i | 0 <= i < |text| && text[i] == '\r' :: i + 1 < |text| && text[i + 1] == '\n'
  }

  /** What is open at the end: the lines after the last empty one. */
  function Open(text: string): seq<string> {
    var blocks := Blocks(EndedLines(text));
    blocks[|blocks| - 1] + if Trimmed(Tail(text)) == "" then [] else [Trimmed(Tail(text))]
  }

  lemma {:induction false} FirstLineEnd(text: string, i: nat)
    requires Newline(text) == Some(i)
    requires forall k | 0 <= k < i && text[k] == '\r' :: k == i - 1
    ensures LineEnd(text) == Some((|Trimmed(text[..i])|, i + 1)) && text[..|Trimmed(text[..i])|] == Trimmed(text[..i])
    decreases |text|
  {
    if i > 0 {
      assert text[..i] == [text[0]] + text[1..][..i - 1];
      if text[0] != '\r' { FirstLineEnd(text[1..], i - 1); }
    }
  }

  lemma {:induction false} NoLineEnd(text: string)
    requires '\n' !in text && '\r' !in text
    ensures LineEnd(text) == None
    decreases |text|
  {
    if text != "" { NoLineEnd(text[1..]); }
  }

  /** Without lone carriage returns both split a text into the same lines. */
  lemma {:induction false} SameLines(text: string)
    requires NoLoneReturn(text)
    ensures StandardLines(text) == EndedLines(text)
    decreases |text|
  {
    match Newline(text)
    case None =>
      forall k | 0 <= k < |text| ensures text[k] != '\r' { assert k + 1 < |text| ==> text[k + 1] in text; }
      NoLineEnd(text);
    case Some(i) =>
      forall k | 0 <= k < i - 1 ensures text[k] != '\r' { assert text[..i][k + 1] == text[k + 1]; }
      FirstLineEnd(text, i);
      assert NoLoneReturn(text[i + 1..]);
      SameLines(text[i + 1..]);
  }

  /** The payloads read are those of the closed blocks and that of the open end. */
  lemma DeliveredInTwo(text: string)
    ensures Delivered(text) == Payloads(DataOf, Closed(EndedLines(text))) + PayloadOf(DataOf, Open(text))
  {
    var lines, tail := EndedLines(text), Trimmed(Tail(text));
    var before, all := Blocks(lines), Blocks(Lines(text));
    assert Lines(text)[..|lines|] == lines;
    var last := |before| - 1;
    if tail == "" {
      assert all == before + [[]] && all[..last + 1] == before && before[last] + [] == before[last];
      assert Payloads(DataOf, all) == Payloads(DataOf, before) + [];
    } else {
      assert all[..last] == before[..last] && all[last] == before[last] + [tail];
    }
  }

  /**
   * Without lone carriage returns and bare `data` lines, the payloads read are the standard's if and
   * only if the text does not end within an event that carries data.
   */
  lemma StandardUpToOpenEnd(text: string)
    requires NoLoneReturn(text) && forall block | block in Closed(EndedLines(text)) :: "data" !in block
    ensures Delivered(text) == Standard(text) <==> PayloadOf(DataOf, Open(text)) == []
  {
    SameLines(text);
    DeliveredInTwo(text);
    SameFields(Closed(EndedLines(text)));
  }

  /**
   * Without lone carriage returns and an open event at the end, the payloads read are the standard's
   * if and only if no event has a line that is `data` without a colon.
   */
  lemma StandardUpToBareData(text: string)
    requires NoLoneReturn(text) && PayloadOf(DataOf, Open(text)) == []
    ensures Delivered(text) == Standard(text) <==> forall block | block in Closed(EndedLines(text)) :: "data" !in block
  {
    SameLines(text);
    DeliveredInTwo(text);
    var blocks := Closed(EndedLines(text));
    assert Payloads(DataOf, blocks) + [] == Payloads(DataOf, blocks);
    if forall block | block in blocks :: "data" !in block { SameFields(blocks); } else { BareDataWeighs(blocks); }
  }

  lemma {:induction false} SameValues(block: seq<string>)
    requires "data" !in block
    ensures Values(DataField, block) == Values(DataOf, block)
    decreases |block|
  {
    if block != [] { SameValues(block[..|block| - 1]); }
  }

  lemma {:induction false} SameFields(blocks: seq<seq<string>>)
    requires forall block | block in blocks :: "data" !in block
    ensures Payloads(DataField, blocks) == Payloads(DataOf, blocks)
    decreases |blocks|
  {
    if blocks != [] {
      SameFields(blocks[..|blocks| - 1]);
      SameValues(blocks[|blocks| - 1]);
    }
  }

  // ----- Lone carriage returns --------------------------------------------------------------

  lemma {:induction false} LineHasNoReturn(text: string, stop: nat, next: nat)
    requires LineEnd(text) == Some((stop, next))
    ensures '\r' !in text[..stop]
    decreases |text|
  {
    if stop > 0 {
      LineHasNoReturn(text[1..], stop - 1, next - 1);
      assert text[..stop] == [text[0]] + text[1..][..stop - 1];
    }
  }

  lemma {:induction false} StandardLinesHaveNoReturn(text: string)
    ensures forall line | line in StandardLines(text) :: '\r' !in line
    decreases |text|
  {
    match LineEnd(text)
    case None =>
    case Some((stop, next)) =>
      LineHasNoReturn(text, stop, next);
      StandardLinesHaveNoReturn(text[next..]);
  }

  ghost predicate FreeOf(c: char, block: seq<string>) {
    forall line | line in block :: c !in line
  }

  lemma {:induction false} BlocksOfLines(lines: seq<string>, c: char)
    requires FreeOf(c, lines)
    ensures forall block | block in Blocks(lines) :: FreeOf(c, block)
    decreases |lines|
  {
    if lines != [] {
      var n := |lines| - 1;
      assert lines[n] in lines && forall line | line in lines[..n] :: line in lines;
      BlocksOfLines(lines[..n], c);
      var before := Blocks(lines[..n]);
      assert FreeOf(c, before[|before| - 1]) && FreeOf(c, []) && FreeOf(c, before[|before| - 1] + [lines[n]]);
    }
  }

  lemma {:induction false} JoinHas(values: seq<string>, c: char)
    requires c != '\n'
    ensures c in Join(values) <==> exists value :: value in values && c in value
    decreases |values|
  {
    if |values| == 1 {
      assert values == [values[0]];
    } else if values != [] {
      var n := |values| - 1;
      JoinHas(values[..n], c);
      assert values == values[..n] + [values[n]];
    }
  }

  lemma {:induction false} ValuesHave(field: Field, block: seq<string>, value: string)
    ensures value in Values(field, block) <==> exists line :: line in block && field(line) == Some(value)
    decreases |block|
  {
    if block != [] {
      var n := |block| - 1;
      ValuesHave(field, block[..n], value);
      assert block == block[..n] + [block[n]];
    }
  }

  lemma {:induction false} PayloadsHave(field: Field, blocks: seq<seq<string>>, payload: string)
    ensures payload in Payloads(field, blocks) <==>
            exists block :: block in blocks && payload in PayloadOf(field, block)
    decreases |blocks|
  {
    if blocks != [] {
      var n := |blocks| - 1;
      PayloadsHave(field, blocks[..n], payload);
      assert blocks == blocks[..n] + [blocks[n]];
    }
  }

  /** No payload of the standard holds a carriage return: it would have ended the line. */
  lemma StandardHasNoReturn(text: string, payload: string)
    requires payload in Standard(text)
    ensures '\r' !in payload
  {
    var blocks := Closed(StandardLines(text));
    PayloadsHave(DataField, blocks, payload);
    var block :| block in blocks && payload in PayloadOf(DataField, block);
    StandardLinesHaveNoReturn(text);
    BlocksOfLines(StandardLines(text), '\r');
    PayloadHasNoReturn(block);
  }

  lemma PayloadHasNoReturn(block: seq<string>)
    requires FreeOf('\r', block)
    ensures forall payload | payload in PayloadOf(DataField, block) :: '\r' !in payload
  {
    JoinHas(Values(DataField, block), '\r');
    forall value | value in Values(DataField, block) ensures '\r' !in value {
      ValuesHave(DataField, block, value);
      var line :| line in block && DataField(line) == Some(value);
      assert '\r' !in line;
    }
  }

  lemma {:induction false} BlocksHave(lines: seq<string>, line: string)
    requires line in lines && line != ""
    ensures exists block :: block in Blocks(lines) && line in block
    decreases |lines|
  {
    var n := |lines| - 1;
    var before := Blocks(lines[..n]);
    assert lines == lines[..n] + [lines[n]];
    if line == lines[n] {
      assert line in Blocks(lines)[|before| - 1];
    } else {
      BlocksHave(lines[..n], line);
      var block :| block in before && line in block;
      var i :| 0 <= i < |before| && before[i] == block;
      assert line in Blocks(lines)[i];
    }
  }

  /** With a carriage return inside a data line the payloads read are never the standard's. */
  lemma ReturnInDataIsNotStandard(text: string, line: string, value: string)
    requires line in Lines(text) && DataOf(line) == Some(value) && '\r' in value
    ensures Delivered(text) != Standard(text)
  {
    BlocksHave(Lines(text), line);
    var block :| block in Blocks(Lines(text)) && line in block;
    ValuesHave(DataOf, block, value);
    var payload := Join(Values(DataOf, block));
    JoinHas(Values(DataOf, block), '\r');
    assert payload != "[DONE]";
    assert payload in PayloadOf(DataOf, block);
    PayloadsHave(DataOf, Blocks(Lines(text)), payload);
    if payload in Standard(text) { StandardHasNoReturn(text, payload); }
  }

  // ----- Texts read differently -------------------------------------------------------------

  lemma {:induction false} NewlineAfter(line: string, rest: string)
    requires '\n' !in line
    ensures Newline(line + "\n" + rest) == Some(|line|)
    decreases |line|
  {
    if line != "" {
      assert (line + "\n" + rest)[1..] == line[1..] + "\n" + rest;
      NewlineAfter(line[1..], rest);
    }
  }

  lemma FirstLine(line: string, rest: string)
    requires '\n' !in line
    ensures EndedLines(line + "\n" + rest) == [Trimmed(line)] + EndedLines(rest)
    ensures Tail(line + "\n" + rest) == Tail(rest)
  {
    NewlineAfter(line, rest);
    var text := line + "\n" + rest;
    assert text[..|line|] == line && text[|line| + 1..] == rest;
  }

  lemma {:induction false} ReturnAfter(line: string, rest: string)
    requires '\n' !in line && '\r' !in line && (rest == "" || rest[0] != '\n')
    ensures LineEnd(line + "\r" + rest) == Some((|line|, |line| + 1))
    decreases |line|
  {
    if line != "" {
      assert (line + "\r" + rest)[1..] == line[1..] + "\r" + rest;
      ReturnAfter(line[1..], rest);
    }
  }

  lemma FirstStandardLine(line: string, rest: string)
    requires '\n' !in line && '\r' !in line && (rest == "" || rest[0] != '\n')
    ensures StandardLines(line + "\r" + rest) == [line] + StandardLines(rest)
  {
    ReturnAfter(line, rest);
    var text := line + "\r" + rest;
    assert text[..|line|] == line && text[|line| + 1..] == rest;
  }

  lemma OneBlock(line: string)
    requires line != ""
    ensures Closed([line] + [""]) == [[line]] && Closed([]) == []
    ensures Blocks([line] + [""]) == [[line], []] && Blocks([]) == [[]]
  {
    var lines := [line] + [""];
    assert lines[..1] == [line] && [line][..0] == [];
    var none: seq<string> := [];
    assert Blocks(none) == [none] && Blocks(none)[..0] == [] && none + [line] == [line];
    assert Blocks([line]) == [] + [none + [line]];
  }

  lemma UnendedIsOpen(text: string)
    requires '\n' !in text && Trimmed(text) != ""
    ensures EndedLines(text) == [] && Tail(text) == text && Open(text) == [Trimmed(text)]
    ensures Delivered(text) == PayloadOf(DataOf, [Trimmed(text)])
  {
    Unended(text);
    DeliveredInTwo(text);
  }

  lemma Unended(text: string)
    requires '\n' !in text && Trimmed(text) != ""
    ensures EndedLines(text) == [] && Tail(text) == text && Open(text) == [Trimmed(text)]
    ensures Closed(EndedLines(text)) == []
  {
    var none: seq<string> := [];
    assert Blocks(none) == [none] && none + [Trimmed(text)] == [Trimmed(text)];
  }

  lemma OnePayload(field: Field, line: string, value: string)
    requires field(line) == Some(value) && value != "[DONE]"
    ensures PayloadOf(field, [line]) == [value] && Payloads(field, [[line]]) == [value]
  {
    assert [line][..0] == [] && [[line]][..0] == [];
    assert Values(field, [line]) == [value];
  }

  lemma NoPayload(field: Field, line: string)
    requires field(line) == None
    ensures PayloadOf(field, [line]) == [] && Payloads(field, [[line]]) == []
  {
    assert [line][..0] == [] && [[line]][..0] == [];
    assert Values(field, [line]) == [];
  }

  /** A value that needs no trimming and is not the closing mark. */
  predicate Plain(value: string) {
    '\n' !in value && '\r' !in value && value != "[DONE]" && (value != "" ==> value[0] != ' ')
  }

  lemma DataLine(value: string)
    requires value != "" ==> value[0] != ' '
    ensures DataOf("data:" + value) == Some(value) == DataField("data:" + value)
    ensures forall c | c !in "data:" :: c in "data:" + value <==> c in value
  {
    assert ("data:" + value)[..5] == "data:" && ("data:" + value)[5..] == value;
  }

  /** An event that nothing closes is delivered; the standard drops it. */
  lemma OpenEventIsDelivered(value: string)
    requires Plain(value)
    ensures Delivered("data:" + value) == [value] && Standard("data:" + value) == []
  {
    DataLine(value);
    OpenLineIsDelivered("data:" + value, value);
  }

  lemma OpenLineIsDelivered(line: string, value: string)
    requires '\n' !in line && '\r' !in line && line != "" && DataOf(line) == Some(value) && value != "[DONE]"
    ensures Delivered(line) == [value] && Standard(line) == []
  {
    assert Trimmed(line) == line by { assert line[|line| - 1] in line; }
    UnendedIsOpen(line);
    SameLines(line);
    OnePayload(DataOf, line, value);
    OneBlock(line);
  }

  /** A carriage return alone ends a line of the standard; here it stays in the value. */
  lemma LoneReturnStaysInData(value: string)
    requires Plain(value)
    ensures Delivered("data:" + value + "\r" + "\r") == [value + "\r"]
    ensures Standard("data:" + value + "\r" + "\r") == [value]
  {
    DataLine(value);
    ReturnsEndLines("data:" + value, value);
    assert "data:" + value + "\r" == "data:" + (value + "\r") && (value + "\r")[|value|] == '\r';
    DataLine(value + "\r");
    ReturnsInValue("data:" + value + "\r", value + "\r");
  }

  lemma ReturnsEndLines(line: string, value: string)
    requires DataField(line) == Some(value) && value != "[DONE]" && line != "" && '\n' !in line && '\r' !in line
    ensures Standard(line + "\r" + "\r") == [value]
  {
    OneBlock(line);
    FirstStandardLine(line, "\r");
    FirstStandardLine("", "");
    assert "" + "\r" + "" == "\r" && StandardLines("") == [] && [""] + [] == [""];
    OnePayload(DataField, line, value);
  }

  lemma ReturnsInValue(line: string, value: string)
    requires '\n' !in line && DataOf(line) == Some(value) && value != "[DONE]"
    ensures Delivered(line + "\r") == [value]
  {
    assert Trimmed(line + "\r") == line;
    UnendedIsOpen(line + "\r");
    OnePayload(DataOf, line, value);
  }

  /** The event of one bare data line, and what follows it. */
  function BareEvent(rest: string): string {
    "data" + "\n" + ("" + "\n" + rest)
  }

  lemma BareEventLines(rest: string)
    requires '\n' !in rest && '\r' !in rest
    ensures EndedLines(BareEvent(rest)) == ["data"] + [""] && Tail(BareEvent(rest)) == rest
    ensures NoLoneReturn(BareEvent(rest))
  {
    FirstLine("data", "" + "\n" + rest);
    FirstLine("", rest);
    assert [""] + [] == [""];
    assert '\r' !in BareEvent(rest);
  }

  /** A field without a colon has an empty value in the standard; here it is no field. */
  lemma BareDataIsIgnored(rest: string)
    requires '\n' !in rest && '\r' !in rest
    ensures Standard(BareEvent(rest)) == [""]
    ensures Delivered(BareEvent(rest)) == if rest == "" then [] else PayloadOf(DataOf, [rest])
  {
    var text := BareEvent(rest);
    BareEventLines(rest);
    OneBlock("data");
    SameLines(text);
    DeliveredInTwo(text);
    NoPayload(DataOf, "data");
    OnePayload(DataField, "data", "");
    assert Open(text) == if rest == "" then [] else [rest];
  }

  /** So an open event after a bare data line can make up for it. */
  lemma FaultsCancel()
    ensures Delivered(BareEvent("data:")) == Standard(BareEvent("data:"))
  {
    assert "data:" + "" == "data:";
    DataLine("");
    BareDataIsIgnored("data:");
    OnePayload(DataOf, "data:", "");
  }

  // ----- Bare data lines --------------------------------------------------------------------

  function Weight(payloads: seq<string>): nat {
    if payloads == [] then 0 else Weight(payloads[..|payloads| - 1]) + |payloads[|payloads| - 1]| + 1
  }

  lemma {:induction false} WeightOfSum(a: seq<string>, b: seq<string>)
    ensures Weight(a + b) == Weight(a) + Weight(b)
    decreases |b|
  {
    if b == [] {
      assert a + b == a;
    } else {
      var n := |b| - 1;
      assert (a + b)[..|a| + n] == a + b[..n];
      WeightOfSum(a, b[..n]);
    }
  }

  lemma {:induction false} WeightOfJoin(values: seq<string>)
    requires values != []
    ensures |Join(values)| + 1 == Weight(values)
    ensures |values| > 1 ==> '\n' in Join(values)
    decreases |values|
  {
    var n := |values| - 1;
    if n == 0 {
      assert values[..0] == [];
    } else {
      WeightOfJoin(values[..n]);
      assert Join(values)[|Join(values[..n])|] == '\n';
    }
  }

  /** A bare data line adds a value, and all other lines add the same. */
  lemma {:induction false} ValuesWeigh(block: seq<string>)
    ensures Weight(Values(DataField, block)) >= Weight(Values(DataOf, block))
    ensures |Values(DataField, block)| >= |Values(DataOf, block)|
    ensures "data" in block ==> Weight(Values(DataField, block)) > Weight(Values(DataOf, block))
    ensures "data" in block ==> "" in Values(DataField, block)
    decreases |block|
  {
    if block != [] {
      var n := |block| - 1;
      ValuesWeigh(block[..n]);
      assert block == block[..n] + [block[n]];
      ValuesStep(DataOf, block);
      ValuesStep(DataField, block);
    }
  }

  lemma ValuesStep(field: Field, block: seq<string>)
    requires block != []
    ensures
      var n := |block| - 1;
      Weight(Values(field, block)) ==
        Weight(Values(field, block[..n])) + match field(block[n]) case Some(value) => |value| + 1 case None => 0
  {
    var n := |block| - 1;
    var before := Values(field, block[..n]);
    match field(block[n])
    case None =>
      assert before + [] == before;
    case Some(value) =>
      assert (before + [value])[..|before|] == before;
  }

  lemma PayloadWeight(field: Field, block: seq<string>)
    ensures Weight(PayloadOf(field, block)) ==
            if PayloadOf(field, block) == [] then 0 else Weight(Values(field, block))
  {
    var data := Values(field, block);
    if data != [] {
      WeightOfJoin(data);
      OneWeight(Join(data));
    }
  }

  /** With a bare data line among its values a block's payload is not the closing mark. */
  lemma BareIsNoMark(block: seq<string>)
    requires "data" in block
    ensures PayloadOf(DataField, block) != []
  {
    ValuesWeigh(block);
    EmptyValueIsNoMark(Values(DataField, block));
  }

  lemma EmptyValueIsNoMark(data: seq<string>)
    requires "" in data
    ensures Join(data) != "[DONE]"
  {
    WeightOfJoin(data);
    if |data| == 1 { assert data == [""]; }
    NoNewlineInMark(Join(data));
  }

  lemma NoNewlineInMark(text: string)
    ensures text == "[DONE]" ==> '\n' !in text && text != ""
  {
  }

  /** The standard's payload of a block is never the lighter one, and heavier with a bare data line. */
  lemma PayloadsWeigh(block: seq<string>)
    ensures Weight(PayloadOf(DataField, block)) >= Weight(PayloadOf(DataOf, block))
    ensures "data" in block ==> Weight(PayloadOf(DataField, block)) > Weight(PayloadOf(DataOf, block))
  {
    if "data" in block {
      ValuesWeigh(block);
      BareIsNoMark(block);
      PayloadWeight(DataField, block);
      PayloadWeight(DataOf, block);
    } else {
      SameValues(block);
    }
  }

  lemma OneWeight(payload: string)
    ensures Weight([payload]) == |payload| + 1
  {
    assert [payload][..0] == [];
  }

  lemma {:induction false} BareDataWeighs(blocks: seq<seq<string>>)
    ensures Weight(Payloads(DataField, blocks)) >= Weight(Payloads(DataOf, blocks))
    ensures HasBareData(blocks) ==> Weight(Payloads(DataField, blocks)) > Weight(Payloads(DataOf, blocks))
    decreases |blocks|
  {
    if blocks != [] {
      var n := |blocks| - 1;
      BareDataWeighs(blocks[..n]);
      PayloadsWeigh(blocks[n]);
      WeightOfBlocks(DataField, blocks);
      WeightOfBlocks(DataOf, blocks);
      BareDataSomewhere(blocks);
    }
  }

  predicate HasBareData(blocks: seq<seq<string>>) {
    exists block :: block in blocks && "data" in block
  }

  lemma BareDataSomewhere(blocks: seq<seq<string>>)
    requires blocks != []
    ensures HasBareData(blocks) <==> HasBareData(blocks[..|blocks| - 1]) || "data" in blocks[|blocks| - 1]
  {
    assert blocks == blocks[..|blocks| - 1] + [blocks[|blocks| - 1]];
  }

  lemma WeightOfBlocks(field: Field, blocks: seq<seq<string>>)
    requires blocks != []
    ensures
      var n := |blocks| - 1;
      Weight(Payloads(field, blocks)) == Weight(Payloads(field, blocks[..n])) + Weight(PayloadOf(field, blocks[n]))
  {
    var n := |blocks| - 1;
    WeightOfSum(Payloads(field, blocks[..n]), PayloadOf(field, blocks[n]));
  }
}
