/** The incremental reader of a server-sent event stream: chunk borders do not matter. */
module SseReader {
  import opened Wrappers

  // ----- Text -------------------------------------------------------------------------------

  /** The first newline. */
  function Newline(text: string): (at: Option<nat>)
    ensures match at
            case None => '\n' !in text
            case Some(i) => i < |text| && text[i] == '\n' && '\n' !in text[..i]
  {
    if text == "" then None
    else if text[0] == '\n' then Some(0)
    else
      match Newline(text[1..])
      case None => assert text == [text[0]] + text[1..]; None
      case Some(i) => assert text[..i + 1] == [text[0]] + text[1..][..i]; Some(i + 1)
  }

  /** Without one trailing carriage return. */
  function Trimmed(line: string): string {
    if line != "" && line[|line| - 1] == '\r' then line[..|line| - 1] else line
  }

  /** The value of a data line, without one leading space. */
  function DataOf(line: string): Option<string> {
    if "data:" <= line then
      var value := line[5..];
      Some(if value != "" && value[0] == ' ' then value[1..] else value)
    else None
  }

  function Join(lines: seq<string>): string {
    if lines == [] then ""
    else if |lines| == 1 then lines[0]
    else Join(lines[..|lines| - 1]) + "\n" + lines[|lines| - 1]
  }

  // ----- The reader -------------------------------------------------------------------------

  /** The data lines of the open event, and what the payloads so far have added up to. */
  datatype Progress<A> = Progress(dataLines: seq<string>, acc: A)

  /** Progress, and the text not used yet. */
  datatype State<A> = State(pending: string, progress: Progress<A>)

  /** What one payload adds. A payload that does not parse adds nothing. */
  type Apply<!A> = (A, string) -> A

  function Flushed<A>(apply: Apply<A>, p: Progress<A>): Progress<A> {
    if p.dataLines == [] then p
    else
      var data := Join(p.dataLines);
      Progress([], if data == "[DONE]" then p.acc else apply(p.acc, data))
  }

  function Line<A>(apply: Apply<A>, p: Progress<A>, line: string): Progress<A> {
    if line == "" then Flushed(apply, p)
    else
      match DataOf(line)
      case Some(value) => Progress(p.dataLines + [value], p.acc)
      case None => p
  }

  /** Uses up every complete line. */
  function Consume<A>(apply: Apply<A>, text: string, p: Progress<A>): State<A>
    decreases |text|
  {
    match Newline(text)
    case None => State(text, p)
    case Some(i) => Consume(apply, text[i + 1..], Line(apply, p, Trimmed(text[..i])))
  }

  /** The last line need not end, and the last event need not be closed. */
  function Ended<A>(apply: Apply<A>, r: State<A>): Progress<A> {
    Flushed(apply, if r.pending != "" then Line(apply, r.progress, Trimmed(r.pending)) else r.progress)
  }

  class Reader<A> {
    const apply: Apply<A>
    var pending: string
    var dataLines: seq<string>
    var acc: A

    constructor (apply: Apply<A>, acc: A)
      ensures this.apply == apply && View() == State("", Progress([], acc))
    {
      this.apply, pending, dataLines, this.acc := apply, "", [], acc;
    }

    ghost function Now(): Progress<A>
      reads this
    {
      Progress(dataLines, acc)
    }

    ghost function View(): State<A>
      reads this
    {
      State(pending, Now())
    }

    method FlushEvent()
      modifies `dataLines, `acc
      ensures Now() == Flushed(apply, old(Now()))
    {
      if |dataLines| == 0 { return; }
      var data := Join(dataLines);
      dataLines := [];
      if data == "[DONE]" { return; }
      acc := apply(acc, data);
    }

    method ReadLine(text: string)
      modifies `dataLines, `acc
      ensures Now() == Line(apply, old(Now()), text)
    {
      if text == "" {
        FlushEvent();
      } else if "data:" <= text {
        dataLines := dataLines + [DataOf(text).value];
      }
    }

    method Write(chunk: string)
      modifies this
      ensures View() == Consume(apply, old(pending) + chunk, old(Now()))
    {
      pending := pending + chunk;
      var newline := Newline(pending);
      while newline.Some?
        invariant newline == Newline(pending)
        invariant Consume(apply, pending, Now()) == Consume(apply, old(pending) + chunk, old(Now()))
        decreases |pending|
      {
        ReadLine(Trimmed(pending[..newline.value]));
        pending := pending[newline.value + 1..];
        newline := Newline(pending);
      }
    }

    method End()
      modifies this
      ensures Now() == Ended(apply, old(View()))
    {
      if pending != "" { ReadLine(Trimmed(pending)); }
      FlushEvent();
    }

    /** A whole stream: what has been applied are the payloads of its events, however it was split. */
    method ReadAll(chunks: seq<string>)
      requires View() == State("", Progress([], acc))
      modifies this
      ensures acc == ApplyAll(apply, old(acc), Delivered(Concat(chunks))) && dataLines == []
    {
      ghost var start := acc;
      for n := 0 to |chunks|
        invariant View() == WrittenAll(apply, State("", Progress([], start)), chunks[..n])
      {
        Write(chunks[n]);
        assert chunks[..n + 1][..n] == chunks[..n];
      }
      assert chunks[..|chunks|] == chunks;
      End();
      PayloadsOfBlocks(apply, start, chunks);
    }
  }

  // ----- Chunking does not matter -----------------------------------------------------------

  function WrittenAll<A>(apply: Apply<A>, r: State<A>, chunks: seq<string>): State<A> {
    if chunks == [] then r
    else
      var before := WrittenAll(apply, r, chunks[..|chunks| - 1]);
      Consume(apply, before.pending + chunks[|chunks| - 1], before.progress)
  }

  function Concat(chunks: seq<string>): string {
    if chunks == [] then "" else Concat(chunks[..|chunks| - 1]) + chunks[|chunks| - 1]
  }

  lemma {:induction false} FirstNewlineStays(a: string, b: string)
    requires Newline(a).Some?
    ensures Newline(a + b) == Newline(a)
    decreases |a|
  {
    if a[0] != '\n' {
      assert (a + b)[1..] == a[1..] + b;
      FirstNewlineStays(a[1..], b);
    }
  }

  lemma {:induction false} ConsumeInTwo<A>(apply: Apply<A>, text: string, p: Progress<A>, more: string)
    ensures
      var r := Consume(apply, text, p);
      Consume(apply, text + more, p) == Consume(apply, r.pending + more, r.progress)
    decreases |text|
  {
    match Newline(text)
    case None =>
    case Some(i) =>
      FirstNewlineStays(text, more);
      assert (text + more)[..i] == text[..i];
      assert (text + more)[i + 1..] == text[i + 1..] + more;
      ConsumeInTwo(apply, text[i + 1..], Line(apply, p, Trimmed(text[..i])), more);
  }

  /** However the text is split, the reader ends where one write of the whole would leave it. */
  lemma {:induction false} ChunksDoNotMatter<A>(apply: Apply<A>, p: Progress<A>, chunks: seq<string>)
    ensures WrittenAll(apply, State("", p), chunks) == Consume(apply, Concat(chunks), p)
    decreases |chunks|
  {
    if chunks != [] {
      var n := |chunks| - 1;
      ChunksDoNotMatter(apply, p, chunks[..n]);
      ConsumeInTwo(apply, Concat(chunks[..n]), p, chunks[n]);
    }
  }

  // ----- The events of a text ---------------------------------------------------------------

  /** What follows the last newline. */
  function Tail(text: string): string
    decreases |text|
  {
    match Newline(text)
    case None => text
    case Some(i) => Tail(text[i + 1..])
  }

  /** The lines that end, without the carriage return before the newline. */
  function EndedLines(text: string): seq<string>
    decreases |text|
  {
    match Newline(text)
    case None => []
    case Some(i) => [Trimmed(text[..i])] + EndedLines(text[i + 1..])
  }

  /** All lines; the last one need not end. */
  function Lines(text: string): seq<string> {
    EndedLines(text) + [Trimmed(Tail(text))]
  }

  /** The lines between empty lines. */
  function Blocks(lines: seq<string>): (blocks: seq<seq<string>>)
    ensures blocks != []
  {
    if lines == [] then [[]]
    else
      var n := |lines| - 1;
      var line, before := lines[n], Blocks(lines[..n]);
      if line == "" then before + [[]]
      else before[..|before| - 1] + [before[|before| - 1] + [line]]
  }

  /** Which lines are data, and their values. */
  type Field = string -> Option<string>

  function Values(field: Field, block: seq<string>): seq<string> {
    if block == [] then []
    else
      var n := |block| - 1;
      Values(field, block[..n]) + match field(block[n]) case Some(value) => [value] case None => []
  }

  /** The payload of a block with a data line, except the closing mark. */
  function PayloadOf(field: Field, block: seq<string>): seq<string> {
    var data := Values(field, block);
    if data == [] || Join(data) == "[DONE]" then [] else [Join(data)]
  }

  function Payloads(field: Field, blocks: seq<seq<string>>): seq<string> {
    if blocks == [] then []
    else Payloads(field, blocks[..|blocks| - 1]) + PayloadOf(field, blocks[|blocks| - 1])
  }

  /** What is read out of a text: every block counts, the last one even if nothing closes it. */
  function Delivered(text: string): seq<string> {
    Payloads(DataOf, Blocks(Lines(text)))
  }

  function ApplyAll<A>(apply: Apply<A>, acc: A, payloads: seq<string>): A {
    if payloads == [] then acc
    else apply(ApplyAll(apply, acc, payloads[..|payloads| - 1]), payloads[|payloads| - 1])
  }

  function Fed<A>(apply: Apply<A>, p: Progress<A>, lines: seq<string>): Progress<A> {
    if lines == [] then p else Line(apply, Fed(apply, p, lines[..|lines| - 1]), lines[|lines| - 1])
  }

  lemma {:induction false} FedFirst<A>(apply: Apply<A>, p: Progress<A>, line: string, lines: seq<string>)
    ensures Fed(apply, p, [line] + lines) == Fed(apply, Line(apply, p, line), lines)
    decreases |lines|
  {
    if lines == [] {
      assert [line] + lines == [line] && [line][..0] == [];
    } else {
      var n := |lines| - 1;
      var all := [line] + lines;
      assert all[..n + 1] == [line] + lines[..n] && all[n + 1] == lines[n];
      FedFirst(apply, p, line, lines[..n]);
    }
  }

  /** Consuming a text feeds its ended lines and keeps the rest. */
  lemma {:induction false} ConsumeFeedsLines<A>(apply: Apply<A>, text: string, p: Progress<A>)
    ensures Consume(apply, text, p) == State(Tail(text), Fed(apply, p, EndedLines(text)))
    decreases |text|
  {
    match Newline(text)
    case None =>
    case Some(i) =>
      var first := Trimmed(text[..i]);
      ConsumeFeedsLines(apply, text[i + 1..], Line(apply, p, first));
      FedFirst(apply, p, first, EndedLines(text[i + 1..]));
  }

  /** The payloads of the closed blocks applied, the data lines of the last one held. */
  function BlocksRead<A>(apply: Apply<A>, acc: A, blocks: seq<seq<string>>): Progress<A>
    requires blocks != []
  {
    var last := |blocks| - 1;
    Progress(Values(DataOf, blocks[last]), ApplyAll(apply, acc, Payloads(DataOf, blocks[..last])))
  }

  lemma LastBlockGrows<A>(apply: Apply<A>, acc: A, blocks: seq<seq<string>>, line: string)
    requires blocks != [] && line != ""
    ensures
      var last := |blocks| - 1;
      BlocksRead(apply, acc, blocks[..last] + [blocks[last] + [line]]) ==
        Line(apply, BlocksRead(apply, acc, blocks), line)
  {
    var last := |blocks| - 1;
    var block := blocks[last] + [line];
    assert block[..|block| - 1] == blocks[last];
    assert (blocks[..last] + [block])[..last] == blocks[..last];
  }

  lemma LastBlockCloses<A>(apply: Apply<A>, acc: A, blocks: seq<seq<string>>)
    requires blocks != []
    ensures Flushed(apply, BlocksRead(apply, acc, blocks)) ==
            Progress([], ApplyAll(apply, acc, Payloads(DataOf, blocks)))
    ensures BlocksRead(apply, acc, blocks + [[]]) == Flushed(apply, BlocksRead(apply, acc, blocks))
  {
    var last := |blocks| - 1;
    var before, all := Payloads(DataOf, blocks[..last]), Payloads(DataOf, blocks);
    assert |all| > |before| ==> all[..|all| - 1] == before;
    assert |all| == |before| ==> all == before;
    assert (blocks + [[]])[..last + 1] == blocks;
  }

  lemma {:induction false} FedIsBlocks<A>(apply: Apply<A>, acc: A, lines: seq<string>)
    ensures Fed(apply, Progress([], acc), lines) == BlocksRead(apply, acc, Blocks(lines))
    decreases |lines|
  {
    if lines == [] {
      assert Blocks(lines)[..0] == [];
    } else {
      var n := |lines| - 1;
      FedIsBlocks(apply, acc, lines[..n]);
      LastBlockCloses(apply, acc, Blocks(lines[..n]));
      if lines[n] != "" { LastBlockGrows(apply, acc, Blocks(lines[..n]), lines[n]); }
    }
  }

  /** A last line that is empty closes what is closed at the end anyway. */
  lemma FlushTwice<A>(apply: Apply<A>, p: Progress<A>)
    ensures Flushed(apply, Flushed(apply, p)) == Flushed(apply, p)
  {
  }

  /**
   * For every text and every split of it, the payloads read are those of its blocks, in order. The
   * last block counts even if neither it nor its last line is closed.
   */
  lemma PayloadsOfBlocks<A>(apply: Apply<A>, acc: A, chunks: seq<string>)
    ensures Ended(apply, WrittenAll(apply, State("", Progress([], acc)), chunks))
         == Progress([], ApplyAll(apply, acc, Delivered(Concat(chunks))))
  {
    var text := Concat(chunks);
    var p, lines := Progress([], acc), Lines(text);
    ChunksDoNotMatter(apply, p, chunks);
    ConsumeFeedsLines(apply, text, p);
    var fed := Fed(apply, p, EndedLines(text));
    assert lines[..|lines| - 1] == EndedLines(text);
    assert Fed(apply, p, lines) == Line(apply, fed, Trimmed(Tail(text)));
    FlushTwice(apply, fed);
    FedIsBlocks(apply, acc, lines);
    LastBlockCloses(apply, acc, Blocks(lines));
  }
}
