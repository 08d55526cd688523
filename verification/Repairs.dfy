/** What a repair after a damaged tail leaves of an open operation, and of everything else. */
module Repairs {
  import opened Wrappers
  import opened Store
  import opened JournalTail
  import opened Recovery
  import opened LedgerSteps
  import opened Runs

  // ----- Decimal texts ----------------------------------------------------------------------

  function DigitOf(c: char): int {
    c as int - '0' as int
  }

  /** The number a text of digits spells. */
  function NumberOf(text: string): int {
    if text == "" then 0 else NumberOf(text[..|text| - 1]) * 10 + DigitOf(text[|text| - 1])
  }

  /** The number in decimal, without a leading zero. */
  predicate IsDecimal(text: string, n: nat) {
    && text != "" && NumberOf(text) == n && (forall c | c in text :: '0' <= c <= '9')
    && (text[0] == '0' ==> text == "0")
  }

  lemma {:induction false} IndexIsDecimal(i: nat)
    ensures IsDecimal(IndexText(i), i)
    decreases i
  {
    var last := LastOf(i);
    if i < 10 {
      assert IndexText(i) == "" + [last] == [last] && [last][..0] == "";
    } else {
      IndexIsDecimal(i / 10);
      OneDigitMore(IndexText(i / 10), last, i);
    }
  }

  lemma LastOf(i: nat) returns (last: char)
    ensures IndexText(i) == (if i < 10 then "" else IndexText(i / 10)) + [last]
    ensures '0' <= last <= '9' && DigitOf(last) == i % 10
  {
    var digits := "0123456789";
    assert forall d | 0 <= d < 10 :: '0' <= digits[d] <= '9' && DigitOf(digits[d]) == d;
    last := digits[i % 10];
  }

  lemma OneDigitMore(front: string, last: char, i: nat)
    requires i >= 10 && IsDecimal(front, i / 10) && '0' <= last <= '9' && DigitOf(last) == i % 10
    ensures IsDecimal(front + [last], i)
  {
    assert (front + [last])[..|front|] == front;
    assert front == "0" ==> NumberOf(front) == 0 by { assert "0"[..0] == ""; }
  }

  lemma {:induction false} DigitsArePositive(text: string)
    requires text != "" && (forall c | c in text :: '0' <= c <= '9') && text[0] != '0'
    ensures NumberOf(text) > 0
    decreases |text|
  {
    var n := |text| - 1;
    assert text[0] in text && text[n] in text;
    assert forall c | c in text[..n] :: c in text;
    if n > 0 { DigitsArePositive(text[..n]); } else { assert text[..0] == ""; }
  }

  /** A number has one decimal text. */
  lemma {:induction false} DecimalIsUnique(a: string, b: string, n: nat)
    requires IsDecimal(a, n) && IsDecimal(b, n)
    ensures a == b
    decreases |a|
  {
    var j, k := |a| - 1, |b| - 1;
    assert a[j] in a && b[k] in b && a[0] in a && b[0] in b;
    LastDigit(a, n);
    LastDigit(b, n);
    assert (forall c | c in a[..j] :: c in a) && forall c | c in b[..k] :: c in b;
    if j > 0 { DigitsArePositive(a[..j]); }
    if k > 0 { DigitsArePositive(b[..k]); }
    assert a[..0] == "" == b[..0];
    if j == 0 {
      assert a == [a[0]] && b == [b[0]];
    } else {
      DecimalIsUnique(a[..j], b[..k], n / 10);
      assert a == a[..j] + [a[j]] && b == b[..k] + [b[k]];
    }
  }

  lemma LastDigit(a: string, n: nat)
    requires IsDecimal(a, n)
    ensures
      var j := |a| - 1;
      NumberOf(a[..j]) == n / 10 && DigitOf(a[j]) == n % 10
  {
    assert a[|a| - 1] in a;
  }

  // ----- Open operations --------------------------------------------------------------------

  /** The fields an object or an array has when its properties are listed. */
  ghost predicate HasField(data: Data, name: string, value: Data) {
    match data
    case Object(fields) => name in fields && fields[name] == value
    case Array(items) => exists i :: 0 <= i < |items| && IsDecimal(name, i) && items[i] == value
    case _ => false
  }

  /** An object with these two fields as given and every other as it was. */
  ghost predicate ToldToCancel(data: Data, data': Data, control: Data, phase: Data) {
    && data'.Object?
    && "control" in data'.fields && data'.fields["control"] == control
    && "phase" in data'.fields && data'.fields["phase"] == phase
    && forall name, value | name != "control" && name != "phase" ::
         HasField(data', name, value) <==> HasField(data, name, value)
  }

  /** The cell is in its place with its number; an object or array in it is told to cancel. */
  ghost predicate CellRepaired(cell: Cell, cell': Cell, control: Data, phase: Data) {
    && cell' == cell.(data := cell'.data)
    && if cell.data.Object? || cell.data.Array? then ToldToCancel(cell.data, cell'.data, control, phase)
       else cell'.data == cell.data
  }

  /** Only op.state cells and the audit have moved, and those as they should. */
  ghost predicate Repaired(m: Table, m': Table, audit: Data, control: Data, phase: Data) {
    && (forall s, c ::
          && (CellAt(m', s, OP_STATE, c).Some? <==> CellAt(m, s, OP_STATE, c).Some?)
          && (CellAt(m, s, OP_STATE, c).Some? ==>
                CellRepaired(CellAt(m, s, OP_STATE, c).value, CellAt(m', s, OP_STATE, c).value, control, phase)))
    && RecoveryKey in m' && m'[RecoveryKey] == DataV(audit)
    && forall k | k != RecoveryKey && !(k.RegisterKey? && k.register == OP_STATE) ::
         (k in m' <==> k in m) && (k in m ==> m'[k] == m[k])
  }

  lemma {:induction false} IndexedHasItems(items: seq<Data>, name: string, value: Data)
    ensures HasField(Object(Indexed(items)), name, value) <==> HasField(Array(items), name, value)
    decreases |items|
  {
    if items != [] {
      var n := |items| - 1;
      IndexedHasItems(items[..n], name, value);
      IndexIsDecimal(n);
      if HasField(Array(items), name, value) || name == IndexText(n) {
        forall i | 0 <= i <= n && IsDecimal(name, i) ensures (i == n <==> name == IndexText(n)) {
          if i == n { DecimalIsUnique(name, IndexText(n), n); }
        }
      }
    }
  }

  lemma CancelRequestedIsTold(data: Data, control: Data, phase: Data)
    requires data.Object? || data.Array?
    ensures ToldToCancel(data, CancelRequested(data, control, phase), control, phase)
  {
    forall name, value | name != "control" && name != "phase"
      ensures HasField(CancelRequested(data, control, phase), name, value) <==> HasField(data, name, value)
    {
      if data.Array? { IndexedHasItems(data.items, name, value); }
    }
  }

  lemma FencedIsRepaired(m: Table, audit: Data, control: Data, phase: Data)
    ensures Repaired(m, Fenced(LedgerRepair(audit, control, phase), m), audit, control, phase)
  {
    var m' := Fenced(LedgerRepair(audit, control, phase), m);
    forall s, c | CellAt(m, s, OP_STATE, c).Some?
      ensures CellAt(m', s, OP_STATE, c).Some?
              && CellRepaired(CellAt(m, s, OP_STATE, c).value, CellAt(m', s, OP_STATE, c).value, control, phase)
    {
      var data := CellAt(m, s, OP_STATE, c).value.data;
      if data.Object? || data.Array? { CancelRequestedIsTold(data, control, phase); }
    }
  }

  /** A repair keeps every field of an open operation but the two it sets, and every other row. */
  lemma RepairKeepsFields(m: Table, rules: Rules, audit: Data, control: Data, phase: Data)
    ensures Repaired(m, After(m, rules, RecoverOp(audit, control, phase)), audit, control, phase)
  {
    FencedIsRepaired(m, audit, control, phase);
  }

  /** And so does the map that opening a file with a damaged tail yields. */
  lemma ReopeningKeepsFields(
    c: Codec<Key, Value>, bytes: seq<byte>, audit: Data, control: Data, phase: Data, opened': Opened<Key, Value>)
    requires Opens(c, LedgerRepair(audit, control, phase), bytes, Success(opened'))
    ensures TailOf(c, bytes).Success?
    ensures
      var t := TailOf(c, bytes).value;
      if t.badOffset.None? then opened'.data == Replay(t.frames)
      else Repaired(Replay(t.frames), opened'.data, audit, control, phase)
  {
    FencedIsRepaired(Replay(TailOf(c, bytes).value.frames), audit, control, phase);
  }
}
