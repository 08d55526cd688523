/** Canonical JSON: the text determines the value, up to the order of keys and dropped undefined ones. */
module CanonicalJson {
  import opened Wrappers
  import opened Sorting

  // ----- Values -----------------------------------------------------------------------------

  /** A value. A finite number is given by its printed form; NaN and the infinities print as null. */
  datatype Json =
    | Undefined
    | Null
    | Bool(b: bool)
    | NonFinite
    | Number(text: string)
    | Text(s: string)
    | Arr(items: seq<Json>)
    | Obj(fields: seq<Field>)

  /** An object's own property; fields are in insertion order. */
  datatype Field = Field(key: string, value: Json)

  predicate Delimiter(c: char) {
    c == ',' || c == ']' || c == '}'
  }

  predicate NumberText(t: string) {
    && t != "" && ('0' <= t[0] <= '9' || t[0] == '-')
    && forall i :: 0 <= i < |t| ==> !Delimiter(t[i])
  }

  function Keys(fields: seq<Field>): seq<string> {
    seq(|fields|, i requires 0 <= i < |fields| => fields[i].key)
  }

  /** What an object can be: distinct keys; and numbers as the printer forms them. */
  predicate WellFormed(v: Json) {
    match v
    case Number(t) => NumberText(t)
    case Arr(items) => forall i :: 0 <= i < |items| ==> WellFormed(items[i])
    case Obj(fields) =>
      Distinct(Keys(fields)) && forall i :: 0 <= i < |fields| ==> WellFormed(fields[i].value)
    case _ => true
  }

  /** The position of a key's last occurrence. */
  function Index(fields: seq<Field>, key: string): (i: nat)
    requires key in Keys(fields)
    ensures i < |fields| && fields[i].key == key
  {
    var n := |fields| - 1;
    if fields[n].key == key then n
    else
      assert key in Keys(fields[..n]) by {
        var i :| 0 <= i < |fields| && fields[i].key == key;
        assert Keys(fields[..n])[i] == key;
      }
      Index(fields[..n], key)
  }

  function Get(fields: seq<Field>, key: string): Json {
    if key in Keys(fields) then fields[Index(fields, key)].value else Undefined
  }

  // ----- Writing ----------------------------------------------------------------------------

  function Hex(n: nat): char
    requires n < 16
  {
    "0123456789abcdef"[n]
  }

  /** One character inside a quoted string. */
  function Escaped(c: char): (t: string)
    ensures t != "" && t[0] != '\"'
  {
    if c == '\"' then "\\\""
    else if c == '\\' then "\\\\"
    else if c == '\n' then "\\n"
    else if c == '\r' then "\\r"
    else if c == '\t' then "\\t"
    else if c as int == 8 then "\\b"
    else if c as int == 12 then "\\f"
    else if c as int < 32 then "\\u00" + [if c as int < 16 then '0' else '1', Hex(c as int % 16)]
    else [c]
  }

  function EscapedAll(s: string): string {
    if s == "" then "" else Escaped(s[0]) + EscapedAll(s[1..])
  }

  function Quoted(s: string): string {
    "\"" + EscapedAll(s) + "\""
  }

  function Join(texts: seq<string>): string {
    if texts == [] then ""
    else if |texts| == 1 then texts[0]
    else texts[0] + "," + Join(texts[1..])
  }

  /** The keys that are written: sorted, without those whose value is undefined. */
  function Shown(fields: seq<Field>): (keys: seq<string>)
    ensures forall k :: k in keys <==> k in Keys(fields) && Get(fields, k) != Undefined
  {
    Filter(fields, Sort(Keys(fields)))
  }

  function Filter(fields: seq<Field>, keys: seq<string>): (kept: seq<string>)
    ensures forall k :: k in kept <==> k in keys && Get(fields, k) != Undefined
  {
    if keys == [] then []
    else
      assert forall k :: k in keys <==> k == keys[0] || k in keys[1..];
      (if Get(fields, keys[0]) != Undefined then [keys[0]] else []) + Filter(fields, keys[1..])
  }

  /** The text of a value; an undefined array element leaves no text between its commas. */
  function Write(v: Json): string
    decreases v, 0
  {
    match v
    case Undefined => ""
    case Null => "null"
    case NonFinite => "null"
    case Bool(b) => if b then "true" else "false"
    case Number(t) => t
    case Text(s) => Quoted(s)
    case Arr(items) => "[" + Join(Elements(items)) + "]"
    case Obj(fields) => "{" + Join(Members(fields, Shown(fields))) + "}"
  }

  function Elements(items: seq<Json>): (texts: seq<string>)
    ensures |texts| == |items|
    decreases items, 0
  {
    if items == [] then [] else [Write(items[0])] + Elements(items[1..])
  }

  function Members(fields: seq<Field>, keys: seq<string>): (texts: seq<string>)
    requires forall k :: k in keys ==> k in Keys(fields)
    ensures |texts| == |keys|
    decreases fields, |keys|
  {
    if keys == [] then []
    else
      assert keys[0] in keys && forall k :: k in keys[1..] ==> k in keys;
      [Quoted(keys[0]) + ":" + Write(fields[Index(fields, keys[0])].value)] + Members(fields, keys[1..])
  }

  /** At the top an undefined value has no text at all. */
  function CanonicalText(v: Json): Option<string> {
    if v.Undefined? then None else Some(Write(v))
  }

  // ----- The same value ---------------------------------------------------------------------

  /** An array that holds a lone undefined is written like an empty one. */
  function Length(items: seq<Json>): (n: nat)
    ensures n == 0 || n == |items|
  {
    if items == [Undefined] then 0 else |items|
  }

  /** The same value for a fingerprint: key order, undefined properties and a lone undefined do not count. */
  ghost predicate Same(v: Json, w: Json)
    decreases v
  {
    match v
    case Undefined => w == Undefined
    case Null => w.Null? || w.NonFinite?
    case NonFinite => w.Null? || w.NonFinite?
    case Bool(b) => w == v
    case Number(t) => w == v
    case Text(s) => w == v
    case Arr(items) =>
      w.Arr? && Length(items) == Length(w.items) && forall i :: 0 <= i < Length(items) ==> Same(items[i], w.items[i])
    case Obj(fields) =>
      && w.Obj?
      && (forall k ::
            k in Keys(fields) && Get(fields, k) != Undefined <==> k in Keys(w.fields) && Get(w.fields, k) != Undefined)
      && (forall k :: k in Shown(fields) ==> Same(fields[Index(fields, k)].value, Get(w.fields, k)))
  }

  // ----- The same value has one text --------------------------------------------------------

  lemma ShownIsSortedDistinct(fields: seq<Field>)
    requires Distinct(Keys(fields))
    ensures Sorted(Shown(fields)) && Distinct(Shown(fields))
  {
    SortKeepsDistinct(Keys(fields));
    FilterKeepsOrder(fields, Sort(Keys(fields)));
  }

  lemma {:induction false} FilterKeepsOrder(fields: seq<Field>, keys: seq<string>)
    requires Sorted(keys) && Distinct(keys)
    ensures Sorted(Filter(fields, keys)) && Distinct(Filter(fields, keys))
    decreases |keys|
  {
    if keys != [] {
      FilterKeepsOrder(fields, keys[1..]);
      var rest := Filter(fields, keys[1..]);
      forall i | 0 <= i < |rest| ensures Leq(keys[0], rest[i]) && keys[0] != rest[i] {
        assert rest[i] in rest;
        var j :| 0 <= j < |keys| - 1 && keys[1..][j] == rest[i];
        assert keys[j + 1] == rest[i];
      }
    }
  }

  lemma SameKeysShown(f: seq<Field>, g: seq<Field>)
    requires Distinct(Keys(f)) && Distinct(Keys(g))
    requires forall k :: k in Shown(f) <==> k in Shown(g)
    ensures Shown(f) == Shown(g)
  {
    ShownIsSortedDistinct(f);
    ShownIsSortedDistinct(g);
    DistinctSortedIsUnique(Shown(f), Shown(g));
  }

  /** Values that differ only in key order and undefined properties are written alike. */
  lemma {:induction false} SameHasOneText(v: Json, w: Json)
    requires WellFormed(v) && WellFormed(w) && Same(v, w)
    ensures Write(v) == Write(w)
    decreases v, 0
  {
    match v
    case Arr(items) =>
      NoElements(items);
      NoElements(w.items);
      if Length(items) > 0 { SameElements(items, w.items); }
    case Obj(fields) =>
      SameKeysShown(fields, w.fields);
      SameMembers(fields, w.fields, Shown(fields));
    case _ =>
  }

  lemma NoElements(items: seq<Json>)
    ensures Length(items) == 0 ==> Join(Elements(items)) == ""
  {
    if items == [Undefined] { assert Elements(items) == [Write(items[0])]; }
  }

  lemma {:induction false} SameElements(a: seq<Json>, b: seq<Json>)
    requires |a| == |b| && forall i :: 0 <= i < |a| ==> WellFormed(a[i]) && WellFormed(b[i]) && Same(a[i], b[i])
    ensures Elements(a) == Elements(b)
    decreases a, 0
  {
    if a != [] {
      SameHasOneText(a[0], b[0]);
      SameElements(a[1..], b[1..]);
    }
  }

  lemma {:induction false} SameMembers(f: seq<Field>, g: seq<Field>, keys: seq<string>)
    requires WellFormed(Obj(f)) && WellFormed(Obj(g))
    requires forall k :: k in keys ==> k in Keys(f) && k in Keys(g)
    requires forall k :: k in keys ==> Same(f[Index(f, k)].value, Get(g, k))
    ensures Members(f, keys) == Members(g, keys)
    decreases f, |keys|
  {
    if keys != [] {
      var k := keys[0];
      assert k in keys && forall j :: j in keys[1..] ==> j in keys;
      SameHasOneText(f[Index(f, k)].value, g[Index(g, k)].value);
      SameMembers(f, g, keys[1..]);
    }
  }

  // ----- A text has one value ---------------------------------------------------------------

  /** What can follow a value inside a larger text. */
  predicate Delimited(x: string) {
    x == "" || Delimiter(x[0])
  }

  /** The first character tells what kind of value follows. Only undefined has none. */
  lemma FirstCharacter(v: Json)
    requires WellFormed(v)
    ensures Write(v) == "" <==> v.Undefined?
    ensures !v.Undefined? ==>
      && Write(v) != "" && !Delimiter(Write(v)[0])
      && (Write(v)[0] == 'n' <==> v.Null? || v.NonFinite?) && (Write(v)[0] == 't' <==> v == Bool(true))
      && (Write(v)[0] == 'f' <==> v == Bool(false)) && (Write(v)[0] == '\"' <==> v.Text?)
      && (Write(v)[0] == '[' <==> v.Arr?) && (Write(v)[0] == '{' <==> v.Obj?)
  {
  }

  lemma NumbersDecode(t: string, u: string, x: string, y: string)
    requires NumberText(t) && NumberText(u) && Delimited(x) && Delimited(y) && t + x == u + y
    ensures t == u && x == y
  {
    Overhang(t, u, x, y);
    Overhang(u, t, y, x);
  }

  lemma Overhang(t: string, u: string, x: string, y: string)
    requires t + x == u + y
    ensures |t| < |u| ==> x != "" && x[0] == u[|t|]
    ensures |t| == |u| ==> t == u && x == y
  {
    var a := t + x;
    assert a[..|t|] == t && a[|t|..] == x;
    assert a[..|u|] == u && a[|u|..] == y;
    assert |t| < |u| ==> a[|t|] == u[|t|] && |x| > 0 && a[|t|] == x[0];
  }

  /** No escape is a proper beginning of another. */
  lemma EscapesDecode(c: char, d: char, x: string, y: string)
    requires Escaped(c) + x == Escaped(d) + y
    ensures c == d && x == y
  {
    var t, u := Escaped(c), Escaped(d);
    assert forall i :: 0 <= i < |t| ==> (t + x)[i] == t[i];
    assert forall i :: 0 <= i < |u| ==> (u + y)[i] == u[i];
    EscapesDiffer(c, d);
    Overhang(t, u, x, y);
  }

  /** Two escapes that agree as far as both go are the escape of one character. */
  lemma EscapesDiffer(c: char, d: char)
    requires forall i :: 0 <= i < |Escaped(c)| && i < |Escaped(d)| ==> Escaped(c)[i] == Escaped(d)[i]
    ensures c == d
  {
    var t, u := Escaped(c), Escaped(d);
    assert t[0] == u[0];
    if |t| > 1 && |u| > 1 { assert t[1] == u[1]; }
    if |t| == 6 && |u| == 6 { assert t[4] == u[4] && t[5] == u[5]; }
  }

  /** The quote closes the string exactly where the characters end. */
  lemma QuoteCloses(s: string, x: string)
    ensures
      var a := EscapedAll(s) + "\"" + x;
      if s == "" then a[0] == '\"' && a[1..] == x
      else a[0] != '\"' && a == Escaped(s[0]) + (EscapedAll(s[1..]) + "\"" + x)
  {
    if s == "" {
      assert EscapedAll(s) + "\"" + x == "\"" + x;
    } else {
      var e, r := Escaped(s[0]), EscapedAll(s[1..]) + "\"" + x;
      assert (e + r)[0] == e[0];
      assert EscapedAll(s) + "\"" + x == e + r;
    }
  }

  lemma {:induction false} StringsDecode(s: string, r: string, x: string, y: string)
    requires EscapedAll(s) + "\"" + x == EscapedAll(r) + "\"" + y
    ensures s == r && x == y
    decreases |s|
  {
    QuoteCloses(s, x);
    QuoteCloses(r, y);
    if s != "" {
      EscapesDecode(s[0], r[0], EscapedAll(s[1..]) + "\"" + x, EscapedAll(r[1..]) + "\"" + y);
      StringsDecode(s[1..], r[1..], x, y);
      assert s == [s[0]] + s[1..] && r == [r[0]] + r[1..];
    }
  }

  lemma QuotedDecode(s: string, r: string, x: string, y: string)
    requires Quoted(s) + x == Quoted(r) + y
    ensures s == r && x == y
  {
    assert (Quoted(s) + x)[1..] == EscapedAll(s) + "\"" + x;
    assert (Quoted(r) + y)[1..] == EscapedAll(r) + "\"" + y;
    StringsDecode(s, r, x, y);
  }

  lemma JoinHead(texts: seq<string>, close: string)
    requires texts != []
    ensures Join(texts) + close
         == texts[0] + (if |texts| == 1 then close else "," + (Join(texts[1..]) + close))
  {
  }

  lemma Unwrap(start: string, body: string, end: string, x: string)
    requires |start| == 1
    ensures (start + body + end + x)[1..] == body + (end + x)
  {
  }

  lemma Regroup(a: string, b: string, c: string, e: string)
    ensures a + b + c + e == a + (b + (c + e))
  {
  }

  /** What follows the first of some joined texts. */
  function AfterFirst(texts: seq<string>, close: string): string {
    if |texts| <= 1 then close else "," + (Join(texts[1..]) + close)
  }

  /** Lists that go on alike after their first text end together, or have a second text to compare. */
  lemma AfterSame(a: seq<string>, b: seq<string>, end: string, x: string, y: string)
    requires a != [] && b != [] && |end| == 1 && end != ","
    requires AfterFirst(a, end + x) == AfterFirst(b, end + y)
    ensures |a| == 1 <==> |b| == 1
    ensures |a| == 1 ==> x == y
    ensures |a| > 1 ==> Join(a[1..]) + (end + x) == Join(b[1..]) + (end + y)
  {
    assert (end + x)[0] == end[0] && (end + y)[0] == end[0] && end[0] != ',';
    assert (end + x)[1..] == x && (end + y)[1..] == y;
    var p, q := Join(if |a| > 1 then a[1..] else []) + (end + x), Join(if |b| > 1 then b[1..] else []) + (end + y);
    assert ("," + p)[0] == ',' && ("," + p)[1..] == p && ("," + q)[0] == ',' && ("," + q)[1..] == q;
  }

  /**
   * A value can be read back from the front of a text: whatever follows, two values written there
   * are the same value.
   */
  lemma {:induction false} Decode(v: Json, w: Json, x: string, y: string)
    requires WellFormed(v) && WellFormed(w)
    requires Delimited(x) && Delimited(y) && Write(v) + x == Write(w) + y
    ensures Same(v, w) && x == y
    decreases v, 0
  {
    FirstCharacter(v);
    FirstCharacter(w);
    assert !v.Undefined? ==> (Write(v) + x)[0] == Write(v)[0];
    assert !w.Undefined? ==> (Write(w) + y)[0] == Write(w)[0];
    assert "" + x == x && "" + y == y;
    match v
    case Number(t) => NumbersDecode(t, w.text, x, y);
    case Text(s) => QuotedDecode(s, w.s, x, y);
    case Arr(items) =>
      Unwrap("[", Join(Elements(items)), "]", x);
      Unwrap("[", Join(Elements(w.items)), "]", y);
      ElementsFront(items, "]" + x);
      ElementsFront(w.items, "]" + y);
      if Length(items) > 0 { ElementsDecode(items, w.items, x, y); } else { Overhang("]", "]", x, y); }
    case Obj(fields) =>
      Unwrap("{", Join(Members(fields, Shown(fields))), "}", x);
      Unwrap("{", Join(Members(w.fields, Shown(w.fields))), "}", y);
      MembersDecode(fields, Shown(fields), w.fields, Shown(w.fields), x, y);
      SameFields(fields, w.fields);
    case _ => Overhang(Write(v), Write(w), x, y);
  }

  lemma {:induction false} ElementsDecode(a: seq<Json>, b: seq<Json>, x: string, y: string)
    requires a != [] && b != []
    requires (forall i :: 0 <= i < |a| ==> WellFormed(a[i])) && (forall i :: 0 <= i < |b| ==> WellFormed(b[i]))
    requires Join(Elements(a)) + ("]" + x) == Join(Elements(b)) + ("]" + y)
    ensures |a| == |b| && (forall i :: 0 <= i < |a| ==> Same(a[i], b[i])) && x == y
    decreases a, 0
  {
    JoinHead(Elements(a), "]" + x);
    JoinHead(Elements(b), "]" + y);
    Decode(a[0], b[0], AfterFirst(Elements(a), "]" + x), AfterFirst(Elements(b), "]" + y));
    AfterSame(Elements(a), Elements(b), "]", x, y);
    if |a| > 1 {
      ElementsDecode(a[1..], b[1..], x, y);
      forall i | 0 <= i < |a| ensures Same(a[i], b[i]) {
        if i > 0 { assert Same(a[1..][i - 1], b[1..][i - 1]); }
      }
    }
  }

  lemma FrontOf(first: string, rest: string)
    requires rest != ""
    ensures (first + rest)[0] == if first == "" then rest[0] else first[0]
  {
  }

  /** The bracket closes at once exactly when the array is written like an empty one. */
  lemma ElementsFront(items: seq<Json>, close: string)
    requires close != "" && close[0] == ']'
    requires forall i :: 0 <= i < |items| ==> WellFormed(items[i])
    ensures
      var all := Join(Elements(items)) + close;
      (all[0] == ']' <==> Length(items) == 0) && (Length(items) == 0 ==> all == close)
  {
    NoElements(items);
    assert "" + close == close;
    if Length(items) > 0 {
      FirstCharacter(items[0]);
      JoinHead(Elements(items), close);
      FrontOf(Write(items[0]), AfterFirst(Elements(items), close));
      assert items[0].Undefined? ==> AfterFirst(Elements(items), close)[0] == ',';
    }
  }

  lemma {:induction false} MembersDecode(
    f: seq<Field>, ks: seq<string>, g: seq<Field>, ls: seq<string>, x: string, y: string)
    requires WellFormed(Obj(f)) && WellFormed(Obj(g))
    requires forall k :: k in ks ==> k in Keys(f) && Get(f, k) != Undefined
    requires forall k :: k in ls ==> k in Keys(g) && Get(g, k) != Undefined
    requires Join(Members(f, ks)) + ("}" + x) == Join(Members(g, ls)) + ("}" + y)
    ensures ks == ls && x == y
    ensures forall k :: k in ks ==> Same(f[Index(f, k)].value, Get(g, k))
    decreases f, |ks|
  {
    MembersFront(f, ks, "}" + x);
    MembersFront(g, ls, "}" + y);
    if ks == [] {
      assert ("}" + x)[1..] == x && ("}" + y)[1..] == y;
    } else {
      var k, l := ks[0], ls[0];
      assert k in ks && l in ls;
      var v, w := f[Index(f, k)].value, g[Index(g, l)].value;
      var p, q := AfterFirst(Members(f, ks), "}" + x), AfterFirst(Members(g, ls), "}" + y);
      QuotedDecode(k, l, ":" + (Write(v) + p), ":" + (Write(w) + q));
      Overhang(":", ":", Write(v) + p, Write(w) + q);
      Decode(v, w, p, q);
      AfterSame(Members(f, ks), Members(g, ls), "}", x, y);
      assert ks == [k] + ks[1..] && ls == [l] + ls[1..];
      if |ks| > 1 {
        MembersDecode(f, ks[1..], g, ls[1..], x, y);
      }
    }
  }

  lemma MembersFront(f: seq<Field>, ks: seq<string>, close: string)
    requires close != "" && close[0] == '}'
    requires forall k :: k in ks ==> k in Keys(f) && Get(f, k) != Undefined
    ensures
      var all := Join(Members(f, ks)) + close;
      && (all[0] == '}' <==> ks == [])
      && (ks == [] ==> all == close)
      && Delimited(AfterFirst(Members(f, ks), close))
      && (ks != [] ==>
            ks[0] in ks &&
            all == Quoted(ks[0]) + (":" + (Write(f[Index(f, ks[0])].value) + AfterFirst(Members(f, ks), close))))
  {
    if ks != [] {
      var k := ks[0];
      assert k in ks;
      JoinHead(Members(f, ks), close);
      Regroup(Quoted(k), ":", Write(f[Index(f, k)].value), AfterFirst(Members(f, ks), close));
    }
  }

  /** Equal shown keys with the same values make the same object. */
  lemma SameFields(f: seq<Field>, g: seq<Field>)
    requires Shown(f) == Shown(g)
    requires forall k :: k in Shown(f) ==> Same(f[Index(f, k)].value, Get(g, k))
    ensures Same(Obj(f), Obj(g))
  {
    forall k
      ensures k in Keys(f) && Get(f, k) != Undefined <==> k in Keys(g) && Get(g, k) != Undefined
    {
      assert k in Shown(f) <==> k in Shown(g);
    }
  }

  /**
   * Two values have the same canonical text exactly when they are the same value, up to key order,
   * undefined properties and arrays that hold a lone undefined.
   */
  lemma TextDeterminesValue(v: Json, w: Json)
    requires WellFormed(v) && WellFormed(w)
    ensures CanonicalText(v) == CanonicalText(w) <==> Same(v, w)
  {
    FirstCharacter(v);
    FirstCharacter(w);
    if Same(v, w) {
      SameHasOneText(v, w);
    }
    if Write(v) == Write(w) {
      Decode(v, w, "", "");
    }
  }

  /** The exception is real: an array holding a lone undefined reads as an empty one, two of them do not. */
  lemma LoneUndefinedReadsAsEmpty()
    ensures CanonicalText(Arr([Undefined])) == CanonicalText(Arr([])) == Some("[]")
    ensures CanonicalText(Arr([Undefined, Undefined])) == Some("[,]")
  {
    NoElements([Undefined]);
    NoElements([]);
    var two := [Undefined, Undefined];
    assert Elements(two) == [Write(two[0])] + Elements(two[1..]) && two[1..] == [Undefined];
    assert Join(Elements(two)) == "" + "," + "" == ",";
    assert "[" + "" + "]" == "[]" && "[" + "," + "]" == "[,]";
  }
}
