/** How canonical texts look: the order of keys, separators, brackets and quotes. */
module CanonicalLaws {
  import opened Wrappers
  import opened Sorting
  import opened CanonicalJson

  // ----- The order of keys ------------------------------------------------------------------

  /** The first difference is at `k`, where `a` is the smaller. */
  predicate SmallerAt(a: string, b: string, k: nat) {
    k < |a| && k < |b| && a[..k] == b[..k] && a[k] < b[k]
  }

  /** A proper beginning of the other, or smaller at the first difference. */
  ghost predicate Before(a: string, b: string) {
    a < b || exists k: nat :: SmallerAt(a, b, k)
  }

  lemma BeforeWithin(c: char, x: string, y: string)
    ensures Before([c] + x, [c] + y) <==> Before(x, y)
  {
    var a, b := [c] + x, [c] + y;
    assert a[1..] == x && b[1..] == y && a[0] == b[0] == c;
    assert a < b <==> x < y;
    forall k: nat ensures SmallerAt(a, b, k + 1) <==> SmallerAt(x, y, k) {
      if k < |x| && k < |y| { assert a[..k + 1] == [c] + x[..k] && b[..k + 1] == [c] + y[..k]; }
      assert k <= |x| ==> a[..k + 1][1..] == x[..k];
      assert k <= |y| ==> b[..k + 1][1..] == y[..k];
    }
    forall k: nat | SmallerAt(a, b, k) ensures exists j: nat :: SmallerAt(x, y, j) {
      assert SmallerAt(x, y, k - 1);
    }
  }

  lemma FirstDiffers(a: string, b: string)
    requires a != "" && b != "" && a[0] != b[0]
    ensures Before(a, b) <==> a[0] < b[0]
  {
    assert a[..0] == b[..0] && (a[0] < b[0] ==> SmallerAt(a, b, 0));
    forall k: nat | 0 < k < |a| && k < |b| ensures a[..k] != b[..k] { assert a[..k][0] == a[0] && b[..k][0] == b[0]; }
  }

  lemma {:induction false} LeqIsLexicographic(a: string, b: string)
    ensures Leq(a, b) <==> a == b || Before(a, b)
    decreases |a|
  {
    if a != "" && b != "" {
      if a[0] == b[0] {
        assert a == [a[0]] + a[1..] && b == [b[0]] + b[1..];
        LeqIsLexicographic(a[1..], b[1..]);
        BeforeWithin(a[0], a[1..], b[1..]);
      } else {
        FirstDiffers(a, b);
      }
    }
  }

  // ----- Arrays -----------------------------------------------------------------------------

  lemma {:induction false} ElementsConcat(a: seq<Json>, b: seq<Json>)
    ensures Elements(a + b) == Elements(a) + Elements(b)
    decreases |a|
  {
    if a == [] {
      assert a + b == b;
    } else {
      assert (a + b)[1..] == a[1..] + b;
      ElementsConcat(a[1..], b);
    }
  }

  lemma {:induction false} JoinConcat(a: seq<string>, b: seq<string>)
    requires a != [] && b != []
    ensures Join(a + b) == Join(a) + "," + Join(b)
    decreases |a|
  {
    if |a| == 1 {
      assert (a + b)[1..] == b;
    } else {
      assert (a + b)[1..] == a[1..] + b;
      JoinConcat(a[1..], b);
    }
  }

  /** The text of an array between its brackets. */
  function Inner(items: seq<Json>): string {
    Join(Elements(items))
  }

  /** An array's elements stand in their order, separated by commas, between brackets. */
  lemma ArrayText(v: Json, a: seq<Json>, b: seq<Json>)
    ensures Write(Arr([])) == "[]" && Write(Arr([v])) == "[" + Write(v) + "]"
    ensures Write(Arr(a)) == "[" + Inner(a) + "]"
    ensures a != [] && b != [] ==> Write(Arr(a + b)) == "[" + Inner(a) + "," + Inner(b) + "]"
  {
    OneElement(v);
    if a != [] && b != [] { TwoParts(a, b); }
  }

  lemma OneElement(v: Json)
    ensures Elements([v]) == [Write(v)] && Elements([]) == []
  {
    assert [v][1..] == [];
  }

  lemma TwoParts(a: seq<Json>, b: seq<Json>)
    requires a != [] && b != []
    ensures Inner(a + b) == Inner(a) + "," + Inner(b)
  {
    ElementsConcat(a, b);
    JoinConcat(Elements(a), Elements(b));
  }

  // ----- Objects ----------------------------------------------------------------------------

  lemma TwoSorted(keys: seq<string>, a: string, b: string)
    requires Sorted(keys) && Sorting.Distinct(keys) && a != b && Before(a, b)
    requires forall k :: k in keys <==> k == a || k == b
    ensures keys == [a, b]
  {
    LeqIsLexicographic(a, b);
    forall i, j | 0 <= i < j < 2 ensures Leq([a, b][i], [a, b][j]) {}
    DistinctSortedIsUnique(keys, [a, b]);
  }

  /** Two properties stand in the order of their keys, whichever was set first. */
  lemma TwoPropertiesText(fields: seq<Field>, a: string, b: string)
    requires Sorting.Distinct(Keys(fields)) && a != b && Before(a, b)
    requires forall k :: k in Keys(fields) <==> k == a || k == b
    requires Get(fields, a) != Undefined && Get(fields, b) != Undefined
    ensures Write(Obj(fields)) ==
            "{" + ((Quoted(a) + ":" + Write(Get(fields, a))) + "," + (Quoted(b) + ":" + Write(Get(fields, b)))) + "}"
  {
    ShownIsSortedDistinct(fields);
    TwoSorted(Shown(fields), a, b);
    TwoMembers(fields, a, b);
  }

  lemma TwoMembers(fields: seq<Field>, a: string, b: string)
    requires a in Keys(fields) && b in Keys(fields)
    ensures Join(Members(fields, [a, b])) ==
            (Quoted(a) + ":" + Write(Get(fields, a))) + "," + (Quoted(b) + ":" + Write(Get(fields, b)))
  {
    assert [a, b][1..] == [b] && [b][1..] == [];
    var x, y := Quoted(a) + ":" + Write(Get(fields, a)), Quoted(b) + ":" + Write(Get(fields, b));
    assert Members(fields, [b]) == [y] && Members(fields, [a, b]) == [x] + [y];
    assert ([x] + [y])[1..] == [y];
  }

  /** A property whose value is undefined is not written. */
  lemma OneShown(fields: seq<Field>, key: string)
    requires key in Keys(fields) && Sorting.Distinct(Keys(fields))
    requires forall k | k in Keys(fields) :: Get(fields, k) != Undefined <==> k == key
    ensures Write(Obj(fields)) == "{" + Quoted(key) + ":" + Write(Get(fields, key)) + "}"
  {
    ShownIsSortedDistinct(fields);
    DistinctSortedIsUnique(Shown(fields), [key]);
    assert [key][1..] == [] && Members(fields, [key]) == [Quoted(key) + ":" + Write(Get(fields, key))];
  }

  // ----- Strings ----------------------------------------------------------------------------

  /** A text without quotes, backslashes and control characters stands between quotes as it is. */
  lemma {:induction false} PlainIsItself(s: string)
    requires forall c | c in s :: c as int >= 32 && c != '\"' && c != '\\'
    ensures Quoted(s) == "\"" + s + "\""
  {
    PlainEscapes(s);
  }

  lemma {:induction false} PlainEscapes(s: string)
    requires forall c | c in s :: c as int >= 32 && c != '\"' && c != '\\'
    ensures EscapedAll(s) == s
    decreases |s|
  {
    if s != "" {
      assert s[0] in s && s == [s[0]] + s[1..] && forall c | c in s[1..] :: c in s;
      PlainEscapes(s[1..]);
      PlainEscape(s[0]);
    }
  }

  lemma PlainEscape(c: char)
    requires c as int >= 32 && c != '\"' && c != '\\'
    ensures Escaped(c) == [c]
  {
  }
}
