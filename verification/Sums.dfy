/** Sums over finite sets. */
module Sums {

  ghost function Sum<T>(s: set<T>, f: T -> int): int {
    if s == {} then 0
    else
      var x :| x in s;
      f(x) + Sum(s - {x}, f)
  }

  /** Any element may be taken out first. */
  lemma {:induction false} SumTake<T>(s: set<T>, f: T -> int, x: T)
    requires x in s
    ensures Sum(s, f) == f(x) + Sum(s - {x}, f)
    decreases s
  {
    var y :| y in s && Sum(s, f) == f(y) + Sum(s - {y}, f);
    if y != x {
      SumTake(s - {y}, f, x);
      SumTake(s - {x}, f, y);
      assert s - {y} - {x} == s - {x} - {y};
    }
  }

  lemma {:induction false} SumSame<T>(s: set<T>, f: T -> int, g: T -> int)
    requires forall x | x in s :: f(x) == g(x)
    ensures Sum(s, f) == Sum(s, g)
    decreases s
  {
    if s != {} {
      var x :| x in s;
      SumTake(s, f, x);
      SumTake(s, g, x);
      SumSame(s - {x}, f, g);
    }
  }

  lemma {:induction false} SumMonotone<T>(s: set<T>, f: T -> int, g: T -> int)
    requires forall x | x in s :: f(x) <= g(x)
    ensures Sum(s, f) <= Sum(s, g)
    decreases s
  {
    if s != {} {
      var x :| x in s;
      SumTake(s, f, x);
      SumTake(s, g, x);
      SumMonotone(s - {x}, f, g);
    }
  }

  /** Elements of weight zero do not count. */
  lemma {:induction false} SumSupport<T>(s: set<T>, big: set<T>, f: T -> int)
    requires s <= big
    requires forall x | x in big && x !in s :: f(x) == 0
    ensures Sum(big, f) == Sum(s, f)
    decreases big
  {
    if s != big {
      var x :| x in big && x !in s;
      SumTake(big, f, x);
      SumSupport(s, big - {x}, f);
    }
  }

  /** Two weightings that differ at one element only. */
  lemma SumDiffersAt<T(!new)>(a: set<T>, f: T -> int, b: set<T>, g: T -> int, x: T)
    requires forall k :: k !in a ==> f(k) == 0
    requires forall k :: k !in b ==> g(k) == 0
    requires forall k :: k != x ==> f(k) == g(k)
    ensures Sum(b, g) == Sum(a, f) - f(x) + g(x)
  {
    var all := a + b + {x};
    SumSupport(a, all, f);
    SumSupport(b, all, g);
    SumTake(all, f, x);
    SumTake(all, g, x);
    SumSame(all - {x}, f, g);
  }
}
