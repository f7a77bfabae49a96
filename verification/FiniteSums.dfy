/** Sums of integer weights over a finite set, independent of the order of summation.
    Every "total" of the mempool model is one of these. */
module FiniteSums {

  /** The weight of `x`; nothing, if it has none. */
  function At<T(==)>(f: map<T, int>, x: T): int {
    if x in f then f[x] else 0
  }

  ghost function Sum<T(!new)>(s: set<T>, f: map<T, int>): int
  {
    if s == {} then 0 else
    var x :| x in s;
    At(f, x) + Sum(s - {x}, f)
  }

  /** Any element may be taken out first. */
  lemma {:induction false} SumSplit<T(!new)>(s: set<T>, f: map<T, int>, x: T)
    requires x in s
    ensures Sum(s, f) == At(f, x) + Sum(s - {x}, f)
  {
    var y :| y in s && Sum(s, f) == At(f, y) + Sum(s - {y}, f);
    if y != x {
      SumSplit(s - {y}, f, x);
      SumSplit(s - {x}, f, y);
      assert s - {x} - {y} == s - {y} - {x};
    }
  }

  lemma SumInsert<T(!new)>(s: set<T>, f: map<T, int>, x: T)
    requires x !in s
    ensures Sum(s + {x}, f) == At(f, x) + Sum(s, f)
  {
    SumSplit(s + {x}, f, x);
    assert s + {x} - {x} == s;
  }

  /** The sum depends only on the values the function takes on the set. */
  lemma {:induction false} SumCongruent<T(!new)>(s: set<T>, f: map<T, int>, g: map<T, int>)
    requires forall x :: x in s ==> At(f, x) == At(g, x)
    ensures Sum(s, f) == Sum(s, g)
  {
    if s != {} {
      var x :| x in s;
      SumSplit(s, f, x);
      SumSplit(s, g, x);
      SumCongruent(s - {x}, f, g);
    }
  }

  lemma {:induction false} SumDisjoint<T(!new)>(a: set<T>, b: set<T>, f: map<T, int>)
    requires a !! b
    ensures Sum(a + b, f) == Sum(a, f) + Sum(b, f)
  {
    if b == {} {
      assert a + b == a;
    } else {
      var x :| x in b;
      SumSplit(b, f, x);
      SumSplit(a + b, f, x);
      assert a + b - {x} == a + (b - {x});
      SumDisjoint(a, b - {x}, f);
    }
  }

  lemma {:induction false} SumNonNegative<T(!new)>(s: set<T>, f: map<T, int>)
    requires forall x :: x in s ==> At(f, x) >= 0
    ensures Sum(s, f) >= 0
  {
    if s != {} {
      var x :| x in s;
      SumSplit(s, f, x);
      SumNonNegative(s - {x}, f);
    }
  }

  /** Taking away a subset takes away its sum. */
  lemma SumSubset<T(!new)>(a: set<T>, b: set<T>, f: map<T, int>)
    requires a <= b
    ensures Sum(b, f) == Sum(a, f) + Sum(b - a, f)
  {
    SumDisjoint(a, b - a, f);
    assert a + (b - a) == b;
  }

  /** A union weighs both parts less what they share. */
  lemma SumUnion<T(!new)>(a: set<T>, b: set<T>, f: map<T, int>)
    ensures Sum(a + b, f) == Sum(a, f) + Sum(b, f) - Sum(a * b, f)
  {
    SumDisjoint(a, b - a, f);
    assert a + (b - a) == a + b;
    SumSubset(a * b, b, f);
    assert b - a * b == b - a;
  }

  /** Summing one counts. */
  lemma {:induction false} SumOnes<T(!new)>(s: set<T>, f: map<T, int>)
    requires forall x :: x in s ==> At(f, x) == 1
    ensures Sum(s, f) == |s|
  {
    if s != {} {
      var x :| x in s;
      SumSplit(s, f, x);
      SumOnes(s - {x}, f);
    }
  }
}
