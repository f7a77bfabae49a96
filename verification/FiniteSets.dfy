/** Sizes of finite sets. */
module FiniteSets {

  lemma SubsetSize<T>(a: set<T>, b: set<T>)
    requires a <= b
    ensures |a| <= |b| && (|a| == |b| <==> a == b)
  {
    assert b == a + (b - a);
    assert |b| == |a| + |b - a|;
  }

  lemma UnionSize<T>(a: set<T>, b: set<T>)
    ensures |a + b| <= |a| + |b|
  {
    assert a + b == a + (b - a);
    assert b == (b - a) + (b * a);
  }

  lemma OneFewer<T>(all: set<T>, seen: set<T>, x: T)
    ensures x in all && x !in seen ==> |all - (seen + {x})| < |all - seen|
    ensures x !in all || x in seen ==> all - (seen + {x}) == all - seen
  {
    assert all - (seen + {x}) == all - seen - {x};
  }
}
