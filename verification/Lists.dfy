/** Lists as sets: which elements they hold, and whether any stands in two places. */
module Lists {

  function Elements<T>(s: seq<T>): set<T> {
    set x | x in s
  }

  predicate NoRepeats<T(==)>(s: seq<T>) {
    forall i, j :: 0 <= i < j < |s| ==> s[i] != s[j]
  }

  lemma Reassociate<T>(a: seq<T>, b: seq<T>, c: seq<T>)
    ensures a + b + c == a + (b + c)
    ensures a + [] == a
  {
  }

  lemma AppendLast<T>(a: seq<T>, b: seq<T>)
    requires b != []
    ensures a + b == a + b[..|b| - 1] + [b[|b| - 1]]
  {
  }

  lemma NoElements<T>(s: seq<T>)
    requires Elements(s) == {}
    ensures s == []
  {
    if s != [] {
      FirstElement(s);
    }
  }

  lemma FirstElement<T>(s: seq<T>)
    requires s != []
    ensures s[0] in Elements(s)
  {
  }

  lemma ElementsSingle<T>(x: T)
    ensures Elements([x]) == {x}
  {
  }

  lemma ElementsConcat<T>(s: seq<T>, t: seq<T>)
    ensures Elements(s + t) == Elements(s) + Elements(t)
  {
  }

  lemma ElementsAppended<T>(s: seq<T>, x: T)
    ensures Elements(s + [x]) == Elements(s) + {x}
  {
  }

  lemma ElementsStep<T>(s: seq<T>)
    requires s != []
    ensures s == [s[0]] + s[1..]
    ensures Elements(s) == {s[0]} + Elements(s[1..])
  {
    assert s == [s[0]] + s[1..];
    ElementsConcat([s[0]], s[1..]);
    ElementsSingle(s[0]);
  }

  /** A list has no repeats exactly when both parts have none and share nothing. */
  lemma NoRepeatsConcat<T>(s: seq<T>, t: seq<T>)
    ensures NoRepeats(s + t) <==> NoRepeats(s) && NoRepeats(t) && Elements(s) !! Elements(t)
  {
    if NoRepeats(s + t) {
      PartsWithoutRepeats(s, t);
    }
    if NoRepeats(s) && NoRepeats(t) && Elements(s) !! Elements(t) {
      forall i, j | 0 <= i < j < |s + t|
        ensures (s + t)[i] != (s + t)[j]
      {
        if i < |s| <= j {
          assert s[i] in Elements(s) && t[j - |s|] in Elements(t);
        }
      }
    }
  }

  lemma PartsWithoutRepeats<T>(s: seq<T>, t: seq<T>)
    requires NoRepeats(s + t)
    ensures NoRepeats(s) && NoRepeats(t) && Elements(s) !! Elements(t)
  {
    forall i, j | 0 <= i < j < |s|
      ensures s[i] != s[j]
    {
      assert (s + t)[i] == s[i] && (s + t)[j] == s[j];
    }
    forall i, j | 0 <= i < j < |t|
      ensures t[i] != t[j]
    {
      assert (s + t)[|s| + i] == t[i] && (s + t)[|s| + j] == t[j];
    }
    forall x | x in s
      ensures x !in t
    {
      var i :| 0 <= i < |s| && s[i] == x;
      assert forall j :: 0 <= j < |t| ==> (s + t)[i] != (s + t)[|s| + j] == t[j];
    }
  }

  lemma NoRepeatsAppended<T>(s: seq<T>, x: T)
    requires NoRepeats(s) && x !in Elements(s)
    ensures NoRepeats(s + [x])
  {
  }

  lemma TailWithoutHead<T>(s: seq<T>)
    requires s != [] && NoRepeats(s)
    ensures NoRepeats(s[1..]) && s[0] !in Elements(s[1..])
  {
    ElementsStep(s);
    NoRepeatsConcat([s[0]], s[1..]);
    ElementsSingle(s[0]);
  }

  /** A list has at most as many elements as places, and as many exactly if it has no repeats. */
  lemma {:induction false} CountElements<T>(s: seq<T>)
    ensures |Elements(s)| <= |s|
    ensures NoRepeats(s) ==> |Elements(s)| == |s|
  {
    if s != [] {
      ElementsStep(s);
      CountElements(s[1..]);
      if NoRepeats(s) {
        TailWithoutHead(s);
      }
    }
  }

  /** The elements of any set can be listed. */
  lemma {:induction false} ListOf<T>(s: set<T>) returns (xs: seq<T>)
    ensures NoRepeats(xs) && Elements(xs) == s
    decreases s
  {
    if s == {} {
      xs := [];
    } else {
      var x :| x in s;
      var rest := ListOf(s - {x});
      xs := rest + [x];
      NoRepeatsAppended(rest, x);
      ElementsAppended(rest, x);
    }
  }
}
