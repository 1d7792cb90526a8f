/** What several modules need to know about sequences and sets. */
module Collections {
  function SetOf<T(!new)>(s: seq<T>): (r: set<T>)
    ensures forall x :: x in r <==> x in s
  {
    set x | x in s
  }

  ghost predicate Distinct<T>(s: seq<T>) {
    forall i, j :: 0 <= i < j < |s| ==> s[i] != s[j]
  }

  lemma SubsetSmaller<T>(small: set<T>, large: set<T>)
    requires small <= large
    ensures |small| <= |large| && (small != large ==> |small| < |large|)
  {
    assert large == small + (large - small);
    assert small != large ==> |large - small| > 0;
  }

  lemma {:induction false} SetOfSize<T(!new)>(s: seq<T>)
    ensures |SetOf(s)| <= |s| && (Distinct(s) ==> |SetOf(s)| == |s|)
  {
    if s != [] {
      var front, last := s[..|s| - 1], s[|s| - 1];
      SetOfSize(front);
      assert s == front + [last];
      assert SetOf(s) == SetOf(front) + {last};
    }
  }
}
