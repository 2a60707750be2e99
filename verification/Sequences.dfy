/** Facts about sequences and the sets of their elements that several modules count with. */
module Sequences {

  function Repeat<T>(x: T, n: nat): (s: seq<T>)
    ensures |s| == n && forall i :: 0 <= i < n ==> s[i] == x
  {
    seq(n, i => x)
  }

  function Elements(t: seq<nat>): set<nat> {
    set i | i in t
  }

  lemma {:induction false} FewElements(t: seq<nat>)
    ensures |Elements(t)| <= |t|
  {
    if t != [] {
      var init, x := t[..|t| - 1], t[|t| - 1];
      FewElements(init);
      assert t == init + [x];
      assert Elements(t) == Elements(init) + {x};
    }
  }

  lemma {:induction false} DistinctElements(t: seq<nat>)
    requires forall j, k :: 0 <= j < k < |t| ==> t[j] != t[k]
    ensures |Elements(t)| == |t|
  {
    if t != [] {
      var init, x := t[..|t| - 1], t[|t| - 1];
      DistinctElements(init);
      assert t == init + [x];
      assert Elements(t) == Elements(init) + {x} && x !in Elements(init);
    }
  }

  lemma Fewer(a: set<nat>, b: set<nat>)
    requires a <= b
    ensures |a| <= |b|
  {
    assert b == a + (b - a);
  }
}
