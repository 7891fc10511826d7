/** Access counts and the heap operations of <algorithm> over them (include/dfs/nameserver.h). The
    bodies are one implementation; callers use only what the C++ standard promises
    (section [alg.heap.operations] of ISO/IEC 14882). */
module AccessHeap {

  datatype AccessTime = AccessTime(times: int, address: string)

  function Parent(j: nat): (p: nat)
    requires j > 0
    ensures p < j
  {
    (j - 1) / 2
  }

  predicate Leq(s: seq<AccessTime>, i: nat, j: nat) {
    i < |s| && j < |s| && s[i].times <= s[j].times
  }

  /** `operator<` orders by falling `times`, so the library's max-heap is a min-heap on `times`. */
  predicate IsHeap(s: seq<AccessTime>) {
    forall j: nat :: 0 < j < |s| ==> Leq(s, Parent(j), j)
  }

  lemma {:induction false} HeapFrontLeast(s: seq<AccessTime>, j: nat)
    requires IsHeap(s) && j < |s|
    ensures s[0].times <= s[j].times
    decreases j
  {
    if j > 0 {
      assert Leq(s, Parent(j), j);
      HeapFrontLeast(s, Parent(j));
    }
  }

  function Swap(s: seq<AccessTime>, i: nat, j: nat): (r: seq<AccessTime>)
    requires i < |s| && j < |s|
    ensures |r| == |s|
    ensures multiset(r) == multiset(s)
  {
    SwapPermutes(s, i, j);
    s[i := s[j]][j := s[i]]
  }

  lemma SwapPermutes(s: seq<AccessTime>, i: nat, j: nat)
    requires i < |s| && j < |s|
    ensures multiset(s[i := s[j]][j := s[i]]) == multiset(s)
  {
    var t := s[i := s[j]];
    assert multiset(t) == multiset(s) - multiset{s[i]} + multiset{s[j]};
    assert multiset(t[j := s[i]]) == multiset(t) - multiset{t[j]} + multiset{s[i]};
  }

  /** Heap order, except that element i may be below its parent. */
  predicate HeapButUp(s: seq<AccessTime>, i: nat) {
    && i < |s|
    && (forall j: nat :: 0 < j < |s| && j != i ==> Leq(s, Parent(j), j))
    && (forall j: nat :: 0 < j < |s| && 0 < i && Parent(j) == i ==> Leq(s, Parent(i), j))
  }

  lemma SiftUpStep(s: seq<AccessTime>, i: nat)
    requires 0 < i < |s| && HeapButUp(s, i) && s[Parent(i)].times > s[i].times
    ensures HeapButUp(Swap(s, Parent(i), i), Parent(i))
  {
    var p := Parent(i);
    var r := Swap(s, p, i);
    forall j: nat | 0 < j < |s| && j != p ensures Leq(r, Parent(j), j) {
      if j != i {
        assert Leq(s, Parent(j), j);
        if Parent(j) == i { assert Leq(s, p, j); }
      }
    }
    forall j: nat | 0 < j < |s| && 0 < p && Parent(j) == p ensures Leq(r, Parent(p), j) {
      assert Leq(s, Parent(p), p);
      if j != i { assert Leq(s, p, j); }
    }
  }

  /** `push_heap`: the last element joins the heap before it. */
  method PushHeap(s: seq<AccessTime>) returns (r: seq<AccessTime>)
    requires |s| >= 1 && IsHeap(s[..|s| - 1])
    ensures IsHeap(r) && multiset(r) == multiset(s)
  {
    r := s;
    var i: nat := |s| - 1;
    forall j: nat | 0 < j < i ensures Leq(s, Parent(j), j) {
      assert Leq(s[..i], Parent(j), j);
    }
    while i > 0 && r[Parent(i)].times > r[i].times
      invariant HeapButUp(r, i) && multiset(r) == multiset(s)
    {
      SiftUpStep(r, i);
      r := Swap(r, Parent(i), i);
      i := Parent(i);
    }
  }

  /** Heap order below every parent from lo on, except possibly below i. */
  predicate HeapBut(s: seq<AccessTime>, lo: nat, i: nat) {
    && (forall j: nat :: 0 < j < |s| && lo <= Parent(j) != i ==> Leq(s, Parent(j), j))
    && (forall j: nat :: 0 < j < |s| && Parent(j) == i && 0 < i && lo <= Parent(i) ==> Leq(s, Parent(i), j))
  }

  predicate HeapFrom(s: seq<AccessTime>, lo: nat) {
    forall j: nat :: 0 < j < |s| && lo <= Parent(j) ==> Leq(s, Parent(j), j)
  }

  /** c is the lesser child of i. */
  predicate LeastChild(s: seq<AccessTime>, i: nat, c: nat) {
    0 < c < |s| && Parent(c) == i && forall j: nat :: 0 < j < |s| && Parent(j) == i ==> Leq(s, c, j)
  }

  lemma SiftDownStep(s: seq<AccessTime>, lo: nat, i: nat, c: nat)
    requires lo <= i && HeapBut(s, lo, i) && LeastChild(s, i, c) && s[i].times > s[c].times
    ensures HeapBut(Swap(s, i, c), lo, c)
  {
    var r := Swap(s, i, c);
    forall j: nat | 0 < j < |s| && lo <= Parent(j) != c ensures Leq(r, Parent(j), j) {
      if Parent(j) == i {
        if j != c { assert Leq(s, c, j); }
      } else {
        assert Leq(s, Parent(j), j);
        if j == i { assert Leq(s, Parent(i), c); }
      }
    }
    forall j: nat | 0 < j < |s| && Parent(j) == c ensures Leq(r, Parent(c), j) {
      assert Leq(s, Parent(j), j);
    }
  }

  method SiftDown(s: seq<AccessTime>, lo: nat, start: nat) returns (r: seq<AccessTime>)
    requires lo <= start && HeapBut(s, lo, start)
    ensures |r| == |s| && multiset(r) == multiset(s) && HeapFrom(r, lo)
  {
    r := s;
    var i := start;
    while 2 * i + 1 < |r|
      invariant lo <= i && |r| == |s| && multiset(r) == multiset(s) && HeapBut(r, lo, i)
      decreases |r| - i
    {
      var child := 2 * i + 1;
      if child + 1 < |r| && r[child + 1].times < r[child].times {
        child := child + 1;
      }
      ChildIsLeast(r, i, child);
      if r[i].times <= r[child].times {
        forall j: nat | 0 < j < |r| && lo <= Parent(j) ensures Leq(r, Parent(j), j) {
          if Parent(j) == i { assert Leq(r, child, j); }
        }
        return;
      }
      SiftDownStep(r, lo, i, child);
      r := Swap(r, i, child);
      i := child;
    }
    LeafHasNoChild(r, i);
  }

  lemma LeafHasNoChild(s: seq<AccessTime>, i: nat)
    requires 2 * i + 1 >= |s|
    ensures forall j: nat :: 0 < j < |s| ==> Parent(j) != i
  {
  }

  lemma ChildIsLeast(s: seq<AccessTime>, i: nat, c: nat)
    requires 2 * i + 1 <= c <= 2 * i + 2 && c < |s|
    requires c == 2 * i + 1 ==> c + 1 < |s| ==> s[c].times <= s[c + 1].times
    requires c == 2 * i + 2 ==> s[c].times <= s[c - 1].times
    ensures LeastChild(s, i, c)
  {
    forall j: nat | 0 < j < |s| && Parent(j) == i ensures Leq(s, c, j) {
      assert j == 2 * i + 1 || j == 2 * i + 2;
    }
  }

  /** `pop_heap`: the front moves to the end, the rest is a heap again. */
  method PopHeap(s: seq<AccessTime>) returns (r: seq<AccessTime>)
    requires |s| >= 1 && IsHeap(s)
    ensures |r| == |s| && multiset(r) == multiset(s)
    ensures r[|r| - 1] == s[0] && IsHeap(r[..|r| - 1])
  {
    var k := |s| - 1;
    var t := Swap(s, 0, k);
    forall j: nat | 0 < j < k && Parent(j) != 0 ensures Leq(t[..k], Parent(j), j) {
      assert Leq(s, Parent(j), j);
    }
    var front := SiftDown(t[..k], 0, 0);
    r := front + [t[k]];
    assert t == t[..k] + [t[k]];
    assert r[..k] == front;
  }

  /** `make_heap`. */
  method MakeHeap(s: seq<AccessTime>) returns (r: seq<AccessTime>)
    ensures IsHeap(r) && multiset(r) == multiset(s) && |r| == |s|
  {
    r := s;
    var lo := |s|;
    while lo > 0
      invariant 0 <= lo <= |s| == |r| && multiset(r) == multiset(s) && HeapFrom(r, lo)
    {
      lo := lo - 1;
      r := SiftDown(r, lo, lo);
    }
  }
}
