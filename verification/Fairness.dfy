/** How evenly `get_least_access` spreads requests between two resets (include/dfs/nameserver.h). */
module Fairness {
  import opened AccessHeap
  import opened Cluster

  function Total(s: seq<AccessTime>): int {
    if s == [] then 0 else s[0].times + Total(s[1..])
  }

  lemma {:induction false} TotalConcat(a: seq<AccessTime>, b: seq<AccessTime>)
    ensures Total(a + b) == Total(a) + Total(b)
  {
    if a == [] {
      assert a + b == b;
    } else {
      TotalConcat(a[1..], b);
      assert (a + b)[1..] == a[1..] + b;
    }
  }

  lemma {:induction false} RemoveAt(b: seq<AccessTime>, i: nat)
    requires i < |b|
    ensures multiset(b) == multiset(b[..i] + b[i + 1..]) + multiset{b[i]}
    ensures Total(b) == Total(b[..i] + b[i + 1..]) + b[i].times
  {
    assert b == b[..i] + ([b[i]] + b[i + 1..]);
    assert ([b[i]] + b[i + 1..])[1..] == b[i + 1..];
    TotalConcat(b[..i], [b[i]] + b[i + 1..]);
    TotalConcat(b[..i], b[i + 1..]);
  }

  lemma {:induction false} TotalPermutation(a: seq<AccessTime>, b: seq<AccessTime>)
    requires multiset(a) == multiset(b)
    ensures Total(a) == Total(b) && |a| == |b|
  {
    hide Total;
    assert |multiset(a)| == |multiset(b)|;
    if a == [] {
      assert b == [];
    } else {
      assert a[0] in multiset(b);
      var i :| 0 <= i < |b| && b[i] == a[0];
      RemoveAt(a, 0);
      RemoveAt(b, i);
      var a', b' := a[..0] + a[1..], b[..i] + b[i + 1..];
      assert multiset(a') == multiset(a) - multiset{a[0]};
      assert multiset(b') == multiset(b) - multiset{b[i]};
      TotalPermutation(a', b');
    }
  }

  /** How often an address was chosen. */
  function Count(picks: seq<string>, a: string): (n: nat)
    ensures n <= |picks|
  {
    if picks == [] then 0
    else Count(picks[..|picks| - 1], a) + if picks[|picks| - 1] == a then 1 else 0
  }

  /** Counts within one of each other, from m up. */
  predicate Even(s: seq<AccessTime>, m: int) {
    forall i :: 0 <= i < |s| ==> m <= s[i].times <= m + 1
  }

  /** Even counts are the quotient, or one more when something is left over. */
  lemma {:induction false} EvenTotal(s: seq<AccessTime>, m: int)
    requires Even(s, m)
    ensures |s| * m <= Total(s) <= |s| * m + |s|
    ensures Total(s) == |s| * m ==> forall i :: 0 <= i < |s| ==> s[i].times == m
    ensures s != [] && s[0].times == m ==> Total(s) < |s| * m + |s|
  {
    if s != [] {
      var tail := s[1..];
      assert Even(tail, m) by {
        assert forall i :: 0 <= i < |tail| ==> tail[i] == s[i + 1];
      }
      EvenTotal(tail, m);
      assert |s| * m == |tail| * m + m;
      if Total(s) == |s| * m {
        forall i | 0 <= i < |s| ensures s[i].times == m {
          if i > 0 { assert tail[i - 1] == s[i]; }
        }
      }
    }
  }

  lemma Quotient(k: int, n: int, m: int)
    requires n > 0 && n * m <= k < n * m + n
    ensures k / n == m && k % n == k - n * m
  {
    Multiples(n, k / n - m);
    assert n * (k / n - m) == n * (k / n) - n * m;
  }

  lemma Multiples(n: int, d: int)
    requires n > 0
    ensures d >= 1 ==> n * d >= n
    ensures d <= -1 ==> n * d <= -n
  {
  }

  /** Successive calls, with the address that each returned. */
  ghost predicate AccessRun(states: seq<Cluster>, picks: seq<string>) {
    && |states| == |picks| + 1
    && forall i :: 0 <= i < |picks| ==> LeastAccess(states[i], states[i + 1], picks[i])
  }

  /** What holds after any number of calls: the counts are those of the calls so far, add up to their
      number, and are even; the available set is unchanged. */
  ghost predicate Balanced(start: Cluster, c: Cluster, picks: seq<string>) {
    && Inv(c) && |c.heap| == |start.heap| && c.heap != []
    && Total(c.heap) == |picks|
    && (forall e :: e in multiset(c.heap) ==> e.times == Count(picks, e.address))
    && Even(c.heap, c.heap[0].times)
    && (forall a :: HasAddress(multiset(c.heap), a) <==> HasAddress(multiset(start.heap), a))
  }

  lemma HeapDistinct(c: Cluster)
    requires Inv(c)
    ensures DistinctSlots(c.heap)
  {
    hide IsHeap, Covers, AllLiving;
    var m := multiset(c.heap);
    forall e ensures m[e] == 0 || m[e] == Entries(c)[e] {
      assert e in m ==> e in Entries(c) && Entries(c)[e] >= m[e];
    }
    UniqueSubset(Entries(c), m);
    UniqueIffDistinct(c.heap);
  }

  lemma {:induction false} TotalZero(s: seq<AccessTime>)
    requires forall i :: 0 <= i < |s| ==> s[i].times == 0
    ensures Total(s) == 0
  {
    if s != [] {
      TotalZero(s[1..]);
    }
  }

  lemma BalancedAtStart(c: Cluster)
    requires Inv(c) && c.heap != []
    ensures Balanced(Reset(c), Reset(c), [])
  {
    hide Inv, IsHeap, Leq;
    ResetKeepsInv(c);
    TotalZero(Reset(c).heap);
    forall e | e in multiset(Reset(c).heap) ensures e.times == Count([], e.address) {
    }
  }

  lemma {:induction false} StepTotal(h: seq<AccessTime>, h': seq<AccessTime>)
    requires h != [] && multiset(h') == multiset([AccessTime(h[0].times + 1, h[0].address)] + h[1..])
    ensures Total(h') == Total(h) + 1 && |h'| == |h|
  {
    var n := [AccessTime(h[0].times + 1, h[0].address)] + h[1..];
    TotalPermutation(h', n);
    assert n[1..] == h[1..];
  }

  /** Membership after a call: the counted front, or an entry that was not at the front. */
  lemma StepMember(h: seq<AccessTime>, h': seq<AccessTime>, e: AccessTime)
    requires h != [] && multiset(h') == multiset([AccessTime(h[0].times + 1, h[0].address)] + h[1..])
    ensures e in multiset(h') <==> e == AccessTime(h[0].times + 1, h[0].address) || e in multiset(h[1..])
  {
  }

  lemma {:induction false} StepCounts(h: seq<AccessTime>, h': seq<AccessTime>, picks: seq<string>)
    requires h != [] && DistinctSlots(h)
    requires multiset(h') == multiset([AccessTime(h[0].times + 1, h[0].address)] + h[1..])
    requires forall e :: e in multiset(h) ==> e.times == Count(picks, e.address)
    ensures forall e :: e in multiset(h') ==> e.times == Count(picks + [h[0].address], e.address)
  {
    var picks' := picks + [h[0].address];
    assert picks'[..|picks|] == picks;
    assert h[0] in multiset(h);
    forall e | e in multiset(h') ensures e.times == Count(picks', e.address) {
      StepMember(h, h', e);
      if e in multiset(h[1..]) {
        var i :| 0 <= i < |h[1..]| && h[1..][i] == e;
        assert h[i + 1] == e && h[0].address != h[i + 1].address;
        assert e in multiset(h);
      }
    }
  }

  lemma StepEven(h: seq<AccessTime>, h': seq<AccessTime>)
    requires h != [] && Even(h, h[0].times) && IsHeap(h')
    requires multiset(h') == multiset([AccessTime(h[0].times + 1, h[0].address)] + h[1..])
    ensures h' != [] && Even(h', h'[0].times)
  {
    StepTotal(h, h');
    forall i | 0 <= i < |h'| ensures h'[0].times <= h'[i].times <= h'[0].times + 1 {
      HeapFrontLeast(h', i);
      StepRange(h, h', h'[0]);
      StepRange(h, h', h'[i]);
    }
  }

  lemma StepRange(h: seq<AccessTime>, h': seq<AccessTime>, e: AccessTime)
    requires h != [] && Even(h, h[0].times) && e in h'
    requires multiset(h') == multiset([AccessTime(h[0].times + 1, h[0].address)] + h[1..])
    ensures h[0].times <= e.times <= h[0].times + 1
  {
    StepMember(h, h', e);
    if e in multiset(h[1..]) {
      var i :| 0 <= i < |h[1..]| && h[1..][i] == e;
      assert h[i + 1] == e;
    }
  }

  lemma StepAddresses(h: seq<AccessTime>, h': seq<AccessTime>, a: string)
    requires h != [] && multiset(h') == multiset([AccessTime(h[0].times + 1, h[0].address)] + h[1..])
    ensures HasAddress(multiset(h'), a) <==> HasAddress(multiset(h), a)
  {
    var new_ := AccessTime(h[0].times + 1, h[0].address);
    assert h == [h[0]] + h[1..];
    assert h[0] in multiset(h);
    StepMember(h, h', new_);
    if e :| e in multiset(h) && e.address == a {
      if e != h[0] { StepMember(h, h', e); }
    }
    if e :| e in multiset(h') && e.address == a {
      StepMember(h, h', e);
    }
  }

  lemma BalancedStep(start: Cluster, c: Cluster, picks: seq<string>, c': Cluster, pick: string)
    requires Balanced(start, c, picks) && LeastAccess(c, c', pick)
    ensures Balanced(start, c', picks + [pick])
  {
    hide Inv, IsHeap, Even, Total, Count, DistinctSlots, HasAddress;
    LeastAccessKeepsInv(c, c', pick);
    HeapDistinct(c);
    StepTotal(c.heap, c'.heap);
    StepCounts(c.heap, c'.heap, picks);
    StepEven(c.heap, c'.heap);
    forall a ensures HasAddress(multiset(c'.heap), a) <==> HasAddress(multiset(c.heap), a) {
      StepAddresses(c.heap, c'.heap, a);
    }
  }

  lemma {:induction false} BalancedRun(start: Cluster, states: seq<Cluster>, picks: seq<string>)
    requires Inv(start) && start.heap != [] && AccessRun(states, picks) && states[0] == Reset(start)
    ensures Balanced(states[0], states[|picks|], picks)
    decreases |picks|
  {
    hide Balanced, Inv, LeastAccess, Reset;
    var k := |picks|;
    if k == 0 {
      BalancedAtStart(start);
      assert picks == [];
    } else {
      BalancedRun(start, states[..k], picks[..k - 1]);
      BalancedStep(states[0], states[k - 1], picks[..k - 1], states[k], picks[k - 1]);
      assert picks[..k - 1] + [picks[k - 1]] == picks;
    }
  }

  /** After a reset and any k calls with a fixed set of n available servers, every available server
      has been chosen floor(k / n) or ceil(k / n) times, and the counters add up to k. */
  lemma {:induction false} FairShare(start: Cluster, states: seq<Cluster>, picks: seq<string>, a: string)
    requires Inv(start) && AccessRun(states, picks) && states[0] == Reset(start)
    requires HasAddress(multiset(start.heap), a)
    ensures var k, n := |picks|, |start.heap|;
            n > 0 && (Count(picks, a) == k / n || (k % n != 0 && Count(picks, a) == k / n + 1))
    ensures Total(states[|picks|].heap) == |picks|
  {
    hide Inv, LeastAccess, Count, IsHeap, Total, Zeroed;
    assert start.heap != [];
    BalancedRun(start, states, picks);
    var h, k, n := states[|picks|].heap, |picks|, |start.heap|;
    ZeroedHas(start.heap, a);
    assert HasAddress(multiset(h), a);
    var e: AccessTime :| e in multiset(h) && e.address == a;
    var i :| 0 <= i < |h| && h[i] == e;
    EvenTotal(h, h[0].times);
    Quotient(k, n, h[0].times);
  }
}
