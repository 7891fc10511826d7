/** The `DataCluster` class: an array split into a heap of available servers and a tail of
    unavailable ones, next to a map of health clients (include/dfs/nameserver.h). Its methods are
    proved to take the steps of module Cluster. */
module DataClusters {
  import opened AccessHeap
  import opened HealthCheck
  import opened Cluster

  // ---------- facts about the array ----------

  /** Swapping two elements, with its effect spelled out. */
  function SwapTo(s: seq<AccessTime>, i: nat, j: nat): (r: seq<AccessTime>)
    requires i < |s| && j < |s|
    ensures |r| == |s| && r[j] == s[i] && r[i] == s[j]
    ensures forall k :: 0 <= k < |s| && k != i && k != j ==> r[k] == s[k]
    ensures multiset(r) == multiset(s)
  {
    Swap(s, i, j)
  }

  lemma SameSize(a: seq<AccessTime>, b: seq<AccessTime>)
    requires multiset(a) == multiset(b)
    ensures |a| == |b|
  {
    assert |multiset(a)| == |multiset(b)|;
  }

  lemma InvHeap(c: Cluster)
    requires Inv(c)
    ensures IsHeap(c.heap) && DistinctSlots(c.heap + c.tail)
  {
    hide IsHeap, Covers, AllLiving;
    assert multiset(c.heap + c.tail) == Entries(c);
    UniqueIffDistinct(c.heap + c.tail);
  }

  lemma NoEntry(s: seq<AccessTime>, a: string)
    requires forall i :: 0 <= i < |s| ==> s[i].address != a
    ensures !HasAddress(multiset(s), a)
    ensures forall e: AccessTime :: e.address == a ==> multiset(s)[e] == 0
  {
    forall e: AccessTime | e.address == a ensures e !in multiset(s) {
    }
  }

  lemma DistinctParts(s: seq<AccessTime>, k: nat)
    requires DistinctSlots(s) && k <= |s|
    ensures DistinctSlots(s[..k]) && DistinctSlots(s[k..])
  {
  }

  lemma CountsOfDistinct(s: seq<AccessTime>, k: nat)
    requires DistinctSlots(s) && k < |s|
    ensures forall e :: (multiset(s) - multiset{s[k]})[e] == if e.address == s[k].address then 0 else multiset(s)[e]
    ensures forall e :: multiset{s[k]}[e] == if e.address == s[k].address then multiset(s)[e] else 0
  {
    UniqueIffDistinct(s);
    assert s[k] in multiset(s);
    hide DistinctSlots;
    forall e
      ensures (multiset(s) - multiset{s[k]})[e] == if e.address == s[k].address then 0 else multiset(s)[e]
      ensures multiset{s[k]}[e] == if e.address == s[k].address then multiset(s)[e] else 0
    {
      if e.address == s[k].address && e != s[k] { assert e !in multiset(s); }
    }
  }

  /** Swapping element k to the end and dropping it removes exactly that element. */
  lemma DropCounts(s: seq<AccessTime>, k: nat)
    requires k < |s|
    ensures multiset(SwapTo(s, |s| - 1, k)[..|s| - 1]) == multiset(s) - multiset{s[k]}
  {
    hide SwapTo;
    var t := SwapTo(s, |s| - 1, k);
    assert t == t[..|s| - 1] + [s[k]];
  }

  // ---------- the array algorithms ----------

  /** After the swap that brings element i to the front of the tail. */
  lemma ToFront(s: seq<AccessTime>, k: nat, i: nat)
    requires k <= i < |s|
    ensures var t := SwapTo(s, k, i);
            t[..k] == s[..k] && t[..k + 1] == s[..k] + [s[i]]
            && multiset(t[k + 1..]) == multiset(s[k..]) - multiset{s[i]}
  {
    hide SwapTo;
    var t := SwapTo(s, k, i);
    assert t[..k] == s[..k] && t[..k + 1] == s[..k] + [s[i]];
    Halves(s, k);
    Halves(t, k + 1);
    var front, rest := multiset(s[..k]), multiset(t[k + 1..]);
    assert front + multiset(s[k..]) == front + (multiset{s[i]} + rest);
    Cancel(front, multiset(s[k..]), multiset{s[i]} + rest);
  }

  lemma Cancel(a: multiset<AccessTime>, b: multiset<AccessTime>, c: multiset<AccessTime>)
    requires a + b == a + c
    ensures b == c
  {
    forall e ensures b[e] == c[e] {
      assert (a + b)[e] == a[e] + b[e] && (a + c)[e] == a[e] + c[e];
    }
  }

  lemma Halves(s: seq<AccessTime>, k: nat)
    requires k <= |s|
    ensures multiset(s) == multiset(s[..k]) + multiset(s[k..])
  {
    assert s == s[..k] + s[k..];
  }

  /** Restore heap order of the first n elements after the last of them joined. */
  method PushAvailable(s: seq<AccessTime>, n: nat) returns (r: seq<AccessTime>)
    requires 1 <= n <= |s| && IsHeap(s[..n - 1])
    ensures |r| == |s| && r[n..] == s[n..] && IsHeap(r[..n]) && multiset(r[..n]) == multiset(s[..n])
  {
    hide *;
    assert s[..n][..n - 1] == s[..n - 1];
    var heap := PushHeap(s[..n]);
    SameSize(heap, s[..n]);
    r := heap + s[n..];
    assert r[..n] == heap && r[n..] == s[n..];
  }

  /** Take element i of the tail into the heap that ends at k. */
  method Admit(s: seq<AccessTime>, k: nat, i: nat) returns (r: seq<AccessTime>)
    requires k <= i < |s| && IsHeap(s[..k])
    ensures |r| == |s| && IsHeap(r[..k + 1])
    ensures multiset(r[..k + 1]) == multiset(s[..k]) + multiset{s[i]}
    ensures multiset(r[k + 1..]) == multiset(s[k..]) - multiset{s[i]}
  {
    hide *;
    ToFront(s, k, i);
    var t := s;
    if i > k {
      t := SwapTo(s, k, i);
    } else {
      SwapSelf(s, k);
    }
    assert t[..k + 1][..k] == t[..k];
    assert multiset(s[..k] + [s[i]]) == multiset(s[..k]) + multiset{s[i]};
    r := PushAvailable(t, k + 1);
  }

  lemma SwapSelf(s: seq<AccessTime>, k: nat)
    requires k < |s|
    ensures SwapTo(s, k, k) == s
  {
  }

  /** The entries with address a have left the heap for the tail; everything else stayed. */
  ghost predicate Moved(heap: seq<AccessTime>, tail: seq<AccessTime>,
                        heap': seq<AccessTime>, tail': seq<AccessTime>, a: string) {
    && (forall e :: multiset(heap')[e] == if e.address == a then 0 else multiset(heap)[e])
    && (forall e :: multiset(tail')[e] == multiset(tail)[e] + if e.address == a then multiset(heap)[e] else 0)
  }

  ghost predicate Free(s: seq<AccessTime>, n: int, a: string)
    requires n <= |s|
  {
    forall i :: 0 <= i < n ==> s[i].address != a
  }

  /** One round of `unavail_server` at a match: swap to the end of the heap, shrink it, rebuild it. */
  method Evict(s: seq<AccessTime>, k: nat, i: nat) returns (r: seq<AccessTime>)
    requires i < k <= |s| && DistinctSlots(s[..k])
    ensures |r| == |s| && IsHeap(r[..k - 1]) && Free(r, k - 1, s[i].address)
    ensures Moved(s[..k], s[k..], r[..k - 1], r[k - 1..], s[i].address)
  {
    hide *;
    var t := s;
    if i < k - 1 {
      t := SwapTo(s, i, k - 1);
    } else {
      SwapSelf(s, i);
    }
    var made := MakeHeap(t[..k - 1]);
    SameSize(made, t[..k - 1]);
    r := made + t[k - 1..];
    EvictMoves(s, k, i, t, made, r);
  }

  lemma EvictMoves(s: seq<AccessTime>, k: nat, i: nat, t: seq<AccessTime>, made: seq<AccessTime>, r: seq<AccessTime>)
    requires i < k <= |s| && DistinctSlots(s[..k]) && t == SwapTo(s, i, k - 1)
    requires multiset(made) == multiset(t[..k - 1]) && |made| == k - 1 && r == made + t[k - 1..]
    ensures r[..k - 1] == made && Free(r, k - 1, s[i].address)
    ensures Moved(s[..k], s[k..], made, r[k - 1..], s[i].address)
  {
    hide SwapTo, DistinctSlots, Moved;
    var heap := s[..k];
    SwapTwice(s, k, i);
    assert r[k - 1..] == [s[i]] + s[k..];
    MovedCounts(heap, i, s[k..], made, r[k - 1..]);
    forall j | 0 <= j < k - 1 ensures r[j].address != s[i].address {
      assert made[j] in multiset(made);
      MovedFree(heap, s[k..], made, r[k - 1..], s[i].address, made[j]);
    }
  }

  lemma MovedCounts(heap: seq<AccessTime>, i: nat, tail: seq<AccessTime>, made: seq<AccessTime>, tail': seq<AccessTime>)
    requires DistinctSlots(heap) && i < |heap| && tail' == [heap[i]] + tail
    requires multiset(made) == multiset(SwapTo(heap, |heap| - 1, i)[..|heap| - 1])
    ensures Moved(heap, tail, made, tail', heap[i].address)
  {
    hide SwapTo, DistinctSlots;
    CountsOfDistinct(heap, i);
    DropCounts(heap, i);
    assert multiset(tail') == multiset{heap[i]} + multiset(tail);
  }

  lemma MovedFree(heap: seq<AccessTime>, tail: seq<AccessTime>, heap': seq<AccessTime>, tail': seq<AccessTime>,
                  a: string, e: AccessTime)
    requires Moved(heap, tail, heap', tail', a) && e in multiset(heap')
    ensures e.address != a
  {
    assert multiset(heap')[e] > 0;
  }

  lemma SwapTwice(s: seq<AccessTime>, k: nat, i: nat)
    requires i < k <= |s|
    ensures SwapTo(s, i, k - 1)[..k - 1] == SwapTo(s[..k], k - 1, i)[..k - 1]
  {
  }

  /** `unavail_server`: the scan goes on after the move, over a shorter heap. */
  method Unavailable(s: seq<AccessTime>, n: nat, a: string) returns (r: seq<AccessTime>, k: nat)
    requires n <= |s| && DistinctSlots(s) && IsHeap(s[..n])
    ensures k <= |r| == |s| && IsHeap(r[..k])
    ensures Moved(s[..n], s[n..], r[..k], r[k..], a)
  {
    hide *;
    r, k := s, n;
    DistinctParts(s, n);
    FreeNone(s, a);
    var i := 0;
    ghost var moved := false;
    while i < k
      invariant k <= |r| == |s| && IsHeap(r[..k]) && 0 <= i
      invariant !moved ==> r == s && k == n && i <= k && Free(s, i, a)
      invariant moved ==> Free(r, k, a) && Moved(s[..n], s[n..], r[..k], r[k..], a)
      decreases k - i
    {
      if r[i].address == a {
        if moved { NotFree(r, k, a, i); }
        r := Evict(r, k, i);
        k := k - 1;
        moved := true;
      } else if !moved {
        FreeExtend(s, i, a);
      }
      i := i + 1;
    }
    if !moved {
      assert i == n;
      NothingMoved(s, n, a);
    }
  }

  lemma FreeNone(s: seq<AccessTime>, a: string)
    ensures Free(s, 0, a)
  {
  }

  lemma NotFree(s: seq<AccessTime>, n: nat, a: string, i: nat)
    requires i < n <= |s| && Free(s, n, a)
    ensures s[i].address != a
  {
  }

  lemma FreeExtend(s: seq<AccessTime>, i: nat, a: string)
    requires i < |s| && Free(s, i, a) && s[i].address != a
    ensures Free(s, i + 1, a)
  {
  }

  lemma NothingMoved(s: seq<AccessTime>, n: nat, a: string)
    requires n <= |s| && Free(s, n, a)
    ensures Moved(s[..n], s[n..], s[..n], s[n..], a)
  {
    NoEntry(s[..n], a);
  }

  /** Entries with address a are gone. */
  ghost predicate Dropped(tail: seq<AccessTime>, tail': seq<AccessTime>, a: string) {
    forall e :: multiset(tail')[e] == if e.address == a then 0 else multiset(tail)[e]
  }

  /** Scan from the end down to n for an address. */
  method FindInTail(s: seq<AccessTime>, n: nat, a: string) returns (i: int)
    requires n <= |s|
    ensures n - 1 <= i < |s|
    ensures i >= n ==> s[i].address == a
    ensures i < n ==> !HasAddress(multiset(s[n..]), a) && Dropped(s[n..], s[n..], a)
  {
    i := |s| - 1;
    while i >= n && s[i].address != a
      invariant n - 1 <= i < |s|
      invariant forall j :: i < j < |s| ==> s[j].address != a
      decreases i
    {
      i := i - 1;
    }
    if i < n {
      NoEntry(s[n..], a);
    }
  }

  /** `remove_server`: only the tail is searched; the entry is swapped to the end and popped. */
  method Remove(s: seq<AccessTime>, n: nat, a: string) returns (r: seq<AccessTime>)
    requires n <= |s| && DistinctSlots(s)
    ensures n <= |r| && r[..n] == s[..n] && Dropped(s[n..], r[n..], a)
  {
    hide *;
    DistinctParts(s, n);
    var i := FindInTail(s, n, a);
    r := s;
    if i >= n {
      if i < |s| - 1 {
        r := SwapTo(s, |s| - 1, i);
      } else {
        SwapSelf(s, i);
      }
      RemoveDrops(s, n, i, r);
      r := r[..|s| - 1];
    }
  }

  lemma RemoveDrops(s: seq<AccessTime>, n: nat, i: nat, t: seq<AccessTime>)
    requires n <= i < |s| && DistinctSlots(s[n..]) && t == SwapTo(s, |s| - 1, i)
    ensures t[..|s| - 1][..n] == s[..n] && Dropped(s[n..], t[..|s| - 1][n..], s[i].address)
  {
    hide *;
    var tail := s[n..];
    assert tail[i - n] == s[i];
    SwapSuffix(s, n, i);
    TailDrops(tail, i - n, t[..|s| - 1][n..]);
  }

  lemma TailDrops(tail: seq<AccessTime>, k: nat, tail': seq<AccessTime>)
    requires k < |tail| && DistinctSlots(tail) && tail' == SwapTo(tail, |tail| - 1, k)[..|tail| - 1]
    ensures Dropped(tail, tail', tail[k].address)
  {
    hide *;
    CountsOfDistinct(tail, k);
    DropCounts(tail, k);
    DroppedIs(tail, tail', k);
  }

  lemma DroppedIs(tail: seq<AccessTime>, tail': seq<AccessTime>, k: nat)
    requires k < |tail| && multiset(tail') == multiset(tail) - multiset{tail[k]}
    requires forall e :: (multiset(tail) - multiset{tail[k]})[e] ==
               if e.address == tail[k].address then 0 else multiset(tail)[e]
    ensures Dropped(tail, tail', tail[k].address)
  {
  }

  lemma SwapSuffix(s: seq<AccessTime>, n: nat, i: nat)
    requires n <= i < |s|
    ensures SwapTo(s, |s| - 1, i)[..|s| - 1][..n] == s[..n]
    ensures SwapTo(s, |s| - 1, i)[..|s| - 1][n..] == SwapTo(s[n..], |s| - 1 - n, i - n)[..|s| - 1 - n]
  {
  }

  /** Pop the front, count it once more, push it back. */
  method CountFront(s: seq<AccessTime>, n: nat) returns (r: seq<AccessTime>)
    requires 1 <= n <= |s| && IsHeap(s[..n])
    ensures |r| == |s| && r[n..] == s[n..] && IsHeap(r[..n])
    ensures multiset(r[..n]) == multiset([AccessTime(s[..n][0].times + 1, s[..n][0].address)] + s[..n][1..])
  {
    hide *;
    var popped := PopHeap(s[..n]);
    var counted := popped[n - 1].(times := popped[n - 1].times + 1);
    PoppedRest(s[..n], popped);
    var t := popped[..n - 1] + [counted] + s[n..];
    assert t[..n - 1] == popped[..n - 1] && t[..n] == popped[..n - 1] + [counted] && t[n..] == s[n..];
    assert multiset(t[..n]) == multiset(s[..n][1..]) + multiset{counted};
    r := PushAvailable(t, n);
    assert multiset([counted] + s[..n][1..]) == multiset{counted} + multiset(s[..n][1..]);
  }

  lemma PoppedRest(h: seq<AccessTime>, popped: seq<AccessTime>)
    requires h != [] && |popped| == |h| && multiset(popped) == multiset(h) && popped[|h| - 1] == h[0]
    ensures multiset(popped[..|h| - 1]) == multiset(h[1..])
  {
    assert popped == popped[..|h| - 1] + [h[0]];
    assert h == [h[0]] + h[1..];
    assert multiset(popped[..|h| - 1]) == multiset(popped) - multiset{h[0]};
    assert multiset(h[1..]) == multiset(h) - multiset{h[0]};
  }

  /** A new element joins the heap that ends at k. */
  method AddSlot(s: seq<AccessTime>, k: nat, n: AccessTime) returns (r: seq<AccessTime>)
    requires k <= |s| && IsHeap(s[..k])
    ensures |r| == |s| + 1 && IsHeap(r[..k + 1])
    ensures multiset(r[..k + 1]) == multiset(s[..k]) + multiset{n} && multiset(r[k + 1..]) == multiset(s[k..])
  {
    hide *;
    var t := s + [n];
    assert t[..k] == s[..k] && t[k..] == s[k..] + [n];
    assert multiset(t[k..]) - multiset{n} == multiset(s[k..]);
    r := Admit(t, k, |s|);
  }

  lemma ClearedIs(s: seq<AccessTime>, z: seq<AccessTime>, k: nat)
    requires IsCleared(s, z) && k <= |s|
    ensures IsCleared(s[..k], z[..k]) && IsCleared(s[k..], z[k..])
  {
  }

  /** The step of `reset`. */
  lemma ResetIs(c: Cluster, c': Cluster)
    requires IsCleared(c.heap, c'.heap) && IsCleared(c.tail, c'.tail) && c'.health == c.health && c'.ready == c.ready
    ensures c' == Reset(c)
  {
    ResetClears(c);
    assert c'.heap == Reset(c).heap && c'.tail == Reset(c).tail;
  }

  /** The step of `get_least_access`. */
  lemma AccessIs(c: Cluster, c': Cluster, address: string)
    requires c'.tail == c.tail && c'.health == c.health && c'.ready == c.ready
    requires c.heap == [] ==> c'.heap == [] && address == ""
    requires c.heap != [] ==>
               && address == c.heap[0].address && IsHeap(c'.heap)
               && multiset(c'.heap) == multiset([AccessTime(c.heap[0].times + 1, c.heap[0].address)] + c.heap[1..])
    ensures LeastAccess(c, c', address)
  {
    hide IsHeap;
  }

  /** The step of `add_server`, from its effect on the array and the map. */
  lemma AddIs(c: Cluster, c': Cluster, a: string, gid: int, now: nat)
    requires IsHeap(c'.heap) && multiset(c'.heap) == multiset(c.heap) + multiset{AccessTime(0, a)}
    requires multiset(c'.tail) == multiset(c.tail) && c'.ready == c.ready
    requires c'.health == c.health[a := Client(if c.ready then Living else NotReady, now, gid)]
    ensures Add(c, c', a, gid, now)
  {
    hide IsHeap;
  }

  /** The step of `reconnect`. */
  lemma ReconnectIs(c: Cluster, c': Cluster, a: string, now: nat, found: bool, e: AccessTime)
    requires a in c.health && IsHeap(c'.heap) && c'.ready == c.ready
    requires HasAddress(multiset(c.tail), a) <==> found
    requires found ==>
               && e in multiset(c.tail) && e.address == a
               && multiset(c'.heap) == multiset(c.heap) + multiset{e}
               && multiset(c'.tail) == multiset(c.tail) - multiset{e}
    requires !found ==> multiset(c'.heap) == multiset(c.heap) && multiset(c'.tail) == multiset(c.tail)
    requires c'.health.Keys == c.health.Keys
    requires forall b :: b in c'.health ==>
               c'.health[b] == if b == a then Client(Living, now, c.health[a].gid) else c.health[b]
    ensures Reconnect(c, c', a, now)
  {
    hide IsHeap, HasAddress;
    assert c'.health == c.health[a := Client(Living, now, c.health[a].gid)];
  }

  // ---------- one server's part of a health round ----------

  lemma PartRoundNone(c: Cluster, beats: map<string, Beat>, t: Times)
    requires IsHeap(c.heap)
    ensures PartRound(c, c, beats, t, {})
  {
    hide IsHeap;
  }

  lemma PartRoundAll(c: Cluster, c': Cluster, beats: map<string, Beat>, t: Times)
    requires PartRound(c, c', beats, t, c.health.Keys)
    ensures Round(c, c', beats, t)
  {
    hide IsHeap, Judge;
    assert forall a :: VerdictIn(c, beats, t, c.health.Keys, a) == VerdictOn(c, beats, t, a);
    hide VerdictIn, VerdictOn;
  }

  lemma PartRoundDistinct(c: Cluster, c': Cluster, beats: map<string, Beat>, t: Times, handled: set<string>)
    requires Inv(c) && PartRound(c, c', beats, t, handled)
    ensures DistinctSlots(c'.heap + c'.tail)
  {
    hide IsHeap, Covers, AllLiving, VerdictIn;
    forall e ensures Entries(c')[e] == 0 || Entries(c')[e] == Entries(c)[e] {
      assert e in Entries(c) ==> Entries(c)[e] == 1;
    }
    UniqueSubset(Entries(c), Entries(c'));
    assert multiset(c'.heap + c'.tail) == Entries(c');
    UniqueIffDistinct(c'.heap + c'.tail);
  }

  /** What handling server a does to the entries, given its verdict. */
  ghost predicate Handled(c: Cluster, c': Cluster, a: string, v: Verdict, cl: Client) {
    && IsHeap(c'.heap) && c'.ready == c.ready
    && (v == Keep ==> c'.heap == c.heap && c'.tail == c.tail)
    && (v == Delete ==> c'.heap == c.heap && Dropped(c.tail, c'.tail, a))
    && (v == Unavail ==> Moved(c.heap, c.tail, c'.heap, c'.tail, a))
    && c'.health.Keys == (if v == Delete then c.health.Keys - {a} else c.health.Keys)
    && (forall b :: b in c'.health && b in c.health ==> c'.health[b] == if b == a then cl else c.health[b])
  }

  lemma PartRoundStep(c: Cluster, m: Cluster, m': Cluster, beats: map<string, Beat>, t: Times,
                      handled: set<string>, a: string)
    requires PartRound(c, m, beats, t, handled) && a in c.health && a in beats && a !in handled && a in m.health
    requires Handled(m, m', a, VerdictOn(c, beats, t, a), Checked(c.health[a], beats[a], t))
    ensures PartRound(c, m', beats, t, handled + {a})
  {
    hide IsHeap, Checked, VerdictOn;
    var v := VerdictOn(c, beats, t, a);
    forall e
      ensures multiset(m'.heap)[e] ==
              if VerdictIn(c, beats, t, handled + {a}, e.address) == Unavail then 0 else multiset(c.heap)[e]
      ensures multiset(m'.tail)[e] ==
              (if VerdictIn(c, beats, t, handled + {a}, e.address) == Delete then 0 else multiset(c.tail)[e])
              + (if VerdictIn(c, beats, t, handled + {a}, e.address) == Unavail then multiset(c.heap)[e] else 0)
    {
      assert multiset(m.heap)[e] ==
             if VerdictIn(c, beats, t, handled, e.address) == Unavail then 0 else multiset(c.heap)[e];
      assert v == Delete || v == Unavail || v == Keep;
    }
    forall b ensures b in m'.health <==> b in c.health && VerdictIn(c, beats, t, handled + {a}, b) != Delete {
      assert b in m.health <==> b in c.health && VerdictIn(c, beats, t, handled, b) != Delete;
      assert b in m'.health <==> b in m'.health.Keys;
    }
  }

  // ---------- the class ----------

  class DataCluster {
    var slots: seq<AccessTime>
    var availableNum: nat
    var health: map<string, HealthCheckClient>
    var groupReady: bool

    /** The array bound holds and no health client is shared. */
    ghost predicate Sound()
      reads this
    {
      && availableNum <= |slots|
      && forall a, b :: a in health && b in health && a != b ==> health[a] != health[b]
    }

    function HealthValues(): (h: map<string, Client>)
      reads this`health, health.Values
      ensures h.Keys == health.Keys
      ensures forall a :: a in health ==> h[a] == health[a].Value()
    {
      map a | a in health :: health[a].Value()
    }

    function Abs(): (c: Cluster)
      requires availableNum <= |slots|
      reads this, health.Values
      ensures c == Cluster(slots[..availableNum], slots[availableNum..], HealthValues(), groupReady)
    {
      Cluster(slots[..availableNum], slots[availableNum..], HealthValues(), groupReady)
    }

    ghost predicate Valid()
      reads this, health.Values
    {
      Sound() && Inv(Abs())
    }

    constructor ()
      ensures Valid() && Abs() == EMPTY
      ensures slots == [] && availableNum == 0 && health == map[] && !groupReady
    {
      slots, availableNum, health, groupReady := [], 0, map[], false;
      new;
      EmptyIsFine(CONFIGURED);
    }

    method Empty() returns (b: bool)
      ensures b <==> slots == []
    {
      b := |slots| == 0;
    }

    method Single() returns (b: bool)
      ensures b <==> |slots| == 1
    {
      b := |slots| == 1;
    }

    method IsNewConnect(address: string) returns (b: bool)
      ensures b <==> address !in health
    {
      b := address !in health;
    }

    method Duplicate(address: string) returns (b: bool)
      ensures b <==> address in health && IsLiving(health[address].Value())
    {
      b := address in health && IsLiving(health[address].Value());
    }

    /** `add_server`. */
    method AddServer(address: string, gid: int, now: nat)
      requires Valid() && address !in health
      modifies this
      ensures Valid() && Add(old(Abs()), Abs(), address, gid, now)
      ensures fresh(health.Values - old(health.Values)) && slots != []
    {
      hide Inv, Add, HealthValues, IsHeap, DistinctSlots, HealthCheckClient.Value;
      ghost var c := Abs();
      InvHeap(c);
      AddClient(address, gid, now);
      slots := AddSlot(slots, availableNum, AccessTime(0, address));
      availableNum := availableNum + 1;
      AddIs(c, Abs(), address, gid, now);
      AddKeepsInv(c, Abs(), address, gid, now);
    }

    /** The new server's entry in the health map. */
    method AddClient(address: string, gid: int, now: nat)
      requires Sound() && address !in health
      modifies this`health
      ensures Sound() && fresh(health.Values - old(health.Values))
      ensures HealthValues() ==
              old(HealthValues())[address := Client(if groupReady then Living else NotReady, now, gid)]
    {
      hide Inv, HealthCheckClient.Value;
      var client := new HealthCheckClient(now, gid, if groupReady then Living else NotReady);
      health := health[address := client];
    }

    /** `reconnect`. */
    method ReconnectServer(address: string, now: nat)
      requires Valid() && address in health
      modifies this`slots, this`availableNum, health[address]
      ensures Valid() && Reconnect(old(Abs()), Abs(), address, now) && |slots| == |old(slots)|
    {
      hide Inv, Reconnect, HealthValues, Abs, HasAddress, IsHeap, DistinctSlots, Dropped;
      ghost var c := Abs();
      InvHeap(c);
      var i := FindInTail(slots, availableNum, address);
      ghost var found := i >= availableNum;
      ghost var e := if found then slots[i] else AccessTime(0, address);
      if i >= availableNum {
        TailHas(slots, availableNum, i);
        slots := Admit(slots, availableNum, i);
        availableNum := availableNum + 1;
      }
      health[address].Refresh(now);
      ReconnectIs(c, Abs(), address, now, found, e);
      ReconnectKeepsInv(c, Abs(), address, now);
    }

    /** `get_least_access`; the empty string if no server is available. */
    method GetLeastAccess() returns (address: string)
      requires Valid() && slots != []
      modifies this`slots
      ensures Valid() && LeastAccess(old(Abs()), Abs(), address) && |slots| == |old(slots)|
    {
      hide Inv, IsHeap, LeastAccess, HealthValues, DistinctSlots;
      ghost var c := Abs();
      InvHeap(c);
      address := "";
      if availableNum != 0 {
        address := slots[0].address;
        assert c.heap[0] == slots[0];
        slots := CountFront(slots, availableNum);
      }
      AccessIs(c, Abs(), address);
      LeastAccessKeepsInv(c, Abs(), address);
    }

    /** `reset`. */
    method ResetTimes()
      requires Valid()
      modifies this`slots
      ensures Valid() && Abs() == Reset(old(Abs())) && IsCleared(old(slots), slots)
    {
      hide Inv, Reset, HealthValues;
      ghost var c := Abs();
      ghost var was := slots;
      for i := 0 to |slots|
        invariant |slots| == |was|
        invariant forall j :: 0 <= j < i ==> slots[j] == AccessTime(0, was[j].address)
        invariant forall j :: i <= j < |slots| ==> slots[j] == was[j]
      {
        slots := slots[i := slots[i].(times := 0)];
      }
      ClearedIs(was, slots, availableNum);
      ResetIs(c, Abs());
      ResetKeepsInv(c);
    }

    /** `set_ready`. */
    method MakeReady(now: nat)
      requires Valid()
      modifies this`groupReady, health.Values
      ensures Valid() && Abs() == SetReady(old(Abs()), now)
    {
      hide Inv, IsHeap, HasAddress, UniqueAddresses, Covers, AllLiving, Entries, DistinctSlots;
      ghost var c := Abs();
      var todo := health.Keys;
      while todo != {}
        invariant todo <= health.Keys
        invariant forall a :: a in health ==>
            health[a].Value() == if a in todo then c.health[a] else Client(Living, now, c.health[a].gid)
        decreases todo
      {
        var a :| a in todo;
        health[a].Refresh(now);
        todo := todo - {a};
      }
      groupReady := true;
      assert Abs().health == SetReady(c, now).health;
      SetReadyKeepsInv(c, now);
    }

    /** The body of the loop in `check`: one server's heartbeat and its consequences. */
    method CheckServer(address: string, b: Beat, t: Times)
      requires Sound() && address in health && IsHeap(slots[..availableNum]) && DistinctSlots(slots)
      modifies this`slots, this`availableNum, this`health, health[address]
      ensures Sound() && forall a :: a in health ==> a in old(health) && health[a] == old(health)[a]
      ensures var cl := old(health[address].Value());
              Handled(old(Abs()), Abs(), address, Judge(cl, b, t), Checked(cl, b, t))
    {
      hide IsHeap, DistinctSlots, Checked, IsTimeout, Abs, Moved, Dropped;
      ghost var c := Abs();
      var client := health[address];
      client.Check(b, t);
      var cl := client.Value();
      if !IsLiving(cl) && IsTimeout(cl, b.received, t.timeout) {
        slots := Remove(slots, availableNum, address);
        health := health - {address};
      } else if !IsLiving(cl) {
        slots, availableNum := Unavailable(slots, availableNum, address);
      }
    }

    /** `check`: one health round over all servers, in any order. */
    method Check(beats: map<string, Beat>, t: Times)
      requires Valid() && health.Keys <= beats.Keys
      modifies this`slots, this`availableNum, this`health, health.Values
      ensures Sound() && Round(old(Abs()), Abs(), beats, t)
      ensures Valid() <==> NoEarlyDelete(old(Abs()), beats, t)
      ensures health.Values <= old(health.Values)
    {
      hide Inv, Round, PartRound, NoEarlyDelete, IsHeap, DistinctSlots, Handled, Abs, HealthValues, VerdictOn, Checked,
           Judge, HealthCheckClient.Value;
      ghost var c := Abs();
      InvHeap(c);
      PartRoundNone(c, beats, t);
      var todo := health.Keys;
      assert c.health.Keys - todo == {};
      while todo != {}
        invariant Sound() && todo <= health.Keys
        invariant forall a :: a in health ==> a in old(health) && health[a] == old(health)[a]
        invariant forall a :: a in todo ==> health[a].Value() == c.health[a]
        invariant PartRound(c, Abs(), beats, t, c.health.Keys - todo)
        decreases todo
      {
        var a :| a in todo;
        ghost var m := Abs();
        PartRoundDistinct(c, m, beats, t, c.health.Keys - todo);
        PartRoundHeap(c, m, beats, t, c.health.Keys - todo);
        Rejoin(slots, availableNum);
        CheckServer(a, beats[a], t);
        VerdictIs(c, beats, t, a);
        PartRoundStep(c, m, Abs(), beats, t, c.health.Keys - todo, a);
        HandledKeys(m, Abs(), a, VerdictOn(c, beats, t, a), Checked(c.health[a], beats[a], t));
        OneLess(c.health.Keys, todo, a);
        todo := todo - {a};
      }
      assert c.health.Keys - todo == c.health.Keys;
      PartRoundAll(c, Abs(), beats, t);
      RoundKeepsInvIff(c, Abs(), beats, t);
    }
  }

  lemma Rejoin(s: seq<AccessTime>, k: nat)
    requires k <= |s|
    ensures s[..k] + s[k..] == s
  {
  }

  lemma OneLess(all: set<string>, todo: set<string>, a: string)
    requires a in todo && todo <= all
    ensures all - (todo - {a}) == all - todo + {a}
  {
  }

  lemma PartRoundHeap(c: Cluster, c': Cluster, beats: map<string, Beat>, t: Times, handled: set<string>)
    requires PartRound(c, c', beats, t, handled)
    ensures IsHeap(c'.heap)
  {
  }

  lemma VerdictIs(c: Cluster, beats: map<string, Beat>, t: Times, a: string)
    requires a in c.health && a in beats
    ensures VerdictOn(c, beats, t, a) == Judge(c.health[a], beats[a], t)
  {
  }

  lemma HandledKeys(c: Cluster, c': Cluster, a: string, v: Verdict, cl: Client)
    requires Handled(c, c', a, v, cl)
    ensures c.health.Keys - {a} <= c'.health.Keys <= c.health.Keys
    ensures forall b :: b in c'.health && b != a ==> c'.health[b] == c.health[b]
  {
  }

  lemma TailHas(s: seq<AccessTime>, n: nat, i: nat)
    requires n <= i < |s|
    ensures HasAddress(multiset(s[n..]), s[i].address) && s[i] in multiset(s[n..])
  {
    assert s[n..][i - n] == s[i];
  }
}
