/** A data cluster as a state machine: what each operation of `DataCluster` does to the available
    heap, the unavailable tail and the health map, and what every run keeps. Each operation is one
    atomic step; the clock and the heartbeats are inputs (include/dfs/nameserver.h). */
module Cluster {
  import opened AccessHeap
  import opened HealthCheck

  datatype Cluster = Cluster(heap: seq<AccessTime>, tail: seq<AccessTime>,
                             health: map<string, Client>, ready: bool)

  const EMPTY := Cluster([], [], map[], false)

  function Entries(c: Cluster): multiset<AccessTime> {
    multiset(c.heap) + multiset(c.tail)
  }

  ghost predicate UniqueAddresses(m: multiset<AccessTime>) {
    && (forall e :: e in m ==> m[e] == 1)
    && (forall e, f :: e in m && f in m && e.address == f.address ==> e == f)
  }

  ghost predicate HasAddress(m: multiset<AccessTime>, a: string) {
    exists e :: e in m && e.address == a
  }

  /** The addresses of the entries are exactly the keys. */
  ghost predicate Covers(m: multiset<AccessTime>, keys: set<string>) {
    && (forall e :: e in m ==> e.address in keys)
    && (forall a :: a in keys ==> HasAddress(m, a))
  }

  ghost predicate AllLiving(m: multiset<AccessTime>, health: map<string, Client>) {
    forall e :: e in m ==> e.address in health && IsLiving(health[e.address])
  }

  /** The available prefix is a heap; addresses are unique and are exactly the keys of the health
      map; every available address is living. */
  ghost predicate Inv(c: Cluster) {
    && IsHeap(c.heap)
    && UniqueAddresses(Entries(c))
    && Covers(Entries(c), c.health.Keys)
    && AllLiving(multiset(c.heap), c.health)
  }

  // ---------- the steps ----------

  /** `add_server`. */
  ghost predicate Add(c: Cluster, c': Cluster, a: string, gid: int, now: nat) {
    && IsHeap(c'.heap) && multiset(c'.heap) == multiset(c.heap) + multiset{AccessTime(0, a)}
    && multiset(c'.tail) == multiset(c.tail)
    && c'.health == c.health[a := Client(if c.ready then Living else NotReady, now, gid)]
    && c'.ready == c.ready
  }

  /** `reconnect`: the entry in the tail, if there is one, joins the heap. */
  ghost predicate Reconnect(c: Cluster, c': Cluster, a: string, now: nat)
    requires a in c.health
  {
    && IsHeap(c'.heap)
    && (if HasAddress(multiset(c.tail), a) then
          exists e :: e in multiset(c.tail) && e.address == a
                      && multiset(c'.heap) == multiset(c.heap) + multiset{e}
                      && multiset(c'.tail) == multiset(c.tail) - multiset{e}
        else multiset(c'.heap) == multiset(c.heap) && multiset(c'.tail) == multiset(c.tail))
    && c'.health == c.health[a := Client(Living, now, c.health[a].gid)]
    && c'.ready == c.ready
  }

  /** `connect_to_master` on its cluster: new, duplicate or returning. */
  ghost predicate Connect(c: Cluster, c': Cluster, a: string, gid: int, now: nat) {
    if a !in c.health then Add(c, c', a, gid, now)
    else if IsLiving(c.health[a]) then c' == c
    else Reconnect(c, c', a, now)
  }

  /** `get_least_access` with an available server: the front is counted once more. */
  ghost predicate LeastAccess(c: Cluster, c': Cluster, address: string) {
    if c.heap == [] then c' == c && address == ""
    else
      && address == c.heap[0].address && IsHeap(c'.heap)
      && multiset(c'.heap) == multiset([AccessTime(c.heap[0].times + 1, address)] + c.heap[1..])
      && c' == c.(heap := c'.heap)
  }

  function Zeroed(s: seq<AccessTime>): (z: seq<AccessTime>)
    ensures |z| == |s|
  {
    seq(|s|, i requires 0 <= i < |s| => s[i].(times := 0))
  }

  /** `reset`. */
  function Reset(c: Cluster): Cluster {
    c.(heap := Zeroed(c.heap), tail := Zeroed(c.tail))
  }

  /** `set_ready`: every server, available or not, becomes living. */
  function SetReady(c: Cluster, now: nat): Cluster {
    c.(health := map a | a in c.health :: Client(Living, now, c.health[a].gid), ready := true)
  }

  function VerdictOn(c: Cluster, beats: map<string, Beat>, t: Times, a: string): Verdict {
    if a in c.health && a in beats then Judge(c.health[a], beats[a], t) else Keep
  }

  /** The verdict on the servers handled so far. */
  function VerdictIn(c: Cluster, beats: map<string, Beat>, t: Times, handled: set<string>, a: string): Verdict {
    if a in handled then VerdictOn(c, beats, t, a) else Keep
  }

  /** A round that has handled some of the servers. */
  ghost predicate PartRound(c: Cluster, c': Cluster, beats: map<string, Beat>, t: Times, handled: set<string>) {
    && IsHeap(c'.heap)
    && (forall e :: multiset(c'.heap)[e] ==
          if VerdictIn(c, beats, t, handled, e.address) == Unavail then 0 else multiset(c.heap)[e])
    && (forall e :: multiset(c'.tail)[e] ==
          (if VerdictIn(c, beats, t, handled, e.address) == Delete then 0 else multiset(c.tail)[e])
          + (if VerdictIn(c, beats, t, handled, e.address) == Unavail then multiset(c.heap)[e] else 0))
    && (forall a :: a in c'.health <==> a in c.health && VerdictIn(c, beats, t, handled, a) != Delete)
    && (forall a :: a in c'.health && a in c.health && a in beats ==>
          c'.health[a] == if a in handled then Checked(c.health[a], beats[a], t) else c.health[a])
    && c'.ready == c.ready
  }

  /** `check`: deleted servers leave the tail and the map, failing ones move from the heap to the
      tail. Only the tail is searched for a deleted server. */
  ghost predicate Round(c: Cluster, c': Cluster, beats: map<string, Beat>, t: Times) {
    && IsHeap(c'.heap)
    && (forall e :: multiset(c'.heap)[e] ==
          if VerdictOn(c, beats, t, e.address) == Unavail then 0 else multiset(c.heap)[e])
    && (forall e :: multiset(c'.tail)[e] ==
          (if VerdictOn(c, beats, t, e.address) == Delete then 0 else multiset(c.tail)[e])
          + (if VerdictOn(c, beats, t, e.address) == Unavail then multiset(c.heap)[e] else 0))
    && (forall a :: a in c'.health <==> a in c.health && VerdictOn(c, beats, t, a) != Delete)
    && (forall a :: a in c'.health && a in c.health && a in beats ==> c'.health[a] == Checked(c.health[a], beats[a], t))
    && c'.ready == c.ready
  }

  // ---------- what a step keeps ----------

  lemma UniqueAdd(m: multiset<AccessTime>, n: AccessTime)
    requires UniqueAddresses(m) && !HasAddress(m, n.address)
    ensures UniqueAddresses(m + multiset{n})
  {
    assert n !in m;
  }

  lemma CoversAdd(m: multiset<AccessTime>, n: AccessTime, keys: set<string>)
    requires Covers(m, keys)
    ensures Covers(m + multiset{n}, keys + {n.address})
  {
    var m' := m + multiset{n};
    assert n in m';
    forall a | a in keys ensures HasAddress(m', a) {
      assert HasAddress(m, a);
      var e :| e in m && e.address == a;
      assert e in m';
    }
  }

  lemma AllLivingAdd(m: multiset<AccessTime>, n: AccessTime, health: map<string, Client>, cl: Client)
    requires AllLiving(m, health) && IsLiving(cl)
    ensures AllLiving(m + multiset{n}, health[n.address := cl])
  {
  }

  lemma AddKeepsInv(c: Cluster, c': Cluster, a: string, gid: int, now: nat)
    requires Inv(c) && Add(c, c', a, gid, now) && a !in c.health
    ensures Inv(c')
  {
    hide UniqueAddresses, Covers, AllLiving, IsHeap, HasAddress;
    var n := AccessTime(0, a);
    assert Entries(c') == Entries(c) + multiset{n};
    NotCovered(Entries(c), c.health.Keys, a);
    UniqueAdd(Entries(c), n);
    CoversAdd(Entries(c), n, c.health.Keys);
    assert c'.health.Keys == c.health.Keys + {a};
    AllLivingAdd(multiset(c.heap), n, c.health, c'.health[a]);
  }

  lemma NotCovered(m: multiset<AccessTime>, keys: set<string>, a: string)
    requires Covers(m, keys) && a !in keys
    ensures !HasAddress(m, a)
  {
  }

  lemma ReconnectKeepsInv(c: Cluster, c': Cluster, a: string, now: nat)
    requires Inv(c) && a in c.health && Reconnect(c, c', a, now)
    ensures Inv(c') && Entries(c') == Entries(c)
  {
    hide UniqueAddresses, Covers, AllLiving, IsHeap, Reconnect, Entries;
    ReconnectEntries(c, c', a, now);
    ReconnectLiving(c, c', a, now);
  }

  lemma ReconnectEntries(c: Cluster, c': Cluster, a: string, now: nat)
    requires a in c.health && Reconnect(c, c', a, now)
    ensures Entries(c') == Entries(c) && c'.health.Keys == c.health.Keys && IsHeap(c'.heap)
  {
    hide IsHeap, HasAddress;
    if HasAddress(multiset(c.tail), a) {
      var e :| e in multiset(c.tail) && e.address == a
               && multiset(c'.heap) == multiset(c.heap) + multiset{e}
               && multiset(c'.tail) == multiset(c.tail) - multiset{e};
      MoveOne(multiset(c.heap), multiset(c.tail), e);
    }
  }

  lemma MoveOne(h: multiset<AccessTime>, t: multiset<AccessTime>, e: AccessTime)
    requires e in t
    ensures (h + multiset{e}) + (t - multiset{e}) == h + t
  {
  }

  lemma ReconnectLiving(c: Cluster, c': Cluster, a: string, now: nat)
    requires AllLiving(multiset(c.heap), c.health) && a in c.health && Reconnect(c, c', a, now)
    ensures AllLiving(multiset(c'.heap), c'.health)
  {
    hide AllLiving, IsHeap, HasAddress;
    var cl := Client(Living, now, c.health[a].gid);
    if HasAddress(multiset(c.tail), a) {
      var e :| e in multiset(c.tail) && e.address == a
               && multiset(c'.heap) == multiset(c.heap) + multiset{e}
               && multiset(c'.tail) == multiset(c.tail) - multiset{e};
      AllLivingAdd(multiset(c.heap), e, c.health, cl);
    } else {
      AllLivingSet(multiset(c.heap), c.health, a, cl);
    }
  }

  lemma AllLivingSet(m: multiset<AccessTime>, health: map<string, Client>, a: string, cl: Client)
    requires AllLiving(m, health) && IsLiving(cl)
    ensures AllLiving(m, health[a := cl])
  {
  }

  lemma ConnectKeepsInv(c: Cluster, c': Cluster, a: string, gid: int, now: nat)
    requires Inv(c) && Connect(c, c', a, gid, now)
    ensures Inv(c') && a in c'.health
  {
    hide Inv;
    if a !in c.health {
      AddKeepsInv(c, c', a, gid, now);
    } else if !IsLiving(c.health[a]) {
      ReconnectKeepsInv(c, c', a, now);
    }
  }

  lemma InTail(c: Cluster, a: string)
    requires Inv(c) && a in c.health && !IsLiving(c.health[a])
    ensures HasAddress(multiset(c.tail), a) && !HasAddress(multiset(c.heap), a)
  {
    hide IsHeap, UniqueAddresses;
    assert HasAddress(Entries(c), a);
    var e :| e in Entries(c) && e.address == a;
    assert e in multiset(c.tail);
  }

  /** A returning server is always found in the tail, and is available afterwards. */
  lemma ReturningIsFound(c: Cluster, c': Cluster, a: string, gid: int, now: nat)
    requires Inv(c) && a in c.health && !IsLiving(c.health[a]) && Connect(c, c', a, gid, now)
    ensures HasAddress(multiset(c.tail), a) && HasAddress(multiset(c'.heap), a)
  {
    InTail(c, a);
    hide Inv, IsHeap;
    var f :| f in multiset(c.tail) && f.address == a && multiset(c'.heap) == multiset(c.heap) + multiset{f};
    assert f in multiset(c'.heap);
  }

  lemma LeastAccessKeepsInv(c: Cluster, c': Cluster, address: string)
    requires Inv(c) && LeastAccess(c, c', address)
    ensures Inv(c')
    ensures c.heap != [] ==> forall e :: e in c.heap ==> c.heap[0].times <= e.times
  {
    hide UniqueAddresses, Covers, AllLiving, IsHeap;
    if c.heap != [] {
      FrontLeast(c.heap);
      var x, y, rest := c.heap[0], AccessTime(c.heap[0].times + 1, c.heap[0].address), multiset(c.heap[1..]);
      assert c.heap == [x] + c.heap[1..];
      assert Entries(c) == rest + multiset(c.tail) + multiset{x};
      assert Entries(c') == rest + multiset(c.tail) + multiset{y};
      assert multiset(c.heap) == rest + multiset{x} && multiset(c'.heap) == rest + multiset{y};
      UniqueReplace(rest + multiset(c.tail), x, y);
      CoversReplace(rest + multiset(c.tail), x, y, c.health.Keys);
      AllLivingReplace(rest, x, y, c.health);
    }
  }

  lemma FrontLeast(h: seq<AccessTime>)
    requires IsHeap(h)
    ensures forall e :: e in h ==> h != [] && h[0].times <= e.times
  {
    hide IsHeap;
    forall e | e in h ensures h[0].times <= e.times {
      var j :| 0 <= j < |h| && h[j] == e;
      HeapFrontLeast(h, j);
    }
  }

  lemma UniqueReplace(m: multiset<AccessTime>, x: AccessTime, y: AccessTime)
    requires UniqueAddresses(m + multiset{x}) && x.address == y.address
    ensures UniqueAddresses(m + multiset{y})
  {
    var m1, m2 := m + multiset{x}, m + multiset{y};
    assert x in m1 && m1[x] == m[x] + 1;
    assert y in m ==> y in m1;
    assert y !in m;
    forall e | e in m2 ensures m2[e] == 1 {
      if e != y { assert e in m1 && m2[e] == m[e]; }
    }
    forall e, f | e in m2 && f in m2 && e.address == f.address ensures e == f {
      assert e != y ==> e in m1;
      assert f != y ==> f in m1;
    }
  }

  lemma CoversReplace(m: multiset<AccessTime>, x: AccessTime, y: AccessTime, keys: set<string>)
    requires Covers(m + multiset{x}, keys) && x.address == y.address
    ensures Covers(m + multiset{y}, keys)
  {
    var m1, m2 := m + multiset{x}, m + multiset{y};
    assert x in m1 && y in m2;
    forall e | e in m2 ensures e.address in keys {
      if e != y { assert e in m1; }
    }
    forall a | a in keys ensures HasAddress(m2, a) {
      assert HasAddress(m1, a);
      var e :| e in m1 && e.address == a;
      if e.address != y.address { assert e in m2; }
    }
  }

  lemma AllLivingReplace(m: multiset<AccessTime>, x: AccessTime, y: AccessTime, health: map<string, Client>)
    requires AllLiving(m + multiset{x}, health) && x.address == y.address
    ensures AllLiving(m + multiset{y}, health)
  {
    assert x in m + multiset{x};
    forall e | e in m + multiset{y} ensures e.address in health && IsLiving(health[e.address]) {
      if e != y { assert e in m + multiset{x}; }
    }
  }

  // ---------- reset and set_ready ----------

  predicate DistinctSlots(s: seq<AccessTime>) {
    forall i, j :: 0 <= i < j < |s| ==> s[i].address != s[j].address
  }

  /** Uniqueness over the multiset is distinctness over the indices. */
  lemma {:induction false} UniqueIffDistinct(s: seq<AccessTime>)
    ensures UniqueAddresses(multiset(s)) <==> DistinctSlots(s)
  {
    if s != [] {
      var k := |s| - 1;
      var init, last := s[..k], s[k];
      assert s == init + [last];
      UniqueIffDistinct(init);
      if DistinctSlots(s) {
        forall i, j | 0 <= i < j < k ensures init[i].address != init[j].address {
          assert s[i].address != s[j].address;
        }
        UniqueAdd(multiset(init), last);
      }
      if UniqueAddresses(multiset(s)) {
        UniquePart(multiset(init), last);
        forall i | 0 <= i < k ensures s[i].address != last.address {
          assert init[i] in multiset(init);
        }
      }
    }
  }

  lemma UniquePart(m: multiset<AccessTime>, n: AccessTime)
    requires UniqueAddresses(m + multiset{n})
    ensures UniqueAddresses(m)
    ensures forall e :: e in m ==> e.address != n.address
  {
    var m' := m + multiset{n};
    assert n in m' && m'[n] == m[n] + 1;
    forall e | e in m ensures m[e] == 1 && e.address != n.address {
      assert e in m' && m'[e] >= m[e];
    }
    forall e, f | e in m && f in m && e.address == f.address ensures e == f {
      assert e in m' && f in m';
    }
  }

  lemma ZeroedHas(s: seq<AccessTime>, a: string)
    ensures HasAddress(multiset(Zeroed(s)), a) <==> HasAddress(multiset(s), a)
  {
    if e :| e in multiset(s) && e.address == a {
      var i :| 0 <= i < |s| && s[i] == e;
      assert Zeroed(s)[i] in multiset(Zeroed(s));
    }
    if e :| e in multiset(Zeroed(s)) && e.address == a {
      var i :| 0 <= i < |s| && Zeroed(s)[i] == e;
      assert s[i] in multiset(s);
    }
  }

  lemma ZeroedKeeps(s: seq<AccessTime>, keys: set<string>, health: map<string, Client>)
    ensures UniqueAddresses(multiset(s)) ==> UniqueAddresses(multiset(Zeroed(s)))
    ensures Covers(multiset(s), keys) ==> Covers(multiset(Zeroed(s)), keys)
    ensures AllLiving(multiset(s), health) ==> AllLiving(multiset(Zeroed(s)), health)
    ensures IsHeap(Zeroed(s))
  {
    UniqueIffDistinct(s);
    UniqueIffDistinct(Zeroed(s));
    hide UniqueAddresses, Covers, AllLiving;
    forall j: nat | 0 < j < |s| ensures Leq(Zeroed(s), Parent(j), j) {
    }
    if Covers(multiset(s), keys) { ZeroedCovers(s, keys); }
    if AllLiving(multiset(s), health) { ZeroedLiving(s, health); }
  }

  lemma ZeroedCovers(s: seq<AccessTime>, keys: set<string>)
    requires Covers(multiset(s), keys)
    ensures Covers(multiset(Zeroed(s)), keys)
  {
    hide Zeroed;
    forall e | e in multiset(Zeroed(s)) ensures e.address in keys {
      assert HasAddress(multiset(Zeroed(s)), e.address);
      ZeroedHas(s, e.address);
    }
    forall a | a in keys ensures HasAddress(multiset(Zeroed(s)), a) {
      ZeroedHas(s, a);
    }
  }

  lemma ZeroedLiving(s: seq<AccessTime>, health: map<string, Client>)
    requires AllLiving(multiset(s), health)
    ensures AllLiving(multiset(Zeroed(s)), health)
  {
    hide Zeroed;
    forall e | e in multiset(Zeroed(s)) ensures e.address in health && IsLiving(health[e.address]) {
      assert HasAddress(multiset(Zeroed(s)), e.address);
      ZeroedHas(s, e.address);
    }
  }

  /** The array cleared: every counter is 0, every address in its place. */
  predicate IsCleared(s: seq<AccessTime>, z: seq<AccessTime>) {
    |z| == |s| && forall i :: 0 <= i < |s| ==> z[i] == AccessTime(0, s[i].address)
  }

  /** A reset clears the counters of available and unavailable servers, and nothing else. */
  lemma ResetClears(c: Cluster)
    ensures IsCleared(c.heap, Reset(c).heap) && IsCleared(c.tail, Reset(c).tail)
    ensures Reset(c).health == c.health && Reset(c).ready == c.ready
    ensures forall e :: e in Entries(Reset(c)) ==> e.times == 0
  {
  }

  lemma ResetKeepsInv(c: Cluster)
    requires Inv(c)
    ensures Inv(Reset(c))
  {
    hide UniqueAddresses, Covers, AllLiving, IsHeap;
    var all, c' := c.heap + c.tail, Reset(c);
    assert Zeroed(all) == c'.heap + c'.tail;
    assert multiset(all) == Entries(c) && multiset(Zeroed(all)) == Entries(c');
    ZeroedKeeps(all, c.health.Keys, c.health);
    ZeroedKeeps(c.heap, c.health.Keys, c.health);
  }

  lemma SetReadyKeepsInv(c: Cluster, now: nat)
    requires Inv(c)
    ensures Inv(SetReady(c, now))
    ensures forall a :: a in SetReady(c, now).health ==> SetReady(c, now).health[a].state == Living
  {
    hide UniqueAddresses, IsHeap;
    assert SetReady(c, now).health.Keys == c.health.Keys;
  }

  // ---------- one health round ----------

  /** No server that is still available is deleted outright. */
  ghost predicate NoEarlyDelete(c: Cluster, beats: map<string, Beat>, t: Times) {
    forall e :: e in multiset(c.heap) ==> VerdictOn(c, beats, t, e.address) != Delete
  }

  lemma RoundEntries(c: Cluster, c': Cluster, beats: map<string, Beat>, t: Times)
    requires Round(c, c', beats, t) && NoEarlyDelete(c, beats, t)
    ensures forall e :: Entries(c')[e] == if VerdictOn(c, beats, t, e.address) == Delete then 0 else Entries(c)[e]
  {
    hide VerdictOn, IsHeap;
    forall e ensures Entries(c')[e] == if VerdictOn(c, beats, t, e.address) == Delete then 0 else Entries(c)[e] {
      assert e in multiset(c.heap) <==> multiset(c.heap)[e] > 0;
    }
  }

  lemma UniqueSubset(m: multiset<AccessTime>, m': multiset<AccessTime>)
    requires UniqueAddresses(m) && forall e :: m'[e] == 0 || m'[e] == m[e]
    ensures UniqueAddresses(m')
  {
    forall e | e in m' ensures e in m && m'[e] == 1 {
      assert m'[e] == m[e];
    }
  }

  lemma RoundCovers(c: Cluster, c': Cluster, beats: map<string, Beat>, t: Times)
    requires Covers(Entries(c), c.health.Keys) && Round(c, c', beats, t) && NoEarlyDelete(c, beats, t)
    ensures Covers(Entries(c'), c'.health.Keys)
  {
    RoundEntries(c, c', beats, t);
    hide NoEarlyDelete, IsHeap, VerdictOn;
    forall e | e in Entries(c') ensures e.address in c'.health.Keys {
      assert Entries(c')[e] > 0;
      assert e in Entries(c);
    }
    forall a | a in c'.health.Keys ensures HasAddress(Entries(c'), a) {
      assert HasAddress(Entries(c), a);
      var e :| e in Entries(c) && e.address == a;
      assert Entries(c')[e] == Entries(c)[e] > 0;
    }
  }

  /** What a round leaves available is living, unless an available server was deleted: then its
      address stays in the heap with no health record behind it. */
  lemma RoundLivingIff(c: Cluster, c': Cluster, beats: map<string, Beat>, t: Times)
    requires AllLiving(multiset(c.heap), c.health) && Round(c, c', beats, t) && c.health.Keys <= beats.Keys
    ensures AllLiving(multiset(c'.heap), c'.health) <==> NoEarlyDelete(c, beats, t)
  {
    hide IsHeap, Checked, IsTimeout;
    forall e | e in multiset(c.heap) && VerdictOn(c, beats, t, e.address) == Delete
      ensures e in multiset(c'.heap) && e.address !in c'.health
    {
      assert multiset(c'.heap)[e] == multiset(c.heap)[e] > 0;
    }
    if NoEarlyDelete(c, beats, t) {
      forall e | e in multiset(c'.heap) ensures e.address in c'.health && IsLiving(c'.health[e.address]) {
        assert multiset(c'.heap)[e] > 0;
        assert e in multiset(c.heap);
        assert VerdictOn(c, beats, t, e.address) == Keep;
      }
    }
  }

  /** A round keeps the invariant exactly when no server that was available at its start is deleted. */
  lemma RoundKeepsInvIff(c: Cluster, c': Cluster, beats: map<string, Beat>, t: Times)
    requires Inv(c) && Round(c, c', beats, t) && c.health.Keys <= beats.Keys
    ensures Inv(c') <==> NoEarlyDelete(c, beats, t)
  {
    RoundLivingIff(c, c', beats, t);
    if NoEarlyDelete(c, beats, t) {
      RoundEntries(c, c', beats, t);
      UniqueSubset(Entries(c), Entries(c'));
      RoundCovers(c, c', beats, t);
    }
  }

  // ---------- runs ----------

  /** Every living server was refreshed less than CHECK_BASE + 1 seconds before the last round began. */
  ghost predicate Fresh(c: Cluster, last: nat, t: Times) {
    forall a :: a in c.health && IsLiving(c.health[a]) ==> last < c.health[a].timestamp + (t.checkBase + 1) * TICKS
  }

  ghost predicate BeatsWithin(c: Cluster, beats: map<string, Beat>, begin: nat, end: nat) {
    forall a :: a in c.health ==> a in beats && begin <= beats[a].sent <= beats[a].received <= end
  }

  datatype Event =
    | Connecting(address: string, gid: int, now: nat)
    | Accessing(result: string)
    | Resetting
    | Readying(now: nat)
    | Checking(begin: nat, end: nat, beats: map<string, Beat>)

  /** A cluster, with the time at which its last health round began. */
  datatype Moment = Moment(cluster: Cluster, last: nat)

  /** When the steps of a run happen: rounds start at least `pause` ticks apart, and a round ends at
      most `gap` ticks after the previous one started. */
  datatype Pace = Pace(times: Times, pause: nat, gap: nat)

  /** One step. */
  ghost predicate Step(m: Moment, e: Event, m': Moment, p: Pace) {
    match e
    case Connecting(a, gid, now) =>
      m.last <= now && m'.last == m.last && Connect(m.cluster, m'.cluster, a, gid, now)
    case Accessing(result) =>
      m'.last == m.last && LeastAccess(m.cluster, m'.cluster, result)
    case Resetting =>
      m'.last == m.last && m'.cluster == Reset(m.cluster)
    case Readying(now) =>
      m.last <= now && m'.last == m.last && m'.cluster == SetReady(m.cluster, now)
    case Checking(begin, end, beats) =>
      && m.last + p.pause <= begin <= end <= m.last + p.gap && m'.last == begin
      && BeatsWithin(m.cluster, beats, begin, end) && Round(m.cluster, m'.cluster, beats, p.times)
  }

  /** A run from the empty cluster. */
  ghost predicate Run(tr: seq<Moment>, es: seq<Event>, p: Pace) {
    && |tr| == |es| + 1
    && tr[0] == Moment(EMPTY, 0)
    && forall i :: 0 <= i < |es| ==> Step(tr[i], es[i], tr[i + 1], p)
  }

  lemma FreshAvoidsDelete(c: Cluster, last: nat, beats: map<string, Beat>, begin: nat, end: nat, t: Times, gap: nat)
    requires Inv(c) && Fresh(c, last, t) && BeatsWithin(c, beats, begin, end) && end <= last + gap <= last + SafeGap(t)
    ensures NoEarlyDelete(c, beats, t)
  {
    hide IsHeap, UniqueAddresses, Covers, Judge, SafeGap;
    forall e | e in multiset(c.heap) ensures VerdictOn(c, beats, t, e.address) != Delete {
      FreshIsNotDeleted(c.health[e.address], beats[e.address], t, last, gap);
    }
  }

  lemma RoundIsFresh(c: Cluster, c': Cluster, beats: map<string, Beat>, begin: nat, end: nat, t: Times)
    requires BeatsWithin(c, beats, begin, end) && Round(c, c', beats, t)
    ensures Fresh(c', begin, t)
  {
    hide IsHeap, VerdictOn, Checked;
    forall a | a in c'.health && IsLiving(c'.health[a])
      ensures begin < c'.health[a].timestamp + (t.checkBase + 1) * TICKS
    {
      CheckedIsFresh(c.health[a], beats[a], t, begin);
    }
  }

  lemma ConnectFresh(c: Cluster, c': Cluster, a: string, gid: int, now: nat, last: nat, t: Times)
    requires Connect(c, c', a, gid, now) && Fresh(c, last, t) && last <= now
    ensures Fresh(c', last, t)
  {
    hide IsHeap, HasAddress;
  }

  lemma OtherStepsFresh(m: Moment, e: Event, m': Moment, p: Pace)
    requires !e.Checking? && Step(m, e, m', p) && Fresh(m.cluster, m.last, p.times)
    ensures Fresh(m'.cluster, m'.last, p.times)
  {
    hide IsHeap, Connect;
    if e.Connecting? {
      ConnectFresh(m.cluster, m'.cluster, e.address, e.gid, e.now, m.last, p.times);
    }
  }

  /** Every step keeps the invariant and freshness, when rounds are close enough together. */
  lemma StepKeeps(m: Moment, e: Event, m': Moment, p: Pace)
    requires Inv(m.cluster) && Fresh(m.cluster, m.last, p.times) && Step(m, e, m', p) && p.gap <= SafeGap(p.times)
    ensures Inv(m'.cluster) && Fresh(m'.cluster, m'.last, p.times)
  {
    hide Inv, Fresh, Round, Connect, LeastAccess, Reset, SetReady, SafeGap;
    match e
    case Connecting(a, gid, now) =>
      ConnectKeepsInv(m.cluster, m'.cluster, a, gid, now);
      OtherStepsFresh(m, e, m', p);
    case Accessing(result) =>
      LeastAccessKeepsInv(m.cluster, m'.cluster, result);
      OtherStepsFresh(m, e, m', p);
    case Resetting =>
      ResetKeepsInv(m.cluster);
      OtherStepsFresh(m, e, m', p);
    case Readying(now) =>
      SetReadyKeepsInv(m.cluster, now);
      OtherStepsFresh(m, e, m', p);
    case Checking(begin, end, beats) =>
      FreshAvoidsDelete(m.cluster, m.last, beats, begin, end, p.times, p.gap);
      RoundKeepsInvIff(m.cluster, m'.cluster, beats, p.times);
      RoundIsFresh(m.cluster, m'.cluster, beats, begin, end, p.times);
  }

  /** Safety over whole runs. */
  lemma {:induction false} RunKeeps(tr: seq<Moment>, es: seq<Event>, p: Pace)
    requires Run(tr, es, p) && p.gap <= SafeGap(p.times)
    ensures forall i :: 0 <= i <= |es| ==> Inv(tr[i].cluster) && Fresh(tr[i].cluster, tr[i].last, p.times)
    decreases |es|
  {
    hide Inv, Step, SafeGap, Fresh;
    var k := |es|;
    if k == 0 {
      EmptyIsFine(p.times);
    } else {
      RunKeeps(tr[..k], es[..k - 1], p);
      assert forall i :: 0 <= i < k ==> tr[..k][i] == tr[i];
      StepKeeps(tr[k - 1], es[k - 1], tr[k], p);
    }
  }

  lemma EmptyIsFine(t: Times)
    ensures Inv(EMPTY) && Fresh(EMPTY, 0, t)
  {
  }

  /** In such a run a round only deletes servers that it found in the unavailable tail. */
  lemma DeletedFromTail(tr: seq<Moment>, es: seq<Event>, p: Pace, i: nat, a: string)
    requires Run(tr, es, p) && p.gap <= SafeGap(p.times) && i < |es| && es[i].Checking?
    requires a in tr[i].cluster.health && a !in tr[i + 1].cluster.health
    ensures HasAddress(multiset(tr[i].cluster.tail), a) && !HasAddress(multiset(tr[i].cluster.heap), a)
    ensures !HasAddress(Entries(tr[i + 1].cluster), a)
  {
    hide Inv, Fresh, Run, Round, BeatsWithin, SafeGap, HasAddress;
    RunStep(tr, es, p, i);
    var c, c', e := tr[i].cluster, tr[i + 1].cluster, es[i];
    RunKeeps(tr, es, p);
    FreshAvoidsDelete(c, tr[i].last, e.beats, e.begin, e.end, p.times, p.gap);
    RoundDeletes(c, c', e.beats, p.times, a);
  }

  lemma RunStep(tr: seq<Moment>, es: seq<Event>, p: Pace, i: nat)
    requires Run(tr, es, p) && i < |es|
    ensures |tr| == |es| + 1 && Step(tr[i], es[i], tr[i + 1], p)
    ensures es[i].Checking? ==> tr[i].cluster.health.Keys <= es[i].beats.Keys
  {
    hide Inv, Connect, LeastAccess, Round;
  }

  lemma RoundDeletes(c: Cluster, c': Cluster, beats: map<string, Beat>, t: Times, a: string)
    requires Inv(c) && Inv(c') && Round(c, c', beats, t) && NoEarlyDelete(c, beats, t)
    requires a in c.health && a !in c'.health
    ensures HasAddress(multiset(c.tail), a) && !HasAddress(multiset(c.heap), a) && !HasAddress(Entries(c'), a)
  {
    hide IsHeap, UniqueAddresses, AllLiving, Judge;
    NotCovered(Entries(c'), c'.health.Keys, a);
    assert VerdictOn(c, beats, t, a) == Delete;
    assert HasAddress(Entries(c), a);
  }

  // ---------- the bound on the gap is exact ----------

  const ENTRY := AccessTime(0, "s")

  /** The server "s" on its own: uploading, and serving, since a given time. */
  function Uploading(since: nat): Cluster {
    Cluster([ENTRY], [], map["s" := Client(NotReady, since, 0)], false)
  }

  function Available(since: nat): Cluster {
    Cluster([ENTRY], [], map["s" := Client(Living, since, 0)], true)
  }

  /** The server is in the heap, but its health record is gone. */
  const FORGOTTEN := Cluster([ENTRY], [], map[], true)

  lemma ForgottenBreaks()
    ensures !Inv(FORGOTTEN)
  {
    assert ENTRY in multiset(FORGOTTEN.heap);
  }

  function Beats(now: nat, answer: Answer): map<string, Beat> {
    map["s" := Beat(now, answer, now)]
  }

  lemma WitnessStart(since: nat)
    ensures Connect(EMPTY, Uploading(since), "s", 0, since) && SetReady(Uploading(since), since) == Available(since)
  {
    assert multiset(Uploading(since).heap) == multiset{ENTRY} && multiset(EMPTY.heap) == multiset{};
  }

  lemma WitnessSpared(t: Times, since: nat, now: nat)
    requires since <= now < since + (t.checkBase + 1) * TICKS
    ensures Round(Available(since), Available(since), Beats(now, Serving), t)
  {
    assert ElapsedSeconds(now, since) <= t.checkBase;
    assert forall a :: VerdictOn(Available(since), Beats(now, Serving), t, a) == Keep;
    hide VerdictOn;
  }

  lemma WitnessDeleted(t: Times, since: nat, now: nat)
    requires now >= since + (t.timeout + 1) * TICKS && now >= since + (t.checkBase + 1) * TICKS
    ensures Round(Available(since), FORGOTTEN, Beats(now, RpcError), t)
  {
    assert ElapsedSeconds(now, since) > t.timeout && ElapsedSeconds(now, since) > t.checkBase;
    assert Judge(Available(since).health["s"], Beats(now, RpcError)["s"], t) == Delete;
    hide Judge;
  }

  /** Round j of the run: rounds are exactly `gap` apart, and the last of them deletes the server. */
  function RegularRound(j: nat, gap: nat, answer: Answer): Event {
    Checking(j * gap, j * gap, Beats(j * gap, answer))
  }

  function AfterRound(since: nat, j: nat, gap: nat): Moment {
    Moment(Available(since), j * gap)
  }

  lemma RunExtend(tr: seq<Moment>, es: seq<Event>, p: Pace, e: Event, m: Moment)
    requires Run(tr, es, p) && Step(tr[|es|], e, m, p)
    ensures Run(tr + [m], es + [e], p)
  {
    hide Step;
  }

  /** The server connects and is made ready before the first round, and j rounds spare it. */
  lemma {:induction false} SparedRun(p: Pace, k: nat, since: nat, j: nat) returns (tr: seq<Moment>, es: seq<Event>)
    requires p.pause <= p.gap && since < p.gap && j <= k
    requires k * p.gap + 1 == since + (p.times.checkBase + 1) * TICKS
    ensures Run(tr, es, p) && tr[|es|] == AfterRound(since, j, p.gap)
    decreases j
  {
    if j == 0 {
      WitnessBegins(p, since);
      hide Step, Run;
      var m, m' := Moment(Uploading(since), 0), AfterRound(since, 0, p.gap);
      var e, e' := Connecting("s", 0, since), Readying(since);
      NoSteps(p);
      RunExtend([Moment(EMPTY, 0)], [], p, e, m);
      RunExtend([Moment(EMPTY, 0)] + [m], [] + [e], p, e', m');
      tr, es := [Moment(EMPTY, 0)] + [m] + [m'], [] + [e] + [e'];
    } else {
      tr, es := SparedRun(p, k, since, j - 1);
      WitnessTick(p, k, since, j - 1);
      hide Step, Run, AfterRound, RegularRound;
      RunLength(tr, es, p);
      RunExtend(tr, es, p, RegularRound(j, p.gap, Serving), AfterRound(since, j, p.gap));
      tr, es := tr + [AfterRound(since, j, p.gap)], es + [RegularRound(j, p.gap, Serving)];
    }
  }

  lemma NoSteps(p: Pace)
    ensures Run([Moment(EMPTY, 0)], [], p)
  {
  }

  /** With a longer gap there is a run in which an available server is deleted. Rounds are exactly
      `gap` apart; the server connects, and is made ready, one tick short of CHECK_BASE + 1 seconds
      before a round that therefore spares it, and has timed out at the next. */
  lemma LongGapBreaks(p: Pace) returns (tr: seq<Moment>, es: seq<Event>)
    requires p.pause <= p.gap && p.gap > SafeGap(p.times)
    ensures Run(tr, es, p) && tr[|es|].cluster == FORGOTTEN && !Inv(tr[|es|].cluster)
  {
    hide Inv, Step, SafeGap, AfterRound, RegularRound, Run;
    ForgottenBreaks();
    var k, since := LastSpared(p);
    tr, es := SparedRun(p, k, since, k);
    WitnessDeletes(p, k, since);
    var m, e := Moment(FORGOTTEN, (k + 1) * p.gap), RegularRound(k + 1, p.gap, RpcError);
    RunLength(tr, es, p);
    RunExtend(tr, es, p, e, m);
    tr, es := tr + [m], es + [e];
  }

  /** The round that just spares a server which connected before the first round. */
  lemma LastSpared(p: Pace) returns (k: nat, since: nat)
    requires p.gap > 0
    ensures since < p.gap && k * p.gap + 1 == since + (p.times.checkBase + 1) * TICKS
  {
    var first := (p.times.checkBase + 1) * TICKS - 1;
    k := (first + p.gap - 1) / p.gap;
    since := k * p.gap - first;
  }

  lemma WitnessTick(p: Pace, k: nat, since: nat, j: nat)
    requires p.pause <= p.gap && since < p.gap && j < k
    requires k * p.gap + 1 == since + (p.times.checkBase + 1) * TICKS
    ensures Step(AfterRound(since, j, p.gap), RegularRound(j + 1, p.gap, Serving), AfterRound(since, j + 1, p.gap), p)
  {
    Multiples(j + 1, k, p.gap);
    assert (j + 1) * p.gap == j * p.gap + p.gap;
    WitnessSpared(p.times, since, (j + 1) * p.gap);
    hide Round;
  }

  lemma Multiples(i: nat, j: nat, n: nat)
    requires i <= j
    ensures i * n <= j * n
    ensures i >= 1 ==> n <= i * n
  {
  }

  lemma WitnessBegins(p: Pace, since: nat)
    ensures Step(Moment(EMPTY, 0), Connecting("s", 0, since), Moment(Uploading(since), 0), p)
    ensures Step(Moment(Uploading(since), 0), Readying(since), AfterRound(since, 0, p.gap), p)
  {
    WitnessStart(since);
    hide Connect, SetReady;
  }

  lemma WitnessDeletes(p: Pace, k: nat, since: nat)
    requires p.pause <= p.gap && p.gap > SafeGap(p.times)
    requires k * p.gap + 1 == since + (p.times.checkBase + 1) * TICKS
    ensures Step(AfterRound(since, k, p.gap), RegularRound(k + 1, p.gap, RpcError),
                 Moment(FORGOTTEN, (k + 1) * p.gap), p)
  {
    assert (k + 1) * p.gap == k * p.gap + p.gap;
    WitnessDeleted(p.times, since, (k + 1) * p.gap);
    hide Round;
  }

  /** However long the pause between rounds, all runs keep the invariant if and only if no round ends
      more than TIMEOUT - CHECK_BASE seconds after the previous one started. */
  lemma SafeGapIff(p: Pace)
    requires p.pause <= p.gap
    ensures (forall tr: seq<Moment>, es: seq<Event> :: Run(tr, es, p) ==> Inv(tr[|es|].cluster))
            <==> p.gap <= SafeGap(p.times)
  {
    hide Inv, SafeGap, Run, Fresh;
    if p.gap <= SafeGap(p.times) {
      forall tr: seq<Moment>, es: seq<Event> | Run(tr, es, p) ensures |tr| == |es| + 1 && Inv(tr[|es|].cluster) {
        RunLength(tr, es, p);
        RunKeeps(tr, es, p);
      }
    } else {
      var tr, es := LongGapBreaks(p);
      RunLength(tr, es, p);
    }
  }

  lemma RunLength(tr: seq<Moment>, es: seq<Event>, p: Pace)
    requires Run(tr, es, p)
    ensures |tr| == |es| + 1
  {
  }
}
