/** When every living server can be sent requests: a living server that is not in the heap is never
    chosen, and connecting again is refused as a duplicate (include/dfs/nameserver.h). */
module Availability {
  import opened AccessHeap
  import opened HealthCheck
  import opened Cluster

  /** What the heap is for: a request can be sent to every living server. */
  ghost predicate AllAvailable(c: Cluster) {
    forall a :: a in c.health && IsLiving(c.health[a]) ==> HasAddress(multiset(c.heap), a)
  }

  /** A failed server whose heartbeat succeeds in this round. */
  predicate Recovers(c: Cluster, beats: map<string, Beat>, t: Times, a: string) {
    && a in c.health && a in beats && !IsLiving(c.health[a])
    && IsTimeout(c.health[a], beats[a].sent, t.checkBase) && beats[a].answer == Serving
  }

  /** The steps that make a server living without taking it out of the tail. */
  ghost predicate Strands(c: Cluster, e: Event, t: Times) {
    match e
    case Readying(_) => c.tail != []
    case Checking(_, _, beats) => exists a :: Recovers(c, beats, t, a)
    case _ => false
  }

  lemma ConnectAvailable(c: Cluster, c': Cluster, a: string, gid: int, now: nat)
    requires Inv(c) && AllAvailable(c) && Connect(c, c', a, gid, now)
    ensures AllAvailable(c')
  {
    if a in c.health && !IsLiving(c.health[a]) {
      ReturningIsFound(c, c', a, gid, now);
    }
    hide Inv, IsHeap;
    if a !in c.health { assert AccessTime(0, a) in multiset(c'.heap); }
    forall b | b in c'.health && IsLiving(c'.health[b]) ensures HasAddress(multiset(c'.heap), b) {
      if b != a {
        var e :| e in multiset(c.heap) && e.address == b;
        assert e in multiset(c'.heap);
      }
    }
  }

  lemma AccessAvailable(c: Cluster, c': Cluster, result: string)
    requires AllAvailable(c) && LeastAccess(c, c', result)
    ensures AllAvailable(c')
  {
    hide IsHeap;
    if c.heap != [] {
      var y := AccessTime(c.heap[0].times + 1, c.heap[0].address);
      assert y in multiset(c'.heap);
      assert c.heap == [c.heap[0]] + c.heap[1..];
      forall b | b in c'.health && IsLiving(c'.health[b]) ensures HasAddress(multiset(c'.heap), b) {
        var e :| e in multiset(c.heap) && e.address == b;
        assert e == c.heap[0] || e in multiset(c.heap[1..]);
        assert e != c.heap[0] ==> e in multiset(c'.heap);
      }
    }
  }

  lemma ResetAvailable(c: Cluster)
    requires AllAvailable(c)
    ensures AllAvailable(Reset(c))
  {
    hide HasAddress, Zeroed;
    forall a | a in c.health && IsLiving(c.health[a]) ensures HasAddress(multiset(Zeroed(c.heap)), a) {
      ZeroedHas(c.heap, a);
    }
  }

  /** An entry of the tail has no counterpart in the heap. */
  lemma TailNotHeap(c: Cluster, e: AccessTime)
    requires Inv(c) && e in multiset(c.tail)
    ensures e.address in c.health && !HasAddress(multiset(c.heap), e.address)
  {
    hide IsHeap, AllLiving;
    assert e in Entries(c);
    forall f | f in multiset(c.heap) ensures f.address != e.address {
      assert f in Entries(c) && Entries(c)[f] == 1;
    }
  }

  /** `set_ready` leaves every living server available exactly if no server has failed. */
  lemma ReadyAvailableIff(c: Cluster, now: nat)
    requires Inv(c)
    ensures AllAvailable(SetReady(c, now)) <==> c.tail == []
  {
    hide IsHeap, UniqueAddresses, AllLiving;
    if c.tail == [] {
      assert Entries(c) == multiset(c.heap);
    } else {
      var e := c.tail[0];
      TailNotHeap(c, e);
      assert e.address in SetReady(c, now).health;
    }
  }

  /** A round leaves every living server available exactly if no failed one recovers in it. */
  lemma RoundAvailableIff(c: Cluster, c': Cluster, beats: map<string, Beat>, t: Times)
    requires Inv(c) && AllAvailable(c) && Round(c, c', beats, t) && c.health.Keys <= beats.Keys
    ensures AllAvailable(c') <==> forall a :: !Recovers(c, beats, t, a)
  {
    if a :| Recovers(c, beats, t, a) {
      RecoveryStrands(c, c', beats, t, a);
    } else {
      hide Inv, IsHeap;
      forall a | a in c'.health && IsLiving(c'.health[a]) ensures HasAddress(multiset(c'.heap), a) {
        LivingStays(c, c', beats, t, a);
      }
    }
  }

  /** A server that a round leaves living was living before, or recovered. */
  lemma LivingStays(c: Cluster, c': Cluster, beats: map<string, Beat>, t: Times, a: string)
    requires AllAvailable(c) && Round(c, c', beats, t) && c.health.Keys <= beats.Keys
    requires a in c'.health && IsLiving(c'.health[a]) && !Recovers(c, beats, t, a)
    ensures HasAddress(multiset(c'.heap), a)
  {
    hide IsHeap, IsTimeout;
    assert IsLiving(c.health[a]) && VerdictOn(c, beats, t, a) == Keep;
    var e :| e in multiset(c.heap) && e.address == a;
    assert multiset(c'.heap)[e] == multiset(c.heap)[e];
  }

  /** A server that recovers in a round is living afterwards, in the tail, and not in the heap. */
  lemma RecoveryStrands(c: Cluster, c': Cluster, beats: map<string, Beat>, t: Times, a: string)
    requires Inv(c) && Round(c, c', beats, t) && Recovers(c, beats, t, a)
    ensures a in c'.health && c'.health[a].state == Living
    ensures HasAddress(multiset(c'.tail), a) && !HasAddress(multiset(c'.heap), a)
  {
    hide Inv, Round, HasAddress;
    RecoveryKept(c, beats, t, a);
    InTail(c, a);
    KeptInTail(c, c', beats, t, a);
    RecoveredHealth(c, c', beats, t, a);
  }

  lemma RecoveryKept(c: Cluster, beats: map<string, Beat>, t: Times, a: string)
    requires Recovers(c, beats, t, a)
    ensures a in c.health && !IsLiving(c.health[a]) && VerdictOn(c, beats, t, a) == Keep
  {
  }

  lemma RecoveredHealth(c: Cluster, c': Cluster, beats: map<string, Beat>, t: Times, a: string)
    requires Round(c, c', beats, t) && Recovers(c, beats, t, a)
    ensures a in c'.health && c'.health[a].state == Living
  {
    RecoveryKept(c, beats, t, a);
    hide IsHeap, VerdictOn;
  }

  /** A server that a round keeps stays on its side of the array. */
  lemma KeptInTail(c: Cluster, c': Cluster, beats: map<string, Beat>, t: Times, a: string)
    requires Round(c, c', beats, t) && VerdictOn(c, beats, t, a) == Keep
    requires HasAddress(multiset(c.tail), a) && !HasAddress(multiset(c.heap), a)
    ensures HasAddress(multiset(c'.tail), a) && !HasAddress(multiset(c'.heap), a)
  {
    hide IsHeap, VerdictOn;
    var e :| e in multiset(c.tail) && e.address == a;
    assert multiset(c'.tail)[e] == multiset(c.tail)[e] > 0;
    forall f | f in multiset(c'.heap) ensures f.address != a {
      assert f in multiset(c.heap);
    }
  }

  /** From a state in which every living server is available, a step leads to another one if and only
      if it strands nobody. */
  lemma StepAvailableIff(m: Moment, e: Event, m': Moment, p: Pace)
    requires Inv(m.cluster) && AllAvailable(m.cluster) && Step(m, e, m', p)
    ensures AllAvailable(m'.cluster) <==> !Strands(m.cluster, e, p.times)
  {
    hide Inv, AllAvailable, Round, Connect, LeastAccess, Reset, SetReady, Recovers;
    match e
    case Connecting(a, gid, now) => ConnectAvailable(m.cluster, m'.cluster, a, gid, now);
    case Accessing(result) => AccessAvailable(m.cluster, m'.cluster, result);
    case Resetting => ResetAvailable(m.cluster);
    case Readying(now) => ReadyAvailableIff(m.cluster, now);
    case Checking(begin, end, beats) => RoundAvailableIff(m.cluster, m'.cluster, beats, p.times);
  }

  /** Every living server is available all through a run if and only if no step strands one. */
  lemma {:induction false} RunAvailableIff(tr: seq<Moment>, es: seq<Event>, p: Pace)
    requires Run(tr, es, p) && p.gap <= SafeGap(p.times)
    ensures (forall i :: 0 <= i <= |es| ==> AllAvailable(tr[i].cluster))
            <==> forall i :: 0 <= i < |es| ==> !Strands(tr[i].cluster, es[i], p.times)
  {
    if forall i :: 0 <= i <= |es| ==> AllAvailable(tr[i].cluster) {
      forall i | 0 <= i < |es| ensures !Strands(tr[i].cluster, es[i], p.times) {
        RunStepAvailable(tr, es, p, i);
      }
    }
    if forall i :: 0 <= i < |es| ==> !Strands(tr[i].cluster, es[i], p.times) {
      forall i | 0 <= i <= |es| ensures AllAvailable(tr[i].cluster) {
        AvailableUpTo(tr, es, p, i);
      }
    }
  }

  lemma RunStepAvailable(tr: seq<Moment>, es: seq<Event>, p: Pace, i: nat)
    requires Run(tr, es, p) && p.gap <= SafeGap(p.times) && i < |es| && AllAvailable(tr[i].cluster)
    ensures AllAvailable(tr[i + 1].cluster) <==> !Strands(tr[i].cluster, es[i], p.times)
  {
    hide Inv, AllAvailable, Step, Strands, SafeGap, Fresh, Run;
    RunStep(tr, es, p, i);
    RunKeeps(tr, es, p);
    StepAvailableIff(tr[i], es[i], tr[i + 1], p);
  }

  lemma {:induction false} AvailableUpTo(tr: seq<Moment>, es: seq<Event>, p: Pace, i: nat)
    requires Run(tr, es, p) && p.gap <= SafeGap(p.times) && i <= |es|
    requires forall j :: 0 <= j < i ==> !Strands(tr[j].cluster, es[j], p.times)
    ensures AllAvailable(tr[i].cluster)
  {
    hide AllAvailable, Strands, Step;
    if i == 0 {
      NobodyAtStart();
    } else {
      AvailableUpTo(tr, es, p, i - 1);
      RunStepAvailable(tr, es, p, i - 1);
    }
  }

  lemma NobodyAtStart()
    ensures AllAvailable(EMPTY)
  {
  }

  // ---------- both ways of being stranded are reachable ----------

  /** The server has failed, and is on its own in the tail. */
  function Failed(state: LivingState, since: nat): Cluster {
    Cluster([], [ENTRY], map["s" := Client(state, since, 0)], true)
  }

  const VACATED := Cluster([], [], map[], true)

  /** The pace of the shipped configuration: rounds that take no time, CHECK_INTERVAL apart. */
  const INTERVAL := 10 * TICKS
  const SHIPPED := Pace(CONFIGURED, INTERVAL, INTERVAL)

  lemma FailsAt(since: nat, seconds: nat, answer: Answer)
    requires 8 < seconds <= 60 && answer != Serving
    ensures var now := since + seconds * TICKS;
            var state := if answer == RpcError then Dead else Unknown;
            Round(Available(since), Failed(state, since), Beats(now, answer), CONFIGURED)
  {
    var now := since + seconds * TICKS;
    assert ElapsedSeconds(now, since) == seconds;
    assert Judge(Available(since).health["s"], Beats(now, answer)["s"], CONFIGURED) == Unavail;
    hide Judge;
  }

  lemma RecoversAt(now: nat)
    requires now == 20 * TICKS
    ensures Round(Failed(Dead, 0), Failed(Living, now), Beats(now, Serving), CONFIGURED)
    ensures Recovers(Failed(Dead, 0), Beats(now, Serving), CONFIGURED, "s")
  {
    assert ElapsedSeconds(now, 0) == 20;
    assert forall a :: VerdictOn(Failed(Dead, 0), Beats(now, Serving), CONFIGURED, a) == Keep;
    hide VerdictOn;
  }

  lemma StaysFailed(seconds: nat)
    requires 8 < seconds <= 60
    ensures var now := seconds * TICKS; Round(Failed(Dead, 0), Failed(Dead, 0), Beats(now, RpcError), CONFIGURED)
  {
    var now := seconds * TICKS;
    assert ElapsedSeconds(now, 0) == seconds;
    assert Judge(Failed(Dead, 0).health["s"], Beats(now, RpcError)["s"], CONFIGURED) == Unavail;
    hide Judge;
  }

  lemma DeletedAt(now: nat)
    requires now == 70 * TICKS
    ensures Round(Failed(Dead, 0), VACATED, Beats(now, RpcError), CONFIGURED)
  {
    assert ElapsedSeconds(now, 0) == 70;
    assert Judge(Failed(Dead, 0).health["s"], Beats(now, RpcError)["s"], CONFIGURED) == Delete;
    hide Judge;
  }

  lemma StrandedNow(since: nat)
    ensures !AllAvailable(Failed(Living, since))
  {
    assert "s" in Failed(Living, since).health;
  }

  /** Connected and ready at time 0, failing the first k rounds. */
  lemma {:induction false} FailingRun(k: nat) returns (tr: seq<Moment>, es: seq<Event>)
    requires 1 <= k <= 6
    ensures Run(tr, es, SHIPPED) && tr[|es|] == Moment(Failed(Dead, 0), k * INTERVAL)
    decreases k
  {
    var now := k * INTERVAL;
    if k == 1 {
      WitnessStart(0);
      FailsAt(0, 10, RpcError);
      NoSteps(SHIPPED);
      hide Connect, SetReady, Round, Run;
      var m1, m2 := Moment(Uploading(0), 0), Moment(Available(0), 0);
      RunExtend([Moment(EMPTY, 0)], [], SHIPPED, Connecting("s", 0, 0), m1);
      RunExtend([Moment(EMPTY, 0)] + [m1], [] + [Connecting("s", 0, 0)], SHIPPED, Readying(0), m2);
      tr, es := [Moment(EMPTY, 0)] + [m1] + [m2], [] + [Connecting("s", 0, 0)] + [Readying(0)];
    } else {
      tr, es := FailingRun(k - 1);
      StaysFailed(10 * k);
      RunLength(tr, es, SHIPPED);
      hide Round, Run;
    }
    var m, e := Moment(Failed(Dead, 0), now), Checking(now, now, Beats(now, RpcError));
    RunExtend(tr, es, SHIPPED, e, m);
    tr, es := tr + [m], es + [e];
  }

  /** The server answers the second round: it is living, and nobody can reach it. */
  lemma RecoveryRun() returns (tr: seq<Moment>, es: seq<Event>)
    ensures Run(tr, es, SHIPPED) && SHIPPED.gap <= SafeGap(SHIPPED.times)
    ensures es != [] && es[|es| - 1].Checking? && !AllAvailable(tr[|es|].cluster)
  {
    var now := 20 * TICKS;
    tr, es := FailingRun(1);
    RecoversAt(now);
    StrandedNow(now);
    hide Run, Round, AllAvailable;
    var m, e := Moment(Failed(Living, now), now), Checking(now, now, Beats(now, Serving));
    RunExtend(tr, es, SHIPPED, e, m);
    RunLength(tr, es, SHIPPED);
    tr, es := tr + [m], es + [e];
  }

  /** The server is deleted at 70 seconds and joins its group again. The group is still marked ready, so
      the server is checked while it uploads, and fails; then its upload makes it living in the tail. */
  lemma UploadRun() returns (tr: seq<Moment>, es: seq<Event>)
    ensures Run(tr, es, SHIPPED) && SHIPPED.gap <= SafeGap(SHIPPED.times)
    ensures es != [] && es[|es| - 1].Readying? && !AllAvailable(tr[|es|].cluster)
  {
    tr, es := RejoiningRun();
    FailsAt(70 * TICKS, 10, NotServing);
    StrandedNow(81 * TICKS);
    hide Run, Round, AllAvailable;
    var t1, t2 := 80 * TICKS, 81 * TICKS;
    var m1, e1 := Moment(Failed(Unknown, 70 * TICKS), t1), Checking(t1, t1, Beats(t1, NotServing));
    var m2, e2 := Moment(Failed(Living, t2), t1), Readying(t2);
    RunExtend(tr, es, SHIPPED, e1, m1);
    RunLength(tr, es, SHIPPED);
    RunExtend(tr + [m1], es + [e1], SHIPPED, e2, m2);
    tr, es := tr + [m1] + [m2], es + [e1] + [e2];
  }

  lemma RejoiningRun() returns (tr: seq<Moment>, es: seq<Event>)
    ensures Run(tr, es, SHIPPED) && tr[|es|] == Moment(Available(70 * TICKS), 70 * TICKS)
  {
    tr, es := FailingRun(6);
    DeletedAt(70 * TICKS);
    RejoinsReady(70 * TICKS);
    hide Run, Round, Connect;
    var now := 70 * TICKS;
    var m1, e1 := Moment(VACATED, now), Checking(now, now, Beats(now, RpcError));
    var m2, e2 := Moment(Available(now), now), Connecting("s", 0, now);
    RunExtend(tr, es, SHIPPED, e1, m1);
    RunLength(tr, es, SHIPPED);
    RunExtend(tr + [m1], es + [e1], SHIPPED, e2, m2);
    tr, es := tr + [m1] + [m2], es + [e1] + [e2];
  }

  lemma RejoinsReady(now: nat)
    ensures Connect(VACATED, Available(now), "s", 0, now)
  {
    assert multiset(Available(now).heap) == multiset{ENTRY} && multiset(VACATED.heap) == multiset{};
  }

  // ---------- a stranded server stays stranded ----------

  /** A living server in the tail stays there through every step that leaves it registered: connecting
      again is refused as a duplicate. It has to fail once more before it can return to the heap. */
  lemma StrandedStays(m: Moment, e: Event, m': Moment, p: Pace, a: string)
    requires Inv(m.cluster) && Step(m, e, m', p)
    requires a in m.cluster.health && IsLiving(m.cluster.health[a]) && HasAddress(multiset(m.cluster.tail), a)
    ensures a in m'.cluster.health ==> HasAddress(multiset(m'.cluster.tail), a)
  {
    hide Inv, IsHeap, Judge, Checked, Connect, Round, HasAddress;
    var c, c' := m.cluster, m'.cluster;
    match e
    case Connecting(b, gid, now) => StrandedConnect(c, c', b, gid, now, a);
    case Accessing(result) =>
    case Resetting => ZeroedHas(c.tail, a);
    case Readying(now) =>
    case Checking(begin, end, beats) =>
      if a in c'.health { StrandedRound(c, c', beats, p.times, a); }
  }

  lemma StrandedConnect(c: Cluster, c': Cluster, b: string, gid: int, now: nat, a: string)
    requires Connect(c, c', b, gid, now)
    requires a in c.health && IsLiving(c.health[a]) && HasAddress(multiset(c.tail), a)
    ensures HasAddress(multiset(c'.tail), a)
  {
    hide IsHeap;
    var x :| x in multiset(c.tail) && x.address == a;
    if b in c.health && !IsLiving(c.health[b]) && HasAddress(multiset(c.tail), b) {
      var f :| f in multiset(c.tail) && f.address == b
               && multiset(c'.heap) == multiset(c.heap) + multiset{f}
               && multiset(c'.tail) == multiset(c.tail) - multiset{f};
      assert x != f && x in multiset(c'.tail);
    } else {
      assert x in multiset(c'.tail);
    }
  }

  lemma StrandedRound(c: Cluster, c': Cluster, beats: map<string, Beat>, t: Times, a: string)
    requires Round(c, c', beats, t) && HasAddress(multiset(c.tail), a) && a in c'.health
    ensures HasAddress(multiset(c'.tail), a)
  {
    hide IsHeap, VerdictOn;
    var x :| x in multiset(c.tail) && x.address == a;
    assert VerdictOn(c, beats, t, x.address) != Delete;
    assert multiset(c'.tail)[x] >= multiset(c.tail)[x] > 0;
  }
}
