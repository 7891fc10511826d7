/** What the counters of a cluster mean in any run, with servers that join, fail, return and are
    deleted: a counter is how often its server was chosen since the last reset, or since it joined
    (include/dfs/nameserver.h). */
module Counters {
  import opened AccessHeap
  import opened HealthCheck
  import opened Cluster

  /** How often address a was chosen before step i, since the last reset or since it registered. */
  function Chosen(tr: seq<Moment>, es: seq<Event>, a: string, i: nat): (n: nat)
    requires i <= |es| < |tr|
  {
    if i == 0 then 0
    else Next(tr[i - 1].cluster, es[i - 1], a, Chosen(tr, es, a, i - 1))
  }

  function Next(c: Cluster, e: Event, a: string, n: nat): nat {
    match e
    case Resetting => 0
    case Connecting(b, _, _) => if b == a && a !in c.health then 0 else n
    case Accessing(result) => if c.heap != [] && result == a then n + 1 else n
    case _ => n
  }

  /** Every counter, in the heap and in the tail, is the number given for its address. */
  ghost predicate Agree(c: Cluster, count: string -> nat) {
    forall x :: x in Entries(c) ==> x.times == count(x.address)
  }

  lemma AddAgrees(c: Cluster, c': Cluster, a: string, gid: int, now: nat, f: string -> nat, f': string -> nat)
    requires Inv(c) && a !in c.health && Add(c, c', a, gid, now) && Agree(c, f)
    requires f'(a) == 0 && forall b :: b != a ==> f'(b) == f(b)
    ensures Agree(c', f')
  {
    NotCovered(Entries(c), c.health.Keys, a);
    hide IsHeap, UniqueAddresses, Covers, AllLiving, Inv;
    assert Entries(c') == Entries(c) + multiset{AccessTime(0, a)};
    hide Entries, Add;
    forall x | x in Entries(c') ensures x.times == f'(x.address) {
      if x != AccessTime(0, a) { assert x in Entries(c); }
    }
  }

  lemma AccessAgrees(c: Cluster, c': Cluster, result: string, f: string -> nat, f': string -> nat)
    requires Inv(c) && c.heap != [] && LeastAccess(c, c', result) && Agree(c, f)
    requires f'(result) == f(result) + 1 && forall b :: b != result ==> f'(b) == f(b)
    ensures Agree(c', f')
  {
    hide IsHeap, Covers, AllLiving;
    var x, y, rest := c.heap[0], AccessTime(c.heap[0].times + 1, c.heap[0].address), multiset(c.heap[1..]);
    assert c.heap == [x] + c.heap[1..];
    var others := rest + multiset(c.tail);
    assert Entries(c) == others + multiset{x} && Entries(c') == others + multiset{y};
    OthersDiffer(others, x);
    hide Inv, UniqueAddresses, LeastAccess, Entries;
    assert x in Entries(c);
    forall e | e in Entries(c') ensures e.times == f'(e.address) {
      if e != y { assert e in others && e in Entries(c); }
    }
  }

  lemma OthersDiffer(m: multiset<AccessTime>, x: AccessTime)
    requires UniqueAddresses(m + multiset{x})
    ensures forall e :: e in m ==> e.address != x.address
  {
    UniquePart(m, x);
  }

  lemma ResetAgrees(c: Cluster, f': string -> nat)
    requires forall b :: f'(b) == 0
    ensures Agree(Reset(c), f')
  {
    ResetClears(c);
    hide Reset;
  }

  lemma RoundAgrees(c: Cluster, c': Cluster, beats: map<string, Beat>, t: Times, f: string -> nat)
    requires Round(c, c', beats, t) && Agree(c, f)
    ensures Agree(c', f)
  {
    hide IsHeap, VerdictOn;
    forall x | x in Entries(c') ensures x in Entries(c) {
      assert multiset(c'.heap)[x] > 0 || multiset(c'.tail)[x] > 0;
    }
  }

  lemma SameAgrees(c: Cluster, c': Cluster, f: string -> nat)
    requires Entries(c') == Entries(c) && Agree(c, f)
    ensures Agree(c', f)
  {
  }

  lemma ConnectAgrees(c: Cluster, c': Cluster, a: string, gid: int, now: nat, f: string -> nat, f': string -> nat)
    requires Inv(c) && Connect(c, c', a, gid, now) && Agree(c, f)
    requires forall b :: f'(b) == if b == a && a !in c.health then 0 else f(b)
    ensures Agree(c', f')
  {
    hide Inv, Add, Reconnect, Agree;
    if a !in c.health {
      AddAgrees(c, c', a, gid, now, f, f');
    } else {
      if !IsLiving(c.health[a]) { ReconnectKeepsInv(c, c', a, now); }
      SameAgrees(c, c', f);
      AgreeExt(c', f, f');
    }
  }

  lemma AgreeExt(c: Cluster, f: string -> nat, f': string -> nat)
    requires Agree(c, f) && forall b :: f'(b) == f(b)
    ensures Agree(c, f')
  {
  }

  lemma StepAgrees(m: Moment, e: Event, m': Moment, p: Pace, f: string -> nat, f': string -> nat)
    requires Inv(m.cluster) && Step(m, e, m', p) && Agree(m.cluster, f)
    requires forall b :: f'(b) == Next(m.cluster, e, b, f(b))
    ensures Agree(m'.cluster, f')
  {
    hide Inv, Connect, LeastAccess, Round, Agree, Reset;
    var c, c' := m.cluster, m'.cluster;
    match e
    case Connecting(a, gid, now) => ConnectAgrees(c, c', a, gid, now, f, f');
    case Accessing(result) =>
      if c.heap != [] {
        AccessAgrees(c, c', result, f, f');
      } else {
        AccessNothing(c, c', result);
        AgreeExt(c, f, f');
      }
    case Resetting => ResetAgrees(c, f');
    case Readying(now) =>
      SameAgrees(c, c', f);
      AgreeExt(c', f, f');
    case Checking(begin, end, beats) =>
      RoundAgrees(c, c', beats, p.times, f);
      AgreeExt(c', f, f');
  }

  lemma AccessNothing(c: Cluster, c': Cluster, result: string)
    requires c.heap == [] && LeastAccess(c, c', result)
    ensures c' == c
  {
  }

  lemma AgreeAtStart()
    ensures Agree(EMPTY, _ => 0)
  {
  }

  /** In every run with rounds close enough, every counter is how often its server was chosen since the
      last reset, or since it registered. */
  lemma {:induction false} CountersAre(tr: seq<Moment>, es: seq<Event>, p: Pace, i: nat)
    requires Run(tr, es, p) && p.gap <= SafeGap(p.times) && i <= |es|
    ensures |tr| == |es| + 1 && Agree(tr[i].cluster, a => Chosen(tr, es, a, i))
  {
    hide Agree, Inv, Step, SafeGap, Fresh, Next;
    if i == 0 {
      AgreeAtStart();
      AgreeExt(EMPTY, _ => 0, a => Chosen(tr, es, a, 0));
    } else {
      CountersAre(tr, es, p, i - 1);
      RunKeeps(tr, es, p);
      StepAgrees(tr[i - 1], es[i - 1], tr[i], p, a => Chosen(tr, es, a, i - 1), a => Chosen(tr, es, a, i));
    }
  }

  lemma {:induction false} CounterOf(tr: seq<Moment>, es: seq<Event>, p: Pace, i: nat, x: AccessTime)
    requires Run(tr, es, p) && p.gap <= SafeGap(p.times) && i <= |es| && x in Entries(tr[i].cluster)
    ensures |tr| == |es| + 1 && x.times == Chosen(tr, es, x.address, i)
  {
    hide Run, Chosen, Entries, SafeGap;
    CountersAre(tr, es, p, i);
  }

  /** A server that returns joins the heap with the number of times it was chosen since the last reset,
      or since it registered, and not with any older number. */
  lemma {:induction false} ReturnsWithCount(tr: seq<Moment>, es: seq<Event>, p: Pace, i: nat)
    requires Run(tr, es, p) && p.gap <= SafeGap(p.times) && i < |es| && es[i].Connecting?
    requires |tr| == |es| + 1
    requires es[i].address in tr[i].cluster.health && !IsLiving(tr[i].cluster.health[es[i].address])
    ensures exists x :: x in multiset(tr[i + 1].cluster.heap) && x.address == es[i].address
                        && x.times == Chosen(tr, es, es[i].address, i)
  {
    hide Run, Chosen, SafeGap, Inv, Fresh, Connect, Step;
    RunStep(tr, es, p, i);
    var a, c, c' := es[i].address, tr[i].cluster, tr[i + 1].cluster;
    RunKeeps(tr, es, p);
    ConnectStepIs(tr[i], es[i], tr[i + 1], p);
    ReturningIsFound(c, c', a, es[i].gid, es[i].now);
    var x :| x in multiset(c'.heap) && x.address == a;
    CounterOf(tr, es, p, i + 1, x);
    ChosenKept(tr, es, a, i);
  }

  lemma ConnectStepIs(m: Moment, e: Event, m': Moment, p: Pace)
    requires e.Connecting? && Step(m, e, m', p)
    ensures Connect(m.cluster, m'.cluster, e.address, e.gid, e.now)
  {
    hide Connect;
  }

  lemma {:induction false} ChosenKept(tr: seq<Moment>, es: seq<Event>, a: string, i: nat)
    requires i < |es| < |tr| && es[i].Connecting? && a in tr[i].cluster.health
    ensures Chosen(tr, es, a, i + 1) == Chosen(tr, es, a, i)
  {
  }

  /** Every request goes to an available server that was chosen least often since the last reset. */
  lemma {:induction false} LeastChosen(tr: seq<Moment>, es: seq<Event>, p: Pace, i: nat)
    requires Run(tr, es, p) && p.gap <= SafeGap(p.times) && i < |es| && es[i].Accessing?
    requires |tr| == |es| + 1 && tr[i].cluster.heap != []
    ensures HasAddress(multiset(tr[i].cluster.heap), es[i].result)
    ensures forall x :: x in tr[i].cluster.heap ==>
              Chosen(tr, es, es[i].result, i) <= Chosen(tr, es, x.address, i)
    ensures Chosen(tr, es, es[i].result, i + 1) == Chosen(tr, es, es[i].result, i) + 1
  {
    hide Run, SafeGap, Inv, Fresh, Step;
    var c, c', a := tr[i].cluster, tr[i + 1].cluster, es[i].result;
    RunStep(tr, es, p, i);
    RunKeeps(tr, es, p);
    AccessStepIs(tr[i], es[i], tr[i + 1], p);
    LeastAccessKeepsInv(c, c', a);
    assert c.heap[0] in multiset(c.heap);
    CounterOf(tr, es, p, i, c.heap[0]);
    forall x | x in c.heap ensures Chosen(tr, es, a, i) <= Chosen(tr, es, x.address, i) {
      CounterOf(tr, es, p, i, x);
    }
  }

  lemma AccessStepIs(m: Moment, e: Event, m': Moment, p: Pace)
    requires e.Accessing? && Step(m, e, m', p)
    ensures LeastAccess(m.cluster, m'.cluster, e.result)
  {
    hide LeastAccess;
  }

  lemma InHeapIsRegistered(c: Cluster, a: string)
    requires Inv(c) && HasAddress(multiset(c.heap), a)
    ensures a in c.health
  {
    hide IsHeap, UniqueAddresses, AllLiving;
    var x :| x in multiset(c.heap) && x.address == a;
    assert x in Entries(c);
  }

  /** Requests share out evenly between any two servers while both are available, whatever happens to
      the others: one of them may lead by the lead that it had, or by one. */
  lemma {:induction false} LeadIsBounded(tr: seq<Moment>, es: seq<Event>, p: Pace, a: string, b: string, i: nat, k: nat)
    requires Run(tr, es, p) && p.gap <= SafeGap(p.times) && i <= k <= |es| && |tr| == |es| + 1
    requires forall j :: i <= j < k ==>
               HasAddress(multiset(tr[j].cluster.heap), a) && HasAddress(multiset(tr[j].cluster.heap), b)
    ensures var lead := Chosen(tr, es, a, i) - Chosen(tr, es, b, i);
            Chosen(tr, es, a, k) - Chosen(tr, es, b, k) <= if lead >= 1 then lead else 1
    decreases k
  {
    hide Run, SafeGap, Inv, Fresh, Step, HasAddress;
    if i < k {
      LeadIsBounded(tr, es, p, a, b, i, k - 1);
      RunKeeps(tr, es, p);
      InHeapIsRegistered(tr[k - 1].cluster, a);
      InHeapIsRegistered(tr[k - 1].cluster, b);
      if es[k - 1].Accessing? && es[k - 1].result == a && tr[k - 1].cluster.heap != [] {
        LeastChosen(tr, es, p, k - 1);
        var x := EntryOf(tr[k - 1].cluster.heap, b);
      }
    }
  }

  lemma EntryOf(s: seq<AccessTime>, a: string) returns (x: AccessTime)
    requires HasAddress(multiset(s), a)
    ensures x in s && x.address == a
  {
    x :| x in multiset(s) && x.address == a;
  }
}
