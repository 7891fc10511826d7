/** The name server as a state machine: the file-to-group map over the data clusters
    (src/dfs/nameserver.cc). Each handler and each health round is one atomic step. */
module Metadata {
  import opened AccessHeap
  import opened HealthCheck
  import opened Cluster

  datatype MetaData = MetaData(gid: int, fileSize: nat)

  /** One record of an upload stream. */
  datatype FileRecord = FileRecord(gid: int, filename: string, fileSize: nat)

  datatype System = System(metadata: map<string, MetaData>, clusters: seq<Cluster>)

  predicate IsGroup(s: System, gid: int) {
    0 <= gid < |s.clusters|
  }

  predicate IsEmpty(c: Cluster) {
    c.heap == [] && c.tail == []
  }

  predicate Populated(s: System, gid: int) {
    IsGroup(s, gid) && !IsEmpty(s.clusters[gid])
  }

  /** Every registered file belongs to a group with at least one server: the assertion at the start of
      `get_least_access` cannot fire. */
  predicate MetaOk(s: System) {
    forall f :: f in s.metadata ==> Populated(s, s.metadata[f].gid)
  }

  /** All clusters but one are as before. */
  predicate OthersSame(s: System, s': System, gid: int) {
    |s'.clusters| == |s.clusters| && forall i :: 0 <= i < |s.clusters| && i != gid ==> s'.clusters[i] == s.clusters[i]
  }

  // ---------- the steps ----------

  ghost predicate ConnectStep(s: System, s': System, gid: int, a: string, now: nat)
    requires IsGroup(s, gid)
  {
    && s'.metadata == s.metadata && OthersSame(s, s', gid)
    && Connect(s.clusters[gid], s'.clusters[gid], a, gid, now)
  }

  /** `Aborted`: the assertion in `get_least_access` fails, or the file's group is none of the array. */
  datatype MetaReply = NotFound | NotWorking | Located(address: string, fileSize: nat) | Aborted

  /** `get_file_metadata`. */
  ghost predicate GetStep(s: System, s': System, f: string, reply: MetaReply) {
    && s'.metadata == s.metadata
    && if f !in s.metadata then s' == s && reply == NotFound
       else if !Populated(s, s.metadata[f].gid) then s' == s && reply == Aborted
       else
         var gid := s.metadata[f].gid;
         && OthersSame(s, s', gid)
         && exists a :: LeastAccess(s.clusters[gid], s'.clusters[gid], a)
                        && reply == if a == "" then NotWorking else Located(a, s.metadata[f].fileSize)
  }

  /** The map after an upload: later records win. */
  function Uploaded(m: map<string, MetaData>, records: seq<FileRecord>): map<string, MetaData> {
    if records == [] then m
    else
      var r := records[|records| - 1];
      Uploaded(m, records[..|records| - 1])[r.filename := MetaData(r.gid, r.fileSize)]
  }

  /** `upload_metadata`: the records enter the map, then the first record's group becomes ready. */
  predicate UploadStep(s: System, s': System, records: seq<FileRecord>, now: nat)
    requires records != [] && IsGroup(s, records[0].gid)
  {
    var gid := records[0].gid;
    && s'.metadata == Uploaded(s.metadata, records) && OthersSame(s, s', gid)
    && s'.clusters[gid] == SetReady(s.clusters[gid], now)
  }

  /** One health round: empty clusters are skipped, and the files of groups that it emptied go. */
  ghost predicate RoundStep(s: System, s': System, beats: seq<map<string, Beat>>, t: Times)
    requires |beats| == |s.clusters|
  {
    && |s'.clusters| == |s.clusters|
    && (forall i :: 0 <= i < |s.clusters| ==> RoundOf(s.clusters[i], s'.clusters[i], beats[i], t))
    && s'.metadata == map f | f in s.metadata && !Emptied(s, s', s.metadata[f].gid) :: s.metadata[f]
  }

  ghost predicate RoundOf(c: Cluster, c': Cluster, beats: map<string, Beat>, t: Times) {
    if IsEmpty(c) then c' == c else Round(c, c', beats, t)
  }

  predicate Emptied(s: System, s': System, gid: int) {
    IsGroup(s, gid) && |s'.clusters| == |s.clusters| && !IsEmpty(s.clusters[gid]) && IsEmpty(s'.clusters[gid])
  }

  predicate ResetStep(s: System, s': System) {
    && s'.metadata == s.metadata && |s'.clusters| == |s.clusters|
    && forall i :: 0 <= i < |s.clusters| ==> s'.clusters[i] == Reset(s.clusters[i])
  }

  // ---------- which steps keep the map sound ----------

  lemma ConnectKeepsMeta(s: System, s': System, gid: int, a: string, now: nat)
    requires IsGroup(s, gid) && MetaOk(s) && Inv(s.clusters[gid]) && ConnectStep(s, s', gid, a, now)
    ensures MetaOk(s') && Populated(s', gid)
  {
    hide IsHeap, UniqueAddresses, AllLiving, Connect;
    var c' := s'.clusters[gid];
    ConnectKeepsInv(s.clusters[gid], c', a, gid, now);
    assert HasAddress(Entries(c'), a);
    forall f | f in s'.metadata ensures Populated(s', s'.metadata[f].gid) {
      assert Populated(s, s.metadata[f].gid);
    }
  }

  lemma GetKeepsMeta(s: System, s': System, f: string, reply: MetaReply)
    requires MetaOk(s) && GetStep(s, s', f, reply)
    ensures MetaOk(s') && reply != Aborted
  {
    hide LeastAccess;
    if f in s.metadata { assert Populated(s, s.metadata[f].gid); }
    forall g | g in s'.metadata ensures Populated(s', s'.metadata[g].gid) {
      var gid := s.metadata[g].gid;
      assert Populated(s, gid);
      if f in s.metadata && s.metadata[f].gid == gid {
        var a :| LeastAccess(s.clusters[gid], s'.clusters[gid], a);
        LeastAccessPopulation(s.clusters[gid], s'.clusters[gid], a);
      }
      SameGroupPopulation(s, s', gid);
    }
  }

  /** A map is sound exactly if no request can be answered by an abort. */
  lemma SoundIffNoAbort(s: System)
    ensures MetaOk(s) <==> forall f, s' :: !GetStep(s, s', f, Aborted)
  {
    if !MetaOk(s) {
      var f :| f in s.metadata && !Populated(s, s.metadata[f].gid);
      assert GetStep(s, s, f, Aborted);
    }
  }

  lemma LeastAccessPopulation(c: Cluster, c': Cluster, a: string)
    requires LeastAccess(c, c', a)
    ensures IsEmpty(c') <==> IsEmpty(c)
  {
    hide IsHeap;
    if c.heap != [] {
      assert |multiset(c'.heap)| == |multiset([AccessTime(c.heap[0].times + 1, a)] + c.heap[1..])|;
    }
  }

  lemma SameGroupPopulation(s: System, s': System, gid: int)
    requires IsGroup(s, gid) && |s'.clusters| == |s.clusters|
    requires IsEmpty(s'.clusters[gid]) <==> IsEmpty(s.clusters[gid])
    ensures Populated(s', gid) <==> Populated(s, gid)
  {
  }

  predicate Mentions(records: seq<FileRecord>, f: string) {
    exists i :: 0 <= i < |records| && records[i].filename == f
  }

  /** No later record names the same file. */
  predicate IsLast(records: seq<FileRecord>, i: int) {
    0 <= i < |records| && forall j :: i < j < |records| ==> records[j].filename != records[i].filename
  }

  /** After an upload the last record of a file is the one that counts; other files are as before. */
  lemma {:induction false} UploadedIs(m: map<string, MetaData>, records: seq<FileRecord>, f: string)
    ensures f in Uploaded(m, records) <==> f in m || Mentions(records, f)
    ensures f in m && !Mentions(records, f) ==> Uploaded(m, records)[f] == m[f]
    ensures forall i :: IsLast(records, i) && records[i].filename == f ==>
              f in Uploaded(m, records) && Uploaded(m, records)[f] == MetaData(records[i].gid, records[i].fileSize)
    ensures Mentions(records, f) ==> exists i :: IsLast(records, i) && records[i].filename == f
  {
    if records != [] {
      var k := |records| - 1;
      var init := records[..k];
      UploadedIs(m, init, f);
      if records[k].filename == f {
        assert IsLast(records, k);
        assert forall i :: IsLast(records, i) && records[i].filename == f ==> i == k;
      } else {
        assert forall i :: 0 <= i < k ==> init[i] == records[i];
        assert forall i :: 0 <= i < k && records[i].filename == f ==>
                 (IsLast(records, i) <==> IsLast(init, i));
      }
    }
  }

  /** Every file that the records name ends up in a group with a server. */
  predicate LandsOk(s: System, records: seq<FileRecord>) {
    forall i :: 0 <= i < |records| && IsLast(records, i) ==> Populated(s, records[i].gid)
  }

  /** An upload keeps the map sound if and only if the last record of every file that it names belongs
      to a group with a server. Nothing in the handler checks that. */
  lemma UploadKeepsMetaIff(s: System, s': System, records: seq<FileRecord>, now: nat)
    requires records != [] && IsGroup(s, records[0].gid) && MetaOk(s) && UploadStep(s, s', records, now)
    ensures MetaOk(s') <==> LandsOk(s, records)
  {
    SamePopulation(s, s', records[0].gid);
    hide Uploaded, Populated, SetReady, IsLast, Mentions;
    forall i | IsLast(records, i)
      ensures 0 <= i < |records| && records[i].filename in s'.metadata
      ensures s'.metadata[records[i].filename].gid == records[i].gid
    {
      IsLastIndex(records, i);
      UploadedIs(s.metadata, records, records[i].filename);
    }
    forall f | f in s'.metadata
      ensures || (f in s.metadata && s'.metadata[f] == s.metadata[f])
              || (exists i :: IsLast(records, i) && 0 <= i < |records| && s'.metadata[f].gid == records[i].gid)
    {
      UploadedIs(s.metadata, records, f);
      if Mentions(records, f) {
        var i :| IsLast(records, i) && records[i].filename == f;
        IsLastIndex(records, i);
      }
    }
  }

  lemma IsLastIndex(records: seq<FileRecord>, i: int)
    requires IsLast(records, i)
    ensures 0 <= i < |records|
  {
  }

  lemma SamePopulation(s: System, s': System, gid: int)
    requires IsGroup(s, gid) && OthersSame(s, s', gid)
    requires s'.clusters[gid].heap == s.clusters[gid].heap && s'.clusters[gid].tail == s.clusters[gid].tail
    ensures forall g :: Populated(s', g) <==> Populated(s, g)
  {
  }

  lemma RoundKeepsMeta(s: System, s': System, beats: seq<map<string, Beat>>, t: Times)
    requires MetaOk(s) && |beats| == |s.clusters| && RoundStep(s, s', beats, t)
    ensures MetaOk(s') && forall f :: f in s'.metadata ==> f in s.metadata
  {
    hide Round;
    forall f | f in s'.metadata ensures Populated(s', s'.metadata[f].gid) {
      assert Populated(s, s.metadata[f].gid);
      assert RoundOf(s.clusters[s.metadata[f].gid], s'.clusters[s.metadata[f].gid], beats[s.metadata[f].gid], t);
    }
  }

  /** A round drops the files of the groups that have no server left, and no others. */
  lemma RoundKeepsFiles(s: System, s': System, beats: seq<map<string, Beat>>, t: Times, f: string)
    requires MetaOk(s) && |beats| == |s.clusters| && RoundStep(s, s', beats, t) && f in s.metadata
    ensures f in s'.metadata <==> Populated(s', s.metadata[f].gid)
    ensures f in s'.metadata ==> s'.metadata[f] == s.metadata[f]
  {
    hide RoundOf;
    assert Populated(s, s.metadata[f].gid);
  }

  /** A request for an uploaded file is answered with the size of its last record and an available
      server of its group that has the fewest requests; not, if none is available. */
  lemma UploadThenGet(s: System, s1: System, s2: System, records: seq<FileRecord>, now: nat, i: nat, reply: MetaReply)
    requires records != [] && IsGroup(s, records[0].gid) && UploadStep(s, s1, records, now)
    requires IsLast(records, i) && Populated(s1, records[i].gid) && GetStep(s1, s2, records[i].filename, reply)
    requires Inv(s1.clusters[records[i].gid])
    ensures var heap := s1.clusters[records[i].gid].heap;
            && (reply.Located? ==>
                  && heap != [] && reply.address == heap[0].address && reply.fileSize == records[i].fileSize
                  && forall e :: e in heap ==> heap[0].times <= e.times)
            && (!reply.Located? ==> reply == NotWorking && (heap == [] || heap[0].address == ""))
  {
    hide Inv, SetReady, IsHeap;
    UploadedIs(s.metadata, records, records[i].filename);
    hide IsLast, Uploaded;
    var gid := records[i].gid;
    var a :| LeastAccess(s1.clusters[gid], s2.clusters[gid], a)
             && reply == if a == "" then NotWorking else Located(a, records[i].fileSize);
    LeastAccessKeepsInv(s1.clusters[gid], s2.clusters[gid], a);
  }

  /** The periodic reset clears the counters of all servers of all groups, and nothing else. */
  lemma ResetStepClears(s: System, s': System)
    requires ResetStep(s, s')
    ensures s'.metadata == s.metadata && |s'.clusters| == |s.clusters|
    ensures forall i :: 0 <= i < |s.clusters| ==>
              var c, c' := s.clusters[i], s'.clusters[i];
              && IsCleared(c.heap, c'.heap) && IsCleared(c.tail, c'.tail)
              && c'.health == c.health && c'.ready == c.ready
  {
    hide IsCleared, Reset;
    forall i | 0 <= i < |s.clusters|
      ensures IsCleared(s.clusters[i].heap, s'.clusters[i].heap) && IsCleared(s.clusters[i].tail, s'.clusters[i].tail)
      ensures s'.clusters[i].health == s.clusters[i].health && s'.clusters[i].ready == s.clusters[i].ready
    {
      ResetClears(s.clusters[i]);
    }
  }

  /** An upload makes every server of the first record's group living from now on, and changes no
      other group and no array. */
  lemma UploadReadies(s: System, s': System, records: seq<FileRecord>, now: nat)
    requires records != [] && IsGroup(s, records[0].gid) && UploadStep(s, s', records, now)
    ensures |s'.clusters| == |s.clusters|
    ensures var gid := records[0].gid;
            var c, c' := s.clusters[gid], s'.clusters[gid];
            && (forall i :: 0 <= i < |s.clusters| && i != gid ==> s'.clusters[i] == s.clusters[i])
            && c'.ready && c'.heap == c.heap && c'.tail == c.tail && c'.health.Keys == c.health.Keys
            && forall a :: a in c.health ==> c'.health[a] == Client(Living, now, c.health[a].gid)
  {
    hide Uploaded;
  }

  // ---------- runs of the whole server ----------

  datatype Action =
    | ConnectToMaster(gid: int, address: string, now: nat)
    | GetFileMetadata(filename: string, reply: MetaReply)
    | UploadMetadata(records: seq<FileRecord>, now: nat)
    | HealthRound(begin: nat, end: nat, beats: seq<map<string, Beat>>)
    | ResetTime

  /** One action, in the time frame of module Cluster. An upload that the source can carry out has a
      first record, whose group is one of the array. */
  ghost predicate Act(s: System, last: nat, x: Action, s': System, last': nat, p: Pace) {
    match x
    case ConnectToMaster(gid, a, now) =>
      IsGroup(s, gid) && last <= now && last' == last && ConnectStep(s, s', gid, a, now)
    case GetFileMetadata(f, reply) =>
      last' == last && GetStep(s, s', f, reply)
    case UploadMetadata(records, now) =>
      && records != [] && IsGroup(s, records[0].gid)
      && last <= now && last' == last && UploadStep(s, s', records, now)
    case HealthRound(begin, end, beats) =>
      && last + p.pause <= begin <= end <= last + p.gap && last' == begin && |beats| == |s.clusters|
      && (forall i :: 0 <= i < |beats| ==> BeatsWithin(s.clusters[i], beats[i], begin, end))
      && RoundStep(s, s', beats, p.times)
    case ResetTime =>
      last' == last && ResetStep(s, s')
  }

  ghost predicate ClusterOk(c: Cluster, last: nat, t: Times) {
    Inv(c) && Fresh(c, last, t)
  }

  ghost predicate AllOk(s: System, last: nat, t: Times) {
    forall i :: 0 <= i < |s.clusters| ==> ClusterOk(s.clusters[i], last, t)
  }

  lemma ClusterStepOk(c: Cluster, last: nat, e: Event, c': Cluster, last': nat, p: Pace)
    requires ClusterOk(c, last, p.times) && Step(Moment(c, last), e, Moment(c', last'), p) && p.gap <= SafeGap(p.times)
    ensures ClusterOk(c', last', p.times)
  {
    hide Step, Inv, Fresh, SafeGap;
    StepKeeps(Moment(c, last), e, Moment(c', last'), p);
  }

  /** One cluster takes a step, the others none. */
  lemma OneStepOk(s: System, last: nat, gid: int, e: Event, s': System, p: Pace)
    requires AllOk(s, last, p.times) && p.gap <= SafeGap(p.times) && IsGroup(s, gid) && OthersSame(s, s', gid)
    requires Step(Moment(s.clusters[gid], last), e, Moment(s'.clusters[gid], last), p)
    ensures AllOk(s', last, p.times)
  {
    hide Step, ClusterOk, SafeGap;
    ClusterStepOk(s.clusters[gid], last, e, s'.clusters[gid], last, p);
    forall i | 0 <= i < |s'.clusters| ensures ClusterOk(s'.clusters[i], last, p.times) {
      assert ClusterOk(s.clusters[i], last, p.times);
    }
  }

  lemma GetActOk(s: System, last: nat, f: string, reply: MetaReply, s': System, p: Pace)
    requires AllOk(s, last, p.times) && p.gap <= SafeGap(p.times) && GetStep(s, s', f, reply)
    ensures AllOk(s', last, p.times)
  {
    hide AllOk, SafeGap, LeastAccess;
    if f in s.metadata && Populated(s, s.metadata[f].gid) {
      var gid := s.metadata[f].gid;
      var a :| LeastAccess(s.clusters[gid], s'.clusters[gid], a);
      OneStepOk(s, last, gid, Accessing(a), s', p);
    }
  }

  lemma EmptyClusterOk(c: Cluster, last: nat, last': nat, t: Times)
    requires ClusterOk(c, last, t) && IsEmpty(c)
    ensures c.health == map[] && ClusterOk(c, last', t)
  {
    hide IsHeap;
    assert forall a :: a in c.health ==> HasAddress(Entries(c), a);
    assert c.health == map[];
  }

  lemma RoundActOk(s: System, last: nat, begin: nat, end: nat, beats: seq<map<string, Beat>>, s': System, p: Pace)
    requires AllOk(s, last, p.times) && p.gap <= SafeGap(p.times)
    requires last + p.pause <= begin <= end <= last + p.gap && |beats| == |s.clusters|
    requires forall i :: 0 <= i < |beats| ==> BeatsWithin(s.clusters[i], beats[i], begin, end)
    requires RoundStep(s, s', beats, p.times)
    ensures AllOk(s', begin, p.times)
  {
    hide SafeGap, RoundOf, ClusterOk, BeatsWithin, RoundStep;
    RoundStepParts(s, s', beats, p.times);
    forall i | 0 <= i < |s'.clusters| ensures ClusterOk(s'.clusters[i], begin, p.times) {
      ClusterRoundOk(s.clusters[i], last, begin, end, beats[i], s'.clusters[i], p);
    }
  }

  lemma RoundStepParts(s: System, s': System, beats: seq<map<string, Beat>>, t: Times)
    requires |beats| == |s.clusters| && RoundStep(s, s', beats, t)
    ensures |s'.clusters| == |s.clusters|
    ensures forall i :: 0 <= i < |s.clusters| ==> RoundOf(s.clusters[i], s'.clusters[i], beats[i], t)
  {
    hide RoundOf;
  }

  lemma ClusterRoundOk(c: Cluster, last: nat, begin: nat, end: nat, beats: map<string, Beat>, c': Cluster, p: Pace)
    requires ClusterOk(c, last, p.times) && p.gap <= SafeGap(p.times) && last + p.pause <= begin <= end <= last + p.gap
    requires BeatsWithin(c, beats, begin, end) && RoundOf(c, c', beats, p.times)
    ensures ClusterOk(c', begin, p.times)
  {
    hide Inv, Fresh, SafeGap, Round, ClusterOk, BeatsWithin;
    if IsEmpty(c) {
      EmptyClusterOk(c, last, begin, p.times);
    } else {
      ClusterStepOk(c, last, Checking(begin, end, beats), c', begin, p);
    }
  }

  lemma ResetActOk(s: System, last: nat, s': System, p: Pace)
    requires AllOk(s, last, p.times) && p.gap <= SafeGap(p.times) && ResetStep(s, s')
    ensures AllOk(s', last, p.times)
  {
    hide SafeGap, ClusterOk, Reset;
    forall i | 0 <= i < |s'.clusters| ensures ClusterOk(s'.clusters[i], last, p.times) {
      assert ClusterOk(s.clusters[i], last, p.times);
      ClusterStepOk(s.clusters[i], last, Resetting, s'.clusters[i], last, p);
    }
  }

  lemma ResetKeepsMeta(s: System, s': System)
    requires MetaOk(s) && ResetStep(s, s')
    ensures MetaOk(s')
  {
    forall f | f in s'.metadata ensures Populated(s', s'.metadata[f].gid) {
      assert Populated(s, s.metadata[f].gid);
    }
  }

  /** Every action keeps the invariant of every cluster, whatever is uploaded. */
  lemma ActKeeps(s: System, last: nat, x: Action, s': System, last': nat, p: Pace)
    requires AllOk(s, last, p.times) && Act(s, last, x, s', last', p) && p.gap <= SafeGap(p.times)
    ensures AllOk(s', last', p.times)
  {
    hide AllOk, SafeGap, Connect, GetStep, SetReady, Uploaded, RoundStep, ResetStep, BeatsWithin;
    match x
    case ConnectToMaster(gid, a, now) => OneStepOk(s, last, gid, Connecting(a, gid, now), s', p);
    case GetFileMetadata(f, reply) => GetActOk(s, last, f, reply, s', p);
    case UploadMetadata(records, now) => OneStepOk(s, last, records[0].gid, Readying(now), s', p);
    case HealthRound(begin, end, beats) => RoundActOk(s, last, begin, end, beats, s', p);
    case ResetTime => ResetActOk(s, last, s', p);
  }

  predicate Lands(s: System, x: Action) {
    x.UploadMetadata? ==> LandsOk(s, x.records)
  }

  /** An action keeps a sound map sound if and only if it is no upload to a group without a server. */
  lemma ActKeepsMetaIff(s: System, last: nat, x: Action, s': System, last': nat, p: Pace)
    requires AllOk(s, last, p.times) && MetaOk(s) && Act(s, last, x, s', last', p)
    ensures MetaOk(s') <==> Lands(s, x)
  {
    hide MetaOk, ConnectStep, GetStep, UploadStep, RoundStep, ResetStep, BeatsWithin, Inv, Fresh, LandsOk;
    match x
    case ConnectToMaster(gid, a, now) =>
      assert ClusterOk(s.clusters[gid], last, p.times);
      ConnectKeepsMeta(s, s', gid, a, now);
    case GetFileMetadata(f, reply) => GetKeepsMeta(s, s', f, reply);
    case UploadMetadata(records, now) => UploadKeepsMetaIff(s, s', records, now);
    case HealthRound(begin, end, beats) => RoundKeepsMeta(s, s', beats, p.times);
    case ResetTime => ResetKeepsMeta(s, s');
  }

  datatype Instant = Instant(system: System, last: nat)

  function Initially(groups: nat): System {
    System(map[], seq(groups, _ => EMPTY))
  }

  predicate Aborts(x: Action) {
    x.GetFileMetadata? && x.reply == Aborted
  }

  /** A run of the server; an abort ends it. */
  ghost predicate ServerRun(tr: seq<Instant>, xs: seq<Action>, groups: nat, p: Pace) {
    && |tr| == |xs| + 1
    && tr[0] == Instant(Initially(groups), 0)
    && (forall i :: 0 <= i < |xs| ==> Act(tr[i].system, tr[i].last, xs[i], tr[i + 1].system, tr[i + 1].last, p))
    && (forall i :: 0 <= i < |xs| - 1 ==> !Aborts(xs[i]))
  }

  /** In every run whose rounds are close enough, every cluster keeps its invariant. */
  lemma {:induction false} ServerRunKeeps(tr: seq<Instant>, xs: seq<Action>, groups: nat, p: Pace)
    requires ServerRun(tr, xs, groups, p) && p.gap <= SafeGap(p.times)
    ensures forall i :: 0 <= i <= |xs| ==> AllOk(tr[i].system, tr[i].last, p.times)
    decreases |xs|
  {
    hide AllOk, Act, SafeGap, Initially, Aborts;
    var k := |xs|;
    if k == 0 {
      StartOk(groups, p.times);
    } else {
      ServerRunKeeps(tr[..k], xs[..k - 1], groups, p);
      assert forall i :: 0 <= i < k ==> tr[..k][i] == tr[i];
      ActKeeps(tr[k - 1].system, tr[k - 1].last, xs[k - 1], tr[k].system, tr[k].last, p);
    }
  }

  lemma StartOk(groups: nat, t: Times)
    ensures AllOk(Initially(groups), 0, t) && MetaOk(Initially(groups))
  {
    hide Inv, Fresh;
    EmptyIsFine(t);
  }

  lemma RunActKeepsMetaIff(tr: seq<Instant>, xs: seq<Action>, groups: nat, p: Pace, i: nat)
    requires ServerRun(tr, xs, groups, p) && p.gap <= SafeGap(p.times) && i < |xs| && MetaOk(tr[i].system)
    ensures MetaOk(tr[i + 1].system) <==> Lands(tr[i].system, xs[i])
  {
    ServerRunKeeps(tr, xs, groups, p);
    hide AllOk, Act, SafeGap, MetaOk, Lands, Aborts, Initially;
    ActKeepsMetaIff(tr[i].system, tr[i].last, xs[i], tr[i + 1].system, tr[i + 1].last, p);
  }

  lemma {:induction false} SoundUpTo(tr: seq<Instant>, xs: seq<Action>, groups: nat, p: Pace, i: nat)
    requires ServerRun(tr, xs, groups, p) && p.gap <= SafeGap(p.times) && i <= |xs|
    requires forall j :: 0 <= j < i ==> Lands(tr[j].system, xs[j])
    ensures MetaOk(tr[i].system)
  {
    hide AllOk, Act, SafeGap, MetaOk, Lands, Aborts, Initially;
    if i == 0 {
      StartOk(groups, p.times);
    } else {
      SoundUpTo(tr, xs, groups, p, i - 1);
      RunActKeepsMetaIff(tr, xs, groups, p, i - 1);
    }
  }

  /** In every run whose rounds are close enough, every registered file names a group that has a server
      at all times, if and only if every upload lands in groups that have one when it is made. */
  lemma {:induction false} ServerRunMetaIff(tr: seq<Instant>, xs: seq<Action>, groups: nat, p: Pace)
    requires ServerRun(tr, xs, groups, p) && p.gap <= SafeGap(p.times)
    ensures (forall i :: 0 <= i <= |xs| ==> MetaOk(tr[i].system))
            <==> forall i :: 0 <= i < |xs| ==> Lands(tr[i].system, xs[i])
  {
    hide Act, SafeGap, MetaOk, Lands, Aborts, Initially;
    if forall i :: 0 <= i <= |xs| ==> MetaOk(tr[i].system) {
      forall i | 0 <= i < |xs| ensures Lands(tr[i].system, xs[i]) {
        RunActKeepsMetaIff(tr, xs, groups, p, i);
      }
    }
    if forall i :: 0 <= i < |xs| ==> Lands(tr[i].system, xs[i]) {
      forall i | 0 <= i <= |xs| ensures MetaOk(tr[i].system) {
        SoundUpTo(tr, xs, groups, p, i);
      }
    }
  }

  /** So an abort always has an earlier upload to a group without a server to blame. */
  lemma {:induction false} AbortHasCause(tr: seq<Instant>, xs: seq<Action>, groups: nat, p: Pace, k: nat)
    requires ServerRun(tr, xs, groups, p) && p.gap <= SafeGap(p.times) && k < |xs| && Aborts(xs[k])
    ensures exists i :: 0 <= i < k && !Lands(tr[i].system, xs[i])
  {
    hide SafeGap, MetaOk, Lands, Initially, GetStep;
    if forall i :: 0 <= i < k ==> Lands(tr[i].system, xs[i]) {
      SoundUpTo(tr, xs, groups, p, k);
      GetKeepsMeta(tr[k].system, tr[k + 1].system, xs[k].filename, xs[k].reply);
    }
  }

  /** An upload to a group without a server breaks the map: the next request for the file meets the
      failing assertion. Connecting first does not rule it out. A server that is still uploading is
      never deleted, but one that joins a group marked ready counts as living from the start. */
  lemma LateUploadBreaks(s: System, s': System, r: FileRecord, now: nat)
    requires MetaOk(s) && IsGroup(s, r.gid) && IsEmpty(s.clusters[r.gid]) && UploadStep(s, s', [r], now)
    ensures !MetaOk(s') && GetStep(s', s', r.filename, Aborted)
  {
    UploadedIs(s.metadata, [r], r.filename);
    assert [r][0] == r && IsLast([r], 0);
  }
}
