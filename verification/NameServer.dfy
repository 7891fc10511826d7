/** The handlers and background rounds of the name server over its `DataCluster` objects
    (src/dfs/nameserver.cc), proved to take the steps of module Metadata. */
module NameServers {
  import opened HealthCheck
  import opened Cluster
  import opened DataClusters
  import opened Metadata

  /** `Undefined`: the request's group is none of the array, which the source indexes all the same. */
  datatype ConnectState = New | Backup | Duplicate | Reconnected | Undefined

  function ClientsOf(clusters: seq<DataCluster>): set<HealthCheckClient>
    reads clusters
  {
    set c, h | c in clusters && h in c.health.Values :: h
  }

  /** No object is shared between clusters. */
  ghost predicate Separate(clusters: seq<DataCluster>)
    reads clusters
  {
    forall i, j :: 0 <= i < j < |clusters| ==>
      clusters[i] != clusters[j] && clusters[i].health.Values !! clusters[j].health.Values
  }

  ghost predicate AllValid(clusters: seq<DataCluster>)
    reads clusters, ClientsOf(clusters)
  {
    forall i :: 0 <= i < |clusters| ==> clusters[i].Valid()
  }

  /** Every cluster is well formed, whether or not its invariant holds. */
  ghost predicate AllSound(clusters: seq<DataCluster>)
    reads clusters
  {
    forall i :: 0 <= i < |clusters| ==> clusters[i].Sound() && clusters[i].availableNum <= |clusters[i].slots|
  }

  function ClusterValues(clusters: seq<DataCluster>): (cs: seq<Cluster>)
    requires AllSound(clusters)
    reads clusters, ClientsOf(clusters)
    ensures |cs| == |clusters|
    ensures forall i :: 0 <= i < |clusters| ==> cs[i] == clusters[i].Abs()
  {
    seq(|clusters|, i requires 0 <= i < |clusters| && clusters[i].availableNum <= |clusters[i].slots|
                    reads clusters, ClientsOf(clusters) => clusters[i].Abs())
  }

  /** The group that an upload makes ready. */
  function FirstGroup(records: seq<FileRecord>): int {
    if records == [] then -1 else records[0].gid
  }

  ghost predicate AllNew(clusters: seq<DataCluster>)
    reads clusters
  {
    forall i :: 0 <= i < |clusters| ==>
      clusters[i].slots == [] && clusters[i].availableNum == 0 && clusters[i].health == map[] && !clusters[i].groupReady
  }

  /** One empty cluster per group. */
  method NewClusters(groups: nat) returns (cs: seq<DataCluster>)
    ensures |cs| == groups && fresh(cs) && AllNew(cs)
    ensures forall i, j :: 0 <= i < j < |cs| ==> cs[i] != cs[j]
  {
    hide Inv, DataCluster.Valid, DataCluster.Abs;
    cs := [];
    for i := 0 to groups
      invariant |cs| == i && fresh(cs) && AllNew(cs)
      invariant forall j, k :: 0 <= j < k < i ==> cs[j] != cs[k]
    {
      var c := new DataCluster();
      cs := cs + [c];
    }
  }

  lemma NewCluster(c: DataCluster)
    requires c.slots == [] && c.availableNum == 0 && c.health == map[] && !c.groupReady
    ensures c.Valid() && c.Abs() == EMPTY
  {
    hide Inv, HealthCheckClient.Value;
    assert c.Abs() == EMPTY;
    EmptyIsFine(CONFIGURED);
  }

  lemma NewValues(clusters: seq<DataCluster>)
    requires AllNew(clusters) && forall i, j :: 0 <= i < j < |clusters| ==> clusters[i] != clusters[j]
    ensures Separate(clusters) && AllSound(clusters) && AllValid(clusters)
    ensures ClusterValues(clusters) == Initially(|clusters|).clusters
  {
    hide Inv, DataCluster.Valid, DataCluster.Abs, ClusterValues;
    forall i | 0 <= i < |clusters| ensures clusters[i].Valid() && clusters[i].Abs() == EMPTY {
      NewCluster(clusters[i]);
    }
    assert AllValid(clusters);
  }

  class NameServer {
    const times: Times
    var metadata: map<string, MetaData>
    const clusters: seq<DataCluster>

    ghost predicate Valid()
      reads this, clusters, ClientsOf(clusters)
    {
      Separate(clusters) && AllSound(clusters) && AllValid(clusters)
    }

    function Abs(): (s: System)
      requires AllSound(clusters)
      reads this, clusters, ClientsOf(clusters)
      ensures s == System(metadata, ClusterValues(clusters))
    {
      System(metadata, ClusterValues(clusters))
    }

    constructor (times: Times, groups: nat)
      ensures Valid() && Abs() == Initially(groups) && this.times == times
    {
      hide Inv, DataCluster.Valid, DataCluster.Abs, ClusterValues;
      this.times, metadata := times, map[];
      var cs := NewClusters(groups);
      clusters := cs;
      new;
      NewValues(clusters);
    }

    /** `connect_to_master`. */
    method ConnectToMaster(gid: int, address: string, now: nat) returns (state: ConnectState)
      requires Valid()
      modifies if 0 <= gid < |clusters| then {clusters[gid]} else {},
               if 0 <= gid < |clusters| then clusters[gid].health.Values else {}
      ensures Valid() && (state == Undefined <==> !(0 <= gid < |clusters|))
      ensures state == Undefined ==> Abs() == old(Abs())
      ensures state != Undefined ==>
                && ConnectStep(old(Abs()), Abs(), gid, address, now)
                && (state == New <==> address !in old(clusters[gid].health) && |clusters[gid].slots| == 1)
                && (state == Duplicate <==>
                      address in old(clusters[gid].health) && IsLiving(old(clusters[gid].health[address].Value())))
                && (state == Reconnected <==>
                      address in old(clusters[gid].health) && !IsLiving(old(clusters[gid].health[address].Value())))
    {
      hide Inv, Connect, DataCluster.Abs, DataCluster.HealthValues, ClusterValues;
      if !(0 <= gid < |clusters|) {
        return Undefined;
      }
      ValidAt(clusters, gid);
      state := ConnectCluster(clusters[gid], gid, address, now);
      forall i | 0 <= i < |clusters| && i != gid
        ensures clusters[i].Valid() && clusters[i].Abs() == old(clusters[i].Abs())
      {
        assert old(clusters[i].Valid());
      }
      assert Separate(clusters);
      assert AllValid(clusters);
    }

    /** `get_file_metadata`; the assertion in `get_least_access` is the answer `Aborted`. */
    method GetFileMetadata(filename: string) returns (reply: MetaReply)
      requires Valid()
      modifies clusters
      ensures Valid() && GetStep(old(Abs()), Abs(), filename, reply)
      ensures old(MetaOk(Abs())) ==> MetaOk(Abs()) && reply != Aborted
    {
      hide Inv, LeastAccess, MetaOk, GetStep, Populated, DataCluster.Valid, DataCluster.Abs, ClusterValues, Separate;
      ghost var s := Abs();
      reply := NotFound;
      if filename in metadata {
        var gid, fileSize := metadata[filename].gid, metadata[filename].fileSize;
        HasServer(gid);
        if !(0 <= gid < |clusters|) || |clusters[gid].slots| == 0 {
          reply := Aborted;
        } else {
          PopulatedAt(s, gid);
          var address := Access(gid);
          reply := if address == "" then NotWorking else Located(address, fileSize);
          LocatedIs(s, Abs(), filename, address, reply);
        }
      }
      RefusedIs(s, filename, reply);
      if MetaOk(s) {
        GetKeepsMeta(s, Abs(), filename, reply);
      }
    }

    lemma HasServer(gid: int)
      requires Valid()
      ensures Populated(Abs(), gid) <==> 0 <= gid < |clusters| && clusters[gid].slots != []
    {
      hide Inv, DataCluster.HealthValues, ClusterValues;
      if 0 <= gid < |clusters| {
        ValidAt(clusters, gid);
        EmptySlots(clusters[gid]);
      }
    }

    method Access(gid: nat) returns (address: string)
      requires Valid() && gid < |clusters| && Populated(Abs(), gid)
      modifies clusters[gid]
      ensures Valid() && LeastAccess(old(clusters[gid].Abs()), clusters[gid].Abs(), address)
      ensures ClusterValues(clusters) == old(ClusterValues(clusters))[gid := clusters[gid].Abs()]
    {
      hide Inv, LeastAccess, DataCluster.Abs, DataCluster.HealthValues, ClusterValues;
      ValidAt(clusters, gid);
      EmptySlots(clusters[gid]);
      address := clusters[gid].GetLeastAccess();
      forall i | 0 <= i < |clusters| && i != gid
        ensures clusters[i].Valid() && clusters[i].Abs() == old(clusters[i].Abs())
      {
        assert old(clusters[i].Valid());
      }
      assert Separate(clusters);
      assert AllValid(clusters);
    }

    /** The loop that reads the upload stream into the map. */
    method Register(records: seq<FileRecord>)
      modifies this`metadata
      ensures metadata == Uploaded(old(metadata), records)
    {
      for i := 0 to |records|
        invariant metadata == Uploaded(old(metadata), records[..i])
      {
        assert records[..i + 1][..i] == records[..i];
        metadata := metadata[records[i].filename := MetaData(records[i].gid, records[i].fileSize)];
      }
      assert records[..|records|] == records;
    }

    /** `upload_metadata`: whether the map stays sound is decided by the uploaded groups. Without a first
        record, or with a group that is none of the array, the source registers the files and then
        indexes outside the array. */
    method UploadMetadata(records: seq<FileRecord>, now: nat) returns (done: bool)
      requires Valid()
      modifies this`metadata, if 0 <= FirstGroup(records) < |clusters| then {clusters[FirstGroup(records)]} else {},
               if 0 <= FirstGroup(records) < |clusters| then clusters[FirstGroup(records)].health.Values else {}
      ensures Valid() && (done <==> records != [] && IsGroup(old(Abs()), records[0].gid))
      ensures done ==> UploadStep(old(Abs()), Abs(), records, now)
      ensures done && old(MetaOk(Abs())) ==> (MetaOk(Abs()) <==> LandsOk(old(Abs()), records))
      ensures !done ==> Abs() == old(Abs()).(metadata := Uploaded(old(metadata), records))
    {
      hide Inv, SetReady, DataCluster.Abs, DataCluster.HealthValues, DataCluster.Valid, ClusterValues, MetaOk, LandsOk,
           Uploaded, Separate;
      ghost var s := Abs();
      Register(records);
      var gid := FirstGroup(records);
      done := 0 <= gid < |clusters|;
      if done {
        ReadyCluster(gid, now);
        assert UploadStep(s, Abs(), records, now);
        if MetaOk(s) {
          UploadKeepsMetaIff(s, Abs(), records, now);
        }
      }
    }

    method ReadyCluster(gid: nat, now: nat)
      requires Valid() && gid < |clusters|
      modifies clusters[gid], clusters[gid].health.Values
      ensures Valid() && clusters[gid].Abs() == SetReady(old(clusters[gid].Abs()), now)
      ensures ClusterValues(clusters) == old(ClusterValues(clusters))[gid := clusters[gid].Abs()]
    {
      hide Inv, SetReady, DataCluster.Abs, DataCluster.HealthValues, ClusterValues;
      ValidAt(clusters, gid);
      clusters[gid].MakeReady(now);
      forall i | 0 <= i < |clusters| && i != gid
        ensures clusters[i].Valid() && clusters[i].Abs() == old(clusters[i].Abs())
      {
        assert old(clusters[i].Valid());
      }
      assert forall i :: 0 <= i < |clusters| ==> clusters[i].health == old(clusters[i].health);
      assert Separate(clusters);
      assert AllValid(clusters);
    }

    /** One cluster's turn in a health round; empty clusters are skipped. */
    method CheckCluster(i: nat, beats: map<string, Beat>) returns (emptied: bool)
      requires Separate(clusters) && AllSound(clusters) && i < |clusters| && clusters[i].Valid()
      requires clusters[i].health.Keys <= beats.Keys
      modifies clusters[i], clusters[i].health.Values
      ensures Separate(clusters) && AllSound(clusters) && ClientsOf(clusters) <= old(ClientsOf(clusters))
      ensures RoundOf(old(clusters[i].Abs()), clusters[i].Abs(), beats, times)
      ensures emptied <==> !IsEmpty(old(clusters[i].Abs())) && IsEmpty(clusters[i].Abs())
      ensures ClusterValues(clusters) == old(ClusterValues(clusters))[i := clusters[i].Abs()]
    {
      hide Inv, RoundOf, DataCluster.Valid, DataCluster.Abs, DataCluster.HealthValues, ClusterValues, IsEmpty;
      emptied := CheckUnlessEmpty(clusters[i], beats, times);
      forall j | 0 <= j < |clusters| && j != i
        ensures clusters[j].Sound()
        ensures clusters[j].Abs() == old(clusters[j].Abs()) && clusters[j].health == old(clusters[j].health)
      {
        assert old(clusters[j].Sound());
      }
      assert Separate(clusters);
    }

    /** The loop of a health round over the clusters; returns the groups that it emptied. */
    method CheckAll(beats: seq<map<string, Beat>>) returns (removed: set<int>)
      requires Valid() && |beats| == |clusters| && BeatsFor(Abs(), beats)
      modifies clusters, ClientsOf(clusters)
      ensures Separate(clusters) && AllSound(clusters)
      ensures CheckedUpTo(old(Abs()).clusters, ClusterValues(clusters), beats, times, |clusters|, removed)
    {
      hide Inv, RoundOf, DataCluster.HealthValues, DataCluster.Valid, DataCluster.Sound, DataCluster.Abs, ClusterValues,
           IsEmpty, Separate, AllSound, BeatsFor, CheckedUpTo, ClientsOf;
      ghost var s := Abs();
      AllInv(clusters);
      CheckedNone(s.clusters, beats, times);
      removed := {};
      for i := 0 to |clusters|
        invariant Separate(clusters) && AllSound(clusters) && ClientsOf(clusters) <= old(ClientsOf(clusters))
        invariant CheckedUpTo(s.clusters, ClusterValues(clusters), beats, times, i, removed)
      {
        ghost var before := ClusterValues(clusters);
        Unchecked(s.clusters, before, beats, times, i, removed);
        ValidFrom(clusters, i, s.clusters[i]);
        BeatsAt(s, beats, i);
        var emptied := CheckCluster(i, beats[i]);
        CheckedNext(s.clusters, before, ClusterValues(clusters), beats, times, i, removed, emptied);
        if emptied {
          removed := removed + {i};
        }
      }
    }

    /** The loop that erases the files of the removed groups. */
    method DropFiles(removed: set<int>)
      requires AllSound(clusters)
      modifies this`metadata
      ensures ClusterValues(clusters) == old(ClusterValues(clusters))
      ensures metadata == map f | f in old(metadata) && old(metadata)[f].gid !in removed :: old(metadata)[f]
    {
      hide DataCluster.Abs, DataCluster.HealthValues, ClusterValues;
      metadata := map f | f in metadata && metadata[f].gid !in removed :: metadata[f];
    }

    /** One pass of `health_check`: check every cluster, then drop the files of the emptied groups.
        The clusters stay valid exactly if none of them deleted an available server. */
    method HealthRound(beats: seq<map<string, Beat>>)
      requires Valid() && |beats| == |clusters| && BeatsFor(Abs(), beats)
      modifies this`metadata, clusters, ClientsOf(clusters)
      ensures Separate(clusters) && AllSound(clusters) && RoundStep(old(Abs()), Abs(), beats, times)
      ensures Valid() <==> NoneLost(old(Abs()), beats, times)
      ensures old(MetaOk(Abs())) ==> MetaOk(Abs())
    {
      hide Inv, RoundOf, RoundStep, MetaOk, ClusterValues, IsEmpty, DataCluster.Abs, DataCluster.HealthValues,
           BeatsFor, NoneLost, Separate, CheckedUpTo, DataCluster.Valid, DataCluster.Sound;
      ghost var s := Abs();
      AllInv(clusters);
      var removed := CheckAll(beats);
      DropFiles(removed);
      RoundStepIs(s, Abs(), beats, times, removed);
      AllInv(clusters);
      RoundValidIff(s, Abs(), beats, times);
      if MetaOk(s) {
        RoundKeepsMeta(s, Abs(), beats, times);
      }
    }

    /** One pass of `reset_time`; empty clusters are skipped. */
    method ResetTime()
      requires Valid()
      modifies clusters
      ensures Valid() && ResetStep(old(Abs()), Abs())
    {
      hide Inv, Reset, DataCluster.HealthValues, DataCluster.Abs, DataCluster.Valid, ClusterValues;
      ghost var s := Abs();
      for i := 0 to |clusters|
        invariant Valid() && metadata == s.metadata
        invariant forall j :: 0 <= j < |clusters| ==> clusters[j].health == old(clusters[j].health)
        invariant ResetUpTo(s.clusters, ClusterValues(clusters), i)
      {
        ResetCluster(i);
      }
    }

    method ResetCluster(i: nat)
      requires Valid() && i < |clusters|
      modifies clusters[i]
      ensures Valid() && clusters[i].Abs() == Reset(old(clusters[i].Abs()))
      ensures forall j :: 0 <= j < |clusters| ==> clusters[j].health == old(clusters[j].health)
      ensures ClusterValues(clusters) == old(ClusterValues(clusters))[i := clusters[i].Abs()]
    {
      hide Inv, Reset, DataCluster.Abs, DataCluster.HealthValues, ClusterValues;
      ResetUnlessEmpty(clusters[i]);
      forall j | 0 <= j < |clusters| && j != i
        ensures clusters[j].Valid() && clusters[j].Abs() == old(clusters[j].Abs())
      {
        assert old(clusters[j].Valid());
      }
      assert Separate(clusters);
      assert AllValid(clusters);
    }
  }

  /** There is a heartbeat for every server. */
  ghost predicate BeatsFor(s: System, beats: seq<map<string, Beat>>) {
    |beats| == |s.clusters| && forall i :: 0 <= i < |beats| ==> s.clusters[i].health.Keys <= beats[i].Keys
  }

  /** No heartbeat deletes an available server. */
  ghost predicate NoneLost(s: System, beats: seq<map<string, Beat>>, t: Times)
    requires |beats| == |s.clusters|
  {
    forall i :: 0 <= i < |beats| ==> NoEarlyDelete(s.clusters[i], beats[i], t)
  }

  lemma BeatsAt(s: System, beats: seq<map<string, Beat>>, i: nat)
    requires BeatsFor(s, beats) && i < |s.clusters|
    ensures |beats| == |s.clusters| && s.clusters[i].health.Keys <= beats[i].Keys
  {
  }

  /** Validity of the objects is the invariant of their values. */
  lemma AllInv(clusters: seq<DataCluster>)
    requires AllSound(clusters)
    ensures AllValid(clusters) <==> forall i :: 0 <= i < |clusters| ==> Inv(ClusterValues(clusters)[i])
  {
    hide Inv, DataCluster.Abs, DataCluster.Sound, ClusterValues;
    assert forall i :: 0 <= i < |clusters| ==> (clusters[i].Valid() <==> Inv(ClusterValues(clusters)[i]));
  }

  lemma ValidFrom(clusters: seq<DataCluster>, i: nat, value: Cluster)
    requires AllSound(clusters) && i < |clusters| && ClusterValues(clusters)[i] == value && Inv(value)
    ensures clusters[i].Valid() && clusters[i].Sound() && clusters[i].Abs() == value
    ensures value.health.Keys == clusters[i].health.Keys && clusters[i].health.Values <= ClientsOf(clusters)
  {
    hide Inv;
  }

  /** A round keeps every cluster's invariant exactly if none of them deletes an available server. */
  lemma RoundValidIff(s: System, s': System, beats: seq<map<string, Beat>>, t: Times)
    requires BeatsFor(s, beats) && RoundStep(s, s', beats, t)
    requires forall i :: 0 <= i < |s.clusters| ==> Inv(s.clusters[i])
    ensures |s'.clusters| == |s.clusters| == |beats|
    ensures (forall i :: 0 <= i < |s'.clusters| ==> Inv(s'.clusters[i])) <==> NoneLost(s, beats, t)
  {
    hide Inv, Round, NoEarlyDelete;
    forall i | 0 <= i < |beats| ensures Inv(s'.clusters[i]) <==> NoEarlyDelete(s.clusters[i], beats[i], t) {
      if IsEmpty(s.clusters[i]) {
        NothingLost(s.clusters[i], beats[i], t);
      } else {
        RoundKeepsInvIff(s.clusters[i], s'.clusters[i], beats[i], t);
      }
    }
  }

  lemma NothingLost(c: Cluster, beats: map<string, Beat>, t: Times)
    requires c.heap == []
    ensures NoEarlyDelete(c, beats, t)
  {
  }

  /** What the loop of a health round has done up to cluster i. */
  ghost predicate CheckedUpTo(cs: seq<Cluster>, cs': seq<Cluster>, beats: seq<map<string, Beat>>, t: Times,
                              i: nat, removed: set<int>)
  {
    && |cs| == |cs'| == |beats| && i <= |cs|
    && (forall j :: 0 <= j < i ==> RoundOf(cs[j], cs'[j], beats[j], t))
    && (forall j :: i <= j < |cs| ==> cs'[j] == cs[j])
    && (forall j :: j in removed <==> 0 <= j < i && !IsEmpty(cs[j]) && IsEmpty(cs'[j]))
  }

  lemma CheckedNone(cs: seq<Cluster>, beats: seq<map<string, Beat>>, t: Times)
    requires |cs| == |beats|
    ensures CheckedUpTo(cs, cs, beats, t, 0, {})
  {
  }

  lemma Unchecked(cs: seq<Cluster>, m: seq<Cluster>, beats: seq<map<string, Beat>>, t: Times, i: nat, removed: set<int>)
    requires CheckedUpTo(cs, m, beats, t, i, removed) && i < |cs|
    ensures |m| == |cs| && m[i] == cs[i]
  {
  }

  lemma CheckedNext(cs: seq<Cluster>, m: seq<Cluster>, m': seq<Cluster>, beats: seq<map<string, Beat>>, t: Times,
                    i: nat, removed: set<int>, emptied: bool)
    requires CheckedUpTo(cs, m, beats, t, i, removed) && i < |m| == |m'| && m' == m[i := m'[i]]
    requires RoundOf(m[i], m'[i], beats[i], t) && (emptied <==> !IsEmpty(m[i]) && IsEmpty(m'[i]))
    ensures CheckedUpTo(cs, m', beats, t, i + 1, if emptied then removed + {i} else removed)
  {
    hide RoundOf, IsEmpty;
    assert forall j :: 0 <= j < |m| && j != i ==> m'[j] == m[j];
  }

  lemma RoundStepIs(s: System, s': System, beats: seq<map<string, Beat>>, t: Times, removed: set<int>)
    requires CheckedUpTo(s.clusters, s'.clusters, beats, t, |s.clusters|, removed)
    requires s'.metadata == map f | f in s.metadata && s.metadata[f].gid !in removed :: s.metadata[f]
    ensures |beats| == |s.clusters| && RoundStep(s, s', beats, t)
  {
    hide RoundOf, IsEmpty;
  }

  ghost predicate ResetUpTo(cs: seq<Cluster>, cs': seq<Cluster>, i: nat) {
    && |cs| == |cs'| && i <= |cs|
    && (forall j :: 0 <= j < i ==> cs'[j] == Reset(cs[j]))
    && (forall j :: i <= j < |cs| ==> cs'[j] == cs[j])
  }

  /** The two kinds of answer of `get_file_metadata`. */
  lemma LocatedIs(s: System, s': System, f: string, address: string, reply: MetaReply)
    requires f in s.metadata && Populated(s, s.metadata[f].gid) && s'.metadata == s.metadata
    requires var gid := s.metadata[f].gid;
             |s'.clusters| == |s.clusters| && s'.clusters == s.clusters[gid := s'.clusters[gid]]
             && LeastAccess(s.clusters[gid], s'.clusters[gid], address)
    requires reply == if address == "" then NotWorking else Located(address, s.metadata[f].fileSize)
    ensures GetStep(s, s', f, reply)
  {
    hide LeastAccess;
    var gid := s.metadata[f].gid;
    assert forall j :: 0 <= j < |s.clusters| && j != gid ==> s'.clusters[j] == s.clusters[j];
  }

  lemma RefusedIs(s: System, f: string, reply: MetaReply)
    ensures f !in s.metadata && reply == NotFound ==> GetStep(s, s, f, reply)
    ensures f in s.metadata && !Populated(s, s.metadata[f].gid) && reply == Aborted ==> GetStep(s, s, f, reply)
  {
  }

  lemma PopulatedAt(s: System, gid: int)
    requires Populated(s, gid)
    ensures IsGroup(s, gid) && !IsEmpty(s.clusters[gid])
  {
  }

  lemma EmptySlots(c: DataCluster)
    requires c.availableNum <= |c.slots|
    ensures c.slots == [] <==> IsEmpty(c.Abs())
  {
    assert c.slots == c.slots[..c.availableNum] + c.slots[c.availableNum..];
  }

  method CheckUnlessEmpty(c: DataCluster, beats: map<string, Beat>, t: Times) returns (emptied: bool)
    requires c.Valid() && c.health.Keys <= beats.Keys
    modifies c, c.health.Values
    ensures c.Sound() && c.health.Values <= old(c.health.Values)
    ensures RoundOf(old(c.Abs()), c.Abs(), beats, t)
    ensures emptied <==> !IsEmpty(old(c.Abs())) && IsEmpty(c.Abs())
  {
    hide Inv, Round, DataCluster.Abs, DataCluster.HealthValues;
    EmptySlots(c);
    emptied := false;
    var empty := c.Empty();
    if !empty {
      c.Check(beats, t);
      EmptySlots(c);
      emptied := c.Empty();
    }
  }

  method ResetUnlessEmpty(c: DataCluster)
    requires c.Valid()
    modifies c`slots
    ensures c.Valid() && c.Abs() == Reset(old(c.Abs()))
  {
    hide Inv;
    var empty := c.Empty();
    if empty {
      assert Zeroed(c.slots[..c.availableNum]) == c.slots[..c.availableNum];
      assert Zeroed(c.slots[c.availableNum..]) == c.slots[c.availableNum..];
    } else {
      c.ResetTimes();
    }
  }

  lemma ValidAt(clusters: seq<DataCluster>, i: int)
    requires AllValid(clusters) && 0 <= i < |clusters|
    ensures clusters[i].Valid() && clusters[i].availableNum <= |clusters[i].slots|
  {
    hide Inv;
  }

  /** `connect_to_master` on its cluster. */
  method ConnectCluster(c: DataCluster, gid: int, address: string, now: nat) returns (state: ConnectState)
    requires c.Valid()
    modifies c, c.health.Values
    ensures c.Valid() && state != Undefined && Connect(old(c.Abs()), c.Abs(), address, gid, now)
    ensures fresh(c.health.Values - old(c.health.Values))
    ensures state == New <==> address !in old(c.health) && |c.slots| == 1
    ensures state == Duplicate <==> address in old(c.health) && IsLiving(old(c.health[address].Value()))
    ensures state == Reconnected <==> address in old(c.health) && !IsLiving(old(c.health[address].Value()))
  {
    hide Inv, Add, Reconnect, DataCluster.HealthValues;
    var isNew := c.IsNewConnect(address);
    if isNew {
      c.AddServer(address, gid, now);
      var single := c.Single();
      state := if single then New else Backup;
    } else {
      var duplicate := c.Duplicate(address);
      if duplicate {
        return Duplicate;
      }
      c.ReconnectServer(address, now);
      state := Reconnected;
    }
  }
}
