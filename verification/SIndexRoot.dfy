/** The root of the learned index: groups, root models and lookup (src/sindex/sindex_root.cpp). */
module SIndexRoot {
  import opened StrKey
  import opened FeatureSlice
  import opened Grouping
  import opened SIndexGroup

  const MAX_ROOT_MODEL_N := 4

  datatype ModelState = ModelState(pLen: nat, fLen: nat, pivotNum: nat, weights: seq<Double>)

  /** Everything a lookup depends on, besides the sorted names. */
  datatype RootState = RootState(groups: seq<GroupState>, pivots: seq<Key>,
                                 models: seq<ModelState>, modelPivots: seq<Key>)

  // ---------- merging the pivot groups into at most four root models ----------

  /** The source group at which merged model i starts, out of k: the first k % 4 models take one more. */
  function MergedStart(k: nat, i: nat): nat {
    i * (k / MAX_ROOT_MODEL_N) + if i <= k % MAX_ROOT_MODEL_N then i else k % MAX_ROOT_MODEL_N
  }

  /** How many source groups merged model i takes. */
  function MergedSize(k: nat, i: nat): int {
    MergedStart(k, i + 1) - MergedStart(k, i)
  }

  /** The merged models share the k source groups out completely, in order, and evenly to within one. */
  lemma MergeBalanced(k: nat)
    requires k > MAX_ROOT_MODEL_N
    ensures MergedStart(k, 0) == 0 && MergedStart(k, MAX_ROOT_MODEL_N) == k
    ensures forall i: nat :: i < MAX_ROOT_MODEL_N ==>
              1 <= k / MAX_ROOT_MODEL_N <= MergedSize(k, i) <= k / MAX_ROOT_MODEL_N + 1
  {
    forall i: nat | i < MAX_ROOT_MODEL_N
      ensures k / MAX_ROOT_MODEL_N <= MergedSize(k, i) <= k / MAX_ROOT_MODEL_N + 1
    {
      assert (i + 1) * (k / MAX_ROOT_MODEL_N) == i * (k / MAX_ROOT_MODEL_N) + k / MAX_ROOT_MODEL_N;
    }
  }

  function MergedIndexes(indexes: seq<nat>): (merged: seq<nat>)
    ensures |merged| <= MAX_ROOT_MODEL_N
  {
    var k := |indexes|;
    if k <= MAX_ROOT_MODEL_N then indexes
    else
      MergeBalanced(k);
      assert MergedSize(k, 0) > 0 && MergedSize(k, 1) > 0 && MergedSize(k, 2) > 0 && MergedSize(k, 3) > 0;
      [indexes[0], indexes[MergedStart(k, 1)], indexes[MergedStart(k, 2)], indexes[MergedStart(k, 3)]]
  }

  /** Four models take consecutive runs of the source groups, cut at the positions q; the first k % 4
      runs have one source group more. */
  ghost predicate SharedOut(indexes: seq<nat>, merged: seq<nat>, q: seq<nat>) {
    var k := |indexes|;
    && |merged| == 4 && |q| == 5 && q[0] == 0 && q[4] == k
    && (forall i :: 0 <= i < 4 ==> q[i] < k && merged[i] == indexes[q[i]])
    && (forall i :: 0 <= i < 4 ==> q[i + 1] == q[i] + k / 4 + if i < k % 4 then 1 else 0)
  }

  /** Up to four source groups stay as they are; more are shared out. */
  ghost predicate IsMerge(indexes: seq<nat>, merged: seq<nat>) {
    if |indexes| <= 4 then merged == indexes else exists q :: SharedOut(indexes, merged, q)
  }

  lemma MergeShares(indexes: seq<nat>)
    ensures IsMerge(indexes, MergedIndexes(indexes))
  {
    var k := |indexes|;
    if k > MAX_ROOT_MODEL_N {
      MergeBalanced(k);
      var q := [MergedStart(k, 0), MergedStart(k, 1), MergedStart(k, 2), MergedStart(k, 3), MergedStart(k, 4)];
      assert MergedSize(k, 0) > 0 && MergedSize(k, 1) > 0 && MergedSize(k, 2) > 0 && MergedSize(k, 3) > 0;
      assert SharedOut(indexes, MergedIndexes(indexes), q);
    }
  }

  lemma {:induction false} PartitionIncreasing(ps: seq<nat>, n: nat, i: nat, j: nat)
    requires IsPartition(ps, n) && i < j < |ps|
    ensures ps[i] < ps[j]
    decreases j
  {
    if i < j - 1 {
      PartitionIncreasing(ps, n, i, j - 1);
    }
  }

  /** Merging keeps a partition: starts begin at 0, strictly increase and stay in bounds. */
  lemma MergeKeepsPartition(indexes: seq<nat>, n: nat)
    requires IsPartition(indexes, n)
    ensures IsPartition(MergedIndexes(indexes), n)
    ensures forall x :: x in MergedIndexes(indexes) ==> x in indexes
  {
    var k := |indexes|;
    if k > MAX_ROOT_MODEL_N {
      MergeBalanced(k);
      assert MergedSize(k, 0) > 0 && MergedSize(k, 1) > 0 && MergedSize(k, 2) > 0 && MergedSize(k, 3) > 0;
      PartitionIncreasing(indexes, n, 0, MergedStart(k, 1));
      PartitionIncreasing(indexes, n, MergedStart(k, 1), MergedStart(k, 2));
      PartitionIncreasing(indexes, n, MergedStart(k, 2), MergedStart(k, 3));
    }
  }

  /** Every item of a partitioned range lies in exactly one part. */
  lemma {:induction false} PartitionCovers(ps: seq<nat>, n: nat, x: nat) returns (m: nat)
    requires IsPartition(ps, n) && x < n
    ensures m < |ps| && ps[m] <= x < GroupStop(ps, n, m)
    ensures forall j :: 0 <= j < |ps| && ps[j] <= x < GroupStop(ps, n, j) ==> j == m
  {
    m := |ps| - 1;
    while ps[m] > x
      invariant m < |ps| && x < GroupStop(ps, n, m)
    {
      m := m - 1;
    }
    forall j | 0 <= j < |ps| && ps[j] <= x < GroupStop(ps, n, j) ensures j == m {
      if j < m {
        if j + 1 < m { PartitionIncreasing(ps, n, j + 1, m); }
      } else if m < j {
        if m + 1 < j { PartitionIncreasing(ps, n, m + 1, j); }
      }
    }
  }

  /** The merge loop of `train_piecewise_model`. */
  method MergeIndexes(indexes: seq<nat>) returns (merged: seq<nat>)
    ensures merged == MergedIndexes(indexes) && IsMerge(indexes, merged)
  {
    MergeShares(indexes);
    hide IsMerge;
    merged := indexes;
    if |indexes| > MAX_ROOT_MODEL_N {
      var k := |indexes|;
      var perModel := k / MAX_ROOT_MODEL_N;
      var trailing := k - perModel * MAX_ROOT_MODEL_N;
      var start := 0;
      merged := [];
      MergeBalanced(k);
      for i := 0 to MAX_ROOT_MODEL_N
        invariant start == MergedStart(k, i)
        invariant trailing == if i <= k % MAX_ROOT_MODEL_N then k % MAX_ROOT_MODEL_N - i else 0
        invariant |merged| == i
        invariant forall j :: 0 <= j < i ==> MergedStart(k, j) < k && merged[j] == indexes[MergedStart(k, j)]
      {
        assert MergedStart(k, i) < MergedStart(k, i + 1) && MergedStart(k, i) < k by { MergedBelow(k, i); }
        merged := merged + [indexes[start]];
        start := start + perModel;
        if trailing > 0 {
          trailing := trailing - 1;
          start := start + 1;
        }
      }
    }
  }

  lemma MergedBelow(k: nat, i: nat)
    requires k > MAX_ROOT_MODEL_N && i < MAX_ROOT_MODEL_N
    ensures MergedStart(k, i) < MergedStart(k, i + 1) && MergedStart(k, i) < k
  {
    MergeBalanced(k);
    assert MergedSize(k, 0) > 0 && MergedSize(k, 1) > 0 && MergedSize(k, 2) > 0 && MergedSize(k, 3) > 0;
  }

  // ---------- the last pivot not above a key ----------

  /** The last index whose pivot is at most the key; 0 if there is none. */
  function LastLeq(pivots: seq<Key>, key: Key, n: nat): (r: nat)
    requires 1 <= n <= |pivots|
    ensures r < n
    ensures forall j :: r < j < n ==> !KeyLeq(pivots[j], key)
    ensures r > 0 ==> KeyLeq(pivots[r], key)
    decreases n
  {
    if n == 1 || KeyLeq(pivots[n - 1], key) then n - 1 else LastLeq(pivots, key, n - 1)
  }

  lemma LeqMonotone(pivots: seq<Key>, key: Key)
    requires Sorted(pivots)
    ensures forall i, j :: 0 <= i < j < |pivots| && KeyLeq(pivots[j], key) ==> KeyLeq(pivots[i], key)
  {
    forall i, j | 0 <= i < j < |pivots| && KeyLeq(pivots[j], key) ensures KeyLeq(pivots[i], key) {
      PairLcp(pivots, 0, |pivots|, i, j);
      KeyLeqLess(pivots[i], pivots[j], key);
      KeyOrderTotal(pivots[i], key);
    }
  }

  lemma {:induction false} LastLeqUnique(pivots: seq<Key>, key: Key, r: nat)
    requires r < |pivots|
    requires forall j :: r < j < |pivots| ==> !KeyLeq(pivots[j], key)
    requires r > 0 ==> KeyLeq(pivots[r], key)
    ensures LastLeq(pivots, key, |pivots|) == r
  {
    var x := LastLeq(pivots, key, |pivots|);
  }

  /** `locate_group`, for an arbitrary predicted group: exponential search away from the clamped
      prediction, then binary search for the last pivot not above the key. */
  method LocateGroup(pivots: seq<Key>, key: Key, predicted: int) returns (groupI: nat)
    requires Sorted(pivots) && pivots != []
    ensures groupI == LastLeq(pivots, key, |pivots|)
  {
    LeqMonotone(pivots, key);
    var groupN := |pivots|;
    var i := if predicted > groupN - 1 then groupN - 1 else predicted;
    i := if i < 0 then 0 else i;
    var begin, end;
    var step := 1;
    if KeyLeq(pivots[i], key) {
      begin := i;
      end := begin + step;
      while end < groupN && KeyLeq(pivots[end], key)
        invariant 1 <= step && 0 <= begin < groupN && begin < end
        invariant KeyLeq(pivots[begin], key)
        decreases groupN - end
      {
        step := step * 2;
        begin := end;
        end := begin + step;
      }
      if end > groupN - 1 {
        end := groupN - 1;
      }
    } else {
      end := i;
      begin := end - step;
      while begin >= 0 && !KeyLeq(pivots[begin], key)
        invariant 1 <= step && 0 <= end < groupN && begin < end
        invariant !KeyLeq(pivots[end], key)
        decreases end
      {
        step := step * 2;
        end := begin;
        begin := end - step;
      }
      if begin < 0 {
        begin := -1;
      }
    }
    while end != begin
      invariant -1 <= begin <= end < groupN
      invariant begin >= 0 ==> KeyLeq(pivots[begin], key)
      invariant forall j :: end < j < groupN ==> !KeyLeq(pivots[j], key)
      decreases end - begin
    {
      var mid := (end + begin + 2) / 2;
      if KeyLeq(pivots[mid], key) {
        begin := mid;
      } else {
        end := mid - 1;
      }
    }
    groupI := if end < 0 then 0 else end;
    LastLeqUnique(pivots, key, groupI);
  }

  // ---------- a built index ----------

  /** First group of root model m: the group counts of the models before it, added up. */
  function ModelStart(models: seq<ModelState>, m: nat): nat
    requires m <= |models|
  {
    if m == 0 then 0 else ModelStart(models, m - 1) + models[m - 1].pivotNum
  }

  /** The root models share out the groups; each has a slice inside the buffer and one weight more
      than its slice has bytes. */
  ghost predicate ModelsOk(models: seq<ModelState>, modelPivots: seq<Key>, pivots: seq<Key>) {
    && 1 <= |models| <= MAX_ROOT_MODEL_N && |modelPivots| == |models|
    && ModelStart(models, |models|) == |pivots|
    && (forall m :: 0 <= m < |models| ==> ModelOk(models, modelPivots, pivots, m))
  }

  ghost predicate ModelOk(models: seq<ModelState>, modelPivots: seq<Key>, pivots: seq<Key>, m: nat)
    requires m < |models| == |modelPivots|
  {
    && models[m].pLen + models[m].fLen <= KEY_LEN
    && |models[m].weights| == models[m].fLen + 1
    && models[m].pivotNum >= 1
    && ModelStart(models, m) < |pivots|
    && modelPivots[m] == pivots[ModelStart(models, m)]
  }

  /** A root model as training leaves it, over the pivots of groups b to e. */
  predicate ModelTrained(model: ModelState, num: Numerics, pivots: seq<Key>, b: nat, e: nat)
    requires b < e <= |pivots|
  {
    && model.pivotNum == e - b
    && (e - b == 1 ==> model.pLen == 0 && model.fLen == 1)
    && (e - b >= 2 ==> model.pLen == PrefixLen(pivots, b, e) && model.fLen == FeatureLen(pivots, b, e))
    && model.pLen + model.fLen <= KEY_LEN
    && model.weights == Train(num, Features(pivots, b, e - b, model.pLen, model.fLen),
                              Positions(b, e - b), model.fLen)
  }

  /** The groups cut the names into consecutive runs, each trained on its own keys, and each group's
      pivot is its first key. */
  ghost predicate GroupsOk(groups: seq<GroupState>, pivots: seq<Key>, num: Numerics, names: seq<Key>) {
    && |groups| == |pivots| >= 1
    && IsPartition(Starts(groups), |names|)
    && (forall i :: 0 <= i < |groups| ==> GroupOk(groups, pivots, num, names, i))
  }

  function Starts(groups: seq<GroupState>): (starts: seq<nat>)
    ensures |starts| == |groups|
  {
    seq(|groups|, i requires 0 <= i < |groups| => groups[i].start)
  }

  ghost predicate GroupOk(groups: seq<GroupState>, pivots: seq<Key>, num: Numerics, names: seq<Key>, i: nat)
    requires i < |groups| == |pivots|
  {
    && Trained(groups[i], num, names)
    && groups[i].start + groups[i].arraySize == GroupStop(Starts(groups), |names|, i)
    && pivots[i] == names[groups[i].start]
  }

  ghost predicate Built(r: RootState, num: Numerics, names: seq<Key>) {
    && names != [] && Sorted(names)
    && GroupsOk(r.groups, r.pivots, num, names)
    && ModelsOk(r.models, r.modelPivots, r.pivots)
  }

  /** What `get` answers: the located group's answer. The root models do not matter. */
  function RootGet(r: RootState, num: Numerics, names: seq<Key>, key: Key): Lookup
    requires GroupsOk(r.groups, r.pivots, num, names)
  {
    var i := LastLeq(r.pivots, key, |r.pivots|);
    assert GroupOk(r.groups, r.pivots, num, names, i);
    r.groups[i].Get(num, names, key)
  }

  /** What `predict` answers: the last root model whose pivot is not above the key predicts. */
  function RootPredict(r: RootState, num: Numerics, key: Key): int
    requires ModelsOk(r.models, r.modelPivots, r.pivots)
  {
    var i := LastLeq(r.modelPivots, key, |r.modelPivots|);
    assert ModelOk(r.models, r.modelPivots, r.pivots, i);
    var m := r.models[i];
    num.eval(m.weights, key[m.pLen..m.pLen + m.fLen])
  }

  /** The root model that predicts for a key is the one whose run of groups contains the group that
      `locate_group` finds. */
  lemma PredictingModel(r: RootState, num: Numerics, names: seq<Key>, key: Key, m: nat)
    requires Built(r, num, names) && m < |r.models|
    requires ModelStart(r.models, m) <= LastLeq(r.pivots, key, |r.pivots|) < ModelStart(r.models, m + 1)
    ensures var model := r.models[m];
            model.pLen + model.fLen <= KEY_LEN
            && RootPredict(r, num, key) == num.eval(model.weights, key[model.pLen..model.pLen + model.fLen])
  {
    hide GroupsOk, ModelOk, Sorted, KeyLeq, LastLeq;
    PivotsSorted(r.groups, r.pivots, num, names);
    var g := LastLeq(r.pivots, key, |r.pivots|);
    assert ModelOk(r.models, r.modelPivots, r.pivots, m);
    ModelInBuffer(r.models, r.modelPivots, r.pivots, m);
    forall j | 0 <= j < |r.models| ensures j <= m || !KeyLeq(r.modelPivots[j], key)
      ensures j <= m && j > 0 ==> KeyLeq(r.modelPivots[j], key)
    {
      assert ModelOk(r.models, r.modelPivots, r.pivots, j);
      ModelSide(r, key, m, j);
    }
    LastLeqUnique(r.modelPivots, key, m);
  }

  lemma {:induction false} ModelInBuffer(models: seq<ModelState>, modelPivots: seq<Key>, pivots: seq<Key>, m: nat)
    requires m < |models| == |modelPivots| && ModelOk(models, modelPivots, pivots, m)
    ensures models[m].pLen + models[m].fLen <= KEY_LEN && models[m].pivotNum >= 1
    ensures ModelStart(models, m) < |pivots| && modelPivots[m] == pivots[ModelStart(models, m)]
  {
  }

  /** A later model starts after the located group, an earlier one not. */
  lemma ModelSide(r: RootState, key: Key, m: nat, j: nat)
    requires ModelsOk(r.models, r.modelPivots, r.pivots) && Sorted(r.pivots) && m < |r.models| && j < |r.models|
    requires r.pivots != []
    requires ModelStart(r.models, m) <= LastLeq(r.pivots, key, |r.pivots|) < ModelStart(r.models, m + 1)
    ensures j <= m || !KeyLeq(r.modelPivots[j], key)
    ensures j <= m && j > 0 ==> KeyLeq(r.modelPivots[j], key)
  {
    hide ModelOk, Sorted, KeyLeq, LastLeq;
    forall i | 0 <= i < |r.models| ensures r.models[i].pivotNum >= 1 {
      assert ModelOk(r.models, r.modelPivots, r.pivots, i);
      ModelInBuffer(r.models, r.modelPivots, r.pivots, i);
    }
    assert ModelOk(r.models, r.modelPivots, r.pivots, j);
    ModelInBuffer(r.models, r.modelPivots, r.pivots, j);
    if m + 1 < j { ModelStartIncreasing(r.models, m + 1, j); }
    if j < m { ModelStartIncreasing(r.models, j, m); }
    if 0 < j { ModelStartIncreasing(r.models, 0, j); }
    LastLeqSplits(r.pivots, key, ModelStart(r.models, j));
  }

  lemma {:induction false} LastLeqSplits(pivots: seq<Key>, key: Key, i: nat)
    requires Sorted(pivots) && i < |pivots|
    ensures i > LastLeq(pivots, key, |pivots|) ==> !KeyLeq(pivots[i], key)
    ensures 0 < i <= LastLeq(pivots, key, |pivots|) ==> KeyLeq(pivots[i], key)
  {
    LeqMonotone(pivots, key);
  }

  lemma PivotsSorted(groups: seq<GroupState>, pivots: seq<Key>, num: Numerics, names: seq<Key>)
    requires Sorted(names) && GroupsOk(groups, pivots, num, names)
    ensures Sorted(pivots)
  {
    hide Trained, KeyLess;
    SortedPairs(names);
    var starts := Starts(groups);
    forall i | 0 < i < |pivots| ensures KeyLess(pivots[i - 1], pivots[i]) {
      assert GroupOk(groups, pivots, num, names, i - 1) && GroupOk(groups, pivots, num, names, i);
      assert starts[i - 1] < starts[i] < |names|;
    }
  }

  /** The group located for names[i] is the one that holds position i. */
  lemma LocatedHolds(r: RootState, num: Numerics, names: seq<Key>, i: nat)
    requires Built(r, num, names) && i < |names|
    ensures var g := r.groups[LastLeq(r.pivots, names[i], |r.pivots|)];
            g.start <= i < g.start + g.arraySize
  {
    hide Trained, KeyLeq, Sorted, ModelsOk;
    var m := PartitionCovers(Starts(r.groups), |names|, i);
    assert GroupOk(r.groups, r.pivots, num, names, m);
    hide GroupOk;
    forall j | 0 <= j < |r.pivots| ensures KeyLeq(r.pivots[j], names[i]) <==> j <= m {
      PivotSide(r.groups, r.pivots, num, names, i, m, j);
    }
    LastLeqUnique(r.pivots, names[i], m);
  }

  /** The pivots not above names[i] are those up to the group that holds position i. */
  lemma PivotSide(groups: seq<GroupState>, pivots: seq<Key>, num: Numerics, names: seq<Key>, i: nat, m: nat, j: nat)
    requires Sorted(names) && GroupsOk(groups, pivots, num, names) && i < |names| && m < |groups| && j < |groups|
    requires groups[m].start <= i < GroupStop(Starts(groups), |names|, m)
    ensures KeyLeq(pivots[j], names[i]) <==> j <= m
  {
    hide Trained, KeyLess, KeyLeq, Lcp, Sorted;
    var starts := Starts(groups);
    assert GroupOk(groups, pivots, num, names, j);
    if j < m { PartitionIncreasing(starts, |names|, j, m); }
    if m + 1 < j { PartitionIncreasing(starts, |names|, m + 1, j); }
    assert j <= m <==> starts[j] <= i;
    SortedPairs(names);
    KeyOrderTotal(pivots[j], names[i]);
    KeyOrderTotal(names[i], pivots[j]);
  }

  /** The learned index agrees with a search of the whole list: a stored key is found at its own
      position, and an absent key is never found. It either reports failure or hangs. */
  lemma LookupCorrect(r: RootState, num: Numerics, names: seq<Key>, key: Key)
    requires Built(r, num, names)
    ensures forall i :: 0 <= i < |names| && names[i] == key ==> RootGet(r, num, names, key) == Found(i)
    ensures RootGet(r, num, names, key).Found? <==> key in names
  {
    hide LowerBound, SearchHalts, KeyLess, StrNCmp, FirstDiff, PrefixLen, FeatureLen, ModelsOk;
    var j := LastLeq(r.pivots, key, |r.pivots|);
    assert GroupOk(r.groups, r.pivots, num, names, j);
    GetSound(r.groups[j], num, names, key);
    forall i | 0 <= i < |names| && names[i] == key
      ensures RootGet(r, num, names, key) == Found(i)
    {
      LocatedHolds(r, num, names, i);
      GetStored(r.groups[j], num, names, i - r.groups[j].start);
    }
  }

  lemma {:induction false} ModelStartPrefix(models: seq<ModelState>, extra: ModelState, m: nat)
    requires m <= |models|
    ensures ModelStart(models + [extra], m) == ModelStart(models, m)
    decreases m
  {
    if m > 0 {
      ModelStartPrefix(models, extra, m - 1);
    }
  }

  lemma {:induction false} ModelStartIncreasing(models: seq<ModelState>, i: nat, j: nat)
    requires i < j <= |models| && forall m :: 0 <= m < |models| ==> models[m].pivotNum >= 1
    ensures ModelStart(models, i) < ModelStart(models, j)
    decreases j
  {
    if i < j - 1 {
      ModelStartIncreasing(models, i, j - 1);
    }
  }

  lemma ModelPivotsSorted(models: seq<ModelState>, modelPivots: seq<Key>, pivots: seq<Key>)
    requires Sorted(pivots) && ModelsOk(models, modelPivots, pivots)
    ensures Sorted(modelPivots)
  {
    hide KeyLess;
    forall m | 0 <= m < |models| ensures models[m].pivotNum >= 1 {
      assert ModelOk(models, modelPivots, pivots, m);
    }
    SortedPairs(pivots);
    forall i | 0 < i < |modelPivots| ensures KeyLess(modelPivots[i - 1], modelPivots[i]) {
      ModelStartIncreasing(models, i - 1, i);
      assert ModelOk(models, modelPivots, pivots, i - 1) && ModelOk(models, modelPivots, pivots, i);
    }
  }

  /** One root model over the pivots of groups b to e. */
  method TrainRootModel(num: Numerics, pivots: seq<Key>, b: nat, e: nat) returns (model: ModelState)
    requires Sorted(pivots) && b < e <= |pivots|
    ensures ModelTrained(model, num, pivots, b, e)
  {
    var p, f := 0, 1;
    if e > b + 1 {
      p, f := PartialKeyLen(pivots, b, e);
      SliceDiscriminates(pivots, b, e);
    }
    hide PrefixLen, FeatureLen, Sorted;
    var weights := Train(num, Features(pivots, b, e - b, p, f), Positions(b, e - b), f);
    model := ModelState(p, f, e - b, weights);
  }

  /** One entry per start: model m begins at group starts[m] and is trained up to the next start. */
  ghost predicate ModelAt(num: Numerics, pivots: seq<Key>, starts: seq<nat>,
                          models: seq<ModelState>, modelPivots: seq<Key>, m: nat)
    requires IsPartition(starts, |pivots|) && m < |models| == |modelPivots| <= |starts|
  {
    && ModelStart(models, m) == starts[m]
    && modelPivots[m] == pivots[starts[m]]
    && ModelTrained(models[m], num, pivots, starts[m], GroupStop(starts, |pivots|, m))
  }

  method TrainRootModels(num: Numerics, pivots: seq<Key>, starts: seq<nat>)
    returns (models: seq<ModelState>, modelPivots: seq<Key>)
    requires Sorted(pivots) && pivots != [] && IsPartition(starts, |pivots|) && |starts| <= MAX_ROOT_MODEL_N
    ensures ModelsOk(models, modelPivots, pivots) && |models| == |starts|
    ensures forall m :: 0 <= m < |models| ==> ModelAt(num, pivots, starts, models, modelPivots, m)
  {
    hide Sorted, ModelTrained;
    models, modelPivots := [], [];
    for m := 0 to |starts|
      invariant |models| == |modelPivots| == m
      invariant ModelStart(models, m) == if m < |starts| then starts[m] else |pivots|
      invariant forall j :: 0 <= j < m ==> ModelAt(num, pivots, starts, models, modelPivots, j)
    {
      var b, e := starts[m], GroupStop(starts, |pivots|, m);
      var model := TrainRootModel(num, pivots, b, e);
      ModelAtExtend(num, pivots, starts, models, modelPivots, model);
      models, modelPivots := models + [model], modelPivots + [pivots[b]];
    }
    forall m | 0 <= m < |models| ensures ModelOk(models, modelPivots, pivots, m) {
      assert ModelAt(num, pivots, starts, models, modelPivots, m);
      ModelTrainedOk(models[m], num, pivots, starts[m], GroupStop(starts, |pivots|, m));
    }
  }

  lemma ModelTrainedOk(model: ModelState, num: Numerics, pivots: seq<Key>, b: nat, e: nat)
    requires b < e <= |pivots| && ModelTrained(model, num, pivots, b, e)
    ensures model.pivotNum == e - b && model.pLen + model.fLen <= KEY_LEN && |model.weights| == model.fLen + 1
  {
  }

  lemma {:induction false} ModelAtExtend(num: Numerics, pivots: seq<Key>, starts: seq<nat>,
                      models: seq<ModelState>, modelPivots: seq<Key>, model: ModelState)
    requires IsPartition(starts, |pivots|) && |models| == |modelPivots| < |starts|
    requires ModelStart(models, |models|) == starts[|models|]
    requires forall j :: 0 <= j < |models| ==> ModelAt(num, pivots, starts, models, modelPivots, j)
    requires ModelTrained(model, num, pivots, starts[|models|], GroupStop(starts, |pivots|, |models|))
    ensures var ms, ps := models + [model], modelPivots + [pivots[starts[|models|]]];
            && (forall j :: 0 <= j < |ms| ==> ModelAt(num, pivots, starts, ms, ps, j))
            && ModelStart(ms, |ms|) == GroupStop(starts, |pivots|, |models|)
  {
    var ms, ps := models + [model], modelPivots + [pivots[starts[|models|]]];
    ModelTrainedOk(model, num, pivots, starts[|models|], GroupStop(starts, |pivots|, |models|));
    hide ModelTrained;
    ModelStartPrefix(models, model, |models|);
    forall j | 0 <= j < |ms| ensures ModelAt(num, pivots, starts, ms, ps, j) {
      ModelStartPrefix(models, model, j);
      if j < |models| {
        assert ModelAt(num, pivots, starts, models, modelPivots, j);
      }
    }
  }

  // ---------- the class ----------

  function StatesOf(groups: seq<Group>): (gs: seq<GroupState>)
    reads groups
    ensures |gs| == |groups|
  {
    seq(|groups|, i requires 0 <= i < |groups| reads groups => groups[i].State())
  }

  /** The group objects agree with the pivots and share the sorted names. */
  ghost predicate Linked(groups: seq<Group>, pivots: seq<Key>, names: seq<Key>)
    reads groups
  {
    && |groups| == |pivots|
    && forall i :: 0 <= i < |groups| ==> groups[i].names == names && groups[i].pivot == pivots[i]
  }

  /** The loop of `init` that builds one group per pivot. */
  method BuildGroups(num: Numerics, names: seq<Key>, starts: seq<nat>)
    returns (groups: seq<Group>, pivots: seq<Key>)
    requires names != [] && Sorted(names) && IsPartition(starts, |names|)
    ensures fresh(set g | g in groups) && Linked(groups, pivots, names)
    ensures GroupsOk(StatesOf(groups), pivots, num, names) && Starts(StatesOf(groups)) == starts
  {
    hide Trained, Sorted, GroupBuilt, GroupState.InBounds, GroupOk;
    groups, pivots := [], [];
    ghost var gs: seq<GroupState> := [];
    for i := 0 to |starts|
      invariant |groups| == |pivots| == |gs| == i
      invariant fresh(set g | g in groups) && Linked(groups, pivots, names)
      invariant StatesOf(groups) == gs
      invariant forall j :: 0 <= j < i ==> GroupBuilt(gs[j], pivots[j], num, names, starts, j)
    {
      var begin, end := starts[i], GroupStop(starts, |names|, i);
      var g := new Group();
      g.Init(num, names, begin, end - begin);
      groups, pivots := groups + [g], pivots + [names[begin]];
      gs := gs + [g.State()];
      GroupBuiltIs(g.State(), names[begin], num, names, starts, i);
    }
    BuiltGroups(gs, pivots, num, names, starts);
  }

  lemma GroupBuiltIs(g: GroupState, pivot: Key, num: Numerics, names: seq<Key>, starts: seq<nat>, i: nat)
    requires IsPartition(starts, |names|) && i < |starts| && Trained(g, num, names) && pivot == names[starts[i]]
    requires g.start == starts[i] && g.start + g.arraySize == GroupStop(starts, |names|, i)
    ensures GroupBuilt(g, pivot, num, names, starts, i)
  {
    hide Trained;
  }

  lemma BuiltGroups(gs: seq<GroupState>, pivots: seq<Key>, num: Numerics, names: seq<Key>, starts: seq<nat>)
    requires names != [] && IsPartition(starts, |names|) && |gs| == |pivots| == |starts|
    requires forall j :: 0 <= j < |gs| ==> GroupBuilt(gs[j], pivots[j], num, names, starts, j)
    ensures Starts(gs) == starts && GroupsOk(gs, pivots, num, names)
  {
    hide Trained;
    assert Starts(gs) == starts;
    forall i | 0 <= i < |gs| ensures GroupOk(gs, pivots, num, names, i) {
      assert GroupBuilt(gs[i], pivots[i], num, names, starts, i);
    }
  }

  ghost predicate GroupBuilt(g: GroupState, pivot: Key, num: Numerics, names: seq<Key>, starts: seq<nat>, i: nat)
    requires IsPartition(starts, |names|) && i < |starts|
  {
    && Trained(g, num, names)
    && g.start == starts[i]
    && g.start + g.arraySize == GroupStop(starts, |names|, i)
    && pivot == names[starts[i]]
  }

  class Root {
    var groups: seq<Group>
    var pivots: seq<Key>
    var models: seq<ModelState>
    var modelPivots: seq<Key>
    /** The sorted names the index was built over. */
    ghost var names: seq<Key>

    function State(): (r: RootState)
      reads this, groups
    {
      RootState(StatesOf(groups), pivots, models, modelPivots)
    }

    ghost predicate Valid(num: Numerics)
      reads this, groups
    {
      Built(State(), num, names) && Linked(groups, pivots, names)
    }

    constructor ()
    {
      groups, pivots, models, modelPivots, names := [], [], [], [], [];
    }

    /** `init`: group the keys, build each group, then the root models. */
    method Init(num: Numerics, names: seq<Key>)
      requires names != [] && Sorted(names)
      modifies this
      ensures Valid(num) && this.names == names && fresh(set g | g in groups)
      ensures Starts(State().groups) == GreedyPivots(names, CONFIG, 0)
      ensures IsGreedy(Starts(State().groups), names, CONFIG)
      ensures ModelsFrom(num, pivots, models, modelPivots)
    {
      hide Sorted, GroupsOk, ModelsOk, GreedyPivots, GreedyLink, IsPartition, IsGreedy, ModelsFrom, StatesOf, Starts,
           Linked;
      var pivotIndexes := GroupingByPartialKey(names, CONFIG);
      GreedyIsPartition(names, CONFIG);
      this.names := names;
      groups, pivots := BuildGroups(num, names, pivotIndexes);
      models, modelPivots := TrainPiecewiseModel(num, StatesOf(groups), pivots, names);
    }

    /** `predict`. */
    method Predict(num: Numerics, key: Key) returns (i: int)
      requires Valid(num)
      ensures i == RootPredict(State(), num, key)
    {
      hide Sorted, GroupsOk, KeyLess, KeyLeq;
      var m := 0;
      PivotsSorted(StatesOf(groups), pivots, num, names);
      ModelPivotsSorted(models, modelPivots, pivots);
      LeqMonotone(modelPivots, key);
      while m < |models| - 1 && !KeyLess(key, modelPivots[m + 1])
        invariant m < |models| && (m > 0 ==> KeyLeq(modelPivots[m], key))
      {
        KeyOrderTotal(modelPivots[m + 1], key);
        m := m + 1;
      }
      if m < |models| - 1 { KeyOrderTotal(modelPivots[m + 1], key); }
      LastLeqUnique(modelPivots, key, m);
      assert ModelOk(models, modelPivots, pivots, m);
      i := num.eval(models[m].weights, key[models[m].pLen..models[m].pLen + models[m].fLen]);
    }

    /** `get`. */
    method Get(num: Numerics, key: Key) returns (r: Lookup)
      requires Valid(num)
      ensures r == RootGet(State(), num, names, key)
    {
      hide Sorted, Trained, ModelsOk, RootPredict;
      var predicted := Predict(num, key);
      PivotsSorted(StatesOf(groups), pivots, num, names);
      var i := LocateGroup(pivots, key, predicted);
      assert GroupOk(StatesOf(groups), pivots, num, names, i);
      r := groups[i].Get(num, key);
    }
  }

  /** In a built index every group but the last has at least 350 keys, and its recorded feature is
      at most 4 bytes long unless the group was forced to exactly 400 keys. */
  lemma {:induction false} GroupFeatureBound(groups: seq<GroupState>, pivots: seq<Key>, num: Numerics,
                                             names: seq<Key>, i: nat)
    requires GroupsOk(groups, pivots, num, names) && i + 1 < |groups|
    requires Starts(groups) == GreedyPivots(names, CONFIG, 0)
    ensures groups[i].arraySize >= 350
    ensures groups[i].featureLen <= 4 || groups[i].arraySize == 400
  {
    hide PrefixLen, FeatureLen, GreedyPivots, GroupEnd, ErrorBounds;
    GreedyIsPartition(names, CONFIG);
    assert GroupOk(groups, pivots, num, names, i);
    assert GreedyLink(names, CONFIG, Starts(groups)[i], Starts(groups)[i + 1]);
  }

  /** The root models are those of the merged greedy grouping of the pivots. */
  /** The root models over the greedy runs of the pivots, merged to at most four. */
  ghost predicate ModelsFrom(num: Numerics, pivots: seq<Key>, models: seq<ModelState>, modelPivots: seq<Key>) {
    exists runs, starts :: ModelsOver(num, pivots, models, modelPivots, runs, starts)
  }

  ghost predicate ModelsOver(num: Numerics, pivots: seq<Key>, models: seq<ModelState>, modelPivots: seq<Key>,
                             runs: seq<nat>, starts: seq<nat>)
  {
    && IsGreedy(runs, pivots, CONFIG) && IsMerge(runs, starts) && IsPartition(starts, |pivots|)
    && |starts| == |models| == |modelPivots|
    && forall m :: 0 <= m < |models| ==> ModelAt(num, pivots, starts, models, modelPivots, m)
  }

  /** `train_piecewise_model`: group the pivots, merge to at most four runs, train each run. */
  method TrainPiecewiseModel(num: Numerics, ghost groups: seq<GroupState>, pivots: seq<Key>, ghost names: seq<Key>)
    returns (models: seq<ModelState>, modelPivots: seq<Key>)
    requires Sorted(names) && GroupsOk(groups, pivots, num, names)
    ensures ModelsOk(models, modelPivots, pivots) && ModelsFrom(num, pivots, models, modelPivots)
  {
    assert |pivots| >= 1;
    hide Sorted, GroupsOk, GreedyPivots, GreedyLink, MergedIndexes, IsPartition, IsGreedy, IsMerge, ModelAt, ModelsOk;
    PivotsSorted(groups, pivots, num, names);
    var indexes := GroupingByPartialKey(pivots, CONFIG);
    GreedyIsPartition(pivots, CONFIG);
    MergeKeepsPartition(indexes, |pivots|);
    ghost var runs := indexes;
    indexes := MergeIndexes(indexes);
    models, modelPivots := TrainRootModels(num, pivots, indexes);
    assert |models| == |modelPivots| by { ModelsOkSizes(models, modelPivots, pivots); }
    assert ModelsOver(num, pivots, models, modelPivots, runs, indexes);
  }

  lemma ModelsOkSizes(models: seq<ModelState>, modelPivots: seq<Key>, pivots: seq<Key>)
    requires ModelsOk(models, modelPivots, pivots)
    ensures |models| == |modelPivots|
  {
  }
}
