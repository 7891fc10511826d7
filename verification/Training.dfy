/** What training means for the index: if the solver returns least-squares weights, those of a group
    and of a root model are the best ones for the positions of their own keys
    (src/sindex/sindex_group.cpp, src/sindex/sindex_root.cpp). */
module Training {
  import opened StrKey
  import opened FeatureSlice
  import opened SIndexGroup
  import opened SIndexRoot
  import opened SIndexModel

  /** A slice read as a feature row. */
  function RowOf(slice: seq<Byte>): (row: seq<real>)
    ensures |row| == |slice|
  {
    seq(|slice|, i requires 0 <= i < |slice| => CharValue(slice[i]))
  }

  /** One position per slice, and one weight per byte of a slice and one more. */
  predicate Shaped(slices: seq<seq<Byte>>, positions: seq<nat>, v: seq<real>) {
    |slices| == |positions| && |v| >= 1 && forall i :: 0 <= i < |slices| ==> |slices[i]| == |v| - 1
  }

  /** Squared error of weights v over the first n slices. */
  function RowsCost(slices: seq<seq<Byte>>, positions: seq<nat>, v: seq<real>, n: nat): real
    requires Shaped(slices, positions, v) && n <= |slices|
  {
    if n == 0 then 0.0
    else
      var e := positions[n - 1] as real - Predicted(v, RowOf(slices[n - 1]));
      RowsCost(slices, positions, v, n - 1) + Mul(e, e)
  }

  /** The numbers that the stored weights stand for. */
  function Values(value: Double -> real, w: seq<Double>): (v: seq<real>)
    ensures |v| == |w|
  {
    seq(|w|, i requires 0 <= i < |w| => value(w[i]))
  }

  /** The f + 1 weights that the solver returns. */
  function Fitted(num: Numerics, slices: seq<seq<Byte>>, positions: seq<nat>, f: nat): (w: seq<Double>)
    ensures |w| == f + 1
  {
    seq<Double>(f + 1, i requires 0 <= i <= f => num.fit(slices, positions, f, i))
  }

  /** The n slices [p, p + f) of the keys from lo on, with the positions base, base + 1, ... */
  predicate IsTrainingSet(keys: seq<Key>, lo: nat, n: nat, base: nat, p: nat, f: nat,
                          slices: seq<seq<Byte>>, positions: seq<nat>)
    requires lo + n <= |keys| && p + f <= KEY_LEN
  {
    && |slices| == |positions| == n
    && (forall i :: 0 <= i < n ==> slices[i] == keys[lo + i][p..p + f])
    && (forall i :: 0 <= i < n ==> positions[i] == base + i)
  }

  /** The solver returns a least-squares solution for that training set. */
  ghost predicate FitsBest(num: Numerics, value: Double -> real, keys: seq<Key>, lo: nat, n: nat, base: nat,
                           p: nat, f: nat)
    requires lo + n <= |keys| && p + f <= KEY_LEN
  {
    forall slices, positions, v ::
      IsTrainingSet(keys, lo, n, base, p, f, slices, positions) && |v| == f + 1 && Shaped(slices, positions, v) ==>
        RowsCost(slices, positions, Values(value, Fitted(num, slices, positions, f)), n)
        <= RowsCost(slices, positions, v, n)
  }

  /** Squared error of weights v that predict positions base, base + 1, ... for n keys from lo on. */
  function KeysCost(keys: seq<Key>, lo: nat, n: nat, base: nat, p: nat, v: seq<real>): real
    requires lo + n <= |keys| && |v| >= 1 && p + |v| - 1 <= KEY_LEN
  {
    if n == 0 then 0.0
    else
      var e := (base + n - 1) as real - Predicted(v, ModelKey(keys[lo + n - 1], p, |v| - 1));
      KeysCost(keys, lo, n - 1, base, p, v) + Mul(e, e)
  }

  lemma {:induction false} RowsAreKeys(keys: seq<Key>, lo: nat, m: nat, base: nat, p: nat, v: seq<real>, n: nat)
    requires lo + m <= |keys| && |v| >= 1 && p + |v| - 1 <= KEY_LEN && n <= m
    ensures |Features(keys, lo, m, p, |v| - 1)| == m
    ensures Shaped(Features(keys, lo, m, p, |v| - 1), Positions(base, m), v)
    ensures IsTrainingSet(keys, lo, m, base, p, |v| - 1, Features(keys, lo, m, p, |v| - 1), Positions(base, m))
    ensures RowsCost(Features(keys, lo, m, p, |v| - 1), Positions(base, m), v, n) == KeysCost(keys, lo, n, base, p, v)
  {
    hide Mul, Predicted;
    var f := |v| - 1;
    if n > 0 {
      RowsAreKeys(keys, lo, m, base, p, v, n - 1);
      assert RowOf(keys[lo + n - 1][p..p + f]) == ModelKey(keys[lo + n - 1], p, f);
    }
  }

  /** The weights of a run of keys, trained towards positions base, base + 1, ..., are the best. */
  lemma {:induction false} TrainedRun(num: Numerics, value: Double -> real, keys: seq<Key>, lo: nat, n: nat, base: nat,
                                      p: nat, f: nat, v: seq<real>)
    requires lo + n <= |keys| && p + f <= KEY_LEN && FitsBest(num, value, keys, lo, n, base, p, f) && |v| == f + 1
    ensures var w := Train(num, Features(keys, lo, n, p, f), Positions(base, n), f);
            |w| == f + 1
            && KeysCost(keys, lo, n, base, p, Values(value, w)) <= KeysCost(keys, lo, n, base, p, v)
  {
    hide RowsCost, KeysCost, Shaped, Features, Positions, FitsBest;
    var slices, positions := Features(keys, lo, n, p, f), Positions(base, n);
    var w := Train(num, slices, positions, f);
    assert w == Fitted(num, slices, positions, f);
    RowsAreKeys(keys, lo, n, base, p, v, n);
    hide IsTrainingSet;
    RowsAreKeys(keys, lo, n, base, p, Values(value, w), n);
    FittedIsBest(num, value, keys, lo, n, base, p, f, slices, positions, v);
  }

  lemma {:induction false} FittedIsBest(num: Numerics, value: Double -> real, keys: seq<Key>, lo: nat, n: nat,
                                        base: nat, p: nat, f: nat, slices: seq<seq<Byte>>, positions: seq<nat>,
                                        v: seq<real>)
    requires lo + n <= |keys| && p + f <= KEY_LEN && FitsBest(num, value, keys, lo, n, base, p, f)
    requires IsTrainingSet(keys, lo, n, base, p, f, slices, positions) && |v| == f + 1 && Shaped(slices, positions, v)
    ensures RowsCost(slices, positions, Values(value, Fitted(num, slices, positions, f)), n)
            <= RowsCost(slices, positions, v, n)
  {
    hide RowsCost, Fitted, IsTrainingSet;
  }

  /** A group's weights predict the positions of its own keys better than any others. */
  lemma {:induction false} GroupIsBest(g: GroupState, num: Numerics, value: Double -> real, names: seq<Key>,
                                       v: seq<real>)
    requires Trained(g, num, names) && |v| == g.featureLen + 1
    requires FitsBest(num, value, names, g.start, g.arraySize, 0, g.prefixLen, g.featureLen)
    ensures |g.weights| == |v| && g.InBounds(names)
    ensures KeysCost(names, g.start, g.arraySize, 0, g.prefixLen, Values(value, g.weights))
            <= KeysCost(names, g.start, g.arraySize, 0, g.prefixLen, v)
  {
    hide KeysCost, FitsBest, PrefixLen, FeatureLen, ErrorBounds, Train, Features, Positions, Values;
    TrainedRun(num, value, names, g.start, g.arraySize, 0, g.prefixLen, g.featureLen, v);
  }

  /** A root model's weights predict the indices of its own groups, from their pivots, better than any
      others. */
  lemma {:induction false} RootModelIsBest(model: ModelState, num: Numerics, value: Double -> real, pivots: seq<Key>,
                                           b: nat, e: nat, v: seq<real>)
    requires b < e <= |pivots| && ModelTrained(model, num, pivots, b, e)
    requires FitsBest(num, value, pivots, b, e - b, b, model.pLen, model.fLen) && |v| == model.fLen + 1
    ensures |model.weights| == |v| && model.pLen + model.fLen <= KEY_LEN
    ensures KeysCost(pivots, b, e - b, b, model.pLen, Values(value, model.weights))
            <= KeysCost(pivots, b, e - b, b, model.pLen, v)
  {
    hide KeysCost, FitsBest, PrefixLen, FeatureLen, Train, Features, Positions, Values;
    TrainedRun(num, value, pivots, b, e - b, b, model.pLen, model.fLen, v);
  }

  /** The slice tells all keys of a run apart; its prefix is common to them and as long as possible, and
      its feature as short as possible. A single key has the given slice. */
  ghost predicate IsTightSlice(keys: seq<Key>, lo: nat, hi: nat, p: nat, f: nat, single: (nat, nat))
    requires lo < hi <= |keys|
  {
    if hi == lo + 1 then (p, f) == single
    else
      && p < KEY_LEN && Discriminates(keys, lo, hi, p, f)
      && (forall i, j :: lo <= i < hi && lo <= j < hi ==> keys[i][..p] == keys[j][..p])
      && (exists k :: lo < k < hi && keys[k - 1][p] != keys[k][p])
      && (forall f' :: TellsNeighbours(keys, lo, hi, p, f') ==> f <= f')
  }

  /** A group of one key has an empty feature behind the whole key. */
  lemma GroupSlice(g: GroupState, num: Numerics, names: seq<Key>)
    requires Sorted(names) && Trained(g, num, names)
    ensures g.InBounds(names)
    ensures IsTightSlice(names, g.start, g.start + g.arraySize, g.prefixLen, g.featureLen, (51, 0))
  {
    hide Sorted, Discriminates, TellsNeighbours, Train, ErrorBounds;
    if g.arraySize >= 2 {
      SliceDiscriminates(names, g.start, g.start + g.arraySize);
      SliceTight(names, g.start, g.start + g.arraySize);
    }
  }

  /** A root model over one group uses the first byte. */
  lemma RootModelSlice(model: ModelState, num: Numerics, pivots: seq<Key>, b: nat, e: nat)
    requires Sorted(pivots) && b < e <= |pivots| && ModelTrained(model, num, pivots, b, e)
    ensures IsTightSlice(pivots, b, e, model.pLen, model.fLen, (0, 1))
  {
    hide Sorted, Discriminates, TellsNeighbours, Train;
    if e - b >= 2 {
      SliceDiscriminates(pivots, b, e);
      SliceTight(pivots, b, e);
    }
  }
}
