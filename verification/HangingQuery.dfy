/** A look-up that never returns, on an index trained by the regression of the source
    (src/sindex/sindex_group.cpp, include/sindex/sindex_model.h). */
module HangingQuery {
  import opened StrKey
  import opened FeatureSlice
  import opened SIndexGroup
  import opened SIndexModel

  /** `model_predict` for one feature: cut off at zero and truncated. */
  function PredictLine(w: real, b: real, x: real): nat {
    var y := Mul(w, x) + b;
    if y > 0.0 then y.Floor else 0
  }

  /** The files "a", "b", "c", "d" and "n". */
  function Stored(): (names: seq<Key>)
    ensures |names| == 5
  {
    [KeyOf([97]), KeyOf([98]), KeyOf([99]), KeyOf([100]), KeyOf([110])]
  }

  const SLOPE := 70.0 / 277.0
  const OFFSET := -6502.0 / 277.0

  /** Any solver, with predictions along the fitted line. */
  function Fitted(): Numerics {
    Numerics((_, _, _, _) => seq(8, _ => 0),
             (w, row: seq<Byte>) => if row == [] then 0 else PredictLine(SLOPE, OFFSET, CharValue(row[0])))
  }

  lemma StoredBytes(x: Byte)
    requires x != 0
    ensures KeyOf([x])[0] == x && KeyOf([x])[1] == 0 && KeyOf([x])[0..1] == [x]
  {
    assert KeyOf([x])[..1] == [x];
  }

  lemma SingleByteOrder(x: Byte, y: Byte)
    requires 0 < x < y
    ensures KeyLess(KeyOf([x]), KeyOf([y])) && Lcp(KeyOf([x]), KeyOf([y])) == 0
  {
    StoredBytes(x);
    StoredBytes(y);
  }

  lemma StoredSlice()
    ensures Sorted(Stored()) && PrefixLen(Stored(), 0, 5) == 0 && FeatureLen(Stored(), 0, 5) == 1
  {
    SingleByteOrder(97, 98);
    SingleByteOrder(98, 99);
    SingleByteOrder(99, 100);
    SingleByteOrder(100, 110);
    hide KeyLess, Lcp, KeyOf;
    var names := Stored();
    assert MaxAdjacent(names, 0, 5) == 0;
  }

  const XS := [97.0, 98.0, 99.0, 100.0, 110.0]
  const YS := [0.0, 1.0, 2.0, 3.0, 4.0]

  /** The feature rows and positions that `train_model` hands to the regression. */
  lemma TrainingData()
    ensures FirstFeatures(ModelKeys(Stored(), 0, 5, 0, 1)) == XS && !AllEqual(XS, 5)
  {
    StoredBytes(97);
    StoredBytes(98);
    StoredBytes(99);
    StoredBytes(100);
    StoredBytes(110);
    hide KeyOf;
    var rows := ModelKeys(Stored(), 0, 5, 0, 1);
    assert forall i :: 0 <= i < 5 ==> rows[i] == ModelKey(Stored()[i], 0, 1);
    assert XS[1] != XS[0];
  }

  lemma LineFits()
    ensures NormalEquations(XS, YS, SLOPE, OFFSET)
  {
    assert ResidualSum(XS, YS, SLOPE, OFFSET, 5) == 0.0;
    assert ResidualDot(XS, YS, SLOPE, OFFSET, 5) == 0.0;
  }

  lemma Predictions()
    ensures PredictLine(SLOPE, OFFSET, 97.0) == 1 && PredictLine(SLOPE, OFFSET, 98.0) == 1
    ensures PredictLine(SLOPE, OFFSET, 99.0) == 1 && PredictLine(SLOPE, OFFSET, 100.0) == 1
    ensures PredictLine(SLOPE, OFFSET, 110.0) == 4 && PredictLine(SLOPE, OFFSET, 111.0) == 4
  {
  }

  /** The group over all five names, as training leaves it. */
  function Five(): (g: GroupState)
    ensures g.InBounds(Stored())
  {
    GroupState(0, 5, 0, 1, 2, -1, Train(Fitted(), Features(Stored(), 0, 5, 0, 1), Positions(0, 5), 1))
  }

  lemma PredictedFor(x: Byte)
    requires x != 0
    ensures Five().Predict(Fitted(), KeyOf([x])) == PredictLine(SLOPE, OFFSET, CharValue(x))
  {
    hide KeyOf, PredictLine, Train, Features;
    StoredBytes(x);
  }

  lemma FivePredictions()
    ensures forall i: nat :: i < 5 ==> Five().Predict(Fitted(), Stored()[i]) == if i < 4 then 1 else 4
    ensures Five().Predict(Fitted(), KeyOf([111])) == 4
  {
    Predictions();
    PredictedFor(97);
    PredictedFor(98);
    PredictedFor(99);
    PredictedFor(100);
    PredictedFor(110);
    PredictedFor(111);
    hide KeyOf, PredictLine, Five, Fitted;
  }

  lemma FiveErrors()
    ensures ErrorBounds(Five(), Fitted(), Stored())
  {
    hide Stored, Fitted, Features, Train, GroupState.Predict, KeyOf;
    FivePredictions();
    assert Error(Five(), Fitted(), Stored(), 0) == -1 && Error(Five(), Fitted(), Stored(), 3) == 2;
  }

  lemma FiveTrained()
    ensures Trained(Five(), Fitted(), Stored())
  {
    hide Stored, Fitted, PrefixLen, FeatureLen, Features, Train, GroupState.Predict, KeyOf, Sorted, ErrorBounds;
    StoredSlice();
    FiveErrors();
  }

  lemma FiveHangs()
    ensures KeyOf([111]) !in Stored() && Five().Get(Fitted(), Stored(), KeyOf([111])) == Hangs
  {
    hide KeyOf, Fitted, GroupState.Get, GroupState.Predict, Trained, SliceLess, KeyLess, Lcp, Train, Features;
    FivePredictions();
    FiveTrained();
    SingleByteOrder(110, 111);
    SliceDecides(KeyOf([110]), KeyOf([111]), 0, 1);
    NotStored();
    GetHangsIff(Five(), Fitted(), Stored(), KeyOf([111]));
  }

  lemma NotStored()
    ensures KeyOf([111]) !in Stored()
  {
    StoredBytes(97);
    StoredBytes(98);
    StoredBytes(99);
    StoredBytes(100);
    StoredBytes(110);
    StoredBytes(111);
    hide KeyOf;
  }

  /** Five stored names, their least-squares line, and an absent name whose look-up never returns: the
      prediction for "o" is the end of its window, and "n" is stored there. The line is the one that
      `FitLine` returns (`LineUnique`). */
  lemma HangingQueryExists() returns (g: GroupState, num: Numerics, names: seq<Key>, key: Key, w: real, b: real)
    ensures Sorted(names) && Trained(g, num, names) && key !in names
    ensures g.Get(num, names, key) == Hangs
    ensures g.featureLen == 1 && |names| == |YS| == g.arraySize
    ensures var xs := FirstFeatures(ModelKeys(names, 0, g.arraySize, g.prefixLen, 1));
            !AllEqual(xs, 5) && NormalEquations(xs, YS, w, b)
    ensures forall weights, x: Byte :: num.eval(weights, [x]) == PredictLine(w, b, CharValue(x))
  {
    names, num, key, w, b := Stored(), Fitted(), KeyOf([111]), SLOPE, OFFSET;
    g := Five();
    StoredSlice();
    TrainingData();
    LineFits();
    FiveTrained();
    FiveHangs();
  }
}
