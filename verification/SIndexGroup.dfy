/** One group of the learned index: its slice, its error bounds, its lookup
    (src/sindex/sindex_group.cpp). */
module SIndexGroup {
  import opened StrKey
  import opened FeatureSlice

  /** The bit pattern of a C++ double. */
  type Double = s: seq<Byte> | |s| == 8 witness seq(8, _ => 0)

  /** Training and prediction, as arbitrary functions: `fit(features, positions, f, i)` is the i-th
      of the f + 1 weights, `eval(weights, feature)` the predicted position as the integer that the
      caller stores. Nothing below depends on what they compute. */
  datatype Numerics = Numerics(fit: (seq<seq<Byte>>, seq<nat>, nat, nat) -> Double,
                               eval: (seq<Double>, seq<Byte>) -> int)

  function Train(num: Numerics, features: seq<seq<Byte>>, positions: seq<nat>, f: nat): (w: seq<Double>)
    ensures |w| == f + 1
  {
    seq<Double>(f + 1, i requires 0 <= i <= f => num.fit(features, positions, f, i))
  }

  /** The result of a lookup; `Hangs` stands for a search loop that is never left. */
  datatype Lookup = Found(pos: nat) | Absent | Hangs

  /** The fields of a group that outlive its construction. */
  datatype GroupState = GroupState(start: nat, arraySize: nat, prefixLen: nat, featureLen: nat,
                                   maxPosError: int, maxNegError: int, weights: seq<Double>)
  {
    predicate InBounds(names: seq<Key>) {
      1 <= arraySize && start + arraySize <= |names| && prefixLen + featureLen <= KEY_LEN
    }

    function Keys(names: seq<Key>): seq<Key>
      requires start + arraySize <= |names|
    {
      names[start..start + arraySize]
    }

    function Predict(num: Numerics, key: Key): int
      requires prefixLen + featureLen <= KEY_LEN
    {
      num.eval(weights, key[prefixLen..prefixLen + featureLen])
    }

    function WindowBegin(num: Numerics, key: Key): nat
      requires 1 <= arraySize && prefixLen + featureLen <= KEY_LEN
    {
      Clamp(Predict(num, key) + maxNegError, arraySize)
    }

    function WindowEnd(num: Numerics, key: Key): nat
      requires 1 <= arraySize && prefixLen + featureLen <= KEY_LEN
    {
      Clamp(Predict(num, key) + maxPosError, arraySize)
    }

    /** What `get` answers, by a linear scan of the window. */
    function Get(num: Numerics, names: seq<Key>, key: Key): (r: Lookup)
      requires InBounds(names) && maxNegError <= 0 <= maxPosError
    {
      var b, e := WindowBegin(num, key), WindowEnd(num, key);
      if !SearchHalts(Keys(names), key, prefixLen, featureLen, Predict(num, key), b, e) then Hangs
      else
        var pos := LowerBound(Keys(names), key, prefixLen, featureLen, b, e);
        if names[start + pos] == key then Found(start + pos) else Absent
    }
  }

  function Clamp(x: int, n: nat): (c: nat)
    requires 1 <= n
    ensures c < n
    ensures 0 <= x < n ==> c == x
    ensures (x <= c || c == n - 1) && (c <= x || c == 0)
  {
    if x < 0 then 0 else if x >= n then n - 1 else x
  }

  // ---------- the hinted binary search ----------

  /** The first position of [b, e] whose slice is not below the key's, or e. */
  function LowerBound(keys: seq<Key>, key: Key, p: nat, f: nat, b: nat, e: nat): (r: nat)
    requires b <= e < |keys| && p + f <= KEY_LEN
    ensures b <= r <= e
    ensures forall j :: b <= j < r ==> SliceLess(keys[j], key, p, f)
    ensures r == e || !SliceLess(keys[r], key, p, f)
    decreases e - b
  {
    if b == e || !SliceLess(keys[b], key, p, f) then b else LowerBound(keys, key, p, f, b + 1, e)
  }

  /** The loop is left unless its first probe is the end of a longer window and finds it too small. */
  predicate SearchHalts(keys: seq<Key>, key: Key, p: nat, f: nat, hint: int, b: nat, e: nat)
    requires e < |keys| && p + f <= KEY_LEN
  {
    b == e || hint != e || !SliceLess(keys[e], key, p, f)
  }

  /** The keys below the query's slice form an initial segment. */
  ghost predicate Monotone(keys: seq<Key>, key: Key, p: nat, f: nat)
    requires p + f <= KEY_LEN
  {
    forall i, j :: 0 <= i < j < |keys| && SliceLess(keys[j], key, p, f) ==> SliceLess(keys[i], key, p, f)
  }

  lemma DiscriminatesIsMonotone(keys: seq<Key>, key: Key, p: nat, f: nat)
    requires p + f <= KEY_LEN && Discriminates(keys, 0, |keys|, p, f)
    ensures Monotone(keys, key, p, f)
  {
    forall i, j | 0 <= i < j < |keys| && SliceLess(keys[j], key, p, f)
      ensures SliceLess(keys[i], key, p, f)
    {
      assert SliceTells(keys[i], keys[j], p, f);
      SliceLessChain(keys[i], keys[j], key, p, f);
    }
  }

  lemma {:induction false} LowerBoundUnique(keys: seq<Key>, key: Key, p: nat, f: nat, b: nat, e: nat, r: nat)
    requires b <= r <= e < |keys| && p + f <= KEY_LEN
    requires forall j :: b <= j < r ==> SliceLess(keys[j], key, p, f)
    requires r == e || !SliceLess(keys[r], key, p, f)
    ensures LowerBound(keys, key, p, f, b, e) == r
  {
  }

  /** `binary_search_key`. */
  method BinarySearchKey(keys: seq<Key>, key: Key, p: nat, f: nat, hint: int, b: nat, e: nat)
    returns (mid: nat)
    requires b <= e < |keys| && p + f <= KEY_LEN
    requires Monotone(keys, key, p, f)
    requires SearchHalts(keys, key, p, f, hint, b, e)
    ensures mid == LowerBound(keys, key, p, f, b, e)
  {
    var begin, end := b, e;
    if begin == end {
      return begin;
    }
    mid := if begin <= hint <= end then hint else (begin + end) / 2;
    while end != begin
      invariant b <= begin <= mid <= end <= e
      invariant mid == end ==> begin == end || !SliceLess(keys[end], key, p, f)
      invariant forall j :: b <= j < begin ==> SliceLess(keys[j], key, p, f)
      invariant end == e || !SliceLess(keys[end], key, p, f)
      invariant begin == end ==> mid == end
      decreases end - begin, mid
    {
      if SliceLess(keys[mid], key, p, f) {
        begin := mid + 1;
      } else {
        end := mid;
      }
      mid := (begin + end) / 2;
    }
    LowerBoundUnique(keys, key, p, f, b, e, mid);
  }

  /** The same loop as a machine, to say what happens when it is never left. */
  datatype Search = Search(begin: nat, end: nat, mid: nat) {
    predicate Ok(keys: seq<Key>) {
      begin <= mid + 1 && mid <= end < |keys|
    }

    function Step(keys: seq<Key>, key: Key, p: nat, f: nat): (s: Search)
      requires Ok(keys) && p + f <= KEY_LEN
      ensures s.Ok(keys)
    {
      if begin == end then this
      else if SliceLess(keys[mid], key, p, f) then Search(mid + 1, end, (mid + 1 + end) / 2)
      else Search(begin, mid, (begin + mid) / 2)
    }

    function Run(keys: seq<Key>, key: Key, p: nat, f: nat, n: nat): (s: Search)
      requires Ok(keys) && p + f <= KEY_LEN
      ensures s.Ok(keys)
      decreases n
    {
      if n == 0 then this else Step(keys, key, p, f).Run(keys, key, p, f, n - 1)
    }
  }

  function SearchStart(hint: int, b: nat, e: nat): (s: Search)
    requires b <= e
  {
    if b == e then Search(b, e, b)
    else Search(b, e, if b <= hint <= e then hint else (b + e) / 2)
  }

  lemma {:induction false} SearchExits(keys: seq<Key>, key: Key, p: nat, f: nat, s: Search) returns (n: nat)
    requires s.Ok(keys) && p + f <= KEY_LEN && s.begin <= s.mid
    requires s.mid < s.end || s.begin == s.end || !SliceLess(keys[s.end], key, p, f)
    ensures var r := s.Run(keys, key, p, f, n); r.begin == r.end
    decreases s.end - s.begin, s.mid
  {
    if s.begin == s.end {
      n := 0;
    } else {
      n := SearchExits(keys, key, p, f, s.Step(keys, key, p, f));
      n := n + 1;
    }
  }

  lemma {:induction false} SearchStuck(keys: seq<Key>, key: Key, p: nat, f: nat, s: Search, n: nat)
    requires s.Ok(keys) && p + f <= KEY_LEN && s.begin != s.end && s.mid == s.end
    requires SliceLess(keys[s.end], key, p, f)
    ensures var r := s.Run(keys, key, p, f, n); r.begin != r.end
    decreases n
  {
    if n > 0 {
      SearchStuck(keys, key, p, f, s.Step(keys, key, p, f), n - 1);
    }
  }

  /** The loop is left after finitely many steps exactly under the condition `SearchHalts`. */
  lemma {:induction false} SearchExitsIff(keys: seq<Key>, key: Key, p: nat, f: nat, hint: int, b: nat, e: nat)
    requires b <= e < |keys| && p + f <= KEY_LEN
    ensures SearchHalts(keys, key, p, f, hint, b, e)
            <==> exists n :: var r := SearchStart(hint, b, e).Run(keys, key, p, f, n); r.begin == r.end
  {
    var s := SearchStart(hint, b, e);
    if SearchHalts(keys, key, p, f, hint, b, e) {
      var n := SearchExits(keys, key, p, f, s);
    } else {
      forall n ensures var r := s.Run(keys, key, p, f, n); r.begin != r.end {
        SearchStuck(keys, key, p, f, s, n);
      }
    }
  }

  // ---------- a trained group ----------

  function Features(names: seq<Key>, lo: nat, n: nat, p: nat, f: nat): (fs: seq<seq<Byte>>)
    requires lo + n <= |names| && p + f <= KEY_LEN
    ensures |fs| == n
  {
    seq(n, i requires 0 <= i < n => names[lo + i][p..p + f])
  }

  function Positions(lo: nat, n: nat): (ps: seq<nat>)
    ensures |ps| == n
  {
    seq(n, i requires 0 <= i < n => lo + i)
  }

  /** A group as `init` leaves it: the slice of its keys, weights trained on that slice, and the
      extreme signed errors over its own keys. */
  ghost predicate Trained(g: GroupState, num: Numerics, names: seq<Key>) {
    && g.InBounds(names)
    && (g.arraySize == 1 ==> g.prefixLen == KEY_LEN && g.featureLen == 0)
    && (g.arraySize >= 2 ==>
          && g.prefixLen == PrefixLen(names, g.start, g.start + g.arraySize)
          && g.featureLen == FeatureLen(names, g.start, g.start + g.arraySize))
    && g.weights == Train(num, Features(names, g.start, g.arraySize, g.prefixLen, g.featureLen),
                          Positions(0, g.arraySize), g.featureLen)
    && g.maxNegError <= 0 <= g.maxPosError
    && ErrorBounds(g, num, names)
  }

  /** The recorded errors are the extreme ones over the group's own keys, or zero. */
  ghost predicate ErrorBounds(g: GroupState, num: Numerics, names: seq<Key>)
    requires g.InBounds(names)
  {
    && (forall i: nat :: i < g.arraySize ==> g.maxNegError <= Error(g, num, names, i) <= g.maxPosError)
    && (g.maxNegError < 0 ==> exists i: nat :: i < g.arraySize && Error(g, num, names, i) == g.maxNegError)
    && (g.maxPosError > 0 ==> exists i: nat :: i < g.arraySize && Error(g, num, names, i) == g.maxPosError)
  }

  /** Actual minus predicted position. */
  function Error(g: GroupState, num: Numerics, names: seq<Key>, i: nat): int
    requires g.start + i < |names| && g.prefixLen + g.featureLen <= KEY_LEN
  {
    i - g.Predict(num, names[g.start + i])
  }

  lemma TrainedMonotone(g: GroupState, num: Numerics, names: seq<Key>, key: Key)
    requires Sorted(names) && Trained(g, num, names)
    ensures g.InBounds(names) && g.maxNegError <= 0 <= g.maxPosError
    ensures Discriminates(g.Keys(names), 0, g.arraySize, g.prefixLen, g.featureLen)
    ensures Monotone(g.Keys(names), key, g.prefixLen, g.featureLen)
  {
    hide PrefixLen, FeatureLen, SliceTells, SliceLess;
    if g.arraySize >= 2 {
      SliceDiscriminates(names, g.start, g.start + g.arraySize);
    }
    DiscriminatesRun(names, g.start, g.start + g.arraySize, g.prefixLen, g.featureLen);
    DiscriminatesIsMonotone(g.Keys(names), key, g.prefixLen, g.featureLen);
  }

  /** The clamped window of a stored key contains its position. */
  lemma WindowContains(g: GroupState, num: Numerics, names: seq<Key>, i: nat)
    requires Trained(g, num, names) && i < g.arraySize
    ensures g.WindowBegin(num, names[g.start + i]) <= i <= g.WindowEnd(num, names[g.start + i])
  {
    assert g.maxNegError <= Error(g, num, names, i) <= g.maxPosError;
  }

  lemma TrainedInBounds(g: GroupState, num: Numerics, names: seq<Key>)
    requires Trained(g, num, names)
    ensures g.InBounds(names)
  {
  }

  /** Whatever the model predicts, a group finds each of its keys at its own position. */
  lemma GetStored(g: GroupState, num: Numerics, names: seq<Key>, i: nat)
    requires Sorted(names) && Trained(g, num, names) && i < g.arraySize
    ensures g.Get(num, names, names[g.start + i]) == Found(g.start + i)
  {
    hide Trained, SliceLess, Sorted, Monotone, Discriminates, GroupState.Predict;
    TrainedInBounds(g, num, names);
    var key, ks, p, f := names[g.start + i], g.Keys(names), g.prefixLen, g.featureLen;
    TrainedMonotone(g, num, names, key);
    WindowContains(g, num, names, i);
    forall j | 0 <= j < g.arraySize ensures SliceLess(ks[j], key, p, f) <==> j < i {
      BelowIffEarlier(ks, i, j, p, f);
    }
    LowerBoundUnique(ks, key, p, f, g.WindowBegin(num, key), g.WindowEnd(num, key), i);
  }

  lemma BelowIffEarlier(ks: seq<Key>, i: nat, j: nat, p: nat, f: nat)
    requires i < |ks| && j < |ks| && p + f <= KEY_LEN && Discriminates(ks, 0, |ks|, p, f)
    ensures SliceLess(ks[j], ks[i], p, f) <==> j < i
  {
    hide SliceLess;
    if j < i {
      assert SliceTells(ks[j], ks[i], p, f);
    } else {
      NotBelowEarlier(ks, i, j, p, f);
    }
  }

  lemma NotBelowEarlier(ks: seq<Key>, i: nat, j: nat, p: nat, f: nat)
    requires i <= j < |ks| && p + f <= KEY_LEN && Discriminates(ks, 0, |ks|, p, f)
    ensures !SliceLess(ks[j], ks[i], p, f)
  {
    StrNCmpIsFirstDiff(ks[j], ks[i], p, f);
    StrNCmpIsFirstDiff(ks[i], ks[j], p, f);
    if i < j {
      assert SliceTells(ks[i], ks[j], p, f);
      FirstDiffIs(ks[i], ks[j], p, p + f);
      FirstDiffUnique(ks[j], ks[i], p, p + f, FirstDiff(ks[i], ks[j], p, p + f));
    } else {
      FirstDiffUnique(ks[j], ks[i], p, p + f, p + f);
    }
  }

  /** A found position always holds the query. */
  lemma GetSound(g: GroupState, num: Numerics, names: seq<Key>, key: Key)
    requires Trained(g, num, names)
    ensures var r := g.Get(num, names, key);
            r.Found? ==> g.start <= r.pos < g.start + g.arraySize && names[r.pos] == key
  {
  }

  /** Exactly which queries hang: the prediction is a valid position past the first, it is also the
      end of the window, the window is longer than one, and the key there is below the query. */
  lemma GetHangsIff(g: GroupState, num: Numerics, names: seq<Key>, key: Key)
    requires Trained(g, num, names)
    ensures var pred := g.Predict(num, key);
            g.Get(num, names, key) == Hangs <==>
              && 0 < pred < g.arraySize && g.maxNegError < 0
              && (g.maxPosError == 0 || pred == g.arraySize - 1)
              && SliceLess(names[g.start + pred], key, g.prefixLen, g.featureLen)
  {
  }

  /** The body of `get`, over the group's fields. */
  method SearchGroup(g: GroupState, num: Numerics, names: seq<Key>, key: Key) returns (r: Lookup)
    requires Sorted(names) && Trained(g, num, names)
    ensures r == g.Get(num, names, key)
  {
    hide Trained, Sorted, Monotone, SliceLess, LowerBound, Discriminates;
    TrainedMonotone(g, num, names, key);
    var pred := num.eval(g.weights, key[g.prefixLen..g.prefixLen + g.featureLen]);
    var searchBegin, searchEnd := pred + g.maxNegError, pred + g.maxPosError;
    if searchBegin < 0 { searchBegin := 0; }
    if searchBegin >= g.arraySize { searchBegin := g.arraySize - 1; }
    if searchEnd < 0 { searchEnd := 0; }
    if searchEnd >= g.arraySize { searchEnd := g.arraySize - 1; }
    if !SearchHalts(g.Keys(names), key, g.prefixLen, g.featureLen, pred, searchBegin, searchEnd) {
      return Hangs;
    }
    var pos := BinarySearchKey(g.Keys(names), key, g.prefixLen, g.featureLen, pred, searchBegin, searchEnd);
    r := if pos != g.arraySize && names[g.start + pos] == key then Found(g.start + pos) else Absent;
  }

  class Group {
    var pivot: Key
    /** `needle_begin[i].filename` is names[start + i]; names never change once sorted. */
    var names: seq<Key>
    var start: nat
    var maxNegError: int
    var maxPosError: int
    var arraySize: nat
    var prefixLen: nat
    var featureLen: nat
    var modelWeights: seq<Double>

    function State(): (g: GroupState)
      reads this
    {
      GroupState(start, arraySize, prefixLen, featureLen, maxPosError, maxNegError, modelWeights)
    }

    ghost predicate Valid(num: Numerics)
      reads this
    {
      Trained(State(), num, names) && pivot == names[start]
    }

    constructor ()
    {
      pivot, names := KeyOf([]), [];
      start, maxNegError, maxPosError, arraySize, prefixLen, featureLen := 0, 0, 0, 0, 0, 0;
      modelWeights := [];
    }

    /** `init`. */
    method Init(num: Numerics, names: seq<Key>, begin: nat, arraySize: nat)
      requires Sorted(names) && 1 <= arraySize && begin + arraySize <= |names|
      modifies this
      ensures Valid(num) && this.names == names && start == begin && this.arraySize == arraySize
    {
      this.pivot, this.arraySize := names[begin], arraySize;
      this.names, this.start := names, begin;
      InitFeatureLength();
      TrainModel(num);
    }

    method InitFeatureLength()
      requires Sorted(names) && 1 <= arraySize && start + arraySize <= |names|
      modifies this`prefixLen, this`featureLen
      ensures prefixLen + featureLen <= KEY_LEN
      ensures arraySize == 1 ==> prefixLen == KEY_LEN && featureLen == 0
      ensures arraySize >= 2 ==>
                && prefixLen == PrefixLen(names, start, start + arraySize)
                && featureLen == FeatureLen(names, start, start + arraySize)
    {
      hide PrefixLen, FeatureLen, MaxAdjacent, Sorted, Discriminates;
      if arraySize < 2 {
        prefixLen, featureLen := KEY_LEN, 0;
        return;
      }
      SliceDiscriminates(names, start, start + arraySize);
      prefixLen, featureLen := PartialKeyLen(names, start, start + arraySize);
    }

    /** `train_model` and `prepare_last`: train, then measure the worst errors on both sides. */
    method TrainModel(num: Numerics)
      requires State().InBounds(names)
      modifies this`modelWeights, this`maxPosError, this`maxNegError
      ensures modelWeights == Train(num, Features(names, start, arraySize, prefixLen, featureLen),
                                    Positions(0, arraySize), featureLen)
      ensures maxNegError <= 0 <= maxPosError
      ensures ErrorBounds(State(), num, names)
    {
      var features := Features(names, start, arraySize, prefixLen, featureLen);
      modelWeights := Train(num, features, Positions(0, arraySize), featureLen);
      var posError, negError := 0, 0;
      ghost var before := State();
      for i := 0 to arraySize
        invariant negError <= 0 <= posError
        invariant forall j: nat :: j < i ==> negError <= Error(before, num, names, j) <= posError
        invariant negError < 0 ==> exists j: nat :: j < i && Error(before, num, names, j) == negError
        invariant posError > 0 ==> exists j: nat :: j < i && Error(before, num, names, j) == posError
      {
        var error := i - num.eval(modelWeights, features[i]);
        assert error == Error(before, num, names, i);
        if error > posError { posError := error; }
        if error < negError { negError := error; }
      }
      maxPosError, maxNegError := posError, negError;
      assert forall j: nat :: j < arraySize ==> Error(State(), num, names, j) == Error(before, num, names, j);
    }

    /** `get`: predict, clamp the error window, search it, compare the full key. */
    method Get(num: Numerics, key: Key) returns (r: Lookup)
      requires Valid(num) && Sorted(names)
      ensures r == State().Get(num, names, key)
    {
      hide PrefixLen, FeatureLen, ErrorBounds, Sorted, GroupState.Get;
      r := SearchGroup(State(), num, names, key);
    }
  }
}
