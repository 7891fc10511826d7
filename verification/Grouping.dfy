/** Greedy grouping of sorted keys (`grouping_by_partial_key`, src/sindex/sindex_root.cpp). */
module Grouping {
  import opened StrKey
  import opened FeatureSlice

  datatype Config = Config(partialLenBound: nat, forwardStep: nat, backwardStep: nat, groupMinSize: nat)

  /** The source's constants. */
  const CONFIG := Config(4, 550, 50, 400)

  /** What the loops need from the configuration to make progress. */
  predicate Sound(c: Config) {
    1 <= c.partialLenBound && 1 <= c.backwardStep && c.backwardStep + 2 <= c.groupMinSize <= c.forwardStep
  }

  // ---------- the greedy choice, without memo ----------

  /** Grow from s in forward steps until the feature reaches the bound or the keys run out. */
  function GrowEnd(keys: seq<Key>, c: Config, s: nat, e: nat): (r: nat)
    requires Sound(c) && s <= e <= |keys|
    ensures e + c.forwardStep <= r && s + c.groupMinSize <= r
    ensures r <= |keys| ==> FeatureLen(keys, s, r) >= c.partialLenBound
    decreases |keys| - e
  {
    var next := e + c.forwardStep;
    if next > |keys| || FeatureLen(keys, s, next) >= c.partialLenBound then next
    else GrowEnd(keys, c, s, next)
  }

  /** Shrink in backward steps while the estimate f is above the bound; below the minimum size,
      jump to exactly the minimum. After a step the estimate looks one key past the end. */
  function ShrinkEnd(keys: seq<Key>, c: Config, s: nat, e: nat, f: nat): (r: nat)
    requires Sound(c) && s + c.groupMinSize <= |keys|
    requires s + c.groupMinSize - c.backwardStep <= e <= |keys|
    requires FeatureLen(keys, s, e) <= f
    ensures s + c.groupMinSize - c.backwardStep <= r <= |keys|
    ensures FeatureLen(keys, s, r) <= c.partialLenBound || r == s + c.groupMinSize
    decreases e
  {
    if f <= c.partialLenBound then e
    else if e - s < c.groupMinSize then s + c.groupMinSize
    else
      FeatureLenMonotone(keys, s, e - c.backwardStep);
      ShrinkEnd(keys, c, s, e - c.backwardStep, FeatureLen(keys, s, e - c.backwardStep + 1))
  }

  /** End of the group that starts at s; past the last key for the final group. */
  function GroupEnd(keys: seq<Key>, c: Config, s: nat): (r: nat)
    requires Sound(c) && s < |keys|
    ensures s + c.groupMinSize - c.backwardStep <= r
    ensures r <= |keys| ==> FeatureLen(keys, s, r) <= c.partialLenBound || r == s + c.groupMinSize
  {
    var e := GrowEnd(keys, c, s, s);
    if e > |keys| then e else ShrinkEnd(keys, c, s, e, FeatureLen(keys, s, e))
  }

  function GreedyPivots(keys: seq<Key>, c: Config, s: nat): (pivots: seq<nat>)
    requires Sound(c)
    decreases |keys| - s
  {
    if s >= |keys| then [] else [s] + GreedyPivots(keys, c, GroupEnd(keys, c, s))
  }

  // ---------- what the grouping guarantees ----------

  /** Group starts that cut [0, n) into consecutive nonempty groups. */
  predicate IsPartition(pivots: seq<nat>, n: nat) {
    && (n == 0 <==> pivots == [])
    && (pivots != [] ==> pivots[0] == 0)
    && (forall i :: 0 < i < |pivots| ==> pivots[i - 1] < pivots[i])
    && (forall i :: 0 <= i < |pivots| ==> pivots[i] < n)
  }

  function GroupStop(pivots: seq<nat>, n: nat, i: nat): nat
    requires i < |pivots|
  {
    if i + 1 == |pivots| then n else pivots[i + 1]
  }

  /** b is the end of the greedy group that starts at a; if that group is not the last one, it
      has the least size, and over exactly its keys a feature within the bound unless forced. */
  predicate GreedyLink(keys: seq<Key>, c: Config, a: nat, b: nat)
    requires Sound(c) && b < |keys|
  {
    && a + c.groupMinSize - c.backwardStep <= b
    && b == GroupEnd(keys, c, a)
    && (FeatureLen(keys, a, b) <= c.partialLenBound || b - a == c.groupMinSize)
  }

  lemma {:induction false} GreedyFrom(keys: seq<Key>, c: Config, s: nat)
    requires Sound(c) && s < |keys|
    ensures var ps := GreedyPivots(keys, c, s);
            && ps != [] && ps[0] == s
            && (forall i :: 0 <= i < |ps| ==> ps[i] < |keys|)
            && (forall i :: 0 < i < |ps| ==> GreedyLink(keys, c, ps[i - 1], ps[i]))
            && GroupEnd(keys, c, ps[|ps| - 1]) >= |keys|
    decreases |keys| - s
  {
    hide PrefixLen, MaxAdjacent, FeatureLen, GroupEnd;
    var e := GroupEnd(keys, c, s);
    var ps := GreedyPivots(keys, c, s);
    if e < |keys| {
      GreedyFrom(keys, c, e);
      var rest := GreedyPivots(keys, c, e);
      assert ps == [s] + rest;
      assert GreedyLink(keys, c, s, e);
      forall i | 0 < i < |ps| ensures GreedyLink(keys, c, ps[i - 1], ps[i]) {
        if i > 1 {
          assert GreedyLink(keys, c, rest[i - 2], rest[i - 1]);
        }
      }
    } else {
      assert GreedyPivots(keys, c, e) == [];
      assert ps == [s] + GreedyPivots(keys, c, e);
    }
  }

  /** Greedy pivots partition the keys; every group but the last has at least
      `groupMinSize - backwardStep` keys, and over exactly its keys the feature length is within the
      bound unless the group was forced to exactly the minimum size. */
  lemma {:induction false} GreedyIsPartition(keys: seq<Key>, c: Config)
    requires Sound(c)
    ensures var ps := GreedyPivots(keys, c, 0);
            && IsPartition(ps, |keys|)
            && (forall i :: 0 < i < |ps| ==> GreedyLink(keys, c, ps[i - 1], ps[i]))
            && (ps != [] ==> GroupEnd(keys, c, ps[|ps| - 1]) >= |keys|)
  {
    if keys != [] {
      GreedyFrom(keys, c, 0);
    }
  }

  // ---------- where a group ends, in so many words ----------

  /** The feature over keys[a..e] is still below the bound. */
  predicate Below(keys: seq<Key>, c: Config, a: nat, e: nat) {
    a + 2 <= e <= |keys| && FeatureLen(keys, a, e) < c.partialLenBound
  }

  /** Forward step i is the first at which the feature reaches the bound. */
  predicate Reaches(keys: seq<Key>, c: Config, a: nat, i: nat) {
    var e := a + i * c.forwardStep;
    && i >= 1 && a + 2 <= e <= |keys| && FeatureLen(keys, a, e) >= c.partialLenBound
    && forall k :: 1 <= k < i ==> Below(keys, c, a, a + k * c.forwardStep)
  }

  /** The estimate after backward step j: over the exact range at first, one key more afterwards. */
  predicate TooLong(keys: seq<Key>, c: Config, a: nat, e: int, j: nat) {
    var stop := if j == 0 then e else e + 1;
    a + 2 <= stop <= |keys| && FeatureLen(keys, a, stop) > c.partialLenBound
  }

  predicate Within(keys: seq<Key>, c: Config, a: nat, e: int, j: nat) {
    var stop := if j == 0 then e else e + 1;
    a + 2 <= stop <= |keys| && FeatureLen(keys, a, stop) <= c.partialLenBound
  }

  /** The group that starts at a grows by i steps and shrinks by j. It ends at b: where the estimate is
      within the bound for the first time, or at the minimum size if that is undercut first. */
  predicate CutAt(keys: seq<Key>, c: Config, a: nat, b: int, i: nat, j: nat) {
    var e := a + i * c.forwardStep;
    var last := e - j * c.backwardStep;
    && Reaches(keys, c, a, i)
    && (forall k: nat :: k < j ==>
          TooLong(keys, c, a, e - k * c.backwardStep, k) && e - k * c.backwardStep - a >= c.groupMinSize)
    && if Within(keys, c, a, last, j) then b == last
       else TooLong(keys, c, a, last, j) && last - a < c.groupMinSize && b == a + c.groupMinSize
  }

  ghost predicate Cut(keys: seq<Key>, c: Config, a: nat, b: int) {
    exists i: nat, j: nat :: CutAt(keys, c, a, b, i, j)
  }

  /** Forward step i passes the last key before the feature has reached the bound. */
  predicate PassesAt(keys: seq<Key>, c: Config, a: nat, i: nat) {
    i >= 1 && a + i * c.forwardStep > |keys| && forall k :: 1 <= k < i ==> Below(keys, c, a, a + k * c.forwardStep)
  }

  ghost predicate Passes(keys: seq<Key>, c: Config, a: nat) {
    exists i: nat :: PassesAt(keys, c, a, i)
  }

  lemma StepsApart(k: nat, i: nat, n: nat)
    ensures (k + 1) * n == k * n + n
    ensures k < i ==> k * n + n <= i * n
  {
    if k < i { assert (i - k) * n >= n; }
  }

  lemma {:induction false} GrowReaches(keys: seq<Key>, c: Config, a: nat, k: nat) returns (i: nat)
    requires Sound(c) && a + k * c.forwardStep <= |keys|
    requires forall j :: 1 <= j <= k ==> Below(keys, c, a, a + j * c.forwardStep)
    ensures var r := GrowEnd(keys, c, a, a + k * c.forwardStep);
            r == a + i * c.forwardStep && if r <= |keys| then Reaches(keys, c, a, i) else PassesAt(keys, c, a, i)
    decreases |keys| - a - k * c.forwardStep
  {
    hide FeatureLen, PrefixLen, MaxAdjacent, Reaches, PassesAt, Below;
    var next := a + (k + 1) * c.forwardStep;
    StepsApart(k, 0, c.forwardStep);
    if next > |keys| || FeatureLen(keys, a, next) >= c.partialLenBound {
      i := k + 1;
      GrowthEnds(keys, c, a, i, next);
    } else {
      BelowIs(keys, c, a, next);
      i := GrowReaches(keys, c, a, k + 1);
    }
  }

  lemma GrowthEnds(keys: seq<Key>, c: Config, a: nat, i: nat, e: nat)
    requires i >= 1 && e == a + i * c.forwardStep && a + 2 <= e
    requires forall j :: 1 <= j < i ==> Below(keys, c, a, a + j * c.forwardStep)
    requires e > |keys| || FeatureLen(keys, a, e) >= c.partialLenBound
    ensures if e <= |keys| then Reaches(keys, c, a, i) else PassesAt(keys, c, a, i)
  {
    hide FeatureLen, Below;
  }

  lemma BelowIs(keys: seq<Key>, c: Config, a: nat, e: nat)
    requires a + 2 <= e <= |keys| && FeatureLen(keys, a, e) < c.partialLenBound
    ensures Below(keys, c, a, e)
  {
  }

  lemma {:induction false} ShrinkCuts(keys: seq<Key>, c: Config, a: nat, i: nat, e: nat, f: nat, j: nat)
    requires Sound(c) && a + c.groupMinSize <= |keys| && Reaches(keys, c, a, i)
    requires e == a + i * c.forwardStep - j * c.backwardStep
    requires a + c.groupMinSize - c.backwardStep <= e && (if j == 0 then e else e + 1) <= |keys|
    requires f == FeatureLen(keys, a, if j == 0 then e else e + 1) && FeatureLen(keys, a, e) <= f
    requires forall k: nat :: k < j ==>
               var e' := a + i * c.forwardStep - k * c.backwardStep;
               TooLong(keys, c, a, e', k) && e' - a >= c.groupMinSize
    ensures Cut(keys, c, a, ShrinkEnd(keys, c, a, e, f))
    decreases e
  {
    hide FeatureLen, PrefixLen, MaxAdjacent, Reaches;
    if f <= c.partialLenBound {
      assert CutAt(keys, c, a, e, i, j);
    } else if e - a < c.groupMinSize {
      assert CutAt(keys, c, a, a + c.groupMinSize, i, j);
    } else {
      StepsApart(j, 0, c.backwardStep);
      var e' := e - c.backwardStep;
      FeatureLenMonotone(keys, a, e');
      ShrinkCuts(keys, c, a, i, e', FeatureLen(keys, a, e' + 1), j + 1);
    }
  }

  /** The end of a group is its cut; a group without one passes the last key. */
  lemma GroupEndCuts(keys: seq<Key>, c: Config, a: nat)
    requires Sound(c) && a < |keys|
    ensures var b := GroupEnd(keys, c, a);
            if b <= |keys| then Cut(keys, c, a, b) else Passes(keys, c, a)
  {
    hide FeatureLen, PrefixLen, MaxAdjacent, GrowEnd, ShrinkEnd;
    assert a + 0 * c.forwardStep == a;
    var i := GrowReaches(keys, c, a, 0);
    var e := GrowEnd(keys, c, a, a);
    if e <= |keys| {
      assert e - 0 * c.backwardStep == e;
      ShrinkCuts(keys, c, a, i, e, FeatureLen(keys, a, e), 0);
    }
  }

  lemma ReachesNotBelow(keys: seq<Key>, c: Config, a: nat, i: nat)
    requires Reaches(keys, c, a, i)
    ensures i >= 1 && a + i * c.forwardStep <= |keys| && !Below(keys, c, a, a + i * c.forwardStep)
  {
  }

  lemma BelowBefore(keys: seq<Key>, c: Config, a: nat, i: nat, k: nat)
    requires (Reaches(keys, c, a, i) || PassesAt(keys, c, a, i)) && 1 <= k < i
    ensures Below(keys, c, a, a + k * c.forwardStep)
  {
  }

  lemma ReachesOnce(keys: seq<Key>, c: Config, a: nat, i: nat, i': nat)
    requires Reaches(keys, c, a, i) && Reaches(keys, c, a, i')
    ensures i == i'
  {
    hide Reaches, Below, PassesAt;
    ReachesNotBelow(keys, c, a, i);
    ReachesNotBelow(keys, c, a, i');
    if i < i' {
      BelowBefore(keys, c, a, i', i);
    } else if i' < i {
      BelowBefore(keys, c, a, i, i');
    }
  }

  lemma NoPassing(keys: seq<Key>, c: Config, a: nat, i: nat, n: nat)
    requires Reaches(keys, c, a, i)
    ensures !PassesAt(keys, c, a, n)
  {
    hide Reaches, Below;
    ReachesNotBelow(keys, c, a, i);
    StepsApart(n, i, c.forwardStep);
    if PassesAt(keys, c, a, n) && i < n {
      hide PassesAt;
      BelowBefore(keys, c, a, n, i);
    }
  }

  /** A group has one cut at most, and none if it passes the last key. */
  lemma CutUnique(keys: seq<Key>, c: Config, a: nat, b: int, b': int)
    requires Cut(keys, c, a, b)
    ensures Cut(keys, c, a, b') ==> b == b'
    ensures !Passes(keys, c, a)
  {
    hide Reaches, Below, TooLong, Within, PassesAt;
    var i: nat, j: nat :| CutAt(keys, c, a, b, i, j);
    forall n: nat ensures !PassesAt(keys, c, a, n) {
      NoPassing(keys, c, a, i, n);
    }
    if Cut(keys, c, a, b') {
      var i': nat, j': nat :| CutAt(keys, c, a, b', i', j');
      ReachesOnce(keys, c, a, i, i');
      SameBack(keys, c, a, b, b', i, j, j');
    }
  }

  lemma SameBack(keys: seq<Key>, c: Config, a: nat, b: int, b': int, i: nat, j: nat, j': nat)
    requires CutAt(keys, c, a, b, i, j) && CutAt(keys, c, a, b', i, j')
    ensures b == b'
  {
    hide FeatureLen, PrefixLen, MaxAdjacent, Reaches;
    var e := a + i * c.forwardStep;
    assert j < j' ==> TooLong(keys, c, a, e - j * c.backwardStep, j);
    assert j' < j ==> TooLong(keys, c, a, e - j' * c.backwardStep, j');
  }

  /** The pivots cut the keys one group at a time: each group but the last ends where its cut is, and
      the last has its cut at the end of the keys or passes them. */
  ghost predicate IsGreedy(pivots: seq<nat>, keys: seq<Key>, c: Config) {
    && IsPartition(pivots, |keys|)
    && (forall i :: 0 < i < |pivots| ==> Cut(keys, c, pivots[i - 1], pivots[i]))
    && (pivots != [] ==> var a := pivots[|pivots| - 1]; Cut(keys, c, a, |keys|) || Passes(keys, c, a))
  }

  lemma {:induction false} GreedyCuts(keys: seq<Key>, c: Config)
    requires Sound(c)
    ensures IsGreedy(GreedyPivots(keys, c, 0), keys, c)
  {
    hide FeatureLen, PrefixLen, MaxAdjacent, GroupEnd, Cut, Passes;
    GreedyIsPartition(keys, c);
    var ps := GreedyPivots(keys, c, 0);
    forall i | 0 < i < |ps| ensures Cut(keys, c, ps[i - 1], ps[i]) {
      assert GreedyLink(keys, c, ps[i - 1], ps[i]);
      GroupEndCuts(keys, c, ps[i - 1]);
    }
    if ps != [] {
      LastEnd(keys, c, ps[|ps| - 1]);
    }
  }

  /** Only the whole list passes its end: a cut never does. */
  lemma LastEnd(keys: seq<Key>, c: Config, a: nat)
    requires Sound(c) && a < |keys| && GroupEnd(keys, c, a) >= |keys|
    ensures Cut(keys, c, a, |keys|) || Passes(keys, c, a)
  {
    hide FeatureLen, PrefixLen, MaxAdjacent, GroupEnd, Cut, Passes;
    GroupEndCuts(keys, c, a);
  }

  /** No other list of pivots is greedy. */
  lemma GreedyUnique(keys: seq<Key>, c: Config, ps: seq<nat>, qs: seq<nat>)
    requires IsGreedy(ps, keys, c) && IsGreedy(qs, keys, c)
    ensures ps == qs
  {
    hide Cut, Passes;
    if ps != [] {
      SamePivots(keys, c, ps, qs, if |ps| <= |qs| then |ps| - 1 else |qs| - 1);
      if |ps| < |qs| { LastPivot(keys, c, qs, |ps|); }
      if |qs| < |ps| { LastPivot(keys, c, ps, |qs|); }
      assert forall i :: 0 <= i < |ps| ==> ps[..|ps|][i] == qs[..|ps|][i];
    }
  }

  lemma {:induction false} SamePivots(keys: seq<Key>, c: Config, ps: seq<nat>, qs: seq<nat>, n: nat)
    requires IsGreedy(ps, keys, c) && IsGreedy(qs, keys, c) && n < |ps| && n < |qs|
    ensures ps[..n + 1] == qs[..n + 1]
  {
    hide Cut, Passes;
    if n > 0 {
      SamePivots(keys, c, ps, qs, n - 1);
      assert ps[..n][n - 1] == qs[..n][n - 1];
      CutUnique(keys, c, ps[n - 1], ps[n], qs[n]);
    }
  }

  /** A pivot that another one follows has its cut before the end of the keys. */
  lemma LastPivot(keys: seq<Key>, c: Config, ps: seq<nat>, n: nat)
    requires IsGreedy(ps, keys, c) && 0 < n < |ps|
    ensures !Cut(keys, c, ps[n - 1], |keys|) && !Passes(keys, c, ps[n - 1])
  {
    hide Cut, Passes;
    CutUnique(keys, c, ps[n - 1], ps[n], |keys|);
  }

  /** Fewer than 550 keys stay in one group. */
  lemma FewKeys(keys: seq<Key>)
    requires 0 < |keys| < 550
    ensures IsGreedy([0], keys, CONFIG)
  {
    assert 0 + 1 * CONFIG.forwardStep == 550;
    assert PassesAt(keys, CONFIG, 0, 1);
  }

  // ---------- the algorithm with its memo ----------

  /** The two history maps hold, for every k strictly between s and e, the prefix statistics of
      keys[s..k + 1]: one key more than the half-open range that k would end. */
  ghost predicate MemoOf(keys: seq<Key>, s: nat, e: nat, common: map<nat, nat>, longest: map<nat, nat>) {
    && e <= |keys|
    && (forall k: nat :: k in common <==> s < k < e)
    && (forall k: nat :: k in longest <==> s < k < e)
    && (forall k: nat :: s < k < e ==> common[k] == PrefixLen(keys, s, k + 1))
    && (forall k: nat :: s < k < e ==> longest[k] == MaxAdjacent(keys, s, k + 1))
  }

  lemma {:induction false} MemoExtend(keys: seq<Key>, s: nat, k: nat, common: map<nat, nat>, longest: map<nat, nat>)
    requires s + 2 <= k + 1 <= |keys|
    requires k > s + 1 ==> MemoOf(keys, s, k, common, longest)
    requires k == s + 1 ==> common == map[] && longest == map[]
    ensures k < |keys|
    ensures MemoOf(keys, s, k + 1, common[k := PrefixLen(keys, s, k + 1)], longest[k := MaxAdjacent(keys, s, k + 1)])
  {
  }

  /** `partial_key_len_by_step`. */
  method PartialKeyLenByStep(keys: seq<Key>, start: nat, stepStart: nat, stepEnd: nat,
                             commonIn: nat, longestIn: nat,
                             commonHistory: map<nat, nat>, longestHistory: map<nat, nat>, ghost memoEnd: nat)
    returns (common: nat, longest: nat, commonHistory': map<nat, nat>, longestHistory': map<nat, nat>)
    requires start + 2 <= stepEnd <= |keys|
    requires MemoOf(keys, start, memoEnd, commonHistory, longestHistory)
    requires stepStart != start ==>
               && start + 2 <= stepStart == memoEnd <= stepEnd
               && commonIn == PrefixLen(keys, start, stepStart)
               && longestIn == MaxAdjacent(keys, start, stepStart)
    ensures start < stepEnd < memoEnd ==>
              && common == PrefixLen(keys, start, stepEnd + 1)
              && longest == MaxAdjacent(keys, start, stepEnd + 1)
              && commonHistory' == commonHistory && longestHistory' == longestHistory
    ensures stepEnd >= memoEnd ==>
              && common == PrefixLen(keys, start, stepEnd)
              && longest == MaxAdjacent(keys, start, stepEnd)
              && MemoOf(keys, start, stepEnd, commonHistory', longestHistory')
  {
    commonHistory', longestHistory' := commonHistory, longestHistory;
    if stepEnd in commonHistory {
      common, longest := commonHistory[stepEnd], longestHistory[stepEnd];
      return;
    }
    common, longest := commonIn, longestIn;
    var offset := 0;
    if stepStart == start {
      common := CommonPrefixLength(0, keys[stepStart], KEY_LEN, keys[stepStart + 1], KEY_LEN);
      longest := common;
      commonHistory', longestHistory' := map[], map[];
      MemoExtend(keys, start, start + 1, commonHistory', longestHistory');
      commonHistory' := commonHistory'[stepStart + 1 := common];
      longestHistory' := longestHistory'[stepStart + 1 := longest];
      offset := 2;
    }
    for k := stepStart + offset to stepEnd
      invariant common == PrefixLen(keys, start, k) && longest == MaxAdjacent(keys, start, k)
      invariant MemoOf(keys, start, k, commonHistory', longestHistory')
    {
      common, longest := ExtendByKey(keys, start, k, common, longest);
      MemoExtend(keys, start, k, commonHistory', longestHistory');
      commonHistory', longestHistory' := commonHistory'[k := common], longestHistory'[k := longest];
    }
  }

  /** The first inner loop: forward steps. */
  method GrowGroup(keys: seq<Key>, c: Config, start: nat)
    returns (end: nat, f: nat, commonHistory: map<nat, nat>, longestHistory: map<nat, nat>)
    requires Sound(c) && start < |keys|
    ensures end == GrowEnd(keys, c, start, start)
    ensures end > |keys| ==> f <= c.partialLenBound
    ensures end <= |keys| ==>
              f == FeatureLen(keys, start, end) && MemoOf(keys, start, end, commonHistory, longestHistory)
  {
    var common, longest := 0, 0;
    end, f := start, 0;
    commonHistory, longestHistory := map[], map[];
    while f < c.partialLenBound
      invariant start <= end <= |keys| && (end == start || start + 2 <= end)
      invariant end == start ==> f == 0
      invariant MemoOf(keys, start, end, commonHistory, longestHistory)
      invariant start < end ==>
          && common == PrefixLen(keys, start, end) && longest == MaxAdjacent(keys, start, end)
          && f == FeatureLen(keys, start, end)
      invariant f < c.partialLenBound
      invariant GrowEnd(keys, c, start, start) == GrowEnd(keys, c, start, end)
      decreases |keys| - end
    {
      var preEnd := end;
      end := end + c.forwardStep;
      if end > |keys| {
        break;
      }
      common, longest, commonHistory, longestHistory := PartialKeyLenByStep(
        keys, start, preEnd, end, common, longest, commonHistory, longestHistory, preEnd);
      PrefixLeqMax(keys, start, end);
      f := longest - common + 1;
      if f >= c.partialLenBound {
        break;
      }
    }
  }

  /** The second inner loop: backward steps, answered from the memo. */
  method ShrinkGroup(keys: seq<Key>, c: Config, start: nat, grownEnd: nat, estimate: nat,
                     commonHistory: map<nat, nat>, longestHistory: map<nat, nat>)
    returns (end: nat)
    requires Sound(c) && start + c.groupMinSize <= grownEnd
    requires grownEnd > |keys| ==> estimate <= c.partialLenBound
    requires grownEnd <= |keys| ==>
               && estimate == FeatureLen(keys, start, grownEnd)
               && MemoOf(keys, start, grownEnd, commonHistory, longestHistory)
    ensures end == if grownEnd > |keys| then grownEnd else ShrinkEnd(keys, c, start, grownEnd, estimate)
  {
    hide PrefixLen, MaxAdjacent, MemoOf;
    var f := estimate;
    end := grownEnd;
    while f > c.partialLenBound
      invariant grownEnd > |keys| ==> end == grownEnd && f <= c.partialLenBound
      invariant grownEnd <= |keys| ==>
          && start + c.groupMinSize - c.backwardStep <= end <= grownEnd
          && FeatureLen(keys, start, end) <= f
          && ShrinkEnd(keys, c, start, end, f) == ShrinkEnd(keys, c, start, grownEnd, estimate)
      decreases end
    {
      if end > |keys| {
        break;
      }
      if end - start < c.groupMinSize {
        end := start + c.groupMinSize;
        break;
      }
      end := end - c.backwardStep;
      FeatureLenMonotone(keys, start, end);
      var common, longest, _, _ := PartialKeyLenByStep(
        keys, start, start, end, 0, 0, commonHistory, longestHistory, grownEnd);
      f := longest - common + 1;
    }
  }

  lemma {:induction false} GroupEndIs(keys: seq<Key>, c: Config, a: nat)
    requires Sound(c) && a < |keys|
    ensures var e := GrowEnd(keys, c, a, a);
            GroupEnd(keys, c, a) == if e > |keys| then e else ShrinkEnd(keys, c, a, e, FeatureLen(keys, a, e))
  {
  }

  /** `grouping_by_partial_key`: the memoised loops compute exactly the greedy pivots. */
  method GroupingByPartialKey(keys: seq<Key>, c: Config) returns (pivots: seq<nat>)
    requires Sound(c)
    ensures pivots == GreedyPivots(keys, c, 0) && IsGreedy(pivots, keys, c)
  {
    hide IsGreedy, PrefixLen, MaxAdjacent, FeatureLen, GroupEnd;
    GreedyCuts(keys, c);
    pivots := [];
    var start, end := 0, 0;
    while end < |keys|
      invariant start == end
      invariant GreedyPivots(keys, c, 0) == pivots + GreedyPivots(keys, c, end)
      decreases |keys| - end
    {
      ghost var rest := GreedyPivots(keys, c, GroupEnd(keys, c, start));
      assert pivots + ([start] + rest) == pivots + [start] + rest;
      GroupEndIs(keys, c, start);
      var f, commonHistory, longestHistory;
      end, f, commonHistory, longestHistory := GrowGroup(keys, c, start);
      end := ShrinkGroup(keys, c, start, end, f, commonHistory, longestHistory);
      pivots := pivots + [start];
      start := end;
    }
  }
}
