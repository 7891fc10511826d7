/** The byte slice [prefix, prefix + feature) chosen for a run of keys, and why it tells every two
    of them apart (src/sindex/sindex_group.cpp, src/sindex/sindex_root.cpp). */
module FeatureSlice {
  import opened StrKey

  /** Neighbours strictly increasing: a sorted directory of distinct names. */
  predicate Sorted(keys: seq<Key>) {
    forall i :: 0 < i < |keys| ==> KeyLess(keys[i - 1], keys[i])
  }

  function AdjacentLcp(keys: seq<Key>, k: nat): (n: nat)
    requires 0 < k < |keys|
    ensures n <= KEY_LEN
  {
    Lcp(keys[k - 1], keys[k])
  }

  /** Shortest common prefix of neighbours in keys[lo..hi]. */
  function PrefixLen(keys: seq<Key>, lo: nat, hi: nat): (p: nat)
    requires lo + 2 <= hi <= |keys|
    ensures p <= KEY_LEN
  {
    var last := AdjacentLcp(keys, hi - 1);
    if hi == lo + 2 then last
    else
      var p := PrefixLen(keys, lo, hi - 1);
      if p <= last then p else last
  }

  /** Longest common prefix of neighbours in keys[lo..hi]. A pair of equal keys is skipped, except
      that the first pair always counts. */
  function MaxAdjacent(keys: seq<Key>, lo: nat, hi: nat): (m: nat)
    requires lo + 2 <= hi <= |keys|
    ensures m <= KEY_LEN
  {
    var last := AdjacentLcp(keys, hi - 1);
    if hi == lo + 2 then last
    else
      var m := MaxAdjacent(keys, lo, hi - 1);
      if last < KEY_LEN && m < last then last else m
  }

  lemma {:induction false} PrefixLeqMax(keys: seq<Key>, lo: nat, hi: nat)
    requires lo + 2 <= hi <= |keys|
    ensures PrefixLen(keys, lo, hi) <= MaxAdjacent(keys, lo, hi)
    decreases hi
  {
    if hi > lo + 2 {
      PrefixLeqMax(keys, lo, hi - 1);
    }
  }

  lemma {:induction false} NeighbourBounds(keys: seq<Key>, lo: nat, hi: nat, k: nat)
    requires lo < k < hi <= |keys| && AdjacentLcp(keys, k) < KEY_LEN
    ensures PrefixLen(keys, lo, hi) <= AdjacentLcp(keys, k) <= MaxAdjacent(keys, lo, hi)
    decreases hi
  {
    if k < hi - 1 {
      NeighbourBounds(keys, lo, hi - 1, k);
    }
  }

  /** `feature_len`: one byte past the longest neighbour prefix, counted from the shortest. */
  function FeatureLen(keys: seq<Key>, lo: nat, hi: nat): (f: nat)
    requires lo + 2 <= hi <= |keys|
    ensures f >= 1
    ensures PrefixLen(keys, lo, hi) + f == MaxAdjacent(keys, lo, hi) + 1
  {
    PrefixLeqMax(keys, lo, hi);
    MaxAdjacent(keys, lo, hi) - PrefixLen(keys, lo, hi) + 1
  }

  /** One more key can only lengthen the feature: the grouping memo over-estimates. */
  lemma FeatureLenMonotone(keys: seq<Key>, lo: nat, hi: nat)
    requires lo + 2 <= hi < |keys|
    ensures FeatureLen(keys, lo, hi) <= FeatureLen(keys, lo, hi + 1)
    ensures PrefixLen(keys, lo, hi + 1) <= PrefixLen(keys, lo, hi)
  {
    PrefixLeqMax(keys, lo, hi);
    PrefixLeqMax(keys, lo, hi + 1);
  }

  /** Any two keys of a sorted list are ordered, and their common prefix is bounded on both sides
      by those of the neighbours between them. */
  lemma {:induction false} PairLcp(keys: seq<Key>, lo: nat, hi: nat, i: nat, j: nat)
    requires Sorted(keys) && lo <= i < j < hi <= |keys|
    ensures KeyLess(keys[i], keys[j])
    ensures PrefixLen(keys, lo, hi) <= Lcp(keys[i], keys[j]) <= MaxAdjacent(keys, lo, hi) < MAX_FILE_LEN
    decreases j
  {
    assert KeyLess(keys[j - 1], keys[j]);
    LcpOfOrdered(keys[j - 1], keys[j]);
    MaxAdjacentBelow(keys, lo, hi);
    NeighbourBounds(keys, lo, hi, j);
    if i < j - 1 {
      PairLcp(keys, lo, hi, i, j - 1);
      SliceLessChain(keys[i], keys[j - 1], keys[j], 0, KEY_LEN);
    }
  }

  lemma LcpOfOrdered(a: Key, b: Key)
    requires KeyLess(a, b)
    ensures a != b && Lcp(a, b) < MAX_FILE_LEN
  {
    KeyOrderTotal(a, b);
    FirstDiffIs(a, b, 0, KEY_LEN);
  }

  lemma {:induction false} MaxAdjacentBelow(keys: seq<Key>, lo: nat, hi: nat)
    requires Sorted(keys) && lo + 2 <= hi <= |keys|
    ensures MaxAdjacent(keys, lo, hi) < MAX_FILE_LEN
    decreases hi
  {
    assert KeyLess(keys[hi - 2], keys[hi - 1]);
    LcpOfOrdered(keys[hi - 2], keys[hi - 1]);
    if hi > lo + 2 {
      MaxAdjacentBelow(keys, lo, hi - 1);
    }
  }

  /** All pairs of keys[lo..hi] are strictly ordered by the slice alone. */
  ghost predicate Discriminates(keys: seq<Key>, lo: nat, hi: nat, p: nat, f: nat)
    requires hi <= |keys|
  {
    forall i, j :: lo <= i < j < hi ==> SliceTells(keys[i], keys[j], p, f)
  }

  /** The slice orders the two keys and, read as a feature vector, tells them apart. */
  predicate SliceTells(a: Key, b: Key, p: nat, f: nat) {
    p + f <= KEY_LEN && SliceLess(a, b, p, f) && a[p..p + f] != b[p..p + f]
  }

  /** The slice recorded for a group of two or more sorted keys lies inside the buffer, short of
      the terminator, and orders every pair of the group's keys. */
  lemma {:induction false} SliceDiscriminates(keys: seq<Key>, lo: nat, hi: nat)
    requires Sorted(keys) && lo + 2 <= hi <= |keys|
    ensures var p, f := PrefixLen(keys, lo, hi), FeatureLen(keys, lo, hi);
            p + f <= MAX_FILE_LEN && Discriminates(keys, lo, hi, p, f)
  {
    var p, f := PrefixLen(keys, lo, hi), FeatureLen(keys, lo, hi);
    MaxAdjacentBelow(keys, lo, hi);
    forall i, j | lo <= i < j < hi
      ensures SliceTells(keys[i], keys[j], p, f)
    {
      PairLcp(keys, lo, hi, i, j);
      SliceDecides(keys[i], keys[j], p, f);
    }
  }

  /** Pair (k - 1, k) counts for the longest neighbour prefix. */
  predicate Counts(keys: seq<Key>, lo: nat, k: nat)
    requires lo < k < |keys|
  {
    k == lo + 1 || AdjacentLcp(keys, k) < KEY_LEN
  }

  /** The recorded lengths are the least neighbour prefix and the greatest one that counts. */
  lemma {:induction false} AdjacentExtremes(keys: seq<Key>, lo: nat, hi: nat) returns (least: nat, most: nat)
    requires lo + 2 <= hi <= |keys|
    ensures lo < least < hi && AdjacentLcp(keys, least) == PrefixLen(keys, lo, hi)
    ensures lo < most < hi && AdjacentLcp(keys, most) == MaxAdjacent(keys, lo, hi) && Counts(keys, lo, most)
    ensures forall k :: lo < k < hi ==> PrefixLen(keys, lo, hi) <= AdjacentLcp(keys, k)
    ensures forall k :: lo < k < hi && Counts(keys, lo, k) ==> AdjacentLcp(keys, k) <= MaxAdjacent(keys, lo, hi)
    decreases hi
  {
    least, most := lo + 1, lo + 1;
    if hi > lo + 2 {
      least, most := AdjacentExtremes(keys, lo, hi - 1);
      var last := AdjacentLcp(keys, hi - 1);
      if last < PrefixLen(keys, lo, hi - 1) { least := hi - 1; }
      if last < KEY_LEN && MaxAdjacent(keys, lo, hi - 1) < last { most := hi - 1; }
    }
  }

  /** The slice shows a difference between any two neighbours. */
  ghost predicate TellsNeighbours(keys: seq<Key>, lo: nat, hi: nat, p: nat, f: nat)
    requires hi <= |keys|
  {
    p + f <= KEY_LEN && forall k :: lo < k < hi ==> keys[k - 1][p..p + f] != keys[k][p..p + f]
  }

  /** No shorter slice would do: the prefix is common to all keys and cannot be longer, and any shorter
      feature after it leaves two neighbours alike. */
  lemma {:induction false} SliceTight(keys: seq<Key>, lo: nat, hi: nat)
    requires Sorted(keys) && lo + 2 <= hi <= |keys|
    ensures var p, f := PrefixLen(keys, lo, hi), FeatureLen(keys, lo, hi);
            && p < KEY_LEN && (exists k :: lo < k < hi && keys[k - 1][p] != keys[k][p])
            && (forall i, j :: lo <= i < hi && lo <= j < hi ==> keys[i][..p] == keys[j][..p])
            && (forall f' :: TellsNeighbours(keys, lo, hi, p, f') ==> f <= f')
  {
    hide MaxAdjacent, PrefixLen, KeyLess, Sorted, FirstDiff, SliceTells;
    var p, f := PrefixLen(keys, lo, hi), FeatureLen(keys, lo, hi);
    var least, most := AdjacentExtremes(keys, lo, hi);
    SliceDiscriminates(keys, lo, hi);
    PairLcp(keys, lo, hi, least - 1, least);
    FirstDiffIs(keys[least - 1], keys[least], 0, KEY_LEN);
    FirstDiffIs(keys[most - 1], keys[most], 0, KEY_LEN);
    forall i, j | lo <= i < hi && lo <= j < hi ensures keys[i][..p] == keys[j][..p] {
      SharedPrefix(keys, lo, hi, i, j);
    }
    forall f': nat | f' < f ensures !TellsNeighbours(keys, lo, hi, p, f') {
      assert keys[most - 1][p..p + f'] == keys[most][p..p + f'];
    }
  }

  lemma {:induction false} SharedPrefix(keys: seq<Key>, lo: nat, hi: nat, i: nat, j: nat)
    requires Sorted(keys) && lo <= i < hi <= |keys| && lo <= j < hi && lo + 2 <= hi
    ensures var p := PrefixLen(keys, lo, hi); keys[i][..p] == keys[j][..p]
  {
    hide MaxAdjacent, PrefixLen, KeyLess, Sorted, FirstDiff;
    if i < j {
      PairLcp(keys, lo, hi, i, j);
      FirstDiffIs(keys[i], keys[j], 0, KEY_LEN);
    } else if j < i {
      PairLcp(keys, lo, hi, j, i);
      FirstDiffIs(keys[j], keys[i], 0, KEY_LEN);
    }
  }

  /** Re-indexing: the keys of a run, taken out of the list, are told apart by the same slice. */
  lemma DiscriminatesRun(keys: seq<Key>, lo: nat, hi: nat, p: nat, f: nat)
    requires lo <= hi <= |keys| && Discriminates(keys, lo, hi, p, f)
    ensures Discriminates(keys[lo..hi], 0, hi - lo, p, f)
  {
    forall i, j | 0 <= i < j < hi - lo ensures SliceTells(keys[lo..hi][i], keys[lo..hi][j], p, f) {
      assert SliceTells(keys[lo + i], keys[lo + j], p, f);
    }
  }

  /** The constructors only assert that neighbours do not decrease. Whatever the keys are, the
      slice stays inside the buffer exactly when the first two differ. */
  lemma {:induction false} SliceInBufferIff(keys: seq<Key>, lo: nat, hi: nat)
    requires lo + 2 <= hi <= |keys|
    ensures PrefixLen(keys, lo, hi) + FeatureLen(keys, lo, hi) <= KEY_LEN <==> keys[lo] != keys[lo + 1]
    decreases hi
  {
    if hi == lo + 2 {
      KeyOrderTotal(keys[lo], keys[lo + 1]);
    } else {
      SliceInBufferIff(keys, lo, hi - 1);
    }
  }

  lemma SortedPairs(keys: seq<Key>)
    requires Sorted(keys)
    ensures forall i, j :: 0 <= i < j < |keys| ==> KeyLess(keys[i], keys[j]) && keys[i] != keys[j]
  {
    forall i, j | 0 <= i < j < |keys| ensures KeyLess(keys[i], keys[j]) && keys[i] != keys[j] {
      PairLcp(keys, 0, |keys|, i, j);
      LcpOfOrdered(keys[i], keys[j]);
    }
  }

  /** The scan in `init_feature_length` and `partial_key_len_of_pivots`: a running minimum, and a
      maximum that measures each neighbour pair from the running minimum on. */
  method PartialKeyLen(keys: seq<Key>, lo: nat, hi: nat) returns (p_len: nat, f_len: nat)
    requires lo + 2 <= hi <= |keys|
    ensures p_len == PrefixLen(keys, lo, hi) && f_len == FeatureLen(keys, lo, hi)
  {
    p_len := CommonPrefixLength(0, keys[lo], KEY_LEN, keys[lo + 1], KEY_LEN);
    var max_adjacent := p_len;
    for k := lo + 2 to hi
      invariant p_len == PrefixLen(keys, lo, k) && max_adjacent == MaxAdjacent(keys, lo, k)
    {
      p_len, max_adjacent := ExtendByKey(keys, lo, k, p_len, max_adjacent);
    }
    PrefixLeqMax(keys, lo, hi);
    f_len := max_adjacent - p_len + 1;
  }

  /** One step of the scan: account for the neighbour pair (k - 1, k). */
  method ExtendByKey(keys: seq<Key>, lo: nat, k: nat, p_len: nat, max_len: nat)
    returns (p_len': nat, max_len': nat)
    requires lo + 2 <= k < |keys|
    requires p_len == PrefixLen(keys, lo, k) && max_len == MaxAdjacent(keys, lo, k)
    ensures p_len' == PrefixLen(keys, lo, k + 1) && max_len' == MaxAdjacent(keys, lo, k + 1)
  {
    var l := AdjacentLcp(keys, k);
    FirstDiffIs(keys[k - 1], keys[k], 0, KEY_LEN);
    p_len' := CommonPrefixLength(0, keys[k - 1], p_len, keys[k], KEY_LEN);
    FirstDiffUnique(keys[k - 1], keys[k], 0, p_len, if l <= p_len then l else p_len);
    var adjacent := CommonPrefixLength(p_len', keys[k - 1], KEY_LEN, keys[k], KEY_LEN);
    FirstDiffUnique(keys[k - 1], keys[k], p_len', KEY_LEN, l);
    max_len' := max_len;
    if adjacent < KEY_LEN - p_len' && max_len < p_len' + adjacent {
      max_len' := p_len' + adjacent;
    }
  }
}
