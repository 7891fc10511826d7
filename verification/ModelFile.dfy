/** Saving a built index and reading it back (`save_model`, `read_model`, `save_group_model`,
    `read_group_model` in src/sindex). */
module ModelFile {
  import opened StrKey
  import opened FeatureSlice
  import opened Grouping
  import opened SIndexGroup
  import opened SIndexRoot
  import opened CFile

  // ---------- the file layout ----------

  function Doubles(ws: seq<Double>): seq<Byte> {
    if ws == [] then [] else Doubles(ws[..|ws| - 1]) + ws[|ws| - 1]
  }

  /** A group's fields fit their 32- and 64-bit widths. */
  predicate GroupFits(g: GroupState) {
    && g.arraySize < Power256(4) && g.prefixLen < Power256(4) && g.featureLen < Power256(4)
    && -0x8000_0000_0000_0000 <= g.maxPosError < 0x8000_0000_0000_0000
    && -0x8000_0000_0000_0000 <= g.maxNegError < 0x8000_0000_0000_0000
    && |g.weights| == g.featureLen + 1
  }

  predicate ModelFits(m: ModelState) {
    m.pLen < Power256(4) && m.fLen < Power256(4) && m.pivotNum < Power256(8) && |m.weights| == m.fLen + 1
  }

  ghost predicate Fits(r: RootState) {
    && |r.groups| < Power256(4)
    && (forall g :: 0 <= g < |r.groups| ==> GroupFits(r.groups[g]))
    && (forall m :: 0 <= m < |r.models| ==> ModelFits(r.models[m]))
    && |r.models| < Power256(4)
  }

  function GroupBytes(g: GroupState): seq<Byte>
    requires GroupFits(g)
  {
    Encode(g.arraySize, 4) + (Encode(g.prefixLen, 4) + (Encode(g.featureLen, 4) +
      (Encode(Unsigned64(g.maxPosError), 8) + (Encode(Unsigned64(g.maxNegError), 8) + Doubles(g.weights)))))
  }

  function ModelBytes(m: ModelState): seq<Byte> {
    Encode(m.pLen, 4) + (Encode(m.fLen, 4) + (Encode(m.pivotNum, 8) + Doubles(m.weights)))
  }

  /** The layout of a group: size, prefix, feature, the two errors, then the weights. */
  lemma GroupLayout(g: GroupState)
    requires GroupFits(g)
    ensures var bs := GroupBytes(g);
            && |bs| == 28 + 8 * (g.featureLen + 1)
            && Decode(bs[0..4]) == g.arraySize && Decode(bs[4..8]) == g.prefixLen && Decode(bs[8..12]) == g.featureLen
            && Signed64(Decode(bs[12..20])) == g.maxPosError && Signed64(Decode(bs[20..28])) == g.maxNegError
            && forall i :: 0 <= i <= g.featureLen ==> bs[28 + 8 * i..36 + 8 * i] == g.weights[i]
  {
    hide Encode, Decode, Doubles, Unsigned64, Signed64, Power256;
    FieldsFit(g);
    DecodeEncode(g.arraySize, 4);
    DecodeEncode(g.prefixLen, 4);
    DecodeEncode(g.featureLen, 4);
    DecodeEncode(Unsigned64(g.maxPosError), 8);
    DecodeEncode(Unsigned64(g.maxNegError), 8);
    DoublesLength(g.weights);
    var bs := GroupBytes(g);
    assert bs[0..4] == Encode(g.arraySize, 4) && bs[4..8] == Encode(g.prefixLen, 4);
    assert bs[8..12] == Encode(g.featureLen, 4) && bs[12..20] == Encode(Unsigned64(g.maxPosError), 8);
    assert bs[20..28] == Encode(Unsigned64(g.maxNegError), 8) && bs[28..] == Doubles(g.weights);
    WeightsLayout(bs, 28, g.weights);
  }

  lemma {:induction false} WeightsLayout(bs: seq<Byte>, pos: nat, ws: seq<Double>)
    requires pos <= |bs| && bs[pos..] == Doubles(ws)
    ensures |bs| == pos + 8 * |ws|
    ensures forall i :: 0 <= i < |ws| ==> bs[pos + 8 * i..pos + 8 + 8 * i] == ws[i]
  {
    hide Doubles;
    DoublesLength(ws);
    assert At(bs, pos, Doubles(ws));
    forall i | 0 <= i < |ws| ensures bs[pos + 8 * i..pos + 8 + 8 * i] == ws[i] {
      DoublesAt(bs, pos, ws, i);
    }
  }

  /** The layout of a root model: prefix, feature, number of groups, then the weights. */
  lemma ModelLayout(m: ModelState)
    requires ModelFits(m)
    ensures var bs := ModelBytes(m);
            && |bs| == 16 + 8 * (m.fLen + 1)
            && Decode(bs[0..4]) == m.pLen && Decode(bs[4..8]) == m.fLen && Decode(bs[8..16]) == m.pivotNum
            && forall i :: 0 <= i <= m.fLen ==> bs[16 + 8 * i..24 + 8 * i] == m.weights[i]
  {
    hide Encode, Decode, Doubles, Power256;
    DecodeEncode(m.pLen, 4);
    DecodeEncode(m.fLen, 4);
    DecodeEncode(m.pivotNum, 8);
    DoublesLength(m.weights);
    var bs := ModelBytes(m);
    assert bs[0..4] == Encode(m.pLen, 4) && bs[4..8] == Encode(m.fLen, 4) && bs[8..16] == Encode(m.pivotNum, 8);
    assert bs[16..] == Doubles(m.weights);
    WeightsLayout(bs, 16, m.weights);
  }

  /** The groups a up to b, one after the other. */
  function GroupsBytes(groups: seq<GroupState>, a: nat, b: nat): seq<Byte>
    requires a <= b <= |groups| && forall g :: 0 <= g < |groups| ==> GroupFits(groups[g])
    decreases b
  {
    if a == b then [] else GroupsBytes(groups, a, b - 1) + GroupBytes(groups[b - 1])
  }

  /** The first k root models, each followed by its groups. */
  function ModelsBytes(r: RootState, k: nat): seq<Byte>
    requires Fits(r) && k <= |r.models| && ModelStart(r.models, k) <= |r.groups|
    decreases k
  {
    if k == 0 then []
    else ModelsBytes(r, k - 1) +
         (ModelBytes(r.models[k - 1]) + GroupsBytes(r.groups, ModelStart(r.models, k - 1), ModelStart(r.models, k)))
  }

  function RootBytes(r: RootState): seq<Byte>
    requires Fits(r) && ModelStart(r.models, |r.models|) <= |r.groups|
  {
    Encode(|r.groups|, 4) + (Encode(|r.models|, 4) + ModelsBytes(r, |r.models|))
  }

  // ---------- reading a layout piece by piece ----------

  /** The bytes stand in the data at that position. */
  predicate At(data: seq<Byte>, pos: nat, bs: seq<Byte>) {
    pos + |bs| <= |data| && data[pos..pos + |bs|] == bs
  }

  lemma AtSplit(data: seq<Byte>, pos: nat, a: seq<Byte>, b: seq<Byte>)
    requires At(data, pos, a + b)
    ensures At(data, pos, a) && At(data, pos + |a|, b)
  {
    assert data[pos..pos + |a + b|][..|a|] == data[pos..pos + |a|];
    assert data[pos..pos + |a + b|][|a|..] == data[pos + |a|..pos + |a + b|];
  }

  lemma {:induction false} GroupsAt(data: seq<Byte>, pos: nat, groups: seq<GroupState>, a: nat, g: nat, b: nat)
    requires a <= g < b <= |groups| && forall g :: 0 <= g < |groups| ==> GroupFits(groups[g])
    requires At(data, pos, GroupsBytes(groups, a, b))
    ensures At(data, pos + |GroupsBytes(groups, a, g)|, GroupBytes(groups[g]))
    decreases b
  {
    hide At, GroupBytes, GroupFits;
    AtSplit(data, pos, GroupsBytes(groups, a, b - 1), GroupBytes(groups[b - 1]));
    if g < b - 1 {
      GroupsAt(data, pos, groups, a, g, b - 1);
    }
  }

  lemma {:induction false} ModelsAt(data: seq<Byte>, pos: nat, r: RootState, m: nat, k: nat)
    requires Fits(r) && m < k <= |r.models| && ModelStart(r.models, k) <= |r.groups|
    requires At(data, pos, ModelsBytes(r, k))
    ensures ModelStart(r.models, m) <= ModelStart(r.models, m + 1) <= |r.groups|
    ensures At(data, pos + |ModelsBytes(r, m)|, ModelBytes(r.models[m]) +
               GroupsBytes(r.groups, ModelStart(r.models, m), ModelStart(r.models, m + 1)))
    decreases k
  {
    hide At, ModelBytes, GroupsBytes, GroupFits;
    AtSplit(data, pos, ModelsBytes(r, k - 1), ModelBytes(r.models[k - 1]) +
            GroupsBytes(r.groups, ModelStart(r.models, k - 1), ModelStart(r.models, k)));
    if m < k - 1 {
      ModelsAt(data, pos, r, m, k - 1);
    }
  }

  method ReadInt(file: File, width: nat, ghost x: nat, ghost rest: seq<Byte>) returns (y: nat)
    requires At(file.data, file.pos, Encode(x, width) + rest) && x < Power256(width)
    modifies file`pos
    ensures y == x && file.pos == old(file.pos) + width && At(file.data, file.pos, rest)
  {
    AtSplit(file.data, file.pos, Encode(x, width), rest);
    DecodeEncode(x, width);
    hide Encode, Decode, Power256;
    var bs := file.Fread(width);
    y := Decode(bs);
  }

  lemma {:induction false} DoublesLength(ws: seq<Double>)
    ensures |Doubles(ws)| == 8 * |ws|
  {
    if ws != [] { DoublesLength(ws[..|ws| - 1]); }
  }

  lemma {:induction false} DoublesAt(data: seq<Byte>, pos: nat, ws: seq<Double>, i: nat)
    requires i < |ws| && At(data, pos, Doubles(ws))
    ensures At(data, pos + 8 * i, ws[i])
    decreases |ws|
  {
    hide At;
    var k := |ws| - 1;
    DoublesLength(ws[..k]);
    AtSplit(data, pos, Doubles(ws[..k]), ws[k]);
    if i < k {
      DoublesAt(data, pos, ws[..k], i);
    }
  }

  method ReadDoubles(file: File, n: nat, ghost ws: seq<Double>) returns (vs: seq<Double>)
    requires At(file.data, file.pos, Doubles(ws)) && n == |ws|
    modifies file`pos
    ensures vs == ws && file.pos == old(file.pos) + |Doubles(ws)|
  {
    hide Doubles;
    DoublesLength(ws);
    vs := [];
    for i := 0 to n
      invariant |vs| == i && forall j :: 0 <= j < i ==> vs[j] == ws[j]
      invariant file.pos == old(file.pos) + 8 * i
    {
      DoublesAt(file.data, old(file.pos), ws, i);
      var w := file.Fread(8);
      vs := vs + [w];
    }
  }

  method WriteDoubles(file: File, ws: seq<Double>)
    requires file.pos == |file.data|
    modifies file
    ensures file.data == old(file.data) + Doubles(ws) && file.pos == |file.data|
  {
    for i := 0 to |ws|
      invariant file.data == old(file.data) + Doubles(ws[..i]) && file.pos == |file.data|
    {
      assert ws[..i + 1][..i] == ws[..i];
      file.Fwrite(ws[i]);
    }
    assert ws[..|ws|] == ws;
  }

  lemma SignedInverse(x: int)
    requires -0x8000_0000_0000_0000 <= x < 0x8000_0000_0000_0000
    ensures Signed64(Unsigned64(x)) == x && Unsigned64(x) < Power256(8)
  {
    Widths();
  }

  // ---------- groups ----------

  /** `save_group_model`. */
  method SaveGroupModel(group: Group, file: File)
    requires GroupFits(group.State()) && file.pos == |file.data|
    modifies file
    ensures file.data == old(file.data) + GroupBytes(group.State()) && file.pos == |file.data|
  {
    hide Encode, Doubles;
    file.Fwrite(Encode(group.arraySize, 4));
    file.Fwrite(Encode(group.prefixLen, 4));
    file.Fwrite(Encode(group.featureLen, 4));
    file.Fwrite(Encode(Unsigned64(group.maxPosError), 8));
    file.Fwrite(Encode(Unsigned64(group.maxNegError), 8));
    WriteDoubles(file, group.modelWeights);
  }

  /** `read_group_model`: pivot and start come from the sorted needles, everything else from the file. */
  method ReadGroupModel(file: File, names: seq<Key>, start: nat, ghost g: GroupState) returns (group: Group)
    requires GroupFits(g) && g.start == start < |names| && At(file.data, file.pos, GroupBytes(g))
    modifies file`pos
    ensures fresh(group) && group.State() == g && group.names == names && group.pivot == names[start]
    ensures file.pos == old(file.pos) + |GroupBytes(g)|
  {
    hide *;
    var r := ReadGroupFields(file, start, g);
    group := new Group();
    group.pivot, group.names, group.start, group.arraySize := names[start], names, start, r.arraySize;
    group.prefixLen, group.featureLen := r.prefixLen, r.featureLen;
    group.maxPosError, group.maxNegError, group.modelWeights := r.maxPosError, r.maxNegError, r.weights;
    StateIs(group, r);
  }

  lemma StateIs(group: Group, r: GroupState)
    requires group.start == r.start && group.arraySize == r.arraySize
    requires group.prefixLen == r.prefixLen && group.featureLen == r.featureLen
    requires group.maxPosError == r.maxPosError && group.maxNegError == r.maxNegError
    requires group.modelWeights == r.weights
    ensures group.State() == r
  {
  }

  method ReadGroupFields(file: File, start: nat, ghost g: GroupState) returns (r: GroupState)
    requires GroupFits(g) && g.start == start && At(file.data, file.pos, GroupBytes(g))
    modifies file`pos
    ensures r == g && file.pos == old(file.pos) + |GroupBytes(g)|
  {
    hide *;
    FieldsFit(g);
    ghost var tail := GroupTail(g);
    var arraySize := ReadInt(file, 4, g.arraySize, tail[0]);
    var prefixLen := ReadInt(file, 4, g.prefixLen, tail[1]);
    var featureLen := ReadInt(file, 4, g.featureLen, tail[2]);
    var pos := ReadInt(file, 8, Unsigned64(g.maxPosError), tail[3]);
    var neg := ReadInt(file, 8, Unsigned64(g.maxNegError), tail[4]);
    var weights := ReadDoubles(file, featureLen + 1, g.weights);
    r := GroupState(start, arraySize, prefixLen, featureLen, Signed64(pos), Signed64(neg), weights);
  }

  lemma FieldsFit(g: GroupState)
    requires GroupFits(g)
    ensures g.arraySize < Power256(4) && g.prefixLen < Power256(4) && g.featureLen < Power256(4)
    ensures |g.weights| == g.featureLen + 1
    ensures -0x8000_0000_0000_0000 <= g.maxPosError < 0x8000_0000_0000_0000
    ensures -0x8000_0000_0000_0000 <= g.maxNegError < 0x8000_0000_0000_0000
    ensures Unsigned64(g.maxPosError) < Power256(8) && Signed64(Unsigned64(g.maxPosError)) == g.maxPosError
    ensures Unsigned64(g.maxNegError) < Power256(8) && Signed64(Unsigned64(g.maxNegError)) == g.maxNegError
    ensures |GroupBytes(g)| == 28 + |Doubles(g.weights)|
  {
    SignedInverse(g.maxPosError);
    SignedInverse(g.maxNegError);
  }

  /** What follows each integer field of a group. */
  ghost function GroupTail(g: GroupState): (t: seq<seq<Byte>>)
    requires GroupFits(g)
    ensures |t| == 5
    ensures GroupBytes(g) == Encode(g.arraySize, 4) + t[0] && t[0] == Encode(g.prefixLen, 4) + t[1]
    ensures t[1] == Encode(g.featureLen, 4) + t[2] && t[2] == Encode(Unsigned64(g.maxPosError), 8) + t[3]
    ensures t[3] == Encode(Unsigned64(g.maxNegError), 8) + t[4] && t[4] == Doubles(g.weights)
  {
    var t4 := Doubles(g.weights);
    var t3 := Encode(Unsigned64(g.maxNegError), 8) + t4;
    var t2 := Encode(Unsigned64(g.maxPosError), 8) + t3;
    var t1 := Encode(g.featureLen, 4) + t2;
    [Encode(g.prefixLen, 4) + t1, t1, t2, t3, t4]
  }

  // ---------- the whole index ----------

  /** `save_model`. */
  method SaveModel(root: Root, file: File)
    requires Fits(root.State()) && ModelStart(root.models, |root.models|) <= |root.groups|
    requires file.data == [] && file.pos == 0
    modifies file
    ensures file.data == RootBytes(root.State()) && file.pos == |file.data|
  {
    hide *;
    ghost var r := root.State();
    SaveFacts(root);
    ModelsBytesNone(r);
    file.Fwrite(Encode(|root.groups|, 4));
    file.Fwrite(Encode(|root.models|, 4));
    ghost var header := file.data;
    var groupStart := 0;
    for m := 0 to |root.models|
      invariant root.State() == r && groupStart == ModelStart(r.models, m) <= |r.groups|
      invariant file.data == header + ModelsBytes(r, m) && file.pos == |file.data|
    {
      ModelStep(r, m);
      ModelStartMonotone(r.models, m + 1, |r.models|);
      SaveModelHeader(root.models[m], file);
      SaveGroups(root.groups, groupStart, groupStart + root.models[m].pivotNum, file);
      ModelsBytesStep(r, m);
      groupStart := groupStart + root.models[m].pivotNum;
    }
    RootBytesIs(r, header);
  }

  lemma SaveFacts(root: Root)
    ensures var r := root.State();
            && r.groups == StatesOf(root.groups) && r.models == root.models
            && |r.groups| == |root.groups| && ModelStart(r.models, 0) == 0
  {
  }

  lemma {:induction false} RootBytesIs(r: RootState, header: seq<Byte>)
    requires Fits(r) && ModelStart(r.models, |r.models|) <= |r.groups|
    requires header == [] + Encode(|r.groups|, 4) + [] + Encode(|r.models|, 4) + []
    ensures header + ModelsBytes(r, |r.models|) == RootBytes(r)
  {
    hide Encode, ModelsBytes, GroupFits, ModelFits, Power256, ModelStart;
    Concat3(Encode(|r.groups|, 4), Encode(|r.models|, 4), ModelsBytes(r, |r.models|));
  }

  lemma Concat3(a: seq<Byte>, b: seq<Byte>, c: seq<Byte>)
    ensures [] + a + [] + b + [] + c == a + (b + c)
  {
  }

  /** The groups a up to b, in order. */
  method SaveGroups(groups: seq<Group>, a: nat, b: nat, file: File)
    requires a <= b <= |groups| && (forall g :: 0 <= g < |groups| ==> GroupFits(StatesOf(groups)[g]))
    requires file.pos == |file.data|
    modifies file
    ensures file.data == old(file.data) + GroupsBytes(StatesOf(groups), a, b) && file.pos == |file.data|
  {
    hide *;
    ghost var gs := StatesOf(groups);
    GroupsBytesNone(gs, a);
    for g := a to b
      invariant StatesOf(groups) == gs
      invariant file.data == old(file.data) + GroupsBytes(gs, a, g) && file.pos == |file.data|
    {
      StateAt(groups, g);
      SaveGroupModel(groups[g], file);
      GroupsBytesStep(gs, a, g);
    }
  }

  lemma StateAt(groups: seq<Group>, g: nat)
    requires g < |groups|
    ensures StatesOf(groups)[g] == groups[g].State()
  {
  }

  /** What one root model adds to the group count. */
  lemma ModelStep(r: RootState, m: nat)
    requires Fits(r) && m < |r.models|
    ensures ModelStart(r.models, m + 1) == ModelStart(r.models, m) + r.models[m].pivotNum
    ensures ModelFits(r.models[m]) && ModelStart(r.models, 0) == 0
    ensures forall g :: 0 <= g < |r.groups| ==> GroupFits(r.groups[g])
  {
  }

  method SaveModelHeader(m: ModelState, file: File)
    requires file.pos == |file.data|
    modifies file
    ensures file.data == old(file.data) + ModelBytes(m) && file.pos == |file.data|
  {
    hide Encode, Doubles;
    file.Fwrite(Encode(m.pLen, 4));
    file.Fwrite(Encode(m.fLen, 4));
    file.Fwrite(Encode(m.pivotNum, 8));
    WriteDoubles(file, m.weights);
  }

  lemma {:induction false} ModelStartMonotone(models: seq<ModelState>, i: nat, j: nat)
    requires i <= j <= |models|
    ensures ModelStart(models, i) <= ModelStart(models, j)
    decreases j
  {
    if i < j {
      ModelStartMonotone(models, i, j - 1);
    }
  }

  lemma {:induction false} ModelsBytesNone(r: RootState)
    requires Fits(r)
    ensures ModelsBytes(r, 0) == []
  {
  }

  lemma {:induction false} GroupsBytesNone(groups: seq<GroupState>, a: nat)
    requires a <= |groups| && forall g :: 0 <= g < |groups| ==> GroupFits(groups[g])
    ensures GroupsBytes(groups, a, a) == []
  {
  }

  lemma GroupsBytesStep(groups: seq<GroupState>, a: nat, g: nat)
    requires a <= g < |groups| && forall g :: 0 <= g < |groups| ==> GroupFits(groups[g])
    ensures GroupsBytes(groups, a, g + 1) == GroupsBytes(groups, a, g) + GroupBytes(groups[g])
  {
  }

  lemma ModelsBytesStep(r: RootState, m: nat)
    requires Fits(r) && m < |r.models| && ModelStart(r.models, m + 1) <= |r.groups|
    ensures ModelsBytes(r, m + 1) == ModelsBytes(r, m) +
              (ModelBytes(r.models[m]) + GroupsBytes(r.groups, ModelStart(r.models, m), ModelStart(r.models, m + 1)))
  {
  }

  /** Where group g starts; past the last group, the number of names. */
  function StartOf(r: RootState, names: seq<Key>, g: nat): nat {
    if g < |r.groups| then r.groups[g].start else |names|
  }

  lemma GroupFacts(r: RootState, num: Numerics, names: seq<Key>, g: nat)
    requires Built(r, num, names) && g < |r.groups|
    ensures |r.pivots| == |r.groups| && r.groups[g].start < |names|
    ensures r.pivots[g] == names[r.groups[g].start]
    ensures StartOf(r, names, g + 1) == r.groups[g].start + r.groups[g].arraySize
  {
    hide Sorted, Trained, ModelsOk;
    assert GroupOk(r.groups, r.pivots, num, names, g);
    assert Starts(r.groups)[g] < |names|;
  }

  lemma {:induction false} ModelFacts(r: RootState, num: Numerics, names: seq<Key>, m: nat)
    requires Built(r, num, names) && m < |r.models|
    ensures |r.modelPivots| == |r.models| && |r.pivots| == |r.groups|
    ensures ModelStart(r.models, m) < |r.groups| && r.modelPivots[m] == r.pivots[ModelStart(r.models, m)]
  {
    hide Sorted, Trained, IsPartition;
    assert ModelOk(r.models, r.modelPivots, r.pivots, m);
  }

  lemma SizeFacts(r: RootState, num: Numerics, names: seq<Key>)
    requires Built(r, num, names)
    ensures ModelStart(r.models, |r.models|) == |r.groups| == |r.pivots| && |r.modelPivots| == |r.models|
    ensures StartOf(r, names, 0) == 0
  {
    hide Sorted, Trained, ModelOk;
    assert Starts(r.groups)[0] == 0;
  }

  /** The first k groups are back: states, pivots and names as they were. */
  ghost predicate GroupsRead(groups: seq<Group>, pivots: seq<Key>, names: seq<Key>, r: RootState, k: nat)
    reads groups
  {
    && |groups| == |pivots| == k <= |r.groups| == |r.pivots|
    && forall i :: 0 <= i < k ==> GroupRead(groups[i], pivots[i], names, r, i)
  }

  ghost predicate GroupRead(group: Group, pivot: Key, names: seq<Key>, r: RootState, i: nat)
    requires i < |r.groups| == |r.pivots|
    reads group
  {
    group.State() == r.groups[i] && group.names == names && group.pivot == pivot == r.pivots[i]
  }

  method ReadModelHeader(file: File, ghost m: ModelState, ghost rest: seq<Byte>) returns (model: ModelState)
    requires ModelFits(m) && At(file.data, file.pos, ModelBytes(m) + rest)
    modifies file`pos
    ensures model == m && file.pos == old(file.pos) + |ModelBytes(m)|
    ensures At(file.data, file.pos, rest)
  {
    AtSplit(file.data, file.pos, ModelBytes(m), rest);
    ModelBytesLength(m);
    ghost var t2 := Encode(m.pivotNum, 8) + Doubles(m.weights);
    hide At, Encode, Doubles, Power256;
    var pLen := ReadInt(file, 4, m.pLen, Encode(m.fLen, 4) + t2);
    var fLen := ReadInt(file, 4, m.fLen, t2);
    var pivotNum := ReadInt(file, 8, m.pivotNum, Doubles(m.weights));
    var weights := ReadDoubles(file, fLen + 1, m.weights);
    model := ModelState(pLen, fLen, pivotNum, weights);
  }

  lemma ModelBytesLength(m: ModelState)
    ensures |ModelBytes(m)| == 16 + |Doubles(m.weights)|
  {
  }

  /** The inner loop: the groups of one root model. */
  method ReadGroups(file: File, names: seq<Key>, n: nat, groupsIn: seq<Group>, pivotsIn: seq<Key>, indexIn: nat,
                    ghost r: RootState, ghost num: Numerics)
    returns (groups: seq<Group>, pivots: seq<Key>, index: nat)
    requires Built(r, num, names) && Fits(r) && |groupsIn| + n <= |r.groups|
    requires GroupsRead(groupsIn, pivotsIn, names, r, |groupsIn|) && indexIn == StartOf(r, names, |groupsIn|)
    requires At(file.data, file.pos, GroupsBytes(r.groups, |groupsIn|, |groupsIn| + n))
    modifies file`pos
    ensures |groups| == |groupsIn| + n && GroupsRead(groups, pivots, names, r, |groups|)
    ensures index == StartOf(r, names, |groups|)
    ensures file.pos == old(file.pos) + |GroupsBytes(r.groups, |groupsIn|, |groups|)|
  {
    hide At, Built, StartOf, GroupBytes, GroupFits, GroupsBytes;
    groups, pivots, index := groupsIn, pivotsIn, indexIn;
    ghost var a, pos := |groupsIn|, file.pos;
    GroupsBytesNone(r.groups, a);
    for g := |groupsIn| to |groupsIn| + n
      invariant |groups| == g && GroupsRead(groups, pivots, names, r, g) && index == StartOf(r, names, g)
      invariant file.pos == pos + |GroupsBytes(r.groups, a, g)|
    {
      GroupsAt(file.data, pos, r.groups, a, g, a + n);
      GroupFacts(r, num, names, g);
      StartOfGroup(r, names, g);
      var group := ReadGroupModel(file, names, index, r.groups[g]);
      GroupsBytesStep(r.groups, a, g);
      assert GroupRead(group, names[index], names, r, g);
      groups, pivots, index := groups + [group], pivots + [names[index]], index + group.arraySize;
    }
  }

  lemma StartOfGroup(r: RootState, names: seq<Key>, g: nat)
    requires g < |r.groups|
    ensures StartOf(r, names, g) == r.groups[g].start
  {
  }

  /** `read_model` over the same sorted needles restores the saved index: every group's pivot, start,
      size, slice, errors and weights, and every root model. */
  method ReadModel(file: File, names: seq<Key>, ghost r: RootState, ghost num: Numerics) returns (root: Root)
    requires Built(r, num, names) && Fits(r) && ModelStart(r.models, |r.models|) <= |r.groups|
    requires file.pos == 0 && file.data == RootBytes(r)
    modifies file`pos
    ensures fresh(root) && root.State() == r && root.Valid(num) && root.names == names
  {
    hide *;
    SizeFacts(r, num, names);
    var rootModelN := ReadHeader(file, r);
    var models, modelPivots, groups, pivots, index := ReadModels(file, names, rootModelN, r, num);
    root := new Root();
    root.groups, root.pivots, root.models, root.modelPivots, root.names := groups, pivots, models, modelPivots, names;
    GroupsReadAll(groups, pivots, names, r);
    RootRestored(root, r, num);
  }

  lemma GroupsReadAll(groups: seq<Group>, pivots: seq<Key>, names: seq<Key>, r: RootState)
    requires GroupsRead(groups, pivots, names, r, |r.groups|)
    ensures StatesOf(groups) == r.groups && pivots == r.pivots && Linked(groups, pivots, names)
  {
    forall i | 0 <= i < |groups|
      ensures StatesOf(groups)[i] == r.groups[i] && pivots[i] == r.pivots[i]
      ensures groups[i].names == names && groups[i].pivot == pivots[i]
    {
      assert GroupRead(groups[i], pivots[i], names, r, i);
    }
  }

  lemma RootRestored(root: Root, r: RootState, num: Numerics)
    requires StatesOf(root.groups) == r.groups && root.pivots == r.pivots
    requires root.models == r.models && root.modelPivots == r.modelPivots
    requires Built(r, num, root.names) && Linked(root.groups, root.pivots, root.names)
    ensures root.State() == r && root.Valid(num)
  {
    hide Built, Linked;
  }

  method ReadHeader(file: File, ghost r: RootState) returns (rootModelN: nat)
    requires Fits(r) && ModelStart(r.models, |r.models|) <= |r.groups|
    requires file.pos == 0 && file.data == RootBytes(r)
    modifies file`pos
    ensures rootModelN == |r.models| && file.pos == 8
    ensures At(file.data, 8, ModelsBytes(r, |r.models|))
  {
    hide Encode, ModelsBytes, GroupFits, ModelFits, Power256;
    ghost var rest := ModelsBytes(r, |r.models|);
    ghost var tail := Encode(|r.models|, 4) + rest;
    assert At(file.data, 0, Encode(|r.groups|, 4) + tail);
    hide At;
    var groupN := ReadInt(file, 4, |r.groups|, tail);
    rootModelN := ReadInt(file, 4, |r.models|, rest);
  }

  lemma NoGroupsRead(names: seq<Key>, r: RootState)
    requires |r.pivots| == |r.groups|
    ensures GroupsRead([], [], names, r, 0) && ModelStart(r.models, 0) == 0
  {
  }

  /** The outer loop: the root models, each with its groups. */
  method ReadModels(file: File, names: seq<Key>, n: nat, ghost r: RootState, ghost num: Numerics)
    returns (models: seq<ModelState>, modelPivots: seq<Key>, groups: seq<Group>, pivots: seq<Key>, index: nat)
    requires Built(r, num, names) && Fits(r) && n == |r.models|
    requires ModelStart(r.models, n) == |r.groups|
    requires file.pos == 8 && At(file.data, 8, ModelsBytes(r, n))
    modifies file`pos
    ensures models == r.models && modelPivots == r.modelPivots
    ensures GroupsRead(groups, pivots, names, r, |r.groups|)
  {
    hide *;
    SizeFacts(r, num, names);
    ModelsBytesNone(r);
    NoGroupsRead(names, r);
    models, modelPivots, groups, pivots, index := [], [], [], [], 0;
    for m := 0 to n
      invariant |models| == |modelPivots| == m && |groups| == ModelStart(r.models, m) <= |r.groups|
      invariant forall j :: 0 <= j < m ==> models[j] == r.models[j] && modelPivots[j] == r.modelPivots[j]
      invariant GroupsRead(groups, pivots, names, r, |groups|) && index == StartOf(r, names, |groups|)
      invariant file.pos == 8 + |ModelsBytes(r, m)|
    {
      ModelsAt(file.data, 8, r, m, n);
      ModelStep(r, m);
      ModelFacts(r, num, names, m);
      GroupFacts(r, num, names, |groups|);
      StartOfGroup(r, names, |groups|);
      var model := ReadModelHeader(file, r.models[m], GroupsBytes(r.groups, |groups|, ModelStart(r.models, m + 1)));
      models, modelPivots := models + [model], modelPivots + [names[index]];
      groups, pivots, index := ReadGroups(file, names, model.pivotNum, groups, pivots, index, r, num);
      ModelsBytesStep(r, m);
    }
  }

  // ---------- which built indexes fit ----------

  /** The counts fit the 32-bit fields that hold them. */
  predicate CountsFit(r: RootState) {
    |r.groups| < 0x1_0000_0000 && forall g :: 0 <= g < |r.groups| ==> r.groups[g].arraySize < 0x1_0000_0000
  }

  /** Every difference that `prepare_last` takes between a position and its prediction fits 64 bits. */
  ghost predicate ErrorsFit(g: GroupState, num: Numerics, names: seq<Key>)
    requires g.InBounds(names)
  {
    forall i: nat :: i < g.arraySize ==> -0x8000_0000_0000_0000 <= Error(g, num, names, i) < 0x8000_0000_0000_0000
  }

  ghost predicate AllErrorsFit(r: RootState, num: Numerics, names: seq<Key>) {
    forall g :: 0 <= g < |r.groups| ==> r.groups[g].InBounds(names) && ErrorsFit(r.groups[g], num, names)
  }

  lemma GroupFitsIff(g: GroupState, num: Numerics, names: seq<Key>)
    requires Trained(g, num, names)
    ensures GroupFits(g) <==> g.arraySize < 0x1_0000_0000 && ErrorsFit(g, num, names)
  {
    hide PrefixLen, FeatureLen, Error;
    Widths();
  }

  /** A built index can be saved without loss if and only if its counts and training errors fit. */
  lemma FitsIff(r: RootState, num: Numerics, names: seq<Key>)
    requires Built(r, num, names)
    ensures Fits(r) <==> CountsFit(r) && AllErrorsFit(r, num, names)
    ensures ModelStart(r.models, |r.models|) == |r.groups|
  {
    hide Trained, Sorted, GroupFits, ModelOk, ErrorsFit, GroupState.InBounds;
    Widths();
    forall g | 0 <= g < |r.groups|
      ensures r.groups[g].InBounds(names)
      ensures GroupFits(r.groups[g]) <==> r.groups[g].arraySize < 0x1_0000_0000 && ErrorsFit(r.groups[g], num, names)
    {
      assert GroupOk(r.groups, r.pivots, num, names, g);
      TrainedInBounds(r.groups[g], num, names);
      GroupFitsIff(r.groups[g], num, names);
    }
    if |r.groups| < 0x1_0000_0000 {
      forall m | 0 <= m < |r.models| ensures ModelFits(r.models[m]) {
        ModelOfBuiltFits(r, m);
      }
    }
  }

  /** Predictions that leave room for a position below 2^32 in 64 bits. */
  ghost predicate Moderate(num: Numerics) {
    forall w, x :: -0x7FFF_FFFF_0000_0000 <= num.eval(w, x) <= 0x8000_0000_0000_0000
  }

  lemma {:induction false} PartitionAtLeast(ps: seq<nat>, n: nat, i: nat)
    requires IsPartition(ps, n) && i < |ps|
    ensures i <= ps[i]
    decreases i
  {
    if i > 0 {
      PartitionAtLeast(ps, n, i - 1);
    }
  }

  /** So every index over fewer than 2^32 names with such predictions can be saved. */
  lemma BuiltFits(r: RootState, num: Numerics, names: seq<Key>)
    requires Built(r, num, names) && |names| < 0x1_0000_0000 && Moderate(num)
    ensures Fits(r)
  {
    hide Trained, Sorted, ModelsOk, GroupState.InBounds;
    FitsIff(r, num, names);
    PartitionAtLeast(Starts(r.groups), |names|, |r.groups| - 1);
    forall g | 0 <= g < |r.groups|
      ensures r.groups[g].arraySize < 0x1_0000_0000
      ensures r.groups[g].InBounds(names) && ErrorsFit(r.groups[g], num, names)
    {
      assert GroupOk(r.groups, r.pivots, num, names, g);
      ModerateErrors(r.groups[g], num, names);
    }
  }

  lemma ModerateErrors(g: GroupState, num: Numerics, names: seq<Key>)
    requires Trained(g, num, names) && |names| < 0x1_0000_0000 && Moderate(num)
    ensures g.arraySize < 0x1_0000_0000 && g.InBounds(names) && ErrorsFit(g, num, names)
  {
    hide PrefixLen, FeatureLen, Train;
  }

  lemma ModelOfBuiltFits(r: RootState, m: nat)
    requires ModelsOk(r.models, r.modelPivots, r.pivots) && m < |r.models| && |r.pivots| < 0x1_0000_0000
    ensures ModelFits(r.models[m])
  {
    Widths();
    assert ModelOk(r.models, r.modelPivots, r.pivots, m);
    ModelStartMonotone(r.models, m + 1, |r.models|);
  }

  /** Save a built index whose fields fit, and read it back over the same names: both answer every
      lookup alike. */
  method SaveAndReload(num: Numerics, names: seq<Key>, built: Root) returns (loaded: Root)
    requires built.Valid(num) && built.names == names && Fits(built.State())
    ensures loaded.Valid(num) && loaded.names == names && loaded.State() == built.State()
    ensures forall key :: RootGet(loaded.State(), num, names, key) == RootGet(built.State(), num, names, key)
  {
    hide *;
    ValidIsBuilt(built, num);
    SaveFacts(built);
    FitsIff(built.State(), num, names);
    var file := new File();
    SaveModel(built, file);
    file.Fseek(0);
    loaded := ReadModel(file, names, built.State(), num);
  }

  lemma ValidIsBuilt(root: Root, num: Numerics)
    requires root.Valid(num)
    ensures Built(root.State(), num, root.names)
  {
  }
}
