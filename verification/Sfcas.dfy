/** The mounted file system: loading the index, the one-entry lookup cache, getattr, open and read
    (src/sfcas.cpp, src/aux/index.cpp). */
module Sfcas {
  import opened StrKey
  import opened FeatureSlice
  import opened SIndexGroup
  import opened SIndexRoot
  import opened CFile
  import opened Needles
  import opened Combine

  /** A call from the kernel; the name is what follows the last slash of the path. */
  datatype Op = Getattr(name: Name) | Open(name: Name) | Read(name: Name, size: nat, offset: nat)

  /** `Stuck` is a call whose index lookup never ends. `Undefined` is a lookup in an empty index, for
      which the source reads beyond its arrays of models and groups. */
  datatype Reply = Directory | Regular(size: nat) | Opened | Data(bytes: seq<Byte>) | NoEntry | Stuck | Undefined

  /** No call follows such a reply. */
  predicate IsFinal(reply: Reply) {
    reply == Stuck || reply == Undefined
  }

  /** `find_index`. */
  function Find(r: RootState, num: Numerics, needles: seq<Needle>, name: Name): (l: Lookup)
    requires Built(r, num, Names(needles))
    ensures l.Found? ==> l.pos < |needles| && needles[l.pos].filename == KeyOf(name)
  {
    FoundHolds(r, num, Names(needles), KeyOf(name));
    RootGet(r, num, Names(needles), KeyOf(name))
  }

  lemma FoundHolds(r: RootState, num: Numerics, names: seq<Key>, key: Key)
    requires Built(r, num, names)
    ensures var l := RootGet(r, num, names, key); l.Found? ==> l.pos < |names| && names[l.pos] == key
  {
    LookupCorrect(r, num, names, key);
    hide Built, RootGet;
    if key in names {
      var i :| 0 <= i < |names| && names[i] == key;
    }
  }

  /** What a call answers without any cache, from the index and the big file alone. */
  function ReplyOf(r: RootState, num: Numerics, needles: seq<Needle>, big: seq<Byte>, op: Op): Reply
    requires needles != [] ==> Built(r, num, Names(needles))
  {
    if op.Getattr? && op.name == [] then Directory
    else if op.Getattr? && (op.name == BIGFILE || op.name == INDEXFILE) then Regular(0)
    else if needles == [] then Undefined
    else
      match Find(r, num, needles, op.name)
      case Hangs => Stuck
      case Absent => NoEntry
      case Found(i) =>
        match op
        case Getattr(_) => Regular(needles[i].size)
        case Open(_) => Opened
        case Read(_, size, offset) => Data(BytesAt(big, needles[i].offset + offset, size))
  }

  /** A cache hit names the needle that a lookup would have found. */
  lemma CacheHit(r: RootState, num: Numerics, needles: seq<Needle>, i: nat, name: Name)
    requires Built(r, num, Names(needles)) && i < |needles| && NameOf(needles[i].filename) == name
    ensures Find(r, num, needles, name) == Found(i)
  {
    KeyNameInverse(needles[i].filename, name);
    LookupCorrect(r, num, Names(needles), KeyOf(name));
    hide Built, RootGet, KeyOf;
    assert Names(needles)[i] == KeyOf(name);
  }

  class Mount {
    const num: Numerics
    var needles: seq<Needle>
    var isCached: bool
    var cachedItem: nat
    var dataFile: File
    var model: Root

    ghost predicate Valid()
      reads this, model, model.groups
    {
      && (needles != [] ==> model.Valid(num) && model.names == Names(needles))
      && (isCached ==> cachedItem < |needles|)
    }

    /** The cache-free answer in the current state. */
    function Answer(op: Op): Reply
      requires needles != [] ==> Built(model.State(), num, Names(needles))
      reads this, model, model.groups, dataFile
    {
      ReplyOf(model.State(), num, needles, dataFile.data, op)
    }

    /** `init` and `get_sindex_model`: parse the index file, sort, build the learned index. Without any
        record the index has no groups. */
    constructor (num: Numerics, index: File, big: File, ghost written: seq<Needle>)
      requires index.pos == 0 && index.data == IndexImage(written) && |written| < Power256(8)
      requires (forall n :: n in written ==> n.WellFormed()) && DistinctNames(written)
      modifies index`pos
      ensures Valid() && dataFile == big && !isCached && this.num == num
      ensures needles == SortNeedles(written) && (needles != [] ==> Built(model.State(), num, Names(needles)))
      ensures fresh(model)
    {
      hide Built, Linked, SortNeedles, Sorted, IndexImage, DistinctNames, Needle.WellFormed, Power256,
           ModelsFrom, Starts, Root.State;
      var parsed := ReadIndexFile(index, written);
      SortNeedlesSorts(parsed);
      var sorted := SortNeedles(parsed);
      var root := new Root();
      if sorted != [] {
        root.Init(num, Names(sorted));
      }
      this.num, needles, isCached, cachedItem, dataFile, model := num, sorted, false, 0, big, root;
    }

    /** The lookup shared by open and read: the cached needle if its name matches, else the index. */
    method FindCached(name: Name) returns (l: Lookup)
      requires Valid() && needles != []
      ensures l == Find(model.State(), num, needles, name)
    {
      if isCached && name == NameOf(needles[cachedItem].filename) {
        CacheHit(model.State(), num, needles, cachedItem, name);
        l := Found(cachedItem);
      } else {
        l := model.Get(num, KeyOf(name));
      }
    }

    /** `sfcas_getattr`. */
    method GetAttr(name: Name) returns (r: Reply)
      requires Valid()
      modifies this`isCached, this`cachedItem
      ensures Valid() && r == Answer(Op.Getattr(name))
    {
      hide Built, Linked, Root.State, RootGet, SortNeedles, KeyOf;
      if name == [] {
        isCached := false;
        r := Directory;
      } else if name == BIGFILE || name == INDEXFILE {
        isCached := false;
        r := Regular(0);
      } else if needles == [] {
        r := Undefined;
      } else {
        var l := model.Get(num, KeyOf(name));
        assert l == Find(model.State(), num, needles, name);
        match l
        case Hangs =>
          r := Stuck;
        case Absent =>
          isCached := false;
          r := NoEntry;
        case Found(i) =>
          isCached, cachedItem := true, i;
          r := Regular(needles[i].size);
      }
    }

    /** `sfcas_open`. */
    method OpenFile(name: Name) returns (r: Reply)
      requires Valid()
      ensures r == Answer(Op.Open(name))
    {
      if needles == [] {
        return Undefined;
      }
      var l := FindCached(name);
      r := if l.Found? then Opened else if l.Absent? then NoEntry else Stuck;
    }

    /** `sfcas_read`: seek to the needle's offset plus the requested one, read up to size bytes. */
    method ReadFile(name: Name, size: nat, offset: nat) returns (r: Reply)
      requires Valid()
      modifies dataFile`pos
      ensures Valid() && r == Answer(Op.Read(name, size, offset))
    {
      hide Built, Linked, Root.State, RootGet, SortNeedles, KeyOf;
      if needles == [] {
        return Undefined;
      }
      var l := FindCached(name);
      match l
      case Hangs => r := Stuck;
      case Absent => r := NoEntry;
      case Found(i) =>
        dataFile.Fseek(needles[i].offset + offset);
        var bytes := dataFile.Fread(size);
        r := Data(bytes);
    }

    /** The request loop: in every sequence of calls each answer is the cache-free one, whatever the
        earlier calls left in the cache. The replies stop short only after one that no call follows. */
    method Serve(ops: seq<Op>) returns (replies: seq<Reply>)
      requires Valid()
      modifies this`isCached, this`cachedItem, dataFile`pos
      ensures Valid() && |replies| <= |ops|
      ensures forall k :: 0 <= k < |replies| ==>
                replies[k] == ReplyOf(model.State(), num, needles, dataFile.data, ops[k])
      ensures forall k :: 0 <= k < |replies| - 1 ==> !IsFinal(replies[k])
      ensures |replies| < |ops| ==> replies != [] && IsFinal(replies[|replies| - 1])
    {
      hide Built, ReplyOf, Linked, IsFinal;
      ghost var r0 := model.State();
      replies := [];
      for k := 0 to |ops|
        invariant Valid() && |replies| == k && model.State() == r0
        invariant forall j :: 0 <= j < k ==> replies[j] == ReplyOf(r0, num, needles, dataFile.data, ops[j])
        invariant forall j :: 0 <= j < k ==> !IsFinal(replies[j])
      {
        var r;
        match ops[k] {
          case Getattr(name) => r := GetAttr(name);
          case Open(name) => r := OpenFile(name);
          case Read(name, size, offset) => r := ReadFile(name, size, offset);
        }
        replies := replies + [r];
        if IsFinal(r) {
          return;
        }
      }
    }
  }

  // ---------- end to end ----------

  /** A directory as the file system gives it: names are distinct and not empty. */
  predicate ProperDirectory(dir: seq<Entry>) {
    && (forall i, j :: 0 <= i < j < |dir| ==> dir[i].name != dir[j].name)
    && (forall e :: e in dir ==> e.name != [])
  }

  lemma {:induction false} FilesAreDistinct(dir: seq<Entry>)
    requires ProperDirectory(dir)
    ensures DistinctFiles(Files(dir))
  {
    if dir != [] {
      var init, last := dir[..|dir| - 1], dir[|dir| - 1];
      FilesAreDistinct(init);
      var fs := Files(init);
      forall i | 0 <= i < |fs| ensures fs[i].name != last.name {
        assert fs[i] in init;
      }
    }
  }

  /** Looking up a merged file finds its own needle. */
  lemma MergedFileFound(files: seq<Entry>, r: RootState, num: Numerics, i: nat) returns (p: nat)
    requires DistinctFiles(files) && i < |files|
    requires Built(r, num, Names(SortNeedles(NeedlesOf(files))))
    ensures var needles := SortNeedles(NeedlesOf(files));
            p < |needles| && needles[p] == NeedleOf(files, i)
            && Find(r, num, needles, files[i].name) == Found(p)
  {
    var ns := NeedlesOf(files);
    var needles := SortNeedles(ns);
    NeedlesDistinct(files);
    SortNeedlesSorts(ns);
    assert ns[i] in ns;
    p :| 0 <= p < |needles| && needles[p] == ns[i];
    KeyNameInverse(ns[i].filename, files[i].name);
    CacheHit(r, num, needles, p, files[i].name);
  }

  /** A merged file keeps its size, opens, and is read from its own slice of the big file. */
  lemma {:induction false} MergedFileReply(files: seq<Entry>, r: RootState, num: Numerics, i: nat, op: Op)
    requires DistinctFiles(files) && i < |files| && |files[i].content| < Power256(4)
    requires op.name == files[i].name && op.name != [] && op.name != BIGFILE && op.name != INDEXFILE
    requires Built(r, num, Names(SortNeedles(NeedlesOf(files))))
    ensures ReplyOf(r, num, SortNeedles(NeedlesOf(files)), BigImage(files), op) ==
            match op
            case Getattr(_) => Regular(|files[i].content|)
            case Open(_) => Opened
            case Read(_, size, offset) => Data(BytesAt(BigImage(files), Offset(files, i) + offset, size))
  {
    hide *;
    var p := MergedFileFound(files, r, num, i);
    NeedleFields(files, i);
    ReplyFound(r, num, SortNeedles(NeedlesOf(files)), BigImage(files), op, p);
  }

  /** Every byte that a read reaches below a merged file's size is the original one. Reads are not cut
      off at the file's end: the answer is exactly the file's own bytes if and only if the read stays
      inside the file, or no merged bytes follow. */
  lemma {:induction false} MergedFileContents(files: seq<Entry>, r: RootState, num: Numerics, i: nat,
                                              size: nat, offset: nat)
    requires DistinctFiles(files) && i < |files| && |files[i].content| < Power256(4)
    requires files[i].name != [] && files[i].name != BIGFILE && files[i].name != INDEXFILE
    requires Built(r, num, Names(SortNeedles(NeedlesOf(files))))
    ensures var content, big := files[i].content, BigImage(files);
            var d := ReplyOf(r, num, SortNeedles(NeedlesOf(files)), big, Read(files[i].name, size, offset));
            && d.Data?
            && Extends(d.bytes, content, size, offset)
            && (d.bytes == BytesAt(content, offset, size) <==>
                  || size == 0 || offset + size <= |content|
                  || Offset(files, i) + |content| == |big| || |big| <= Offset(files, i) + offset)
  {
    hide *;
    MergedFileReply(files, r, num, i, Read(files[i].name, size, offset));
    Tiling(files, i);
    SliceBytes(BigImage(files), Offset(files, i), files[i].content, size, offset);
  }

  /** The bytes agree with the content wherever the requested range lies inside it. */
  predicate Extends(bytes: seq<Byte>, content: seq<Byte>, size: nat, offset: nat) {
    forall k :: 0 <= k < size && offset + k < |content| ==> k < |bytes| && bytes[k] == content[offset + k]
  }

  lemma {:induction false} NeedleFields(files: seq<Entry>, i: nat)
    requires i < |files| && |files[i].content| < Power256(4)
    ensures NeedleOf(files, i).offset == Offset(files, i) && NeedleOf(files, i).size == |files[i].content|
  {
    hide KeyOf, StrLen, FirstZero, Offset, Power256;
    KeepsSmall(|files[i].content|, Power256(4));
  }

  lemma KeepsSmall(x: nat, m: nat)
    requires x < m
    ensures x % m == x
  {
  }

  lemma ReplyFound(r: RootState, num: Numerics, needles: seq<Needle>, big: seq<Byte>, op: Op, p: nat)
    requires Built(r, num, Names(needles)) && p < |needles| && Find(r, num, needles, op.name) == Found(p)
    requires op.name != [] && op.name != BIGFILE && op.name != INDEXFILE
    ensures ReplyOf(r, num, needles, big, op) ==
            match op
            case Getattr(_) => Regular(needles[p].size)
            case Open(_) => Opened
            case Read(_, size, offset) => Data(BytesAt(big, needles[p].offset + offset, size))
  {
    hide Find, Built;
  }

  /** Reading through a slice that sits at o inside a larger file. */
  lemma SliceBytes(big: seq<Byte>, o: nat, content: seq<Byte>, size: nat, offset: nat)
    requires o + |content| <= |big| && big[o..o + |content|] == content
    ensures var bytes := BytesAt(big, o + offset, size);
            && Extends(bytes, content, size, offset)
            && (bytes == BytesAt(content, offset, size) <==>
                  || size == 0 || offset + size <= |content|
                  || o + |content| == |big| || |big| <= o + offset)
  {
    var bytes, own := BytesAt(big, o + offset, size), BytesAt(content, offset, size);
    forall k | 0 <= k < |own| ensures k < |bytes| && own[k] == bytes[k] {
      assert own[k] == content[offset + k] == big[o + offset + k];
    }
    forall k | 0 <= k < size && offset + k < |content|
      ensures k < |bytes| && bytes[k] == content[offset + k]
    {
      assert k < |own| && own[k] == bytes[k];
    }
    assert |bytes| == |own| <==> size == 0 || offset + size <= |content|
                                 || o + |content| == |big| || |big| <= o + offset;
  }

  predicate HasFile(files: seq<Entry>, name: Name) {
    exists i :: 0 <= i < |files| && files[i].name == name
  }

  /** The look-up of a name never ends. */
  ghost predicate Hanging(files: seq<Entry>, r: RootState, num: Numerics, name: Name) {
    var names := Names(SortNeedles(NeedlesOf(files)));
    files != [] && Built(r, num, names) && RootGet(r, num, names, KeyOf(name)) == Hangs
  }

  /** A name that is not merged gets no entry, whatever the call, unless its look-up hangs or there are
      no files at all. */
  lemma {:induction false} UnknownName(files: seq<Entry>, r: RootState, num: Numerics, op: Op)
    requires files != [] ==> Built(r, num, Names(SortNeedles(NeedlesOf(files))))
    requires DistinctFiles(files) && !HasFile(files, op.name) && !IsSpecial(op)
    ensures SortNeedles(NeedlesOf(files)) == [] <==> files == []
    ensures ReplyOf(r, num, SortNeedles(NeedlesOf(files)), BigImage(files), op) ==
            if files == [] then Undefined else if Hanging(files, r, num, op.name) then Stuck else NoEntry
  {
    hide *;
    var needles := SortNeedles(NeedlesOf(files));
    SortEmpty(files);
    if files == [] {
      ReplyEmpty(r, num, needles, BigImage(files), op);
      return;
    }
    var l := Find(r, num, needles, op.name);
    if l.Found? {
      var i := SortedNeedleFile(files, l.pos);
      SameName(files, i, op.name, needles[l.pos]);
    } else {
      FindIsGet(files, r, num, op.name);
      ReplyAbsent(r, num, needles, BigImage(files), op);
    }
  }

  lemma FindIsGet(files: seq<Entry>, r: RootState, num: Numerics, name: Name)
    requires files != [] && Built(r, num, Names(SortNeedles(NeedlesOf(files))))
    ensures Find(r, num, SortNeedles(NeedlesOf(files)), name) == Hangs <==> Hanging(files, r, num, name)
  {
    hide Built, RootGet;
  }

  /** Every needle of the sorted index is that of some file. */
  lemma SortedNeedleFile(files: seq<Entry>, p: nat) returns (i: nat)
    requires DistinctFiles(files) && p < |SortNeedles(NeedlesOf(files))|
    ensures i < |files| && NeedleOf(files, i) == SortNeedles(NeedlesOf(files))[p]
  {
    hide *;
    var ns := NeedlesOf(files);
    NeedlesDistinct(files);
    SortNeedlesSorts(ns);
    assert SortNeedles(ns)[p] in SortNeedles(ns);
    i :| 0 <= i < |ns| && ns[i] == SortNeedles(ns)[p];
    NeedleAt(files, i);
  }

  lemma NeedleAt(files: seq<Entry>, i: nat)
    requires i < |files|
    ensures NeedlesOf(files)[i] == NeedleOf(files, i)
  {
  }

  /** The calls that are answered without a look-up. */
  predicate IsSpecial(op: Op) {
    op.Getattr? && (op.name == [] || op.name == BIGFILE || op.name == INDEXFILE)
  }

  lemma ReplyAbsent(r: RootState, num: Numerics, needles: seq<Needle>, big: seq<Byte>, op: Op)
    requires needles != [] && Built(r, num, Names(needles)) && !Find(r, num, needles, op.name).Found? && !IsSpecial(op)
    ensures ReplyOf(r, num, needles, big, op) ==
            if Find(r, num, needles, op.name) == Hangs then Stuck else NoEntry
  {
    hide Find, Built;
  }

  lemma ReplyEmpty(r: RootState, num: Numerics, needles: seq<Needle>, big: seq<Byte>, op: Op)
    requires needles == [] && !IsSpecial(op)
    ensures ReplyOf(r, num, needles, big, op) == Undefined
  {
  }

  lemma SameName(files: seq<Entry>, i: nat, name: Name, n: Needle)
    requires i < |files| && n == NeedleOf(files, i) && n.filename == KeyOf(name)
    ensures HasFile(files, name)
  {
    KeyNameInverse(KeyOf(name), files[i].name);
    KeyNameInverse(KeyOf(name), name);
  }

  /** The reply to any call on the merged files: the root directory, the two result files, a merged
      file, a look-up without an index, one that hangs, or a name that does not exist. */
  ghost predicate IsReply(files: seq<Entry>, hangs: bool, op: Op, reply: Reply) {
    if op.Getattr? && op.name == [] then reply == Directory
    else if op.Getattr? && (op.name == Ascii("bigfile") || op.name == Ascii("indexfile")) then reply == Regular(0)
    else if HasFile(files, op.name) then
      exists i :: 0 <= i < |files| && files[i].name == op.name && FileReply(files, i, op, reply)
    else if files == [] then reply == Undefined
    else reply == if hangs then Stuck else NoEntry
  }

  /** The reply about merged file i. A read is answered from the file's place in the big file on: with
      its own bytes as far as it reaches, then with those of the files behind it. */
  ghost predicate FileReply(files: seq<Entry>, i: nat, op: Op, reply: Reply)
    requires i < |files|
  {
    match op
    case Getattr(_) => reply == Regular(|files[i].content|)
    case Open(_) => reply == Opened
    case Read(_, size, offset) =>
      && reply == Data(BytesAt(BigImage(files), Offset(files, i) + offset, size))
      && Extends(reply.bytes, files[i].content, size, offset)
  }

  /** Combine a directory, mount the result and serve any sequence of calls: every reply is determined.
      The replies stop short only after a call that hangs or looks into an empty index. */
  method CombineAndServe(num: Numerics, dir: seq<Entry>, ops: seq<Op>) returns (replies: seq<Reply>, ghost r: RootState)
    requires Combinable(dir) && ProperDirectory(dir)
    ensures Files(dir) != [] ==> Built(r, num, Names(SortNeedles(NeedlesOf(Files(dir)))))
    ensures |replies| <= |ops|
    ensures forall k :: 0 <= k < |replies| ==>
              IsReply(Files(dir), Hanging(Files(dir), r, num, ops[k].name), ops[k], replies[k])
    ensures forall k :: 0 <= k < |replies| - 1 ==> replies[k] != Stuck && replies[k] != Undefined
    ensures |replies| < |ops| ==>
              replies != [] && (replies[|replies| - 1] == Stuck || replies[|replies| - 1] == Undefined)
  {
    hide *;
    var index, big := CombineDirectory(dir);
    index.Fseek(0);
    ghost var files := Files(dir);
    FilesAreDistinct(dir);
    NeedlesDistinct(files);
    NeedlesFit(dir);
    SortEmpty(files);
    var mount := new Mount(num, index, big, NeedlesOf(files));
    r := mount.model.State();
    replies := mount.Serve(ops);
    forall k | 0 <= k < |replies| ensures IsReply(files, Hanging(files, r, num, ops[k].name), ops[k], replies[k]) {
      ReplyIs(dir, r, num, ops[k]);
    }
    forall k | 0 <= k < |replies| ensures IsFinal(replies[k]) <==> replies[k] == Stuck || replies[k] == Undefined {
      FinalIs(replies[k]);
    }
  }

  lemma FinalIs(reply: Reply)
    ensures IsFinal(reply) <==> reply == Stuck || reply == Undefined
  {
  }

  /** The cache-free answer to any call is the one that the files warrant. */
  lemma {:induction false} ReplyIs(dir: seq<Entry>, r: RootState, num: Numerics, op: Op)
    requires Combinable(dir) && ProperDirectory(dir)
    requires Files(dir) != [] ==> Built(r, num, Names(SortNeedles(NeedlesOf(Files(dir)))))
    ensures var files := Files(dir);
            && (SortNeedles(NeedlesOf(files)) != [] ==> Built(r, num, Names(SortNeedles(NeedlesOf(files)))))
            && IsReply(files, Hanging(files, r, num, op.name), op,
                       ReplyOf(r, num, SortNeedles(NeedlesOf(files)), BigImage(files), op))
  {
    hide *;
    var files := Files(dir);
    FilesAreDistinct(dir);
    SortEmpty(files);
    if IsSpecial(op) {
      SpecialReply(files, r, num, op);
    } else if HasFile(files, op.name) {
      var i := FileNamed(files, op.name);
      FileFits(dir, i);
      FileReplyIs(files, r, num, i, op);
      NamedReply(files, Hanging(files, r, num, op.name), i, op,
                 ReplyOf(r, num, SortNeedles(NeedlesOf(files)), BigImage(files), op));
    } else {
      UnknownName(files, r, num, op);
      UnnamedReply(files, Hanging(files, r, num, op.name), op,
                   ReplyOf(r, num, SortNeedles(NeedlesOf(files)), BigImage(files), op));
    }
  }

  lemma {:induction false} SpecialReply(files: seq<Entry>, r: RootState, num: Numerics, op: Op)
    requires IsSpecial(op)
    requires SortNeedles(NeedlesOf(files)) != [] ==> Built(r, num, Names(SortNeedles(NeedlesOf(files))))
    ensures forall hangs :: IsReply(files, hangs, op,
                                    ReplyOf(r, num, SortNeedles(NeedlesOf(files)), BigImage(files), op))
  {
    hide Built, Find, SortNeedles, NeedlesOf, BigImage;
  }

  lemma NamedReply(files: seq<Entry>, hangs: bool, i: nat, op: Op, reply: Reply)
    requires i < |files| && files[i].name == op.name && !IsSpecial(op) && FileReply(files, i, op, reply)
    ensures IsReply(files, hangs, op, reply)
  {
    hide FileReply;
  }

  lemma UnnamedReply(files: seq<Entry>, hangs: bool, op: Op, reply: Reply)
    requires !HasFile(files, op.name) && !IsSpecial(op)
    requires reply == if files == [] then Undefined else if hangs then Stuck else NoEntry
    ensures IsReply(files, hangs, op, reply)
  {
  }

  lemma FileNamed(files: seq<Entry>, name: Name) returns (i: nat)
    requires HasFile(files, name)
    ensures i < |files| && name == files[i].name
  {
    i :| 0 <= i < |files| && files[i].name == name;
  }

  lemma {:induction false} SortEmpty(files: seq<Entry>)
    requires DistinctFiles(files)
    ensures SortNeedles(NeedlesOf(files)) == [] <==> files == []
  {
    hide SortNeedles, Sorted, Needle.WellFormed;
    var ns := NeedlesOf(files);
    NeedlesDistinct(files);
    SortNeedlesSorts(ns);
    if files != [] {
      assert ns[0] in ns;
      assert ns[0] in SortNeedles(ns);
    } else {
      assert forall n :: n !in SortNeedles(ns);
    }
  }

  lemma {:induction false} FileFits(dir: seq<Entry>, i: nat)
    requires Combinable(dir) && ProperDirectory(dir) && i < |Files(dir)|
    ensures var f := Files(dir)[i];
            && |f.content| < Power256(4)
            && f.name != [] && f.name != BIGFILE && f.name != INDEXFILE
  {
    assert Files(dir)[i] in Files(dir);
    Widths();
  }

  lemma {:induction false} FileReplyIs(files: seq<Entry>, r: RootState, num: Numerics, i: nat, op: Op)
    requires DistinctFiles(files) && i < |files| && |files[i].content| < Power256(4)
    requires files[i].name != [] && files[i].name != BIGFILE && files[i].name != INDEXFILE
    requires Built(r, num, Names(SortNeedles(NeedlesOf(files)))) && op.name == files[i].name
    ensures FileReply(files, i, op, ReplyOf(r, num, SortNeedles(NeedlesOf(files)), BigImage(files), op))
  {
    hide DistinctFiles, Built, ReplyOf, SortNeedles, BigImage, NeedlesOf, Power256, BytesAt, Offset, Extends;
    MergedFileReply(files, r, num, i, op);
    Tiling(files, i);
    match op
    case Read(_, size, offset) => SliceBytes(BigImage(files), Offset(files, i), files[i].content, size, offset);
    case _ =>
  }
}
