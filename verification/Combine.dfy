/** Merging the small files of a directory into one big file and an index file
    (src/combine/combineFile.cpp). */
module Combine {
  import opened StrKey
  import opened CFile
  import opened Needles

  const INDEXFILE: Name := Ascii("indexfile")
  const BIGFILE: Name := Ascii("bigfile")
  const BUFFER_SIZE := 1024

  function Ascii(s: string): (n: Name)
    requires |s| <= MAX_FILE_LEN && forall i :: 0 <= i < |s| ==> 0 < s[i] as int < 128
  {
    var bytes: seq<Byte> := seq(|s|, i requires 0 <= i < |s| => s[i] as int);
    assert forall i :: 0 <= i < |bytes| ==> bytes[i] != 0;
    bytes
  }

  /** A directory entry: directories are skipped, everything else has `st_size` bytes of content. */
  datatype Entry = Entry(name: Name, isDir: bool, content: seq<Byte>)

  predicate Included(e: Entry) {
    !e.isDir && e.name != INDEXFILE && e.name != BIGFILE
  }

  /** The files that are merged, in directory order. */
  function Files(dir: seq<Entry>): (fs: seq<Entry>)
    ensures |fs| <= |dir|
    ensures forall e :: e in fs <==> e in dir && Included(e)
  {
    if dir == [] then []
    else
      var fs, last := Files(dir[..|dir| - 1]), dir[|dir| - 1];
      assert dir == dir[..|dir| - 1] + [last];
      if Included(last) then fs + [last] else fs
  }

  /** Exactly the entries that are no directory and neither of the two result files, in order. */
  lemma {:induction false} FilesAre(dir: seq<Entry>) returns (from: seq<nat>)
    ensures |from| == |Files(dir)|
    ensures forall i :: 0 <= i < |from| ==> from[i] < |dir| && Files(dir)[i] == dir[from[i]]
    ensures forall i, j :: 0 <= i < j < |from| ==> from[i] < from[j]
    ensures forall j: nat :: j < |dir| ==>
              (j in from <==> !dir[j].isDir && dir[j].name != Ascii("indexfile") && dir[j].name != Ascii("bigfile"))
  {
    hide Ascii, Included, Files;
    from := [];
    FilesLast(dir);
    if dir != [] {
      var k := |dir| - 1;
      from := FilesAre(dir[..k]);
      assert forall j: nat :: j < k ==> dir[..k][j] == dir[j];
      assert forall i :: 0 <= i < |from| ==> from[i] in from;
      IncludedIs(dir[k]);
      if Included(dir[k]) {
        from := from + [k];
      }
    }
  }

  lemma FilesLast(dir: seq<Entry>)
    ensures dir == [] ==> Files(dir) == []
    ensures dir != [] ==>
              var init, last := dir[..|dir| - 1], dir[|dir| - 1];
              Files(dir) == if Included(last) then Files(init) + [last] else Files(init)
  {
  }

  lemma IncludedIs(e: Entry)
    ensures Included(e) <==> !e.isDir && e.name != Ascii("indexfile") && e.name != Ascii("bigfile")
  {
  }

  function BigImage(files: seq<Entry>): seq<Byte> {
    if files == [] then [] else BigImage(files[..|files| - 1]) + files[|files| - 1].content
  }

  /** Where file i starts in the big file. */
  function Offset(files: seq<Entry>, i: nat): nat
    requires i <= |files|
  {
    if i == 0 then 0 else Offset(files, i - 1) + |files[i - 1].content|
  }

  function NeedleOf(files: seq<Entry>, i: nat): Needle
    requires i < |files|
  {
    SetNeedleIndex(files[i].name, |files[i].content|, Offset(files, i))
  }

  function NeedlesOf(files: seq<Entry>): (ns: seq<Needle>)
    ensures |ns| == |files|
  {
    seq(|files|, i requires 0 <= i < |files| => NeedleOf(files, i))
  }

  /** The needle of file i: its padded name, its size in 32 bits, its place, the length of its record,
      and the flag of an existing file. */
  lemma {:induction false} NeedleIs(files: seq<Entry>, i: nat)
    requires i < |files|
    ensures var n := NeedlesOf(files)[i];
            && NameOf(n.filename) == files[i].name
            && n.filename[|files[i].name|..] == seq(KEY_LEN - |files[i].name|, _ => 0)
            && n.size == |files[i].content| % 0x1_0000_0000 && n.offset == Offset(files, i)
            && n.needleSize == 17 + |files[i].name| && n.flags == 1
  {
    KeyNameInverse(NeedlesOf(files)[i].filename, files[i].name);
    Widths();
  }

  // ---------- the slices tile the big file ----------

  lemma {:induction false} OffsetPrefix(files: seq<Entry>, i: nat, j: nat)
    requires i <= j <= |files|
    ensures Offset(files[..j], i) == Offset(files, i)
    decreases i
  {
    if i > 0 {
      OffsetPrefix(files, i - 1, j);
    }
  }

  lemma {:induction false} BigImageLength(files: seq<Entry>)
    ensures |BigImage(files)| == Offset(files, |files|)
  {
    if files != [] {
      var k := |files| - 1;
      BigImageLength(files[..k]);
      OffsetPrefix(files, k, k);
    }
  }

  /** File i occupies [Offset(i), Offset(i + 1)) of the big file: the recorded slices follow each
      other without gap or overlap and end at the end of the file. */
  lemma {:induction false} Tiling(files: seq<Entry>, i: nat)
    requires i < |files|
    ensures Offset(files, i) + |files[i].content| == Offset(files, i + 1) <= |BigImage(files)|
    ensures BigImage(files)[Offset(files, i)..Offset(files, i + 1)] == files[i].content
    ensures |BigImage(files)| == Offset(files, |files|)
    decreases |files|
  {
    var k := |files| - 1;
    BigImageLength(files);
    BigImageLength(files[..k]);
    OffsetPrefix(files, k, k);
    if i < k {
      Tiling(files[..k], i);
      OffsetPrefix(files, i, k);
      OffsetPrefix(files, i + 1, k);
      SliceOfPrefix(BigImage(files[..k]), files[k].content, Offset(files, i), Offset(files, i + 1));
    }
  }

  lemma SliceOfPrefix(a: seq<Byte>, b: seq<Byte>, i: nat, j: nat)
    requires i <= j <= |a|
    ensures (a + b)[i..j] == a[i..j]
  {
  }

  // ---------- copying one file ----------

  /** Assignment to a 32-bit `int`. */
  function Wrap32(x: int): (r: int)
    ensures -0x8000_0000 <= r < 0x8000_0000
    ensures -0x8000_0000 <= x < 0x8000_0000 ==> r == x
  {
    (x + 0x8000_0000) % 0x1_0000_0000 - 0x8000_0000
  }

  /** How much the next round copies. */
  function ChunkSize(size: nat, cnt: int): int {
    if size - cnt <= BUFFER_SIZE then size - cnt else BUFFER_SIZE
  }

  /** The 32-bit counter after n rounds of the copy loop. */
  function CountAfter(size: nat, n: nat): int {
    if n == 0 then 0
    else var cnt := CountAfter(size, n - 1); Wrap32(cnt + ChunkSize(size, cnt))
  }

  lemma {:induction false} CountReaches(size: nat, n: nat)
    requires size < 0x8000_0000
    ensures 0 <= CountAfter(size, n) <= size
    ensures CountAfter(size, n) == size || CountAfter(size, n) == n * BUFFER_SIZE
  {
    if n > 0 {
      CountReaches(size, n - 1);
    }
  }

  /** The copy loop ends exactly for files below 2 GiB: at 2^31 bytes and more, the counter can
      never reach the size. */
  lemma CopyEndsIff(size: nat)
    ensures (exists n :: n >= 1 && CountAfter(size, n) >= size) <==> size < 0x8000_0000
  {
    if size < 0x8000_0000 {
      CountReaches(size, size + 1);
      assert CountAfter(size, size + 1) >= size;
    }
  }

  /** The do-while loop that copies a small file to the end of the big file. */
  method CopyFile(small: File, size: nat, big: File)
    requires small != big && small.pos == 0 && big.pos == |big.data|
    requires size == |small.data| < 0x8000_0000
    modifies small`pos, big
    ensures big.data == old(big.data) + small.data && big.pos == |big.data|
  {
    var cnt, again := 0, true;
    while again
      invariant 0 <= cnt <= size && small.pos == cnt && (!again ==> cnt >= size)
      invariant big.data == old(big.data) + small.data[..cnt] && big.pos == |big.data|
      decreases size - cnt, again
    {
      var readBytes := ChunkSize(size, cnt);
      var buf := small.Fread(readBytes);
      big.Fwrite(buf);
      assert small.data[..cnt] + buf == small.data[..cnt + readBytes];
      cnt := Wrap32(cnt + readBytes);
      again := cnt < size;
    }
  }

  // ---------- the whole directory ----------

  /** The limits of the format and of the copy loop. */
  predicate Combinable(dir: seq<Entry>) {
    && |dir| < Power256(8)
    && (forall e :: e in dir ==> |e.content| < 0x8000_0000)
    && |BigImage(Files(dir))| < Power256(8)
  }

  lemma {:induction false} NeedlesPrefix(files: seq<Entry>, f: Entry)
    ensures NeedlesOf(files + [f]) == NeedlesOf(files) + [SetNeedleIndex(f.name, |f.content|, |BigImage(files)|)]
    ensures BigImage(files + [f]) == BigImage(files) + f.content
  {
    var all := files + [f];
    assert all[..|files|] == files;
    BigImageLength(files);
    forall i | 0 <= i <= |files| ensures Offset(all, i) == Offset(files, i) {
      OffsetPrefix(all, i, |files|);
    }
  }

  /** `main`: afterwards the index file is the image of the needles of the merged files, and the big
      file is the concatenation of their contents. */
  method CombineDirectory(dir: seq<Entry>) returns (index: File, big: File)
    requires Combinable(dir)
    ensures fresh(index) && fresh(big) && index != big
    ensures index.data == IndexImage(NeedlesOf(Files(dir)))
    ensures big.data == BigImage(Files(dir))
  {
    hide *;
    index := new File();
    var num := 0;
    index.Fwrite(Encode(num, 8));
    big := new File();
    ImagesEmpty(dir);
    for i := 0 to |dir|
      invariant index != big && fresh(index) && fresh(big)
      invariant num == |Files(dir[..i])|
      invariant index.data == Encode(0, 8) + Records(NeedlesOf(Files(dir[..i]))) && index.pos == |index.data|
      invariant big.data == BigImage(Files(dir[..i])) && big.pos == |big.data|
    {
      var e := dir[i];
      FilesStep(dir, i);
      if Included(e) {
        NeedlesPrefix(Files(dir[..i]), e);
        RecordsAppend(NeedlesOf(Files(dir[..i])), SetNeedleIndex(e.name, |e.content|, big.pos));
        InsertNeedleIndex(SetNeedleIndex(e.name, |e.content|, big.pos), index);
        var small := new File();
        small.data := e.content;
        CombinableEntry(dir, e);
        CopyFile(small, |e.content|, big);
        num := num + 1;
      }
    }
    assert dir[..|dir|] == dir;
    index.Fseek(0);
    RewriteHeader(index.data, NeedlesOf(Files(dir)), num);
    index.Fwrite(Encode(num, 8));
  }

  lemma ImagesEmpty(dir: seq<Entry>)
    ensures Files(dir[..0]) == [] && BigImage([]) == [] && Records(NeedlesOf([])) == []
  {
    assert NeedlesOf([]) == [];
  }

  lemma FilesStep(dir: seq<Entry>, i: nat)
    requires i < |dir|
    ensures Files(dir[..i + 1]) == if Included(dir[i]) then Files(dir[..i]) + [dir[i]] else Files(dir[..i])
  {
    assert dir[..i + 1][..i] == dir[..i];
  }

  lemma CombinableEntry(dir: seq<Entry>, e: Entry)
    requires Combinable(dir) && e in dir
    ensures |e.content| < 0x8000_0000
  {
  }

  /** Overwriting the placeholder leaves the records in place. */
  lemma {:induction false} RewriteHeader(data: seq<Byte>, needles: seq<Needle>, num: nat)
    requires data == Encode(0, 8) + Records(needles) && num == |needles|
    ensures |Encode(num, 8)| == 8 <= |data| && data[..0] + Encode(num, 8) + data[8..] == IndexImage(needles)
  {
    hide Encode, Records;
    assert data[8..] == Records(needles);
  }

  // ---------- what the needles satisfy ----------

  lemma {:induction false} NeedlesFit(dir: seq<Entry>)
    requires Combinable(dir)
    ensures forall n :: n in NeedlesOf(Files(dir)) ==> n.WellFormed()
    ensures |NeedlesOf(Files(dir))| < Power256(8)
  {
    var files := Files(dir);
    forall n | n in NeedlesOf(files) ensures n.WellFormed() {
      var i :| 0 <= i < |files| && NeedlesOf(files)[i] == n;
      Tiling(files, i);
      assert files[i] in dir;
      Widths();
    }
  }

  predicate DistinctFiles(files: seq<Entry>) {
    forall i, j :: 0 <= i < j < |files| ==> files[i].name != files[j].name
  }

  lemma NeedlesDistinct(files: seq<Entry>)
    requires DistinctFiles(files)
    ensures DistinctNames(NeedlesOf(files))
  {
    hide KeyOf, NameOf, StrLen, Offset, Power256;
    var ns := NeedlesOf(files);
    forall i, j | 0 <= i < j < |ns| ensures ns[i].filename != ns[j].filename {
      KeyNameInverse(ns[i].filename, files[i].name);
      KeyNameInverse(ns[j].filename, files[j].name);
    }
  }
}
