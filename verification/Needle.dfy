/** Index records and the index file (include/needle.h, src/aux/needle.cpp, src/aux/index.cpp). */
module Needles {
  import opened StrKey
  import opened FeatureSlice
  import opened CFile

  const NEEDLE_BASIC_SIZE := 17
  const FILE_EXIT: Byte := 1

  datatype Needle = Needle(filename: Key, offset: nat, size: nat, needleSize: nat, flags: Byte) {
    /** The fields fit their widths, and the record length is that of its name. */
    predicate WellFormed() {
      && offset < Power256(8) && size < Power256(4)
      && needleSize == NEEDLE_BASIC_SIZE + StrLen(filename)
    }
  }

  function Names(needles: seq<Needle>): (names: seq<Key>)
    ensures |names| == |needles|
  {
    seq(|needles|, i requires 0 <= i < |needles| => needles[i].filename)
  }

  /** `set_needle_index`: the size field keeps the low 32 bits. */
  function SetNeedleIndex(name: Name, stSize: nat, offset: nat): Needle {
    var key := KeyOf(name);
    Needle(key, offset, stSize % Power256(4), NEEDLE_BASIC_SIZE + StrLen(key), FILE_EXIT)
  }

  // ---------- one record ----------

  function Record(n: Needle): (bs: seq<Byte>)
    ensures |bs| == NEEDLE_BASIC_SIZE + StrLen(n.filename)
  {
    Encode(n.needleSize, 4) + [n.flags] + Encode(n.offset, 8) + Encode(n.size, 4) + NameOf(n.filename)
  }

  /** A record can be read at pos: its length field fits the buffer and its bytes are there. */
  predicate RecordAt(data: seq<Byte>, pos: nat) {
    && pos + NEEDLE_BASIC_SIZE <= |data|
    && NEEDLE_BASIC_SIZE <= Decode(data[pos..pos + 4]) <= NEEDLE_BASIC_SIZE + MAX_FILE_LEN
    && pos + Decode(data[pos..pos + 4]) <= |data|
    && IsName(data[pos + NEEDLE_BASIC_SIZE..pos + Decode(data[pos..pos + 4])])
  }

  function ParseRecord(data: seq<Byte>, pos: nat): Needle
    requires RecordAt(data, pos)
  {
    var length := Decode(data[pos..pos + 4]);
    Needle(KeyOf(data[pos + NEEDLE_BASIC_SIZE..pos + length]), Decode(data[pos + 5..pos + 13]),
           Decode(data[pos + 13..pos + 17]), length, data[pos + 4])
  }

  /** A record reads back as the needle it was written from, whatever stands around it. */
  lemma RecordRoundTrip(before: seq<Byte>, n: Needle, rest: seq<Byte>)
    requires n.WellFormed()
    ensures var data := before + Record(n) + rest;
            RecordAt(data, |before|) && ParseRecord(data, |before|) == n
  {
    var data, p := before + Record(n) + rest, |before|;
    var l, f, o, z, s := Encode(n.needleSize, 4), [n.flags], Encode(n.offset, 8), Encode(n.size, 4), NameOf(n.filename);
    Widths();
    KeyNameInverse(n.filename, []);
    DecodeEncode(n.needleSize, 4);
    DecodeEncode(n.offset, 8);
    DecodeEncode(n.size, 4);
    hide Encode, Decode, StrLen, FirstZero, KeyOf, Power256, NameOf;
    FieldsOf(before, l, f, o, z, s, rest);
    assert data == before + (l + f + o + z + s) + rest;
  }

  /** The layout of a record: length, flags, offset, size and name, at bytes 0, 4, 5, 13 and 17. */
  lemma RecordLayout(n: Needle)
    requires n.WellFormed()
    ensures var bs := Record(n);
            && |bs| == n.needleSize == 17 + |NameOf(n.filename)|
            && Decode(bs[0..4]) == n.needleSize && bs[4] == n.flags && Decode(bs[5..13]) == n.offset
            && Decode(bs[13..17]) == n.size && bs[17..] == NameOf(n.filename)
  {
    hide *;
    FieldsDecode(n);
    FieldsOf([], Encode(n.needleSize, 4), [n.flags], Encode(n.offset, 8), Encode(n.size, 4), NameOf(n.filename), []);
    RecordIs(n);
  }

  lemma RecordIs(n: Needle)
    ensures Record(n) == [] + (Encode(n.needleSize, 4) + [n.flags] + Encode(n.offset, 8) + Encode(n.size, 4)
                               + NameOf(n.filename)) + []
  {
    hide Encode, NameOf;
  }

  lemma FieldsDecode(n: Needle)
    requires n.WellFormed()
    ensures n.needleSize == 17 + |NameOf(n.filename)| && Decode(Encode(n.needleSize, 4)) == n.needleSize
    ensures Decode(Encode(n.offset, 8)) == n.offset && Decode(Encode(n.size, 4)) == n.size
  {
    Widths();
    hide Encode, Decode, Power256, FirstZero;
    DecodeEncode(n.needleSize, 4);
    DecodeEncode(n.offset, 8);
    DecodeEncode(n.size, 4);
  }

  /** Cutting a record into its fields again. */
  lemma FieldsOf(before: seq<Byte>, l: seq<Byte>, f: seq<Byte>, o: seq<Byte>, z: seq<Byte>, s: seq<Byte>,
                 rest: seq<Byte>)
    requires |l| == 4 && |f| == 1 && |o| == 8 && |z| == 4
    ensures var data, p := before + (l + f + o + z + s) + rest, |before|;
            && |data| == p + 17 + |s| + |rest|
            && data[p..p + 4] == l && data[p + 4] == f[0] && data[p + 5..p + 13] == o
            && data[p + 13..p + 17] == z && data[p + 17..p + 17 + |s|] == s
  {
  }

  /** `insert_needle_index`, at the end of the file. */
  method InsertNeedleIndex(n: Needle, file: File)
    requires file.pos == |file.data|
    modifies file
    ensures file.data == old(file.data) + Record(n) && file.pos == |file.data|
  {
    hide Encode, NameOf;
    file.Fwrite(Encode(n.needleSize, 4));
    file.Fwrite([n.flags]);
    file.Fwrite(Encode(n.offset, 8));
    file.Fwrite(Encode(n.size, 4));
    file.Fwrite(NameOf(n.filename));
  }

  /** `read_needle_index`, into a buffer that starts out zeroed. */
  method ReadNeedleIndex(file: File) returns (n: Needle)
    requires RecordAt(file.data, file.pos)
    modifies file`pos
    ensures n == ParseRecord(old(file.data), old(file.pos))
    ensures file.pos == old(file.pos) + n.needleSize
  {
    hide Decode, IsName, KeyOf;
    var length := file.Fread(4);
    var flags := file.Fread(1);
    var offset := file.Fread(8);
    var size := file.Fread(4);
    var name := file.Fread(Decode(length) - NEEDLE_BASIC_SIZE);
    n := Needle(KeyOf(name), Decode(offset), Decode(size), Decode(length), flags[0]);
  }

  // ---------- the index file ----------

  function Records(needles: seq<Needle>): seq<Byte> {
    if needles == [] then []
    else Records(needles[..|needles| - 1]) + Record(needles[|needles| - 1])
  }

  /** Record count, then the records. */
  function IndexImage(needles: seq<Needle>): seq<Byte> {
    Encode(|needles|, 8) + Records(needles)
  }

  /** The index file starts with the number of records, in 8 bytes. */
  lemma IndexHeader(needles: seq<Needle>)
    requires |needles| < Power256(8)
    ensures |IndexImage(needles)| >= 8 && Decode(IndexImage(needles)[..8]) == |needles|
  {
    hide Records, Encode, Decode;
    DecodeEncode(|needles|, 8);
    assert IndexImage(needles)[..8] == Encode(|needles|, 8);
  }

  lemma {:induction false} RecordsAppend(needles: seq<Needle>, n: Needle)
    ensures Records(needles + [n]) == Records(needles) + Record(n)
  {
    assert (needles + [n])[..|needles|] == needles;
  }

  lemma {:induction false} RecordsSplit(needles: seq<Needle>, i: nat) returns (rest: seq<Byte>)
    requires i < |needles|
    ensures Records(needles) == Records(needles[..i]) + Record(needles[i]) + rest
    decreases |needles|
  {
    hide Record;
    var k := |needles| - 1;
    if i == k {
      rest := [];
    } else {
      rest := RecordsSplit(needles[..k], i);
      assert needles[..k][..i] == needles[..i];
      rest := rest + Record(needles[k]);
    }
  }

  lemma RecordsStep(needles: seq<Needle>, i: nat)
    requires i < |needles|
    ensures Records(needles[..i + 1]) == Records(needles[..i]) + Record(needles[i])
  {
    assert needles[..i + 1] == needles[..i] + [needles[i]];
    RecordsAppend(needles[..i], needles[i]);
  }

  /** The parsing loop of `init`: count, then that many records, gives back what was written. */
  method ReadIndexFile(file: File, ghost written: seq<Needle>) returns (needles: seq<Needle>)
    requires file.pos == 0 && file.data == IndexImage(written) && |written| < Power256(8)
    requires forall n :: n in written ==> n.WellFormed()
    modifies file`pos
    ensures needles == written
  {
    hide *;
    NoRecords(written);
    var count := ReadCount(file, written);
    needles := [];
    for i := 0 to count
      invariant |needles| == i && forall j :: 0 <= j < i ==> needles[j] == written[j]
      invariant file.pos == 8 + |Records(written[..i])|
    {
      RecordInImage(written, i);
      var n := ReadNeedleIndex(file);
      needles := needles + [n];
    }
  }

  lemma NoRecords(needles: seq<Needle>)
    ensures Records(needles[..0]) == []
  {
  }

  method ReadCount(file: File, ghost written: seq<Needle>) returns (count: nat)
    requires file.pos == 0 && file.data == IndexImage(written) && |written| < Power256(8)
    modifies file`pos
    ensures count == |written| && file.pos == 8
  {
    hide Encode, Decode;
    var header := file.Fread(8);
    assert header == Encode(|written|, 8);
    DecodeEncode(|written|, 8);
    count := Decode(header);
  }

  lemma RecordInImage(needles: seq<Needle>, i: nat)
    requires i < |needles| && needles[i].WellFormed()
    ensures var pos := 8 + |Records(needles[..i])|;
            && RecordAt(IndexImage(needles), pos)
            && ParseRecord(IndexImage(needles), pos) == needles[i]
            && 8 + |Records(needles[..i + 1])| == pos + needles[i].needleSize
  {
    hide Encode, Decode, RecordAt, ParseRecord, Records;
    var rest := RecordsSplit(needles, i);
    var before := Encode(|needles|, 8) + Records(needles[..i]);
    assert IndexImage(needles) == before + Record(needles[i]) + rest;
    RecordRoundTrip(before, needles[i], rest);
    RecordsStep(needles, i);
  }

  // ---------- sorting ----------

  function Insert(sorted: seq<Needle>, n: Needle): (r: seq<Needle>)
    ensures multiset(r) == multiset(sorted) + multiset{n}
  {
    if sorted == [] then [n]
    else
      assert sorted == [sorted[0]] + sorted[1..];
      if KeyLeq(n.filename, sorted[0].filename) then [n] + sorted
      else [sorted[0]] + Insert(sorted[1..], n)
  }

  /** `std::sort` by file name. The names are distinct, so any sort gives this result. */
  function SortNeedles(needles: seq<Needle>): (r: seq<Needle>)
    ensures multiset(r) == multiset(needles)
  {
    if needles == [] then []
    else
      assert needles == [needles[0]] + needles[1..];
      Insert(SortNeedles(needles[1..]), needles[0])
  }

  predicate DistinctNames(needles: seq<Needle>) {
    forall i, j :: 0 <= i < j < |needles| ==> needles[i].filename != needles[j].filename
  }

  lemma SortedCons(n: Needle, tail: seq<Needle>)
    requires Sorted(Names(tail)) && (tail != [] ==> KeyLess(n.filename, tail[0].filename))
    ensures Sorted(Names([n] + tail))
  {
    hide KeyLess;
    var r := [n] + tail;
    forall i | 0 < i < |r| ensures KeyLess(Names(r)[i - 1], Names(r)[i]) {
      if i > 1 { assert KeyLess(Names(tail)[i - 2], Names(tail)[i - 1]); }
    }
  }

  lemma SortedTail(a: seq<Needle>)
    requires a != [] && Sorted(Names(a))
    ensures Sorted(Names(a[1..]))
    ensures |a| > 1 ==> KeyLess(a[0].filename, a[1].filename)
  {
    hide KeyLess;
    forall i | 0 < i < |a| - 1 ensures KeyLess(Names(a[1..])[i - 1], Names(a[1..])[i]) {
      assert KeyLess(Names(a)[i], Names(a)[i + 1]);
    }
    if |a| > 1 { assert KeyLess(Names(a)[0], Names(a)[1]); }
  }

  lemma {:induction false} InsertSorted(sorted: seq<Needle>, n: Needle)
    requires Sorted(Names(sorted))
    requires forall m :: m in sorted ==> m.filename != n.filename
    ensures Sorted(Names(Insert(sorted, n)))
  {
    hide KeyLess, KeyLeq, Sorted, Names;
    if sorted == [] {
      SortedCons(n, sorted);
      assert [n] + sorted == Insert(sorted, n);
    } else {
      assert sorted[0] in sorted;
      KeyOrderTotal(n.filename, sorted[0].filename);
      if KeyLeq(n.filename, sorted[0].filename) {
        KeyOrderTotal(sorted[0].filename, n.filename);
        SortedCons(n, sorted);
      } else {
        SortedTail(sorted);
        InsertSorted(sorted[1..], n);
        InsertFront(sorted[1..], n);
        SortedCons(sorted[0], Insert(sorted[1..], n));
      }
    }
  }

  lemma {:induction false} InsertFront(sorted: seq<Needle>, n: Needle)
    ensures Insert(sorted, n)[..1] == [n] || (sorted != [] && Insert(sorted, n)[..1] == [sorted[0]])
  {
  }

  /** Distinctly named needles end up strictly sorted, and none is lost or invented. */
  lemma {:induction false} SortNeedlesSorts(needles: seq<Needle>)
    requires DistinctNames(needles)
    ensures Sorted(Names(SortNeedles(needles)))
    ensures forall n :: n in SortNeedles(needles) <==> n in needles
  {
    if needles != [] {
      SortNeedlesSorts(needles[1..]);
      var r := SortNeedles(needles[1..]);
      forall m | m in r ensures m.filename != needles[0].filename {
        assert m in needles[1..];
      }
      InsertSorted(r, needles[0]);
    }
    forall n ensures n in SortNeedles(needles) <==> n in needles {
      assert n in multiset(SortNeedles(needles)) <==> n in multiset(needles);
    }
  }

  /** The least needle comes first in any sorted arrangement. */
  lemma SortedFirst(a: seq<Needle>, n: Needle)
    requires Sorted(Names(a)) && n in a
    ensures a[0] == n || KeyLess(a[0].filename, n.filename)
  {
    var i :| 0 <= i < |a| && a[i] == n;
    SortedPairs(Names(a));
    hide KeyLess;
    if i > 0 { assert KeyLess(Names(a)[0], Names(a)[i]); }
  }

  lemma SameElements(a: seq<Needle>, b: seq<Needle>)
    requires multiset(a) == multiset(b)
    ensures |a| == |b| && forall n :: n in a <==> n in b
    ensures a != [] && a[0] == b[0] ==> multiset(a[1..]) == multiset(b[1..])
  {
    assert |multiset(b)| == |multiset(a)|;
    forall n ensures n in a <==> n in b {
      assert n in a <==> n in multiset(a);
    }
    if a != [] {
      WithoutFirst(a);
      WithoutFirst(b);
    }
  }

  lemma WithoutFirst(a: seq<Needle>)
    requires a != []
    ensures multiset(a[1..]) == multiset(a) - multiset{a[0]}
  {
    assert a == [a[0]] + a[1..];
  }

  /** Two strictly sorted arrangements of the same needles are the same: the sort algorithm and its
      stability do not matter. */
  lemma {:induction false} SortUnique(a: seq<Needle>, b: seq<Needle>)
    requires multiset(a) == multiset(b) && Sorted(Names(a)) && Sorted(Names(b))
    ensures a == b
  {
    hide *;
    SameElements(a, b);
    if a != [] {
      SortedFirst(a, b[0]);
      SortedFirst(b, a[0]);
      KeyOrderTotal(a[0].filename, b[0].filename);
      SortedTail(a);
      SortedTail(b);
      SortUnique(a[1..], b[1..]);
    }
  }
}
