/** C streams over byte sequences, and little-endian fixed-width integers. */
module CFile {
  import opened StrKey

  // ---------- integers as the x86 host stores them ----------

  function Power256(n: nat): (p: nat)
    ensures p >= 1
  {
    if n == 0 then 1 else 256 * Power256(n - 1)
  }

  function Encode(x: nat, n: nat): (bs: seq<Byte>)
    ensures |bs| == n
    decreases n
  {
    if n == 0 then [] else [x % 256] + Encode(x / 256, n - 1)
  }

  function Decode(bs: seq<Byte>): (x: nat) {
    if bs == [] then 0 else bs[0] + 256 * Decode(bs[1..])
  }

  /** Encoding and decoding are inverse to each other on the range of the width. */
  lemma {:induction false} DecodeEncode(x: nat, n: nat)
    requires x < Power256(n)
    ensures Decode(Encode(x, n)) == x
    decreases n
  {
    if n > 0 {
      DecodeEncode(x / 256, n - 1);
      assert Encode(x, n)[1..] == Encode(x / 256, n - 1);
    }
  }

  lemma {:induction false} EncodeDecode(bs: seq<Byte>)
    ensures Decode(bs) < Power256(|bs|) && Encode(Decode(bs), |bs|) == bs
  {
    if bs != [] {
      EncodeDecode(bs[1..]);
      var d := Decode(bs[1..]);
      assert (bs[0] + 256 * d) % 256 == bs[0] && (bs[0] + 256 * d) / 256 == d;
    }
  }

  /** The least significant byte comes first. */
  lemma {:induction false} DecodeBytes(bs: seq<Byte>)
    ensures |bs| == 4 ==>
              Decode(bs) == bs[0] as int + 0x100 * bs[1] as int + 0x1_0000 * bs[2] as int + 0x100_0000 * bs[3] as int
    ensures |bs| == 8 ==> Decode(bs) == Decode(bs[..4]) + 0x1_0000_0000 * Decode(bs[4..])
  {
    if |bs| == 4 {
      DecodeFour(bs);
    } else if |bs| == 8 {
      assert bs[4..] == bs[1..][1..][1..][1..];
      assert bs[..4][1..] == bs[1..4] && bs[1..4][1..] == bs[2..4] && bs[2..4][1..] == bs[3..4];
      assert bs[1..][1..] == bs[2..] && bs[2..][1..] == bs[3..] && bs[3..][1..] == bs[4..];
      DecodeFour(bs[..4]);
      assert Decode(bs) == bs[0] + 256 * Decode(bs[1..]);
      assert Decode(bs[1..]) == bs[1] + 256 * Decode(bs[2..]);
      assert Decode(bs[2..]) == bs[2] + 256 * Decode(bs[3..]);
      assert Decode(bs[3..]) == bs[3] + 256 * Decode(bs[4..]);
    }
  }

  lemma {:induction false} DecodeFour(bs: seq<Byte>)
    requires |bs| == 4
    ensures Decode(bs) == bs[0] as int + 0x100 * bs[1] as int + 0x1_0000 * bs[2] as int + 0x100_0000 * bs[3] as int
  {
    assert bs[1..][1..] == bs[2..] && bs[2..][1..] == bs[3..] && bs[3..][1..] == [];
    assert Decode(bs[1..]) == bs[1] + 256 * Decode(bs[2..]);
    assert Decode(bs[2..]) == bs[2] + 256 * Decode(bs[3..]);
    assert Decode(bs[3..]) == bs[3] + 256 * Decode([]);
  }

  lemma Widths()
    ensures Power256(4) == 0x1_0000_0000 && Power256(8) == 0x1_0000_0000_0000_0000
  {
    assert Power256(4) == 256 * (256 * (256 * (256 * Power256(0))));
    assert Power256(8) == 256 * (256 * (256 * (256 * Power256(4))));
  }

  /** Two's complement of a 64-bit signed integer. */
  function Unsigned64(x: int): (u: int)
    requires -0x8000_0000_0000_0000 <= x < 0x8000_0000_0000_0000
    ensures 0 <= u < 0x1_0000_0000_0000_0000
  {
    if x >= 0 then x else x + 0x1_0000_0000_0000_0000
  }

  function Signed64(u: int): int {
    if u < 0x8000_0000_0000_0000 then u else u - 0x1_0000_0000_0000_0000
  }

  // ---------- streams ----------

  /** The bytes of `fread` at a position: as many of the requested ones as the file still has. */
  function BytesAt(data: seq<Byte>, pos: nat, n: nat): (bs: seq<Byte>)
    ensures |bs| == if |data| <= pos then 0 else if pos + n <= |data| then n else |data| - pos
    ensures forall i :: 0 <= i < |bs| ==> bs[i] == data[pos + i]
    ensures pos + n <= |data| ==> bs == data[pos..pos + n]
  {
    if pos >= |data| then []
    else if pos + n <= |data| then data[pos..pos + n]
    else data[pos..]
  }

  class File {
    var data: seq<Byte>
    var pos: nat

    /** `fopen(path, "wb+")`: an empty file. */
    constructor ()
      ensures data == [] && pos == 0
    {
      data, pos := [], 0;
    }

    method Fseek(offset: nat)
      modifies this`pos
      ensures pos == offset
    {
      pos := offset;
    }

    method Ftell() returns (offset: nat)
      ensures offset == pos
    {
      offset := pos;
    }

    method Fread(n: nat) returns (bs: seq<Byte>)
      modifies this`pos
      ensures bs == BytesAt(data, old(pos), n) && pos == old(pos) + |bs|
    {
      bs := BytesAt(data, pos, n);
      pos := pos + |bs|;
    }

    /** Overwrites from the position on, extending the file at its end. */
    method Fwrite(bs: seq<Byte>)
      requires pos <= |data|
      modifies this
      ensures pos == old(pos) + |bs| <= |data|
      ensures data == old(data)[..old(pos)] + bs
                      + if pos <= |old(data)| then old(data)[pos..] else []
    {
      data := data[..pos] + bs + if pos + |bs| <= |data| then data[pos + |bs|..] else [];
      pos := pos + |bs|;
    }
  }
}
