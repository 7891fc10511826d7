/** Fixed-size string keys: NUL-padded buffers, their comparisons and their common prefixes
    (include/strkey.h, include/sindex/sindex_util.h). */
module StrKey {

  type Byte = x: int | 0 <= x < 256

  const MAX_FILE_LEN := 50
  const KEY_LEN := MAX_FILE_LEN + 1

  /** Once a zero byte occurs, only zero bytes follow. */
  predicate Padded(s: seq<Byte>) {
    forall i: nat, j: nat :: i <= j < |s| && ZeroAt(s, i) ==> ZeroAt(s, j)
  }

  predicate ZeroAt(s: seq<Byte>, i: nat) {
    i < |s| && s[i] == 0
  }

  /** The buffer of an `index_key_t`: at most 50 name bytes, then zeros up to the 51st byte. */
  type Key = k: seq<Byte> | |k| == KEY_LEN && k[MAX_FILE_LEN] == 0 && Padded(k)
    witness seq(KEY_LEN, _ => 0)

  /** A file name that fits the buffer. */
  predicate IsName(s: seq<Byte>) {
    |s| <= MAX_FILE_LEN && 0 !in s
  }

  type Name = s: seq<Byte> | IsName(s) witness []

  /** `set_key` and the constructors: clear the buffer, then copy the name. */
  function KeyOf(name: Name): (k: Key)
    ensures k[..|name|] == name
  {
    name + seq(KEY_LEN - |name|, _ => 0)
  }

  /** The cells that `set_key` writes: the whole buffer, then the bytes of the name and its end. */
  predicate SetKeyWrites(s: seq<Byte>, cell: nat) {
    cell < KEY_LEN || cell < |s| || cell == |s|
  }

  /** `set_key` stays inside the buffer exactly for names of up to 50 bytes. */
  lemma SetKeyFitsIff(s: seq<Byte>)
    ensures (forall i: nat :: SetKeyWrites(s, i) ==> i < KEY_LEN) <==> |s| <= MAX_FILE_LEN
  {
    assert SetKeyWrites(s, |s|);
  }

  /** `set_key`. */
  method SetKey(buf: array<Byte>, s: seq<Byte>)
    requires buf.Length == KEY_LEN && 0 !in s
    requires forall i: nat :: SetKeyWrites(s, i) ==> i < buf.Length
    modifies buf
    ensures IsName(s) && buf[..] == KeyOf(s)
  {
    SetKeyFitsIff(s);
    for i := 0 to KEY_LEN
      invariant forall j :: 0 <= j < i ==> buf[j] == 0
    {
      buf[i] := 0;
    }
    for i := 0 to |s|
      invariant forall j :: 0 <= j < KEY_LEN ==> buf[j] == if j < i then s[j] else 0
    {
      buf[i] := s[i];
    }
    buf[|s|] := 0;
  }

  /** `strlen` of the buffer. */
  function StrLen(k: Key): (n: nat)
    ensures n <= MAX_FILE_LEN && k[n] == 0 && forall j :: 0 <= j < n ==> k[j] != 0
  {
    FirstZero(k, 0)
  }

  function FirstZero(k: Key, i: nat): (n: nat)
    requires i <= MAX_FILE_LEN && forall j :: 0 <= j < i ==> k[j] != 0
    ensures i <= n <= MAX_FILE_LEN && k[n] == 0 && forall j :: 0 <= j < n ==> k[j] != 0
    decreases KEY_LEN - i
  {
    if k[i] == 0 then i else FirstZero(k, i + 1)
  }

  function NameOf(k: Key): (s: Name) {
    k[..StrLen(k)]
  }

  /** A key buffer and the name in it determine each other. */
  lemma KeyNameInverse(k: Key, s: Name)
    ensures NameOf(KeyOf(s)) == s
    ensures KeyOf(NameOf(k)) == k
  {
    var c := KeyOf(s);
    assert forall i :: 0 <= i < |s| ==> c[i] == s[i] && c[i] != 0;
    assert c[|s|] == 0;
    assert NameOf(c) == s;
    var z := StrLen(k);
    forall j | z <= j < KEY_LEN ensures k[j] == 0 {
      assert ZeroAt(k, z) && ZeroAt(k, j);
    }
    assert KeyOf(NameOf(k)) == k;
  }

  // ---------- first difference and the C string comparisons ----------

  /** The first index in [i, e) at which the buffers differ, or e. */
  function FirstDiff(a: seq<Byte>, b: seq<Byte>, i: nat, e: nat): (d: nat)
    requires i <= e <= |a| && e <= |b|
    ensures i <= d <= e
    decreases e - i
  {
    if i == e || a[i] != b[i] then i else FirstDiff(a, b, i + 1, e)
  }

  /** `FirstDiff` is the only index with equal bytes before it and a difference at it. */
  lemma {:induction false} FirstDiffIs(a: seq<Byte>, b: seq<Byte>, i: nat, e: nat)
    requires i <= e <= |a| && e <= |b|
    ensures var d := FirstDiff(a, b, i, e);
            (forall j :: i <= j < d ==> a[j] == b[j]) && (d < e ==> a[d] != b[d])
    decreases e - i
  {
    if i < e && a[i] == b[i] {
      FirstDiffIs(a, b, i + 1, e);
    }
  }

  /** Length of the common prefix of two whole keys. */
  function Lcp(a: Key, b: Key): (n: nat)
    ensures n <= KEY_LEN
  {
    FirstDiff(a, b, 0, KEY_LEN)
  }

  lemma {:induction false} FirstDiffUnique(a: seq<Byte>, b: seq<Byte>, i: nat, e: nat, d: nat)
    requires i <= d <= e <= |a| && e <= |b|
    requires forall j :: i <= j < d ==> a[j] == b[j]
    requires d < e ==> a[d] != b[d]
    ensures FirstDiff(a, b, i, e) == d
  {
    FirstDiffIs(a, b, i, e);
  }

  /** `common_prefix_length(start, key1, k1_len, key2, k2_len)`. */
  method CommonPrefixLength(start: nat, key1: seq<Byte>, k1_len: nat, key2: seq<Byte>, k2_len: nat)
    returns (n: nat)
    requires k1_len <= |key1| && k2_len <= |key2|
    requires start <= k1_len && start <= k2_len
    ensures start + n == FirstDiff(key1, key2, start, if k1_len <= k2_len then k1_len else k2_len)
  {
    var bound := if k1_len <= k2_len then k1_len else k2_len;
    for f := start to bound
      invariant forall j :: start <= j < f ==> key1[j] == key2[j]
    {
      if key1[f] != key2[f] {
        FirstDiffUnique(key1, key2, start, bound, f);
        return f - start;
      }
    }
    FirstDiffUnique(key1, key2, start, bound, bound);
    n := bound - start;
  }

  /** `strncmp(a + i, b + i, l)`: stops at the first difference, at a shared NUL, or after l bytes. */
  function StrNCmp(a: seq<Byte>, b: seq<Byte>, i: nat, l: nat): int
    requires i + l <= |a| && i + l <= |b|
    decreases l
  {
    if l == 0 then 0
    else if a[i] != b[i] then a[i] - b[i]
    else if a[i] == 0 then 0
    else StrNCmp(a, b, i + 1, l - 1)
  }

  /** `less_than(other, begin_i, l)`. */
  predicate SliceLess(a: seq<Byte>, b: seq<Byte>, p: nat, f: nat)
    requires p + f <= |a| && p + f <= |b|
  {
    StrNCmp(a, b, p, f) < 0
  }

  /** `operator<`: `strcmp` over the whole buffer. */
  predicate KeyLess(a: Key, b: Key) {
    SliceLess(a, b, 0, KEY_LEN)
  }

  /** `operator<=`. */
  predicate KeyLeq(a: Key, b: Key) {
    StrNCmp(a, b, 0, KEY_LEN) <= 0
  }

  /** On padded buffers the NUL stop never hides a difference: the comparison is decided by the
      first differing byte of the slice, wherever the slice starts. */
  lemma {:induction false} StrNCmpIsFirstDiff(a: seq<Byte>, b: seq<Byte>, i: nat, l: nat)
    requires i + l <= |a| && i + l <= |b| && Padded(a) && Padded(b)
    ensures var d := FirstDiff(a, b, i, i + l);
            StrNCmp(a, b, i, l) == if d < i + l then a[d] as int - b[d] as int else 0
    decreases l
  {
    if l != 0 && a[i] == b[i] {
      if a[i] == 0 {
        assert ZeroAt(a, i) && ZeroAt(b, i);
        assert forall j: nat {:trigger a[j]} :: i <= j < i + l ==> ZeroAt(a, j) && ZeroAt(b, j);
        FirstDiffUnique(a, b, i, i + l, i + l);
      } else {
        StrNCmpIsFirstDiff(a, b, i + 1, l - 1);
      }
    }
  }

  /** Slice comparison is transitive, and the first difference of the outer pair is the smaller
      of the two inner ones. */
  lemma {:induction false} SliceLessChain(a: seq<Byte>, b: seq<Byte>, c: seq<Byte>, p: nat, f: nat)
    requires p + f <= |a| && p + f <= |b| && p + f <= |c|
    requires Padded(a) && Padded(b) && Padded(c)
    requires SliceLess(a, b, p, f) && SliceLess(b, c, p, f)
    ensures SliceLess(a, c, p, f)
    ensures var ab, bc := FirstDiff(a, b, p, p + f), FirstDiff(b, c, p, p + f);
            FirstDiff(a, c, p, p + f) == if ab <= bc then ab else bc
  {
    var ab, bc := FirstDiff(a, b, p, p + f), FirstDiff(b, c, p, p + f);
    StrNCmpIsFirstDiff(a, b, p, f);
    StrNCmpIsFirstDiff(b, c, p, f);
    StrNCmpIsFirstDiff(a, c, p, f);
    FirstDiffIs(a, b, p, p + f);
    FirstDiffIs(b, c, p, p + f);
    FirstDiffUnique(a, c, p, p + f, if ab <= bc then ab else bc);
  }

  /** `strcmp` is a total order on keys, equality of buffers included. */
  lemma {:induction false} KeyOrderTotal(a: Key, b: Key)
    ensures KeyLess(a, b) || a == b || KeyLess(b, a)
    ensures !(KeyLess(a, b) && KeyLess(b, a)) && !KeyLess(a, a)
    ensures KeyLeq(a, b) <==> !KeyLess(b, a)
    ensures StrNCmp(a, b, 0, KEY_LEN) == 0 <==> a == b
    ensures Lcp(a, b) == KEY_LEN <==> a == b
  {
    StrNCmpIsFirstDiff(a, b, 0, KEY_LEN);
    StrNCmpIsFirstDiff(b, a, 0, KEY_LEN);
    FirstDiffIs(a, b, 0, KEY_LEN);
    FirstDiffUnique(b, a, 0, KEY_LEN, Lcp(a, b));
    FirstDiffUnique(a, a, 0, KEY_LEN, KEY_LEN);
    StrNCmpIsFirstDiff(a, a, 0, KEY_LEN);
    if Lcp(a, b) == KEY_LEN {
      assert a == b;
    }
  }

  lemma KeyLeqLess(a: Key, b: Key, c: Key)
    requires (KeyLeq(a, b) && KeyLess(b, c)) || (KeyLess(a, b) && KeyLeq(b, c))
    ensures KeyLess(a, c)
  {
    KeyOrderTotal(a, b);
    KeyOrderTotal(b, c);
    if a != b && b != c {
      SliceLessChain(a, b, c, 0, KEY_LEN);
    }
  }

  /** Two keys whose first difference lies inside a slice compare there as they do in full;
      this is what `prefix_len` and `feature_len` are chosen for. */
  lemma SliceDecides(a: Key, b: Key, p: nat, f: nat)
    requires p + f <= KEY_LEN && p <= Lcp(a, b) < p + f
    ensures SliceLess(a, b, p, f) <==> KeyLess(a, b)
    ensures a[p..p + f] != b[p..p + f]
  {
    var d := Lcp(a, b);
    FirstDiffIs(a, b, 0, KEY_LEN);
    FirstDiffUnique(a, b, p, p + f, d);
    StrNCmpIsFirstDiff(a, b, p, f);
    StrNCmpIsFirstDiff(a, b, 0, KEY_LEN);
    assert a[p..p + f][d - p] != b[p..p + f][d - p];
  }
}
