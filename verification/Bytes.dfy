/** Bytes, fixed-width unsigned integers and their big-endian wire form. */
module Bytes {

  type byte = b: int | 0 <= b < 256
  type u16 = n: int | 0 <= n < 0x1_0000
  type u32 = n: int | 0 <= n < 0x1_0000_0000
  type u64 = n: int | 0 <= n < 0x1_0000_0000_0000_0000

  const U32_SIZE: nat := 0x1_0000_0000
  const U64_SIZE: nat := 0x1_0000_0000_0000_0000

  /** A 32-bit fetch-add of one: wraps to zero. */
  function Increment32(n: u32): u32 {
    if n == 0xFFFF_FFFF then 0 else n + 1
  }

  datatype Option<+T> = None | Some(value: T)

  /** The bytes of a text of plain characters. */
  function Ascii(text: string): (s: seq<byte>)
    requires forall i | 0 <= i < |text| :: text[i] < 128 as char
    ensures |s| == |text| && forall i | 0 <= i < |text| :: s[i] == text[i] as int
  {
    seq(|text|, i requires 0 <= i < |text| => text[i] as int)
  }

  /** The number of values that fit in `width` bytes. */
  function Pow256(width: nat): (p: nat)
    ensures p > 0
  {
    if width == 0 then 1 else 256 * Pow256(width - 1)
  }

  /** The low `width` bytes of `n`, most significant first. A larger `n` is truncated, as a narrowing cast does. */
  function BigEndian(n: nat, width: nat): (s: seq<byte>)
    ensures |s| == width
  {
    if width == 0 then [] else BigEndian(n / 256, width - 1) + [n % 256]
  }

  function FromBigEndian(s: seq<byte>): (n: nat)
    ensures n < Pow256(|s|)
  {
    if s == [] then 0 else FromBigEndian(s[..|s| - 1]) * 256 + s[|s| - 1]
  }

  /** Decoding undoes encoding for every value that fits. */
  lemma {:induction false} DecodeEncode(n: nat, width: nat)
    requires n < Pow256(width)
    ensures FromBigEndian(BigEndian(n, width)) == n
  {
    if width > 0 {
      DecodeEncode(n / 256, width - 1);
      assert BigEndian(n, width)[..width - 1] == BigEndian(n / 256, width - 1);
    }
  }

  /** Encoding undoes decoding for every byte string. */
  lemma {:induction false} EncodeDecode(s: seq<byte>)
    ensures BigEndian(FromBigEndian(s), |s|) == s
  {
    if s != [] {
      EncodeDecode(s[..|s| - 1]);
      assert s == s[..|s| - 1] + [s[|s| - 1]];
    }
  }

  /** The high part comes first: the bytes of `high` scaled past `low` are those of `high`, then those of `low`. */
  lemma {:induction false} HighFirst(high: nat, v: nat, low: nat, w: nat)
    requires low < Pow256(w)
    ensures BigEndian(high * Pow256(w) + low, v + w) == BigEndian(high, v) + BigEndian(low, w)
    decreases w
  {
    if w == 0 {
      assert high * Pow256(0) + low == high;
    } else {
      var n, scaled := high * Pow256(w) + low, high * Pow256(w - 1);
      assert high * Pow256(w) == 256 * scaled;
      assert n / 256 == scaled + low / 256 && n % 256 == low % 256;
      HighFirst(high, v, low / 256, w - 1);
    }
  }

  lemma WidthLimits()
    ensures Pow256(1) == 256
    ensures Pow256(2) == 0x1_0000
    ensures Pow256(4) == U32_SIZE
    ensures Pow256(8) == U64_SIZE
  {
    assert Pow256(3) == 256 * Pow256(2);
    assert Pow256(5) == 256 * Pow256(4);
    assert Pow256(6) == 256 * Pow256(5);
    assert Pow256(7) == 256 * Pow256(6);
  }

  lemma U16RoundTrip(n: nat)
    requires n < 0x1_0000
    ensures FromBigEndian(BigEndian(n, 2)) == n
  {
    WidthLimits();
    DecodeEncode(n, 2);
  }

  lemma U64RoundTrip(n: nat)
    requires n < U64_SIZE
    ensures FromBigEndian(BigEndian(n, 8)) == n
  {
    WidthLimits();
    DecodeEncode(n, 8);
  }

  // ── Powers of two ───────────────────────────────────────────────────────────

  function Pow2(k: nat): (p: nat)
    ensures p > 0
  {
    if k == 0 then 1 else 2 * Pow2(k - 1)
  }

  lemma {:induction false} Pow2Add(a: nat, b: nat)
    ensures Pow2(a + b) == Pow2(a) * Pow2(b)
    decreases a
  {
    if a > 0 { Pow2Add(a - 1, b); }
  }

  lemma U64IsPow2() returns (k: nat)
    ensures k == 64 && Pow2(k) == U64_SIZE
  {
    k := Doubled(2, 4);
    k := Doubled(k, 16);
    k := Doubled(k, 256);
    k := Doubled(k, 0x1_0000);
    k := Doubled(k, 0x1_0000_0000);
  }

  lemma Doubled(k: nat, n: nat) returns (kk: nat)
    requires Pow2(k) == n
    ensures kk == k + k && Pow2(kk) == n * n
  {
    kk := k + k;
    Pow2Add(k, k);
  }
}
