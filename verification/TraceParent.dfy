/**
 The version-00 `traceparent` header: its strict reader and its writer.

 The header is two digits of version, 32 of trace id, 16 of parent id and two of flags, in lower-case
 hexadecimal with dashes between (section 3.2.2 of W3C Trace Context).

 - Hexadecimal: the printer is injective, and the reader of one digit and of a run of them accepts exactly
   what the printer prints.
 - The header: the reader accepts exactly the canonical 55-byte headers with neither id all zero, and a
   header has one reading.
 - The writer: the buffer ends as the header of the context, and what one hop writes the next reads back.
 */
module TraceParent {
  import opened Bytes

  const DASH: byte := 45
  const ZERO: byte := 48
  const HEADER_LEN: nat := 55

  datatype Context = Context(traceId: seq<byte>, parentId: seq<byte>, flags: byte)

  // ── Hexadecimal ─────────────────────────────────────────────────────────────

  /** The value of a lower-case hexadecimal digit; upper case is refused. */
  function HexNibble(c: byte): (n: Option<nat>)
    ensures n.Some? ==> n.value < 16 && HexDigit(n.value) == c
    ensures n.None? ==> forall d: nat | d < 16 :: HexDigit(d) != c
  {
    if 48 <= c <= 57 then Some(c - 48)
    else if 97 <= c <= 102 then Some(c - 97 + 10)
    else None
  }

  function HexDigit(n: nat): (c: byte)
    requires n < 16
    ensures n < 10 ==> 48 <= c <= 57
    ensures n >= 10 ==> 97 <= c <= 102
  {
    if n < 10 then 48 + n else 97 + n - 10
  }

  function Hex(bytes: seq<byte>): (h: seq<byte>)
    ensures |h| == 2 * |bytes|
  {
    if bytes == [] then []
    else
      var b := bytes[|bytes| - 1];
      Hex(bytes[..|bytes| - 1]) + [HexDigit(b / 16), HexDigit(b % 16)]
  }

  lemma {:induction false} HexAt(bytes: seq<byte>, i: nat)
    requires i < |bytes|
    ensures Hex(bytes)[2 * i] == HexDigit(bytes[i] / 16) && Hex(bytes)[2 * i + 1] == HexDigit(bytes[i] % 16)
  {
    var k := |bytes| - 1;
    if i < k { HexAt(bytes[..k], i); }
  }

  lemma HexInjective(a: seq<byte>, b: seq<byte>)
    requires Hex(a) == Hex(b)
    ensures a == b
  {
    forall i | 0 <= i < |a| ensures a[i] == b[i] {
      HexAt(a, i);
      HexAt(b, i);
      assert a[i] / 16 == b[i] / 16 && a[i] % 16 == b[i] % 16;
    }
  }

  /** What a lower-case hexadecimal text denotes, read from the left. */
  function HexNumber(h: seq<byte>): nat {
    if h == [] then 0
    else
      var c := h[|h| - 1];
      16 * HexNumber(h[..|h| - 1]) + (if 48 <= c <= 57 then c - 48 else if 97 <= c <= 102 then c - 87 else 0)
  }

  /** The text denotes the number the bytes spell, most significant first. */
  lemma {:induction false} HexIsNumber(bytes: seq<byte>)
    ensures HexNumber(Hex(bytes)) == FromBigEndian(bytes)
  {
    if bytes != [] {
      var prefix, b := bytes[..|bytes| - 1], bytes[|bytes| - 1];
      HexIsNumber(prefix);
      var h, hi, lo := Hex(bytes), HexDigit(b / 16), HexDigit(b % 16);
      assert h[..|h| - 1] == Hex(prefix) + [hi] && (Hex(prefix) + [hi])[..|Hex(prefix)|] == Hex(prefix);
      assert HexNumber(Hex(prefix) + [hi]) == 16 * HexNumber(Hex(prefix)) + b / 16;
    }
  }

  predicate IsHexOf(h: seq<byte>, bytes: seq<byte>) { h == Hex(bytes) }

  /** Decodes `n` bytes: accepted exactly when the text, cut to `2 n` digits, is the lower-case hexadecimal of some bytes, and then those. */
  method DecodeHex(hex: seq<byte>, n: nat) returns (ok: bool, out: array<byte>)
    ensures fresh(out) && out.Length == n
    ensures ok ==> |hex| >= 2 * n && hex[..2 * n] == Hex(out[..])
    ensures !ok ==> |hex| < 2 * n || forall bytes: seq<byte> :: !IsHexOf(hex[..2 * n], bytes)
  {
    out := new byte[n](_ => 0);
    if |hex| < 2 * n {
      return false, out;
    }
    var text := hex[..2 * n];
    for i := 0 to n
      invariant text[..2 * i] == Hex(out[..i])
    {
      var hi, lo := HexNibble(text[2 * i]), HexNibble(text[2 * i + 1]);
      if hi.None? || lo.None? {
        NotHex(text, i);
        return false, out;
      }
      out[i] := hi.value * 16 + lo.value;
      assert out[..i + 1][..i] == out[..i];
      assert text[..2 * (i + 1)] == text[..2 * i] + [text[2 * i], text[2 * i + 1]];
    }
    assert text[..2 * n] == text && out[..n] == out[..];
    return true, out;
  }

  lemma NotHex(hex: seq<byte>, i: nat)
    requires 2 * i + 1 < |hex| && (HexNibble(hex[2 * i]).None? || HexNibble(hex[2 * i + 1]).None?)
    ensures forall bytes: seq<byte> :: !IsHexOf(hex, bytes)
  {
    forall bytes: seq<byte> | |hex| == 2 * |bytes| ensures !IsHexOf(hex, bytes) {
      HexAt(bytes, i);
    }
  }

  // ── The header ──────────────────────────────────────────────────────────────

  /** `00-` trace id `-` parent id `-` flags. */
  function Format(c: Context): seq<byte> {
    [ZERO, ZERO, DASH] + Hex(c.traceId) + [DASH] + Hex(c.parentId) + [DASH] + Hex([c.flags])
  }

  /** The header, spelled out. */
  lemma FormatText(c: Context)
    ensures Format(c) == Ascii("00-") + Hex(c.traceId) + Ascii("-") + Hex(c.parentId) + Ascii("-") + Hex([c.flags])
  {
    assert Ascii("00-") == [48, 48, 45] && Ascii("-") == [45];
  }

  ghost predicate Sized(c: Context) { |c.traceId| == 16 && |c.parentId| == 8 }

  ghost predicate NonZero(bytes: seq<byte>) { exists i | 0 <= i < |bytes| :: bytes[i] != 0 }

  /** A context the header may carry: ids of the right size, neither all zero. */
  ghost predicate Valid(c: Context) { Sized(c) && NonZero(c.traceId) && NonZero(c.parentId) }

  ghost predicate IsHeaderOf(h: seq<byte>, c: Context) { Valid(c) && h == Format(c) }

  lemma FormatLayout(c: Context)
    requires Sized(c)
    ensures
      var h := Format(c);
      && |h| == HEADER_LEN && h[0] == ZERO && h[1] == ZERO && h[2] == DASH && h[35] == DASH && h[52] == DASH
      && h[3..35] == Hex(c.traceId) && h[36..52] == Hex(c.parentId) && h[53..55] == Hex([c.flags])
  {
  }

  /** The pieces, once read, make up the whole. */
  lemma Assembled(h: seq<byte>, c: Context)
    requires |h| == HEADER_LEN && Sized(c)
    requires h[0] == ZERO && h[1] == ZERO && h[2] == DASH && h[35] == DASH && h[52] == DASH
    requires h[3..35] == Hex(c.traceId) && h[36..52] == Hex(c.parentId) && h[53..55] == Hex([c.flags])
    ensures h == Format(c)
  {
    FormatLayout(c);
    var f := Format(c);
    assert h == h[..3] + h[3..35] + h[35..36] + h[36..52] + h[52..53] + h[53..55];
    assert f == f[..3] + f[3..35] + f[35..36] + f[36..52] + f[52..53] + f[53..55];
    assert h[..3] == f[..3];
    assert h[35..36] == f[35..36];
    assert h[52..53] == f[52..53];
  }

  /** A header has one reading. */
  lemma FormatInjective(c: Context, d: Context)
    requires Sized(c) && Sized(d) && Format(c) == Format(d)
    ensures c == d
  {
    FormatLayout(c);
    FormatLayout(d);
    HexInjective(c.traceId, d.traceId);
    HexInjective(c.parentId, d.parentId);
    HexInjective([c.flags], [d.flags]);
    assert [c.flags][0] == [d.flags][0];
  }

  ghost predicate NoReading(h: seq<byte>) { forall c: Context :: !IsHeaderOf(h, c) }

  /** A header that lacks the shape of `Format` at any checked place has no reading. */
  lemma WrongShape(h: seq<byte>)
    requires |h| == HEADER_LEN ==>
      || h[0] != ZERO || h[1] != ZERO || h[2] != DASH || h[35] != DASH || h[52] != DASH
      || (forall b: seq<byte> :: !IsHexOf(h[3..35], b)) || (forall b: seq<byte> :: !IsHexOf(h[36..52], b))
      || HexNibble(h[53]).None? || HexNibble(h[54]).None?
    ensures NoReading(h)
  {
    forall c: Context ensures !IsHeaderOf(h, c) {
      if IsHeaderOf(h, c) { RightShape(h, c); }
    }
  }

  lemma RightShape(h: seq<byte>, c: Context)
    requires IsHeaderOf(h, c)
    ensures |h| == HEADER_LEN && h[0] == ZERO && h[1] == ZERO && h[2] == DASH && h[35] == DASH && h[52] == DASH
    ensures IsHexOf(h[3..35], c.traceId) && IsHexOf(h[36..52], c.parentId)
    ensures HexNibble(h[53]).Some? && HexNibble(h[54]).Some?
  {
    FormatLayout(c);
    HexAt([c.flags], 0);
    assert h[53..55][0] == h[53] && h[53..55][1] == h[54];
  }

  /** A header whose reading has an all-zero id has no valid one. */
  lemma ZeroId(h: seq<byte>, c: Context)
    requires Sized(c) && h == Format(c) && !(NonZero(c.traceId) && NonZero(c.parentId))
    ensures NoReading(h)
  {
    forall d: Context | Valid(d) ensures h != Format(d) {
      if h == Format(d) { FormatInjective(c, d); }
    }
  }

  method AllZero(a: array<byte>) returns (zero: bool)
    ensures zero <==> !NonZero(a[..])
  {
    for i := 0 to a.Length
      invariant forall j | 0 <= j < i :: a[j] == 0
    {
      if a[i] != 0 {
        assert a[..][i] != 0;
        return false;
      }
    }
    return true;
  }

  /**
   The reader answers with the header's one reading when it is the version-00 form of a valid context,
   and with nothing for every other byte string.
   */
  method ParseTraceparentFull(header: seq<byte>) returns (r: Option<Context>)
    ensures r.Some? ==> IsHeaderOf(header, r.value)
    ensures r.None? ==> NoReading(header)
  {
    if |header| < 55 || header[0] != ZERO || header[1] != ZERO || header[2] != DASH {
      WrongShape(header);
      return None;
    }
    var ok, traceId := DecodeHex(header[3..35], 16);
    assert header[3..35][..32] == header[3..35];
    if !ok || header[35] != DASH {
      WrongShape(header);
      return None;
    }
    var parentId;
    ok, parentId := DecodeHex(header[36..52], 8);
    assert header[36..52][..16] == header[36..52];
    if !ok || header[52] != DASH {
      WrongShape(header);
      return None;
    }
    var hi, lo := HexNibble(header[53]), HexNibble(header[54]);
    if hi.None? || lo.None? || |header| != 55 {
      WrongShape(header);
      return None;
    }
    var c := Context(traceId[..], parentId[..], hi.value * 16 + lo.value);
    FlagsRead(header[53..55], hi.value, lo.value);
    Assembled(header, c);
    var zeroTrace := AllZero(traceId);
    var zeroParent := AllZero(parentId);
    if zeroTrace || zeroParent {
      ZeroId(header, c);
      return None;
    }
    return Some(c);
  }

  lemma FlagsRead(h: seq<byte>, hi: nat, lo: nat)
    requires |h| == 2 && HexNibble(h[0]) == Some(hi) && HexNibble(h[1]) == Some(lo)
    ensures h == Hex([hi * 16 + lo])
  {
    var b := hi * 16 + lo;
    assert b / 16 == hi && b % 16 == lo;
    assert [b][..0] == [];
    assert h == [h[0], h[1]];
  }

  // ── The writer ──────────────────────────────────────────────────────────────

  /** Writes the hexadecimal of `src` into `dst` from `at` on and nothing else. */
  method HexEncodeInto(src: seq<byte>, dst: array<byte>, at: nat)
    requires at + 2 * |src| <= dst.Length
    modifies dst
    ensures dst[at..at + 2 * |src|] == Hex(src)
    ensures dst[..at] == old(dst[..at]) && dst[at + 2 * |src|..] == old(dst[at + 2 * |src|..])
  {
    ghost var n := |src|;
    for i := 0 to |src|
      invariant dst[..at] == old(dst[..at]) && dst[at + 2 * n..] == old(dst[at + 2 * n..])
      invariant dst[at..at + 2 * i] == Hex(src[..i])
    {
      dst[at + 2 * i] := HexDigit(src[i] / 16);
      dst[at + 2 * i + 1] := HexDigit(src[i] % 16);
      assert src[..i + 1][..i] == src[..i];
      assert dst[at..at + 2 * (i + 1)] == dst[at..at + 2 * i] + [HexDigit(src[i] / 16), HexDigit(src[i] % 16)];
    }
    assert src[..n] == src;
  }

  method BuildTraceparentValue(c: Context) returns (value: array<byte>)
    requires Sized(c)
    ensures fresh(value) && value[..] == Format(c)
  {
    value := new byte[HEADER_LEN](_ => 0);
    value[0], value[1], value[2] := ZERO, ZERO, DASH;
    HexEncodeInto(c.traceId, value, 3);
    value[35] := DASH;
    ghost var first := [ZERO, ZERO, DASH] + Hex(c.traceId) + [DASH];
    assert value[..36] == value[..3] + value[3..35] + [value[35]] == first;
    HexEncodeInto(c.parentId, value, 36);
    value[52] := DASH;
    ghost var second := first + Hex(c.parentId) + [DASH];
    assert value[..53] == value[..36] + value[36..52] + [value[52]] == second;
    HexEncodeInto([c.flags], value, 53);
    assert value[..] == value[..53] + value[53..55] == second + Hex([c.flags]);
  }

  /** What one hop writes the next hop reads back, flags octet included. */
  method Forward(c: Context) returns (r: Option<Context>)
    requires Valid(c)
    ensures r == Some(c)
  {
    var value := BuildTraceparentValue(c);
    r := ParseTraceparentFull(value[..]);
    assert IsHeaderOf(value[..], c);
    if r.Some? { FormatInjective(c, r.value); }
  }
}
