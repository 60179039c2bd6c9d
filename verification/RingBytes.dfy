/**
 The wrapping byte arithmetic of the per-worker byte ring: a `cap`-byte payload region addressed by two
 monotone offsets, holding records framed by a 4-byte big-endian length. Shared by the array implementation
 (`Ring`) and by the interleaved step system (`RingSteps`).
 */
module RingBytes {
  import opened Bytes

  type Record = seq<byte>

  /** One record on the wire: `record_len as u32` big-endian, then the payload. */
  function Frame(rec: Record): (f: seq<byte>)
    ensures |f| == 4 + |rec|
  {
    BigEndian(|rec|, 4) + rec
  }

  /** The wire form of a queue of records, oldest first. */
  function Wire(recs: seq<Record>): seq<byte> {
    if recs == [] then [] else Frame(recs[0]) + Wire(recs[1..])
  }

  lemma {:induction false} WireAppend(recs: seq<Record>, rec: Record)
    ensures Wire(recs + [rec]) == Wire(recs) + Frame(rec)
  {
    if recs == [] {
      assert recs + [rec] == [rec];
      assert Wire([rec][1..]) == [];
    } else {
      assert (recs + [rec])[1..] == recs[1..] + [rec];
      WireAppend(recs[1..], rec);
    }
  }

  lemma {:induction false} WireConcat(a: seq<Record>, b: seq<Record>)
    ensures Wire(a + b) == Wire(a) + Wire(b)
  {
    if a == [] {
      assert a + b == b;
    } else {
      assert (a + b)[1..] == a[1..] + b;
      WireConcat(a[1..], b);
    }
  }

  /** Every record costs at least its length prefix. */
  lemma {:induction false} WireLength(recs: seq<Record>)
    ensures 4 * |recs| <= |Wire(recs)|
  {
    if recs != [] { WireLength(recs[1..]); }
  }

  /** The length prefix read back from a framed record is its length when that fits in 32 bits. */
  lemma FrameLength(rec: Record)
    requires |rec| < U32_SIZE
    ensures FromBigEndian(Frame(rec)[..4]) == |rec|
    ensures Frame(rec)[4..] == rec
  {
    WidthLimits();
    DecodeEncode(|rec|, 4);
    assert Frame(rec)[..4] == BigEndian(|rec|, 4);
  }

  // ── Wrapping positions ──────────────────────────────────────────────────────

  lemma ModUnique(x: nat, q: nat, r: nat, m: nat)
    requires r < m && x == q * m + r
    ensures x % m == r
  {
    var d := q - x / m;
    assert d * m == x % m - r;
  }

  lemma ModShift(x: nat, m: nat)
    requires m > 0
    ensures (x + m) % m == x % m
  {
    ModUnique(x + m, x / m + 1, x % m, m);
  }

  /** How far slot `j` lies beyond the slot of offset `off`, going round the ring. */
  function Distance(j: nat, off: nat, cap: nat): (d: nat)
    requires j < cap
    ensures d < cap
  {
    if j >= off % cap then j - off % cap else j + cap - off % cap
  }

  /** Offsets in one lap starting at `off` hit slots at increasing distance, so no slot twice. */
  lemma DistanceOfOffset(x: nat, off: nat, cap: nat)
    requires cap > 0 && off <= x < off + cap
    ensures Distance(x % cap, off, cap) == x - off
  {
    var k := x - off;
    var q, r := off / cap, off % cap;
    if r + k < cap {
      ModUnique(x, q, r + k, cap);
    } else {
      ModUnique(x, q + 1, r + k - cap, cap);
    }
  }

  /** The `n` bytes that start at offset `start`. */
  function Window(buf: seq<byte>, start: nat, n: nat): (s: seq<byte>)
    requires |buf| > 0
    ensures |s| == n
  {
    seq(n, i requires 0 <= i => buf[(start + i) % |buf|])
  }

  /** `buf` with `d` laid down from offset `off`, wrapping at the end. */
  function Overwrite(buf: seq<byte>, off: nat, d: seq<byte>): (s: seq<byte>)
    ensures |s| == |buf|
  {
    seq(|buf|, j requires 0 <= j < |buf| =>
      var k := Distance(j, off, |buf|); if k < |d| then d[k] else buf[j])
  }

  /** What was just written is read back, wherever it wrapped. */
  lemma ReadWritten(buf: seq<byte>, off: nat, d: seq<byte>)
    requires 0 < |buf| && |d| <= |buf|
    ensures Window(Overwrite(buf, off, d), off, |d|) == d
  {
    forall i | 0 <= i < |d| ensures Window(Overwrite(buf, off, d), off, |d|)[i] == d[i] {
      DistanceOfOffset(off + i, off, |buf|);
    }
  }

  /** A live window `[r, r + n)` is untouched by a write that starts at or after its end and stays within one lap. */
  lemma LiveWindowUntouched(buf: seq<byte>, r: nat, n: nat, off: nat, d: seq<byte>)
    requires 0 < |buf| && r + n <= off && off + |d| <= r + |buf|
    ensures Window(Overwrite(buf, off, d), r, n) == Window(buf, r, n)
  {
    forall i | 0 <= i < n ensures Window(Overwrite(buf, off, d), r, n)[i] == Window(buf, r, n)[i] {
      ModShift(r + i, |buf|);
      DistanceOfOffset(r + i + |buf|, off, |buf|);
    }
  }

  lemma WindowSplit(buf: seq<byte>, start: nat, n: nat, m: nat)
    requires |buf| > 0
    ensures Window(buf, start, n + m) == Window(buf, start, n) + Window(buf, start + n, m)
  {
  }

  /** Two writes back to back are one write of the concatenation. */
  lemma OverwriteTwice(buf: seq<byte>, off: nat, d: seq<byte>, e: seq<byte>)
    requires 0 < |buf| && |d| + |e| <= |buf|
    ensures Overwrite(Overwrite(buf, off, d), off + |d|, e) == Overwrite(buf, off, d + e)
  {
    var a, b := Overwrite(Overwrite(buf, off, d), off + |d|, e), Overwrite(buf, off, d + e);
    forall j | 0 <= j < |buf| ensures a[j] == b[j] {
      var k := Distance(j, off, |buf|);
      SlotAtDistance(j, off, |buf|);
      if k >= |d| {
        DistanceOfOffset(off + k, off + |d|, |buf|);
      } else {
        ModShift(off + k, |buf|);
        DistanceOfOffset(off + k + |buf|, off + |d|, |buf|);
      }
    }
  }

  /** A write at the end of the live window extends it by exactly what was written. */
  lemma ExtendWindow(buf: seq<byte>, r: nat, w: nat, d: seq<byte>)
    requires 0 < |buf| && r <= w && w + |d| <= r + |buf|
    ensures Window(Overwrite(buf, w, d), r, w - r + |d|) == Window(buf, r, w - r) + d
  {
    var n, after := w - r, Overwrite(buf, w, d);
    assert Window(after, r, n) == Window(buf, r, n) by { LiveWindowUntouched(buf, r, n, w, d); }
    assert Window(after, r + n, |d|) == d by { ReadWritten(buf, w, d); }
    WindowSplit(after, r, n, |d|);
  }

  /** Writing the length and then the payload adds one framed record to the live window. */
  lemma PushedWindow(buf: seq<byte>, r: nat, w: nat, rec: Record, pending: seq<Record>)
    requires 0 < |buf| && r <= w && w + 4 + |rec| <= r + |buf|
    requires Window(buf, r, w - r) == Wire(pending)
    ensures Window(Overwrite(Overwrite(buf, w, BigEndian(|rec|, 4)), w + 4, rec), r, w - r + 4 + |rec|)
         == Wire(pending + [rec])
  {
    OverwriteTwice(buf, w, BigEndian(|rec|, 4), rec);
    ExtendWindow(buf, r, w, Frame(rec));
    WireAppend(pending, rec);
  }

  lemma SlotOf(off: nat, i: nat, cap: nat)
    requires i < cap
    ensures (off + i) % cap == if off % cap + i < cap then off % cap + i else off % cap + i - cap
  {
    if off % cap + i < cap {
      ModUnique(off + i, off / cap, off % cap + i, cap);
    } else {
      ModUnique(off + i, off / cap + 1, off % cap + i - cap, cap);
    }
  }

  /** A window is one slice of the payload, or two when it crosses the end. */
  lemma WindowPieces(buf: seq<byte>, off: nat, n: nat, start: nat)
    requires 0 < |buf| && n <= |buf| && start == off % |buf|
    ensures start + n <= |buf| ==> Window(buf, off, n) == buf[start..start + n]
    ensures start + n > |buf| ==> Window(buf, off, n) == buf[start..] + buf[..start + n - |buf|]
  {
    forall i: nat | i < n
      ensures Window(buf, off, n)[i] == buf[if start + i < |buf| then start + i else start + i - |buf|]
    {
      SlotOf(off, i, |buf|);
    }
  }

  lemma SlotAtDistance(j: nat, off: nat, cap: nat)
    requires j < cap
    ensures (off + Distance(j, off, cap)) % cap == j
  {
    var q, r := off / cap, off % cap;
    if j >= r {
      ModUnique(off + Distance(j, off, cap), q, j, cap);
    } else {
      ModUnique(off + Distance(j, off, cap), q + 1, j, cap);
    }
  }

  /** The head of a live window that spells a non-empty queue is that queue's first record. */
  lemma HeadOfWindow(buf: seq<byte>, r: nat, n: nat, recs: seq<Record>)
    requires 0 < |buf| && recs != [] && |recs[0]| < U32_SIZE
    requires Window(buf, r, n) == Wire(recs)
    ensures n >= 4 + |recs[0]|
    ensures FromBigEndian(Window(buf, r, 4)) == |recs[0]|
    ensures Window(buf, r + 4, |recs[0]|) == recs[0]
    ensures Window(buf, r + 4 + |recs[0]|, n - 4 - |recs[0]|) == Wire(recs[1..])
  {
    var f, len := Frame(recs[0]), 4 + |recs[0]|;
    FrameLength(recs[0]);
    WindowSplit(buf, r, len, n - len);
    WindowSplit(buf, r, 4, |recs[0]|);
    assert Wire(recs) == f + Wire(recs[1..]);
    assert Window(buf, r, n)[..len] == f;
    assert Window(buf, r, n)[len..] == Wire(recs[1..]);
    assert Window(buf, r, len)[..4] == f[..4];
    assert Window(buf, r, len)[4..] == f[4..];
  }
}
