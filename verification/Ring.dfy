/** The single-producer single-consumer ring as `push` and `pop_into` see it: a header and a payload array updated in place. */
module Ring {
  import opened Bytes
  import opened RingBytes

  /** The abstract ring: a byte-bounded FIFO of records with a drop counter. */
  datatype Fifo = Fifo(cap: nat, records: seq<Record>, dropped: nat)

  ghost predicate Fits(f: Fifo, rec: Record) {
    f.cap > 0 && |Wire(f.records)| + 4 + |rec| <= f.cap
  }

  /** A push appends when the framed record fits; otherwise it counts a drop, unless the ring has no capacity at all. */
  ghost function Pushed(f: Fifo, rec: Record): Fifo {
    if Fits(f, rec) then f.(records := f.records + [rec])
    else if f.cap == 0 then f
    else f.(dropped := f.dropped + 1)
  }

  ghost function Popped(f: Fifo): Fifo {
    if f.records == [] then f else f.(records := f.records[1..])
  }

  class SignalRing {
    const cap: nat
    const payload: array<byte>
    var writeOffset: nat
    var readOffset: nat
    var dropped: nat

    // The queued records, and the history: everything accepted, everything consumed, calls of `Push`.
    ghost var records: seq<Record>
    ghost var accepted: seq<Record>
    ghost var consumed: seq<Record>
    ghost var attempts: nat

    ghost predicate Valid()
      reads this, payload
    {
      && payload.Length == cap < U32_SIZE
      && readOffset <= writeOffset <= readOffset + cap
      && (forall i | 0 <= i < |records| :: |records[i]| < U32_SIZE)
      && (cap > 0 ==> Window(payload[..], readOffset, writeOffset - readOffset) == Wire(records))
      && (cap == 0 ==> records == [] && dropped == 0)
      && HistoryOk()
    }

    ghost predicate HistoryOk()
      reads this
    {
      && accepted == consumed + records
      && (cap > 0 ==> attempts == |accepted| + dropped)
    }

    ghost function Abs(): Fifo
      reads this
    {
      Fifo(cap, records, dropped)
    }

    constructor (capacity: nat)
      requires capacity < U32_SIZE
      ensures Valid() && Abs() == Fifo(capacity, [], 0)
      ensures accepted == consumed == [] && attempts == 0 && fresh(payload)
    {
      cap, writeOffset, readOffset, dropped := capacity, 0, 0, 0;
      payload := new byte[capacity](_ => 0);
      records, accepted, consumed, attempts := [], [], [], 0;
    }

    /** Copies `d` to the slots from `offset` on, in two pieces when it crosses the end of the payload. */
    method WriteWrap(offset: nat, d: seq<byte>)
      requires 0 < cap == payload.Length && |d| <= cap
      modifies payload
      ensures payload[..] == Overwrite(old(payload[..]), offset, d)
    {
      if d == [] {
        return;
      }
      var start := offset % cap;
      var endSpace := cap - start;
      if |d| <= endSpace {
        forall i | 0 <= i < |d| { payload[start + i] := d[i]; }
      } else {
        forall i | 0 <= i < endSpace { payload[start + i] := d[i]; }
        forall i | 0 <= i < |d| - endSpace { payload[i] := d[endSpace + i]; }
      }
    }

    /** Lays down the length and then the payload of one record behind the live window. */
    method WriteFrame(offset: nat, record: Record, ghost readOff: nat, ghost pending: seq<Record>)
      requires 0 < cap == payload.Length && readOff <= offset && offset + 4 + |record| <= readOff + cap
      requires Window(payload[..], readOff, offset - readOff) == Wire(pending)
      modifies payload
      ensures Window(payload[..], readOff, offset - readOff + 4 + |record|) == Wire(pending + [record])
    {
      PushedWindow(payload[..], readOff, offset, record, pending);
      WriteWrap(offset, BigEndian(|record|, 4));
      WriteWrap(offset + 4, record);
    }

    /** Copies `n` bytes from the slots from `offset` on. */
    method ReadWrap(offset: nat, n: nat) returns (dst: seq<byte>)
      requires 0 < cap == payload.Length && n <= cap
      ensures dst == Window(payload[..], offset, n)
    {
      if n == 0 {
        return [];
      }
      var start := offset % cap;
      var endSpace := cap - start;
      WindowPieces(payload[..], offset, n, start);
      if n <= endSpace {
        dst := payload[start..start + n];
      } else {
        dst := payload[start..] + payload[..n - endSpace];
      }
    }

    /** Accepts exactly when `used + 4 + len <= cap`; a refusal changes nothing but the drop counter. */
    method Push(record: Record) returns (ok: bool)
      requires Valid()
      modifies this, payload
      ensures Valid() && Abs() == Pushed(old(Abs()), record)
      ensures ok == Fits(old(Abs()), record)
      ensures ok <==> cap > 0 && (old(writeOffset) - old(readOffset)) + 4 + |record| <= cap
      ensures dropped == old(dropped) + (if ok || cap == 0 then 0 else 1)
      ensures accepted == old(accepted) + (if ok then [record] else [])
      ensures consumed == old(consumed) && readOffset == old(readOffset)
      ensures attempts == old(attempts) + 1
    {
      attempts := attempts + 1;
      if cap == 0 {
        return false;
      }
      var total := 4 + |record|;
      var writeOff, readOff := writeOffset, readOffset;
      var used := writeOff - readOff;
      assert used == |Wire(records)|;
      if used + total > cap {
        dropped := dropped + 1;
        return false;
      }
      WriteFrame(writeOff, record, readOff, records);
      writeOffset := writeOff + total;
      records, accepted := records + [record], accepted + [record];
      ok := true;
    }

    /** Appends the oldest record to `out`, byte for byte; fails, leaving everything alone, only when there is none. */
    method PopInto(out: seq<byte>) returns (ok: bool, result: seq<byte>)
      requires Valid()
      modifies this
      ensures Valid() && Abs() == Popped(old(Abs()))
      ensures ok <==> old(Abs()).records != []
      ensures result == if ok then out + old(Abs()).records[0] else out
      ensures accepted == old(accepted) && attempts == old(attempts)
      ensures consumed == old(consumed) + (if ok then [old(Abs()).records[0]] else [])
    {
      if cap == 0 {
        return false, out;
      }
      var writeOff, readOff := writeOffset, readOffset;
      var available := writeOff - readOff;
      if available < 4 {
        WireLength(records);
        return false, out;
      }
      HeadOfWindow(payload[..], readOff, available, records);
      var lenBuf := ReadWrap(readOff, 4);
      var recordLen := FromBigEndian(lenBuf);
      if available < 4 + recordLen {
        return false, out;
      }
      var body := ReadWrap(readOff + 4, recordLen);
      result := out + body;
      readOffset := readOff + 4 + recordLen;
      consumed, records := consumed + [records[0]], records[1..];
      ok := true;
    }

    method DropCount() returns (n: nat)
      ensures n == dropped
    {
      n := dropped;
    }
  }

  /** Pops into a cleared buffer, as the drain loops do. */
  method PopRecord(ring: SignalRing) returns (ok: bool, buf: seq<byte>)
    requires ring.Valid()
    modifies ring
    ensures ring.Valid() && ring.dropped == old(ring.dropped)
    ensures ok ==> [buf] + ring.records == old(ring.records)
    ensures !ok ==> ring.records == old(ring.records) == []
  {
    ok, buf := ring.PopInto([]);
    ghost var recs := old(ring.Abs()).records;
    if ok {
      assert recs == [recs[0]] + recs[1..];
      assert [] + recs[0] == recs[0];
    }
  }

  // ── What any history of pushes and pops does to the abstract ring ───────────

  datatype Op = Push(rec: Record) | Pop

  datatype History = History(fifo: Fifo, accepted: seq<Record>, popped: seq<Record>, attempts: nat)

  ghost function Apply(h: History, op: Op): History {
    match op
    case Push(rec) =>
      History(Pushed(h.fifo, rec), if Fits(h.fifo, rec) then h.accepted + [rec] else h.accepted, h.popped, h.attempts + 1)
    case Pop =>
      if h.fifo.records == [] then h
      else History(Popped(h.fifo), h.accepted, h.popped + [h.fifo.records[0]], h.attempts)
  }

  ghost function Run(h: History, ops: seq<Op>): History
    decreases |ops|
  {
    if ops == [] then h else Run(Apply(h, ops[0]), ops[1..])
  }

  ghost predicate Conserved(h: History) {
    && h.accepted == h.popped + h.fifo.records
    && |Wire(h.fifo.records)| <= h.fifo.cap
    && (h.fifo.cap > 0 ==> h.attempts == |h.accepted| + h.fifo.dropped)
    && (h.fifo.cap == 0 ==> h.accepted == [] && h.fifo.dropped == 0)
  }

  lemma ApplyConserves(h: History, op: Op)
    requires Conserved(h)
    ensures Conserved(Apply(h, op))
  {
    match op
    case Push(rec) => WireAppend(h.fifo.records, rec);
    case Pop =>
      if h.fifo.records != [] {
        assert h.fifo.records == [h.fifo.records[0]] + h.fifo.records[1..];
      }
  }

  /**
   Every history: what comes out is what went in, in order, less what is still queued; the queue
   never outgrows the capacity; every attempt was accepted or counted as dropped.
   */
  lemma {:induction false} HistoryConserves(h: History, ops: seq<Op>)
    requires Conserved(h)
    ensures Conserved(Run(h, ops))
    decreases |ops|
  {
    if ops != [] {
      ApplyConserves(h, ops[0]);
      HistoryConserves(Apply(h, ops[0]), ops[1..]);
    }
  }
}
