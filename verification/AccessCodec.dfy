/**
 The access-log record: formatted by the worker into a fixed stack buffer, pushed through the ring,
 and parsed by the exporter.

 - The format: a fixed part, then byte fields with 16-bit lengths, cut to their caps, then trailing
   groups that older writers leave out.
 - The reader as consumption from the front, and the round trip for every request.
 - Records whose writer stopped after any trailing group; a cut inside a field is the business of
   `AccessCuts`.
 - The writer and the reader as code: every index in bounds, on every buffer, and equal to the format and
   to the consuming reader. Through the ring, requests are reported one for one in order.
 */
module AccessCodec {
  import opened Bytes
  import opened RingBytes
  import opened Ring

  const KIND_ACCESS: byte := 0
  const NGX_LEVEL_INFO: byte := 7
  const MAX_ACCESS_RECORD: nat := 336
  const MAX_METHOD: nat := 16
  const MAX_CLIENT_ADDR: nat := 46
  const MAX_URL_PATH: nat := 64
  const MAX_USER_AGENT: nat := 128
  const MAX_ACCESS_RECORDS_PER_WORKER_PER_DRAIN: nat := 2_500
  const MIN_RECORD: nat := 32

  datatype TraceContext = TraceContext(traceId: seq<byte>, spanId: seq<byte>)

  predicate WellSized(t: TraceContext) { |t.traceId| == 16 && |t.spanId| == 8 }

  datatype SampledRequest = SampledRequest(
    ts: u64, method_: seq<byte>, status: u16, requestLength: u64, responseBytes: u64,
    clientAddr: seq<byte>, trace: Option<TraceContext>, urlPath: seq<byte>, userAgent: seq<byte>, durationUs: u64)

  /** What the type of the trace field, two fixed-size arrays, guarantees. */
  predicate Typed(r: SampledRequest) { r.trace.Some? ==> WellSized(r.trace.value) }

  /** The fields the drain recovers; empty or `None` where the record does not carry them. */
  datatype AccessRecord = AccessRecord(
    ts: nat, level: byte, method_: seq<byte>, status: nat, requestLength: nat, responseBytes: nat,
    clientAddr: seq<byte>, traceId: seq<byte>, spanId: seq<byte>, urlPath: seq<byte>, userAgent: seq<byte>,
    durationUs: Option<nat>)

  // ── The format ──────────────────────────────────────────────────────────────

  function Cap(s: seq<byte>, max: nat): (r: seq<byte>)
    ensures r <= s && |r| == if |s| < max then |s| else max
  {
    if |s| <= max then s else s[..max]
  }

  function Prefixed(s: seq<byte>): seq<byte> { BigEndian(|s|, 2) + s }

  function TraceBytes(t: Option<TraceContext>): seq<byte> {
    match t
    case None => [0]
    case Some(c) => [1] + c.traceId + c.spanId
  }

  /** The leading fields, none of which may be missing. */
  function Head(r: SampledRequest): seq<byte> {
    [KIND_ACCESS] + BigEndian(r.ts, 8) + [NGX_LEVEL_INFO] + Prefixed(Cap(r.method_, MAX_METHOD))
    + BigEndian(r.status, 2) + BigEndian(r.requestLength, 8) + BigEndian(r.responseBytes, 8)
  }

  /** The first `n` of the five groups that older writers may have stopped before. */
  function Tail(r: SampledRequest, n: nat): seq<byte> {
    (if n == 0 then [] else
     TraceBytes(r.trace) + if n == 1 then [] else
     Prefixed(Cap(r.urlPath, MAX_URL_PATH)) + if n == 2 then [] else
     Prefixed(Cap(r.userAgent, MAX_USER_AGENT)) + if n == 3 then [] else
     BigEndian(r.durationUs, 8))
  }

  function Encode(r: SampledRequest): seq<byte> {
    Head(r) + Prefixed(Cap(r.clientAddr, MAX_CLIENT_ADDR)) + Tail(r, 4)
  }

  // ── The reader, as consumption from the front ───────────────────────────────

  function ReadPrefixed(b: seq<byte>): (seq<byte>, seq<byte>) {
    if |b| < 2 then ([], b)
    else
      var len := FromBigEndian(b[..2]);
      if 2 + len > |b| then ([], b[2..]) else (b[2..2 + len], b[2 + len..])
  }

  function ReadTrace(b: seq<byte>): (seq<byte>, seq<byte>, seq<byte>) {
    if b == [] then ([], [], b)
    else if b[0] == 1 && 25 <= |b| then (b[1..17], b[17..25], b[25..])
    else ([], [], b[1..])
  }

  /** An address that overruns the buffer is empty and its bytes stay unread. */
  function ReadAddr(b: seq<byte>, len: nat): (seq<byte>, seq<byte>) {
    if len <= |b| then (b[..len], b[len..]) else ([], b)
  }

  function ReadDuration(b: seq<byte>): Option<nat> {
    if |b| < 8 then None else Some(FromBigEndian(b[..8]))
  }

  /** The trailing groups from the agent on, from the path on, and all of them. */
  function WithAgent(r: AccessRecord, b: seq<byte>): AccessRecord {
    var (userAgent, b1) := ReadPrefixed(b);
    r.(userAgent := userAgent, durationUs := ReadDuration(b1))
  }

  function WithPath(r: AccessRecord, b: seq<byte>): AccessRecord {
    var (urlPath, b1) := ReadPrefixed(b);
    WithAgent(r.(urlPath := urlPath), b1)
  }

  function WithTail(r: AccessRecord, b: seq<byte>): AccessRecord {
    var (traceId, spanId, b1) := ReadTrace(b);
    WithPath(r.(traceId := traceId, spanId := spanId), b1)
  }

  function Parse(b: seq<byte>): Option<AccessRecord> {
    if |b| < MIN_RECORD || b[0] != KIND_ACCESS then None
    else
      var methodLen := FromBigEndian(b[10..12]);
      if |b| < MIN_RECORD + methodLen then None
      else
        Some(FromFields(FromBigEndian(b[1..9]), b[9], b[12..12 + methodLen], b[12 + methodLen..]))
  }

  /** The fields after the method: status, two sizes, the address, and the trailing groups. */
  function FromFields(ts: nat, level: byte, method_: seq<byte>, f: seq<byte>): AccessRecord
    requires 20 <= |f|
  {
    var (addr, rest) := ReadAddr(f[20..], FromBigEndian(f[18..20]));
    WithTail(
      AccessRecord(ts, level, method_, FromBigEndian(f[..2]), FromBigEndian(f[2..10]), FromBigEndian(f[10..18]),
                   addr, [], [], [], [], None), rest)
  }

  /** The request's fixed fields, with the address read as `addr` and no trailing group. */
  function Fixed(r: SampledRequest, addr: seq<byte>): AccessRecord {
    AccessRecord(
      r.ts, NGX_LEVEL_INFO, Cap(r.method_, MAX_METHOD), r.status, r.requestLength, r.responseBytes,
      addr, [], [], [], [], None)
  }

  /** What the exporter is meant to see of a request when the first `n` trailing groups are present. */
  function Expected(r: SampledRequest, n: nat): AccessRecord {
    Fixed(r, Cap(r.clientAddr, MAX_CLIENT_ADDR)).(
      traceId := if n >= 1 && r.trace.Some? then r.trace.value.traceId else [],
      spanId := if n >= 1 && r.trace.Some? then r.trace.value.spanId else [],
      urlPath := if n >= 2 then Cap(r.urlPath, MAX_URL_PATH) else [],
      userAgent := if n >= 3 then Cap(r.userAgent, MAX_USER_AGENT) else [],
      durationUs := if n >= 4 then Some(r.durationUs) else None)
  }

  // ── Round trip ──────────────────────────────────────────────────────────────

  lemma ReadPrefixedOf(s: seq<byte>, rest: seq<byte>)
    requires |s| < 0x1_0000
    ensures ReadPrefixed(Prefixed(s) + rest) == (s, rest)
  {
    var b := Prefixed(s) + rest;
    U16RoundTrip(|s|);
    assert b[..2] == BigEndian(|s|, 2);
    assert b[2..2 + |s|] == s && b[2 + |s|..] == rest;
  }

  lemma ReadTraceOf(t: Option<TraceContext>, rest: seq<byte>)
    requires t.Some? ==> WellSized(t.value)
    ensures ReadTrace(TraceBytes(t) + rest) ==
      if t.Some? then (t.value.traceId, t.value.spanId, rest) else ([], [], rest)
  {
    var b := TraceBytes(t) + rest;
    if t.Some? {
      assert b[1..17] == t.value.traceId && b[17..25] == t.value.spanId && b[25..] == rest;
    } else {
      assert b[1..] == rest;
    }
  }

  /** The last two groups, read back. */
  lemma TailAfterUrl(r: SampledRequest, n: nat, b: seq<byte>)
    requires 2 <= n <= 4
    requires b == if n == 2 then [] else Prefixed(Cap(r.userAgent, MAX_USER_AGENT)) + (if n == 3 then [] else BigEndian(r.durationUs, 8))
    ensures ReadPrefixed(b).0 == Expected(r, n).userAgent
    ensures ReadDuration(ReadPrefixed(b).1) == Expected(r, n).durationUs
  {
    if n >= 3 {
      var last := if n == 3 then [] else BigEndian(r.durationUs, 8);
      ReadPrefixedOf(Cap(r.userAgent, MAX_USER_AGENT), last);
      U64RoundTrip(r.durationUs);
      assert n == 4 ==> last[..8] == BigEndian(r.durationUs, 8);
    }
  }

  lemma TailRead(r: SampledRequest, n: nat)
    requires Typed(r) && n <= 4
    ensures WithTail(Fixed(r, Cap(r.clientAddr, MAX_CLIENT_ADDR)), Tail(r, n)) == Expected(r, n)
  {
    if n >= 1 {
      var last := if n <= 2 then [] else Prefixed(Cap(r.userAgent, MAX_USER_AGENT)) + (if n == 3 then [] else BigEndian(r.durationUs, 8));
      var url := if n == 1 then [] else Prefixed(Cap(r.urlPath, MAX_URL_PATH)) + last;
      assert Tail(r, n) == TraceBytes(r.trace) + url;
      ReadTraceOf(r.trace, url);
      if n >= 2 {
        ReadPrefixedOf(Cap(r.urlPath, MAX_URL_PATH), last);
        TailAfterUrl(r, n, last);
      }
    }
  }

  /** Where the head's fields lie, whatever follows them. */
  lemma HeadLayout(r: SampledRequest, rest: seq<byte>)
    ensures
      var m := Cap(r.method_, MAX_METHOD);
      var b := Head(r) + rest;
      && |Head(r)| == 30 + |m| && b[0] == KIND_ACCESS && b[9] == NGX_LEVEL_INFO
      && b[1..9] == BigEndian(r.ts, 8) && b[10..12] == BigEndian(|m|, 2) && b[12..12 + |m|] == m
      && b[12 + |m|..] == BigEndian(r.status, 2) + BigEndian(r.requestLength, 8) + BigEndian(r.responseBytes, 8) + rest
  {
    var m := Cap(r.method_, MAX_METHOD);
    SplitHead(BigEndian(r.ts, 8), BigEndian(|m|, 2), m,
              BigEndian(r.status, 2) + BigEndian(r.requestLength, 8) + BigEndian(r.responseBytes, 8), rest);
    assert Head(r) == [KIND_ACCESS] + BigEndian(r.ts, 8) + [NGX_LEVEL_INFO] + (BigEndian(|m|, 2) + m)
                      + (BigEndian(r.status, 2) + BigEndian(r.requestLength, 8) + BigEndian(r.responseBytes, 8));
  }

  lemma SplitHead(ts: seq<byte>, len: seq<byte>, m: seq<byte>, fixed: seq<byte>, rest: seq<byte>)
    requires |ts| == 8 && |len| == 2 && |fixed| == 18
    ensures
      var head := [KIND_ACCESS] + ts + [NGX_LEVEL_INFO] + (len + m) + fixed;
      var b := head + rest;
      && |head| == 30 + |m| && b[0] == KIND_ACCESS && b[9] == NGX_LEVEL_INFO
      && b[1..9] == ts && b[10..12] == len && b[12..12 + |m|] == m && b[12 + |m|..] == fixed + rest
  {
  }

  lemma SplitFixed(status: seq<byte>, req: seq<byte>, resp: seq<byte>, len: seq<byte>, rest: seq<byte>)
    requires |status| == 2 && |req| == 8 && |resp| == 8 && |len| == 2
    ensures
      var f := status + req + resp + (len + rest);
      f[..2] == status && f[2..10] == req && f[10..18] == resp && f[18..20] == len && f[20..] == rest
  {
  }

  /** Once the address length is in the buffer the record parses, and the fixed fields are the request's. */
  lemma HeadRead(r: SampledRequest, len: u16, rest: seq<byte>)
    ensures Parse(Head(r) + (BigEndian(len, 2) + rest)) ==
      Some(WithTail(Fixed(r, ReadAddr(rest, len).0), ReadAddr(rest, len).1))
  {
    HeadLayout(r, BigEndian(len, 2) + rest);
    SplitFixed(BigEndian(r.status, 2), BigEndian(r.requestLength, 8), BigEndian(r.responseBytes, 8), BigEndian(len, 2), rest);
    U64RoundTrip(r.ts);
    U64RoundTrip(r.requestLength);
    U64RoundTrip(r.responseBytes);
    U16RoundTrip(r.status);
    U16RoundTrip(len);
    U16RoundTrip(|Cap(r.method_, MAX_METHOD)|);
  }

  /** A record whose writer stopped after `n` trailing groups parses to exactly the fields it carries. */
  lemma LegacyRecord(r: SampledRequest, n: nat)
    requires Typed(r) && n <= 4
    ensures Parse(Head(r) + Prefixed(Cap(r.clientAddr, MAX_CLIENT_ADDR)) + Tail(r, n)) == Some(Expected(r, n))
  {
    var addr, tail := Cap(r.clientAddr, MAX_CLIENT_ADDR), Tail(r, n);
    HeadRead(r, |addr|, addr + tail);
    ReadAddrOf(addr, tail);
    Regroup(Head(r), BigEndian(|addr|, 2), addr, tail);
    TailRead(r, n);
  }

  lemma ReadAddrOf(addr: seq<byte>, rest: seq<byte>)
    ensures ReadAddr(addr + rest, |addr|) == (addr, rest)
  {
  }

  lemma Regroup(head: seq<byte>, len: seq<byte>, addr: seq<byte>, tail: seq<byte>)
    ensures head + (len + addr) + tail == head + (len + (addr + tail))
  {
  }

  /** Every request comes back whole, its byte fields cut to their caps. */
  lemma RoundTrip(r: SampledRequest)
    requires Typed(r)
    ensures Parse(Encode(r)) == Some(Expected(r, 4)) && FieldsOf(Expected(r, 4), r) && Encode(r)[0] == 0
  {
    LegacyRecord(r, 4);
  }

  /** The first bytes of a field, at most `max`. */
  ghost predicate CutTo(field: seq<byte>, whole: seq<byte>, max: nat) {
    field <= whole && |field| == if |whole| < max then |whole| else max
  }

  /** Every field of the request, byte fields cut to 16, 46, 64 and 128 bytes. */
  ghost predicate FieldsOf(x: AccessRecord, r: SampledRequest) {
    && x.ts == r.ts && x.level == 7 && x.status == r.status && x.requestLength == r.requestLength && x.responseBytes == r.responseBytes
    && CutTo(x.method_, r.method_, 16) && CutTo(x.clientAddr, r.clientAddr, 46)
    && CutTo(x.urlPath, r.urlPath, 64) && CutTo(x.userAgent, r.userAgent, 128)
    && (r.trace == None ==> x.traceId == [] && x.spanId == [])
    && (r.trace.Some? ==> x.traceId == r.trace.value.traceId && x.spanId == r.trace.value.spanId)
    && x.durationUs == Some(r.durationUs)
  }

  // ── Truncation anywhere ─────────────────────────────────────────────────────

  /** Cut before the address length is complete, nothing is reported. */
  lemma CutInHead(r: SampledRequest, k: nat)
    requires k <= |Encode(r)| && k < MIN_RECORD + |Cap(r.method_, MAX_METHOD)|
    ensures Parse(Encode(r)[..k]) == None
  {
    var m := Cap(r.method_, MAX_METHOD);
    var whole := Encode(r);
    var rest := Prefixed(Cap(r.clientAddr, MAX_CLIENT_ADDR)) + Tail(r, 4);
    assert whole == Head(r) + rest;
    HeadLayout(r, rest);
    if k >= MIN_RECORD {
      assert whole[..k][10..12] == whole[10..12];
      U16RoundTrip(|m|);
    }
  }

  /** The record read from `rest`, what follows the address length. */
  function FromRest(r: SampledRequest, rest: seq<byte>): AccessRecord {
    var (addr, tail) := ReadAddr(rest, |Cap(r.clientAddr, MAX_CLIENT_ADDR)|);
    WithTail(Fixed(r, addr), tail)
  }

  lemma CutInBody(r: SampledRequest, k: nat, rest: seq<byte>)
    requires |Head(r)| + 2 <= k <= |Encode(r)|
    requires rest == (Cap(r.clientAddr, MAX_CLIENT_ADDR) + Tail(r, 4))[..k - |Head(r)| - 2]
    ensures Parse(Encode(r)[..k]) == Some(FromRest(r, rest))
  {
    var head, full, tail := Head(r), Cap(r.clientAddr, MAX_CLIENT_ADDR), Tail(r, 4);
    CutPastHead(head, BigEndian(|full|, 2), full + tail, k);
    Regroup(head, BigEndian(|full|, 2), full, tail);
    HeadRead(r, |full|, rest);
  }

  lemma CutPastHead(head: seq<byte>, len: seq<byte>, body: seq<byte>, k: nat)
    requires |len| == 2 && |head| + 2 <= k <= |head| + 2 + |body|
    ensures (head + (len + body))[..k] == head + (len + body[..k - |head| - 2])
  {
  }

  // ── The writer as code ──────────────────────────────────────────────────────

  method PutBytes(buf: array<byte>, pos: nat, data: seq<byte>) returns (next: nat)
    requires pos + |data| <= buf.Length
    modifies buf
    ensures next == pos + |data|
    ensures buf[..next] == old(buf[..pos]) + data
  {
    for i := 0 to |data|
      invariant buf[..pos + i] == old(buf[..pos]) + data[..i]
    {
      buf[pos + i] := data[i];
      assert buf[..pos + i + 1] == buf[..pos + i] + [data[i]];
    }
    next := pos + |data|;
    assert data[..|data|] == data;
  }

  method PutPrefixed(buf: array<byte>, pos: nat, data: seq<byte>, max: nat) returns (next: nat)
    requires max < 0x1_0000 && pos + 2 + max <= buf.Length
    modifies buf
    ensures next == pos + 2 + |Cap(data, max)|
    ensures buf[..next] == old(buf[..pos]) + Prefixed(Cap(data, max))
  {
    var len := if |data| < max then |data| else max;
    assert data[..len] == Cap(data, max);
    next := PutBytes(buf, pos, BigEndian(len, 2));
    next := PutBytes(buf, next, data[..len]);
    assert old(buf[..pos]) + BigEndian(len, 2) + data[..len] == old(buf[..pos]) + Prefixed(data[..len]);
  }

  /** Kind, time, level and method. */
  method PutLead(buf: array<byte>, r: SampledRequest) returns (pos: nat)
    requires buf.Length == MAX_ACCESS_RECORD
    modifies buf
    ensures pos <= 28
    ensures buf[..pos] == [KIND_ACCESS] + BigEndian(r.ts, 8) + [NGX_LEVEL_INFO] + Prefixed(Cap(r.method_, MAX_METHOD))
  {
    pos := PutBytes(buf, 0, [KIND_ACCESS]);
    pos := PutBytes(buf, pos, BigEndian(r.ts, 8));
    pos := PutBytes(buf, pos, [NGX_LEVEL_INFO]);
    pos := PutPrefixed(buf, pos, r.method_, MAX_METHOD);
  }

  method PutHead(buf: array<byte>, r: SampledRequest) returns (pos: nat)
    requires buf.Length == MAX_ACCESS_RECORD
    modifies buf
    ensures pos <= 46 && pos == |Head(r)| && buf[..pos] == Head(r)
  {
    pos := PutLead(buf, r);
    pos := PutBytes(buf, pos, BigEndian(r.status, 2));
    pos := PutBytes(buf, pos, BigEndian(r.requestLength, 8));
    pos := PutBytes(buf, pos, BigEndian(r.responseBytes, 8));
  }

  method PutTrace(buf: array<byte>, start: nat, t: Option<TraceContext>) returns (pos: nat)
    requires (t.Some? ==> WellSized(t.value)) && start + 25 <= buf.Length
    modifies buf
    ensures pos <= start + 25 && pos == start + |TraceBytes(t)| && buf[..pos] == old(buf[..start]) + TraceBytes(t)
  {
    match t {
      case Some(c) =>
        pos := PutBytes(buf, start, [1]);
        pos := PutBytes(buf, pos, c.traceId);
        pos := PutBytes(buf, pos, c.spanId);
        assert old(buf[..start]) + [1] + c.traceId + c.spanId == old(buf[..start]) + TraceBytes(t);
      case None =>
        pos := PutBytes(buf, start, [0]);
    }
  }

  /** Never leaves the fixed buffer, and pushes exactly the encoding. */
  method EmitAccessRecord(ring: SignalRing, r: SampledRequest) returns (ok: bool)
    requires Typed(r) && ring.Valid()
    modifies ring, ring.payload
    ensures ring.Valid() && ring.Abs() == Pushed(old(ring.Abs()), Encode(r))
    ensures ok == Fits(old(ring.Abs()), Encode(r))
  {
    var record := FormatAccessRecord(r);
    ok := ring.Push(record);
  }

  method FormatAccessRecord(r: SampledRequest) returns (record: seq<byte>)
    requires Typed(r)
    ensures record == Encode(r) && |record| <= 323
  {
    var buf := new byte[MAX_ACCESS_RECORD](_ => 0);
    var pos := PutHead(buf, r);
    pos := PutPrefixed(buf, pos, r.clientAddr, MAX_CLIENT_ADDR);
    ghost var first := buf[..pos];
    pos := PutTrace(buf, pos, r.trace);
    pos := PutPrefixed(buf, pos, r.urlPath, MAX_URL_PATH);
    pos := PutPrefixed(buf, pos, r.userAgent, MAX_USER_AGENT);
    pos := PutBytes(buf, pos, BigEndian(r.durationUs, 8));
    record := buf[..pos];
    Reassociate(first, TraceBytes(r.trace), Prefixed(Cap(r.urlPath, MAX_URL_PATH)),
                Prefixed(Cap(r.userAgent, MAX_USER_AGENT)), BigEndian(r.durationUs, 8));
  }

  lemma Reassociate(a: seq<byte>, b: seq<byte>, c: seq<byte>, d: seq<byte>, e: seq<byte>)
    ensures a + b + c + d + e == a + (b + (c + (d + e)))
  {
  }

  // ── The reader as code ──────────────────────────────────────────────────────

  /** A length-prefixed run at `pos`; a partial header leaves `pos`, a partial body leaves it past the header. */
  method ReadU16Prefixed(buf: seq<byte>, pos: nat) returns (v: seq<byte>, next: nat)
    requires pos <= |buf|
    ensures pos <= next <= |buf| && (v, buf[next..]) == ReadPrefixed(buf[pos..])
  {
    if pos + 2 > |buf| {
      return [], pos;
    }
    assert buf[pos..][..2] == buf[pos..pos + 2] && buf[pos..][2..] == buf[pos + 2..];
    var len := FromBigEndian(buf[pos..pos + 2]);
    next := pos + 2;
    if next + len > |buf| {
      return [], next;
    }
    v := buf[next..next + len];
    assert v == buf[pos..][2..2 + len] && buf[pos..][2 + len..] == buf[next + len..];
    next := next + len;
  }

  /** The trace flag and, when it is one and 24 bytes remain, the two ids. */
  method ReadTraceAt(buf: seq<byte>, start: nat) returns (traceId: seq<byte>, spanId: seq<byte>, pos: nat)
    requires start <= |buf|
    ensures start <= pos <= |buf| && (traceId, spanId, buf[pos..]) == ReadTrace(buf[start..])
  {
    traceId, spanId, pos := [], [], start;
    ghost var b := buf[start..];
    if pos < |buf| {
      var hasTrace := buf[pos];
      pos := pos + 1;
      assert b[1..] == buf[pos..];
      if hasTrace == 1 && pos + 24 <= |buf| {
        traceId := buf[pos..pos + 16];
        pos := pos + 16;
        spanId := buf[pos..pos + 8];
        pos := pos + 8;
        assert b[1..17] == traceId && b[17..25] == spanId && b[25..] == buf[pos..];
      }
    }
  }

  method ReadTail(buf: seq<byte>, start: nat, fixed: AccessRecord) returns (r: AccessRecord)
    requires start <= |buf|
    ensures r == WithTail(fixed, buf[start..])
  {
    var traceId, spanId, pos := ReadTraceAt(buf, start);
    var urlPath, userAgent;
    urlPath, pos := ReadU16Prefixed(buf, pos);
    userAgent, pos := ReadU16Prefixed(buf, pos);
    var duration := None;
    if pos + 8 <= |buf| {
      duration := Some(FromBigEndian(buf[pos..pos + 8]));
      assert buf[pos..][..8] == buf[pos..pos + 8];
    }
    r := fixed.(traceId := traceId, spanId := spanId, urlPath := urlPath, userAgent := userAgent, durationUs := duration);
  }

  method ParseFields(buf: seq<byte>, start: nat, ts: nat, level: byte, method_: seq<byte>) returns (r: Option<AccessRecord>)
    requires start <= |buf|
    ensures r == if |buf| - start < 20 then None else Some(FromFields(ts, level, method_, buf[start..]))
  {
    var pos := start;
    ghost var f := buf[pos..];
    if pos + 2 > |buf| {
      return None;
    }
    var status := FromBigEndian(buf[pos..pos + 2]);
    assert f[..2] == buf[pos..pos + 2];
    pos := pos + 2;
    if pos + 8 > |buf| {
      return None;
    }
    var requestLength := FromBigEndian(buf[pos..pos + 8]);
    assert f[2..10] == buf[pos..pos + 8];
    pos := pos + 8;
    if pos + 8 > |buf| {
      return None;
    }
    var responseBytes := FromBigEndian(buf[pos..pos + 8]);
    assert f[10..18] == buf[pos..pos + 8];
    pos := pos + 8;
    if pos + 2 > |buf| {
      return None;
    }
    var addrLen := FromBigEndian(buf[pos..pos + 2]);
    assert f[18..20] == buf[pos..pos + 2];
    pos := pos + 2;
    assert f[20..] == buf[pos..];
    var clientAddr;
    clientAddr, pos := ReadAddrAt(buf, pos, addrLen);
    var fixed := AccessRecord(ts, level, method_, status, requestLength, responseBytes, clientAddr, [], [], [], [], None);
    var whole := ReadTail(buf, pos, fixed);
    r := Some(whole);
  }

  method ReadAddrAt(buf: seq<byte>, start: nat, len: nat) returns (addr: seq<byte>, pos: nat)
    requires start <= |buf|
    ensures start <= pos <= |buf| && (addr, buf[pos..]) == ReadAddr(buf[start..], len)
  {
    addr, pos := [], start;
    if pos + len <= |buf| {
      addr := buf[pos..pos + len];
      assert buf[start..][..len] == addr && buf[start..][len..] == buf[pos + len..];
      pos := pos + len;
    }
  }

  /** Total on every buffer, every read in bounds. */
  method ParseAccessRecord(buf: seq<byte>) returns (r: Option<AccessRecord>)
    ensures r == Parse(buf)
  {
    if |buf| < 32 {
      return None;
    }
    var pos := 0;
    if buf[pos] != KIND_ACCESS {
      return None;
    }
    pos := pos + 1;
    var ts := FromBigEndian(buf[pos..pos + 8]);
    pos := pos + 8;
    var level := buf[pos];
    pos := pos + 1;
    var methodLen := FromBigEndian(buf[pos..pos + 2]);
    pos := pos + 2;
    if pos + methodLen > |buf| {
      return None;
    }
    r := ParseFields(buf, pos + methodLen, ts, level, buf[pos..pos + methodLen]);
  }

  // ── Through the ring ────────────────────────────────────────────────────────

  /** The records that parse, in order. */
  function FilterMap(parse: seq<byte> -> Option<AccessRecord>, recs: seq<Record>): seq<AccessRecord> {
    if recs == [] then []
    else FilterMap(parse, recs[..|recs| - 1]) + Kept(parse(recs[|recs| - 1]))
  }

  function Kept(p: Option<AccessRecord>): seq<AccessRecord> {
    if p.Some? then [p.value] else []
  }

  lemma {:induction false} FilterMapAll(parse: seq<byte> -> Option<AccessRecord>, recs: seq<Record>, out: seq<AccessRecord>)
    requires |recs| == |out| && forall i | 0 <= i < |recs| :: parse(recs[i]) == Some(out[i])
    ensures FilterMap(parse, recs) == out
  {
    if recs != [] {
      var k := |recs| - 1;
      FilterMapAll(parse, recs[..k], out[..k]);
      assert out == out[..k] + [out[k]];
    }
  }

  method PushParsed(buf: seq<byte>, logs: seq<AccessRecord>, ghost taken: seq<Record>)
    returns (more: seq<AccessRecord>)
    requires logs == FilterMap(Parse, taken)
    ensures more == FilterMap(Parse, taken + [buf])
  {
    FilterMapAppend(Parse, taken, buf);
    var parsed := ParseAccessRecord(buf);
    more := if parsed.Some? then logs + [parsed.value] else logs;
  }

  lemma Moved(taken: seq<Record>, buf: Record, rest: seq<Record>)
    ensures taken + ([buf] + rest) == (taken + [buf]) + rest
  {
  }

  lemma FilterMapAppend(parse: seq<byte> -> Option<AccessRecord>, recs: seq<Record>, rec: Record)
    ensures FilterMap(parse, recs + [rec]) == FilterMap(parse, recs) + Kept(parse(rec))
  {
    assert (recs + [rec])[..|recs|] == recs;
  }

  /** The access half of one worker's collection: the oldest records, up to the cap. */
  method CollectAccess(ring: SignalRing) returns (logs: seq<AccessRecord>, ghost taken: seq<Record>)
    requires ring.Valid()
    modifies ring
    ensures ring.Valid() && ring.dropped == old(ring.dropped)
    ensures taken + ring.records == old(ring.records)
    ensures |taken| <= 2_500 && (|taken| < 2_500 ==> ring.records == [])
    ensures logs == FilterMap(Parse, taken)
  {
    logs, taken := [], [];
    var drained := 0;
    while drained < MAX_ACCESS_RECORDS_PER_WORKER_PER_DRAIN
      invariant ring.Valid() && ring.dropped == old(ring.dropped)
      invariant |taken| == drained <= MAX_ACCESS_RECORDS_PER_WORKER_PER_DRAIN
      invariant taken + ring.records == old(ring.records)
      invariant logs == FilterMap(Parse, taken)
    {
      var ok, buf := PopRecord(ring);
      if !ok {
        break;
      }
      Moved(taken, buf, ring.records);
      logs := PushParsed(buf, logs, taken);
      taken := taken + [buf];
      drained := drained + 1;
    }
  }

  ghost predicate AllTyped(reqs: seq<SampledRequest>) {
    forall i | 0 <= i < |reqs| :: Typed(reqs[i])
  }

  function Encoded(reqs: seq<SampledRequest>): seq<Record> { seq(|reqs|, i requires 0 <= i < |reqs| => Encode(reqs[i])) }

  function Reported(reqs: seq<SampledRequest>): seq<AccessRecord> { seq(|reqs|, i requires 0 <= i < |reqs| => Expected(reqs[i], 4)) }

  /** Requests that went through the ring are reported one for one, in order, none lost to the parser. */
  lemma ReportedInOrder(reqs: seq<SampledRequest>)
    requires AllTyped(reqs)
    ensures
      var out := FilterMap(Parse, Encoded(reqs));
      |out| == |reqs| && forall i | 0 <= i < |reqs| :: FieldsOf(out[i], reqs[i])
  {
    var recs, out := Encoded(reqs), Reported(reqs);
    forall i | 0 <= i < |recs| ensures Parse(recs[i]) == Some(out[i]) && FieldsOf(out[i], reqs[i]) {
      EncodedParses(reqs[i], recs[i], out[i]);
    }
    FilterMapAll(Parse, recs, out);
  }

  lemma EncodedParses(r: SampledRequest, rec: Record, x: AccessRecord)
    requires Typed(r) && rec == Encode(r) && x == Expected(r, 4)
    ensures Parse(rec) == Some(x) && FieldsOf(x, r)
  {
    RoundTrip(r);
  }
}
