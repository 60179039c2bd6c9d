/**
 What the parser makes of an access record cut short at any byte. A cut between fields is clean: the
 whole fields are reported and the rest is absent. A cut inside a field leaves its bytes to be read as
 the fields that would have followed; the cut is clean exactly when they read as nothing.

 - Where a cut falls: `CutAt` names the field and how many of its bytes are left.
 - What is read: `ReadAs` is the whole fields with what the left-over bytes are taken for, and
   `TruncatedRecord` the parser's result for every cut of every request.
 - When a cut is clean, for every request, and for text fields the number of bytes from which it is not.
 - `AddressReadAsDuration`: what a cut address is reported as.
 */
module AccessCuts {
  import opened Bytes
  import opened AccessCodec

  function Addr(r: SampledRequest): seq<byte> { Cap(r.clientAddr, MAX_CLIENT_ADDR) }

  function Path(r: SampledRequest): seq<byte> { Cap(r.urlPath, MAX_URL_PATH) }

  function Agent(r: SampledRequest): seq<byte> { Cap(r.userAgent, MAX_USER_AGENT) }

  function Ids(r: SampledRequest): seq<byte> {
    if r.trace.Some? then r.trace.value.traceId + r.trace.value.spanId else []
  }

  // ── Where a cut falls ───────────────────────────────────────────────────────

  /** Inside a field, with the number of its bytes left; or with a number of whole trailing groups and no part of a body. */
  datatype Cut =
    | InAddress(left: nat)
    | InTrace(left: nat)
    | InPath(left: nat)
    | InAgent(left: nat)
    | Between(groups: nat)

  /** The cut after `k` bytes, the address length included. */
  function CutAt(r: SampledRequest, k: nat): Cut
    requires |Head(r)| + 2 <= k
  {
    var n := k - |Head(r)| - 2;
    if n < |Addr(r)| then InAddress(n) else TailCut(r, n - |Addr(r)|)
  }

  function TailCut(r: SampledRequest, n: nat): Cut {
    if n == 0 then Between(0)
    else if n - 1 < |Ids(r)| then InTrace(n - 1)
    else PathCut(r, n - 1 - |Ids(r)|)
  }

  function PathCut(r: SampledRequest, n: nat): Cut {
    if n < 2 then Between(1)
    else if n - 2 < |Path(r)| then InPath(n - 2)
    else AgentCut(r, n - 2 - |Path(r)|)
  }

  function AgentCut(r: SampledRequest, n: nat): Cut {
    if n < 2 then Between(2)
    else if n - 2 < |Agent(r)| then InAgent(n - 2)
    else if n - 2 - |Agent(r)| < 8 then Between(3)
    else Between(4)
  }

  /** The left-over bytes of the field the cut falls in. */
  function LeftOver(r: SampledRequest, c: Cut): seq<byte> {
    match c
    case InAddress(n) => Cap(Addr(r), n)
    case InTrace(n) => Cap(Ids(r), n)
    case InPath(n) => Cap(Path(r), n)
    case InAgent(n) => Cap(Agent(r), n)
    case Between(_) => []
  }

  /** The record as it should be read: the whole fields before the cut, everything else absent. */
  function Whole(r: SampledRequest, c: Cut): AccessRecord {
    match c
    case InAddress(_) => Fixed(r, [])
    case InTrace(_) => Expected(r, 0)
    case InPath(_) => Expected(r, 1)
    case InAgent(_) => Expected(r, 2)
    case Between(n) => Expected(r, n)
  }

  /** The record as it is read: the left-over bytes taken for the fields behind the one cut. */
  function ReadAs(r: SampledRequest, c: Cut): AccessRecord {
    var x, b := Whole(r, c), LeftOver(r, c);
    match c
    case InAddress(_) => WithTail(x, b)
    case InTrace(_) => WithPath(x, b)
    case InPath(_) => WithAgent(x, b)
    case InAgent(_) => x.(durationUs := ReadDuration(b))
    case Between(_) => x
  }

  // ── What is read ────────────────────────────────────────────────────────────

  lemma PrefixedCut(s: seq<byte>, rest: seq<byte>, n: nat)
    requires |s| < 0x1_0000 && n <= |Prefixed(s) + rest|
    ensures
      ReadPrefixed((Prefixed(s) + rest)[..n]) ==
        if n < 2 then ([], (Prefixed(s) + rest)[..n])
        else if n - 2 < |s| then ([], s[..n - 2])
        else (s, rest[..n - 2 - |s|])
  {
    var b := (Prefixed(s) + rest)[..n];
    if n >= 2 {
      U16RoundTrip(|s|);
      assert b[..2] == BigEndian(|s|, 2);
      if n - 2 < |s| {
        assert b[2..] == s[..n - 2];
      } else {
        assert b == Prefixed(s) + rest[..n - 2 - |s|];
        ReadPrefixedOf(s, rest[..n - 2 - |s|]);
      }
    }
  }

  function AgentBytes(r: SampledRequest): seq<byte> { Prefixed(Agent(r)) + BigEndian(r.durationUs, 8) }

  function PathBytes(r: SampledRequest): seq<byte> { Prefixed(Path(r)) + AgentBytes(r) }

  lemma AgentReads(r: SampledRequest, n: nat)
    requires n <= |AgentBytes(r)|
    ensures WithAgent(Expected(r, 2), AgentBytes(r)[..n]) == ReadAs(r, AgentCut(r, n))
  {
    var dur := BigEndian(r.durationUs, 8);
    PrefixedCut(Agent(r), dur, n);
    if n >= 2 + |Agent(r)| + 8 {
      assert dur[..n - 2 - |Agent(r)|][..8] == dur;
      U64RoundTrip(r.durationUs);
    }
  }

  lemma PathReads(r: SampledRequest, n: nat)
    requires n <= |PathBytes(r)|
    ensures WithPath(Expected(r, 1), PathBytes(r)[..n]) == ReadAs(r, PathCut(r, n))
  {
    PrefixedCut(Path(r), AgentBytes(r), n);
    if n - 2 >= |Path(r)| { AgentReads(r, n - 2 - |Path(r)|); }
  }

  lemma TailReads(r: SampledRequest, n: nat)
    requires Typed(r) && n <= |Tail(r, 4)|
    ensures WithTail(Expected(r, 0), Tail(r, 4)[..n]) == ReadAs(r, TailCut(r, n))
  {
    var b := Tail(r, 4)[..n];
    assert Tail(r, 4) == TraceBytes(r.trace) + PathBytes(r);
    if 0 < n <= |Ids(r)| {
      assert b[1..] == Ids(r)[..n - 1];
    } else if n > 0 {
      var m := n - 1 - |Ids(r)|;
      assert b == TraceBytes(r.trace) + PathBytes(r)[..m];
      ReadTraceOf(r.trace, PathBytes(r)[..m]);
      PathReads(r, m);
    }
  }

  /**
   Every request cut after any byte: nothing is reported when the address length is incomplete, and
   otherwise exactly the whole fields, with the left-over bytes taken for the fields that follow.
   */
  lemma TruncatedRecord(r: SampledRequest, k: nat)
    requires Typed(r) && k <= |Encode(r)|
    ensures Parse(Encode(r)[..k]) == if k < |Head(r)| + 2 then None else Some(ReadAs(r, CutAt(r, k)))
  {
    HeadLayout(r, []);
    if k < |Head(r)| + 2 { CutInHead(r, k); } else { CutReads(r, k); }
  }

  lemma CutReads(r: SampledRequest, k: nat)
    requires Typed(r) && |Head(r)| + 2 <= k <= |Encode(r)|
    ensures Parse(Encode(r)[..k]) == Some(ReadAs(r, CutAt(r, k)))
  {
    var n := k - |Head(r)| - 2;
    CutInBody(r, k, (Addr(r) + Tail(r, 4))[..n]);
    RestReads(r, n);
  }

  lemma RestReads(r: SampledRequest, n: nat)
    requires Typed(r) && n <= |Addr(r) + Tail(r, 4)|
    ensures FromRest(r, (Addr(r) + Tail(r, 4))[..n]) == ReadAs(r, CutAt(r, |Head(r)| + 2 + n))
  {
    var addr, tail := Addr(r), Tail(r, 4);
    var rest := (addr + tail)[..n];
    if n < |addr| {
      assert rest == addr[..n];
    } else {
      assert rest == addr + tail[..n - |addr|];
      ReadAddrOf(addr, tail[..n - |addr|]);
      TailReads(r, n - |addr|);
    }
  }

  // ── When a cut is clean ─────────────────────────────────────────────────────

  /**
   `b` reads as `fields` absent length-prefixed fields and no duration: each two bytes taken for a length
   are zero or more than what follows, and fewer than eight bytes remain.
   */
  predicate Quiet(b: seq<byte>, fields: nat) {
    if fields == 0 then |b| < 8
    else |b| < 2 || (var n := FromBigEndian(b[..2]); (n == 0 || 2 + n > |b|) && Quiet(b[2..], fields - 1))
  }

  /** The first byte is taken for the trace flag. */
  predicate QuietWithFlag(b: seq<byte>) {
    b == [] || (!(b[0] == 1 && 25 <= |b|) && Quiet(b[1..], 2))
  }

  predicate QuietCut(r: SampledRequest, c: Cut) {
    var b := LeftOver(r, c);
    match c
    case InAddress(_) => QuietWithFlag(b)
    case InTrace(_) => Quiet(b, 2)
    case InPath(_) => Quiet(b, 1)
    case InAgent(_) => |b| < 8
    case Between(_) => true
  }

  lemma QuietAgent(x: AccessRecord, b: seq<byte>)
    requires x.userAgent == [] && x.durationUs == None
    ensures WithAgent(x, b) == x <==> Quiet(b, 1)
  {
    if |b| >= 2 { assert Quiet(b[2..], 0) <==> |b| - 2 < 8; }
  }

  lemma QuietPath(x: AccessRecord, b: seq<byte>)
    requires x.urlPath == [] && x.userAgent == [] && x.durationUs == None
    ensures WithPath(x, b) == x <==> Quiet(b, 2)
  {
    var (path, rest) := ReadPrefixed(b);
    QuietAgent(x, rest);
    if |b| >= 2 {
      assert path == [] ==> rest == b[2..];
    }
  }

  lemma QuietTail(x: AccessRecord, b: seq<byte>)
    requires x.traceId == [] && x.spanId == [] && x.urlPath == [] && x.userAgent == [] && x.durationUs == None
    ensures WithTail(x, b) == x <==> QuietWithFlag(b)
  {
    var (traceId, spanId, rest) := ReadTrace(b);
    QuietPath(x, rest);
  }

  /**
   For every request and every cut past the address length: exactly the whole fields are reported, and
   nothing that was not sent, if and only if the left-over bytes are quiet.
   */
  lemma CleanCutIff(r: SampledRequest, k: nat)
    requires Typed(r) && |Head(r)| + 2 <= k <= |Encode(r)|
    ensures Parse(Encode(r)[..k]) == Some(Whole(r, CutAt(r, k))) <==> QuietCut(r, CutAt(r, k))
  {
    CutReads(r, k);
    var c := CutAt(r, k);
    var x, b := Whole(r, c), LeftOver(r, c);
    match c
    case InAddress(_) => QuietTail(x, b);
    case InTrace(_) => QuietPath(x, b);
    case InPath(_) => QuietAgent(x, b);
    case InAgent(_) =>
    case Between(_) =>
  }

  // ── Text ────────────────────────────────────────────────────────────────────

  ghost predicate Text(s: seq<byte>) { forall i | 0 <= i < |s| :: s[i] >= 0x20 }

  /** Two bytes of text, taken for a length, exceed every field. */
  lemma TextLength(b: seq<byte>)
    requires Text(b) && |b| >= 2
    ensures FromBigEndian(b[..2]) >= 0x2020
  {
    var two := b[..2];
    var hi: int, lo: int := b[0], b[1];
    assert two[..1] == [b[0]] && [b[0]][..0] == [];
    assert FromBigEndian([b[0]]) == hi;
    assert FromBigEndian(two) == hi * 256 + lo;
  }

  lemma {:induction false} QuietText(b: seq<byte>, fields: nat)
    requires Text(b) && |b| < 0x2020
    ensures Quiet(b, fields) <==> |b| < 2 * fields + 8
    decreases fields
  {
    if fields > 0 && |b| >= 2 {
      TextLength(b);
      QuietText(b[2..], fields - 1);
    }
  }

  /**
   For every request whose address, path and agent are text, traced or not, a cut is clean exactly when
   it leaves fewer than 13 bytes of a cut address, 10 of a cut path or 8 of a cut agent; and a cut inside
   the ids, which are any bytes, exactly when those left are quiet.
   */
  lemma TextCleanCutIff(r: SampledRequest, k: nat)
    requires Typed(r) && Text(Addr(r)) && Text(Path(r)) && Text(Agent(r))
    requires |Head(r)| + 2 <= k <= |Encode(r)|
    ensures Parse(Encode(r)[..k]) == Some(Whole(r, CutAt(r, k))) <==> FewLeft(r, CutAt(r, k))
  {
    CleanCutIff(r, k);
    QuietTextCut(r, k);
  }

  predicate FewLeft(r: SampledRequest, c: Cut) {
    match c
    case InAddress(n) => n < 13
    case InTrace(n) => Quiet(LeftOver(r, c), 2)
    case InPath(n) => n < 10
    case InAgent(n) => n < 8
    case Between(_) => true
  }

  lemma QuietTextCut(r: SampledRequest, k: nat)
    requires Text(Addr(r)) && Text(Path(r)) && Text(Agent(r)) && |Head(r)| + 2 <= k
    ensures QuietCut(r, CutAt(r, k)) <==> FewLeft(r, CutAt(r, k))
  {
    var c := CutAt(r, k);
    var b := LeftOver(r, c);
    CutInside(r, k);
    match c
    case InAddress(n) =>
      if n > 0 { QuietText(b[1..], 2); }
    case InTrace(_) =>
    case InPath(_) => QuietText(b, 1);
    case InAgent(_) =>
    case Between(_) =>
  }

  /** A cut inside a field leaves fewer bytes than the field has, and that many are left. */
  lemma CutInside(r: SampledRequest, k: nat)
    requires |Head(r)| + 2 <= k
    ensures
      var c := CutAt(r, k);
      !c.Between? ==> |LeftOver(r, c)| == c.left
  {
  }

  /** Every text address of at least 14 bytes, cut after 13, is reported as a duration that was never sent. */
  lemma AddressReadAsDuration(r: SampledRequest)
    requires Typed(r) && Text(Addr(r)) && |Addr(r)| >= 14
    ensures |Head(r)| + 15 <= |Encode(r)|
    ensures Parse(Encode(r)[..|Head(r)| + 15]) == Some(Fixed(r, []).(durationUs := Some(FromBigEndian(Addr(r)[5..13]))))
  {
    var b := Addr(r)[..13];
    CutReads(r, |Head(r)| + 15);
    AddressCut(r, 13);
    TextRead(Fixed(r, []), b);
    assert b[5..] == Addr(r)[5..13];
  }

  lemma AddressCut(r: SampledRequest, n: nat)
    requires n < |Addr(r)|
    ensures ReadAs(r, CutAt(r, |Head(r)| + 2 + n)) == WithTail(Fixed(r, []), Addr(r)[..n])
  {
  }

  /** Thirteen bytes of text: a flag, two lengths that overrun, and a duration. */
  lemma TextRead(x: AccessRecord, b: seq<byte>)
    requires Text(b) && |b| == 13
    requires x.traceId == [] && x.spanId == [] && x.urlPath == [] && x.userAgent == [] && x.durationUs == None
    ensures WithTail(x, b) == x.(durationUs := Some(FromBigEndian(b[5..])))
  {
    var path, agent := b[1..], b[3..];
    TextLength(path);
    TextLength(agent);
    assert path[2..] == agent && agent[2..] == b[5..] && b[5..][..8] == b[5..];
  }
}
