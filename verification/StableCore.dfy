/**
 The dedup key of an error-log line: `stable_core` cuts the line down to its message, and
 `coalesce_key` hashes severity and message with 64-bit FNV-1a.
 */
module StableCore {
  import opened Bytes

  type Line = seq<byte>

  const CLOSE_BRACKET: byte := 93
  const COLON: byte := 58
  const SPACE: byte := 32
  const STAR: byte := 42
  const NEWLINE: byte := 10
  const WHILE_MARK: Line := [32, 119, 104, 105, 108, 101, 32]          // " while "
  const CLIENT_MARK: Line := [44, 32, 99, 108, 105, 101, 110, 116, 58]  // ", client:"

  predicate IsDigit(b: byte) { 48 <= b <= 57 }

  predicate PairAt(s: Line, a: byte, b: byte, i: nat) {
    i + 1 < |s| && s[i] == a && s[i + 1] == b
  }

  predicate NoPair(s: Line, a: byte, b: byte, lo: nat, hi: nat) {
    forall i: nat | lo <= i < hi :: !PairAt(s, a, b, i)
  }

  predicate MarkAt(s: Line, mark: Line, i: nat, end: nat) {
    i + |mark| <= end <= |s| && s[i..i + |mark|] == mark
  }

  /** A handler-context boundary at `i`, lying wholly before `end`. */
  predicate ContextAt(s: Line, i: nat, end: nat) {
    MarkAt(s, WHILE_MARK, i, end) || MarkAt(s, CLIENT_MARK, i, end)
  }

  // ── The four scans, each against what it finds ──────────────────────────────

  /** Scans 1 and 2: moves past the first `a b` pair; without one, stops on the last byte. */
  method SkipPair(buf: Line, a: byte, b: byte, from: nat) returns (pos: nat)
    requires from <= |buf|
    ensures from <= pos <= |buf|
    ensures pos == AfterPair(buf, a, b, from)
  {
    pos := from;
    while pos + 1 < |buf|
      invariant from <= pos <= |buf|
      invariant AfterPair(buf, a, b, pos) == AfterPair(buf, a, b, from)
      decreases |buf| - pos
    {
      if buf[pos] == a && buf[pos + 1] == b {
        pos := pos + 2;
        return;
      }
      pos := pos + 1;
    }
  }

  function AfterPair(buf: Line, a: byte, b: byte, from: nat): (pos: nat)
    requires from <= |buf|
    ensures from <= pos <= |buf|
    decreases |buf| - from
  {
    if from + 1 >= |buf| then from
    else if PairAt(buf, a, b, from) then from + 2
    else AfterPair(buf, a, b, from + 1)
  }

  /** The scan stops just past the first pair, wherever it is. */
  lemma {:induction false} AfterFirstPair(buf: Line, a: byte, b: byte, from: nat, at: nat)
    requires from <= at && PairAt(buf, a, b, at) && NoPair(buf, a, b, from, at)
    ensures AfterPair(buf, a, b, from) == at + 2
    decreases at - from
  {
    if from < at {
      assert !PairAt(buf, a, b, from);
      AfterFirstPair(buf, a, b, from + 1, at);
    }
  }

  /** If the scan runs out exactly at the end of the line, the line's last byte is the pair's second. */
  lemma {:induction false} RanOutOnSecond(buf: Line, a: byte, b: byte, from: nat)
    requires from < |buf| && AfterPair(buf, a, b, from) == |buf|
    ensures buf[|buf| - 1] == b
    decreases |buf| - from
  {
    if from + 1 < |buf| && !PairAt(buf, a, b, from) {
      RanOutOnSecond(buf, a, b, from + 1);
    }
  }

  function AfterDigits(buf: Line, pos: nat): (p: nat)
    requires pos <= |buf|
    ensures pos <= p <= |buf|
    ensures forall i: nat | pos <= i < p :: IsDigit(buf[i])
    ensures p < |buf| ==> !IsDigit(buf[p])
    decreases |buf| - pos
  {
    if pos < |buf| && IsDigit(buf[pos]) then AfterDigits(buf, pos + 1) else pos
  }

  /** Scan 3: moves past an optional `*<digits> `. */
  method SkipConnection(buf: Line, from: nat) returns (pos: nat)
    requires from <= |buf|
    ensures pos == AfterConnection(buf, from)
  {
    pos := from;
    if pos < |buf| && buf[pos] == STAR {
      pos := pos + 1;
      while pos < |buf| && IsDigit(buf[pos])
        invariant from < pos <= |buf|
        invariant AfterDigits(buf, pos) == AfterDigits(buf, from + 1)
      {
        pos := pos + 1;
      }
      if pos < |buf| && buf[pos] == SPACE {
        pos := pos + 1;
      }
    }
  }

  function AfterConnection(buf: Line, from: nat): (pos: nat)
    requires from <= |buf|
    ensures from <= pos <= |buf|
  {
    if from < |buf| && buf[from] == STAR then
      var p := AfterDigits(buf, from + 1);
      if p < |buf| && buf[p] == SPACE then p + 1 else p
    else from
  }

  function TrimmedEnd(buf: Line): (end: nat)
    ensures end <= |buf|
  {
    if |buf| > 0 && buf[|buf| - 1] == NEWLINE then |buf| - 1 else |buf|
  }

  /** Scan 4: the first context boundary from `i` on, or `end`. */
  function FirstContext(buf: Line, i: nat, end: nat): (e: nat)
    requires i <= end <= |buf|
    ensures i <= e <= end
    decreases end - i
  {
    if i == end || ContextAt(buf, i, end) then i else FirstContext(buf, i + 1, end)
  }

  method CutContext(buf: Line, start: nat, limit: nat) returns (end: nat)
    requires start <= limit <= |buf|
    ensures end == FirstContext(buf, start, limit)
  {
    end := limit;
    var i := start;
    while i < limit
      invariant start <= i <= limit
      invariant FirstContext(buf, i, limit) == FirstContext(buf, start, limit)
    {
      if i + 7 <= limit && buf[i..i + 7] == WHILE_MARK {
        return i;
      }
      if i + 9 <= limit && buf[i..i + 9] == CLIENT_MARK {
        return i;
      }
      i := i + 1;
    }
  }

  lemma {:induction false} FirstContextAt(buf: Line, i: nat, end: nat, at: nat)
    requires i <= at <= end <= |buf|
    requires at == end || ContextAt(buf, at, end)
    requires NoContext(buf, i, at, end)
    ensures FirstContext(buf, i, end) == at
    decreases at - i
  {
    if i < at { FirstContextAt(buf, i + 1, end, at); }
  }

  ghost predicate NoContext(buf: Line, i: nat, at: nat, end: nat) {
    forall j: nat | i <= j < at :: !ContextAt(buf, j, end)
  }

  function CoreStart(buf: Line): (pos: nat)
    ensures pos <= |buf|
  {
    AfterConnection(buf, AfterPair(buf, COLON, SPACE, AfterPair(buf, CLOSE_BRACKET, SPACE, 0)))
  }

  /** The three prefix scans never run past the trimmed end: whichever byte they end on, it is not the newline. */
  lemma StartBeforeEnd(buf: Line)
    ensures CoreStart(buf) <= TrimmedEnd(buf)
  {
    var p1 := AfterPair(buf, CLOSE_BRACKET, SPACE, 0);
    var p2 := AfterPair(buf, COLON, SPACE, p1);
    if |buf| > 0 && CoreStart(buf) == |buf| {
      if p1 == |buf| {
        RanOutOnSecond(buf, CLOSE_BRACKET, SPACE, 0);
      } else if p2 == |buf| {
        RanOutOnSecond(buf, COLON, SPACE, p1);
      }
    }
  }

  function Core(buf: Line): Line {
    StartBeforeEnd(buf);
    var start := CoreStart(buf);
    var core := buf[start..FirstContext(buf, start, TrimmedEnd(buf))];
    if core == [] then buf else core
  }

  /**
   Total on every byte string: all slices are in range. The result is the line between its prefix
   and its context, or the whole line when that is empty.
   */
  method StableCore(buf: Line) returns (core: Line)
    ensures core == Core(buf)
    ensures core == [] <==> buf == []
  {
    var pos := SkipPair(buf, CLOSE_BRACKET, SPACE, 0);
    pos := SkipPair(buf, COLON, SPACE, pos);
    pos := SkipConnection(buf, pos);
    var coreStart := pos;

    StartBeforeEnd(buf);
    var end := |buf|;
    if end > 0 && buf[end - 1] == NEWLINE {
      end := end - 1;
    }
    end := CutContext(buf, coreStart, end);
    core := buf[coreStart..end];
    if core == [] {
      return buf;
    }
  }

  // ── Lines of the documented shape ───────────────────────────────────────────

  /** `<time> [<level` `] ` `<pid>#<tid>` `: ` `[*<conn> ]` core `[context]` `[\n]`. */
  datatype Parts = Parts(head: Line, process: Line, conn: Line, core: Line, context: Line, newline: Line)

  function Join(p: Parts): Line {
    p.head + [CLOSE_BRACKET, SPACE] + p.process + [COLON, SPACE] + p.conn + p.core + p.context + p.newline
  }

  /** The line, spelled out. */
  lemma JoinText(p: Parts)
    ensures Join(p) == p.head + Ascii("] ") + p.process + Ascii(": ") + p.conn + p.core + p.context + p.newline
  {
    assert Ascii("] ") == [93, 32] && Ascii(": ") == [58, 32];
  }

  /** A context begins with one of two texts, wholly inside the line. */
  lemma ContextText(tail: Line, i: nat)
    requires i <= |tail|
    ensures ContextAt(tail, i, |tail|) <==> Ascii(" while ") <= tail[i..] || Ascii(", client:") <= tail[i..]
  {
    assert Ascii(" while ") == WHILE_MARK && Ascii(", client:") == CLIENT_MARK;
    assert |tail[i..]| >= 7 ==> tail[i..][..7] == tail[i..i + 7];
    assert |tail[i..]| >= 9 ==> tail[i..][..9] == tail[i..i + 9];
  }

  /** A connection number is a star, decimal digits and a space; the newline that is trimmed is a line feed. */
  lemma ConnectionText(conn: Line)
    ensures IsConnection(conn) <==>
      |conn| >= 2 && conn[..1] == Ascii("*") && conn[|conn| - 1..] == Ascii(" ") &&
      forall i | 1 <= i < |conn| - 1 :: conn[i] in Ascii("0123456789")
    ensures [NEWLINE] == Ascii("\n")
  {
    var digits := Ascii("0123456789");
    forall b: byte ensures IsDigit(b) <==> b in digits {
      if IsDigit(b) { assert digits[b - 48] == b; }
    }
  }

  ghost predicate LeadShaped(p: Parts) {
    && NoPair(p.head, CLOSE_BRACKET, SPACE, 0, |p.head|)
    && NoPair(p.process, COLON, SPACE, 0, |p.process|)
    && (p.conn == [] || IsConnection(p.conn))
  }

  ghost predicate WellShaped(p: Parts) {
    && LeadShaped(p)
    && p.core != []
    && (p.conn == [] ==> p.core[0] != STAR)
    && TailShaped(p.core + p.context, |p.core|, p.newline)
  }

  /** The first context boundary of the tail is at `at`, and a final newline is not part of it. */
  ghost predicate TailShaped(tail: Line, at: nat, newline: Line)
    requires 0 < at <= |tail|
  {
    && (at == |tail| || ContextAt(tail, at, |tail|))
    && (forall i: nat | i < at :: !ContextAt(tail, i, |tail|))
    && (newline == [NEWLINE] || (newline == [] && tail[|tail| - 1] != NEWLINE))
  }

  predicate IsConnection(conn: Line) {
    && |conn| >= 2 && conn[0] == STAR && conn[|conn| - 1] == SPACE
    && forall i | 1 <= i < |conn| - 1 :: IsDigit(conn[i])
  }

  lemma PairInside(a: Line, mid: Line, b: Line, x: byte, y: byte)
    requires NoPair(mid, x, y, 0, |mid|) && x != y
    requires b != [] && b[0] == x
    ensures NoPair(a + mid + b, x, y, |a|, |a| + |mid|)
  {
    var s := a + mid + b;
    forall i: nat | |a| <= i < |a| + |mid| ensures !PairAt(s, x, y, i) {
      assert s[i] == mid[i - |a|];
      if i + 1 < |a| + |mid| {
        assert s[i + 1] == mid[i + 1 - |a|];
        assert !PairAt(mid, x, y, i - |a|);
      } else {
        assert s[i + 1] == b[0];
      }
    }
  }

  lemma HeadSkipped(p: Parts)
    requires LeadShaped(p)
    ensures |p.head| + 2 <= |Join(p)|
    ensures AfterPair(Join(p), CLOSE_BRACKET, SPACE, 0) == |p.head| + 2
  {
    var line := Join(p);
    var rest := [CLOSE_BRACKET, SPACE] + p.process + [COLON, SPACE] + p.conn + p.core + p.context + p.newline;
    assert line == [] + p.head + rest;
    PairInside([], p.head, rest, CLOSE_BRACKET, SPACE);
    AfterFirstPair(line, CLOSE_BRACKET, SPACE, 0, |p.head|);
  }

  lemma ProcessSkipped(p: Parts)
    requires LeadShaped(p)
    ensures |p.head| + |p.process| + 4 <= |Join(p)|
    ensures AfterPair(Join(p), COLON, SPACE, |p.head| + 2) == |p.head| + |p.process| + 4
  {
    var line, before := Join(p), p.head + [CLOSE_BRACKET, SPACE];
    var rest := [COLON, SPACE] + p.conn + p.core + p.context + p.newline;
    assert line == before + p.process + rest;
    PairInside(before, p.process, rest, COLON, SPACE);
    AfterFirstPair(line, COLON, SPACE, |before|, |before| + |p.process|);
  }

  lemma {:induction false} DigitsEndAt(buf: Line, pos: nat, at: nat)
    requires pos <= at < |buf| && !IsDigit(buf[at])
    requires forall i | pos <= i < at :: IsDigit(buf[i])
    ensures AfterDigits(buf, pos) == at
    decreases at - pos
  {
    if pos < at { DigitsEndAt(buf, pos + 1, at); }
  }

  lemma ConnectionSkipped(before: Line, conn: Line, rest: Line)
    requires conn == [] ==> rest == [] || rest[0] != STAR
    requires conn == [] || IsConnection(conn)
    ensures AfterConnection(before + conn + rest, |before|) == |before| + |conn|
  {
    var line, at := before + conn + rest, |before|;
    if conn != [] {
      assert forall i | 0 <= i < |conn| :: line[at + i] == conn[i];
      forall i | at + 1 <= i < at + |conn| - 1 ensures IsDigit(line[i]) {
        assert line[i] == conn[i - at];
      }
      DigitsEndAt(line, at + 1, at + |conn| - 1);
    }
  }

  /** Context boundaries of the tail are the context boundaries of the line, shifted. */
  lemma ContextShift(s: Line, pre: Line, tail: Line, post: Line, i: nat)
    requires s == pre + tail + post && i <= |tail|
    ensures ContextAt(s, |pre| + i, |pre| + |tail|) == ContextAt(tail, i, |tail|)
  {
    assert i + 7 <= |tail| ==> s[|pre| + i..|pre| + i + 7] == tail[i..i + 7];
    assert i + 9 <= |tail| ==> s[|pre| + i..|pre| + i + 9] == tail[i..i + 9];
  }

  lemma NoneBefore(line: Line, pre: Line, tail: Line, newline: Line, at: nat)
    requires line == pre + tail + newline && at <= |tail|
    requires forall i: nat | i < at :: !ContextAt(tail, i, |tail|)
    ensures NoContext(line, |pre|, |pre| + at, |pre| + |tail|)
  {
    var end := |pre| + |tail|;
    forall j: nat | |pre| <= j < |pre| + at ensures !ContextAt(line, j, end) {
      ContextShift(line, pre, tail, newline, j - |pre|);
    }
  }

  lemma ContextFound(line: Line, pre: Line, tail: Line, newline: Line, at: nat)
    requires line == pre + tail + newline
    requires at <= |tail| && (at == |tail| || ContextAt(tail, at, |tail|))
    requires forall i: nat | i < at :: !ContextAt(tail, i, |tail|)
    ensures FirstContext(line, |pre|, |pre| + |tail|) == |pre| + at
  {
    var end, cut := |pre| + |tail|, |pre| + at;
    NoneBefore(line, pre, tail, newline, at);
    assert cut == end || ContextAt(line, cut, end) by { ContextShift(line, pre, tail, newline, at); }
    FirstContextAt(line, |pre|, end, cut);
  }

  lemma TrimmedTail(pre: Line, tail: Line, newline: Line)
    requires tail != [] && (newline == [NEWLINE] || (newline == [] && tail[|tail| - 1] != NEWLINE))
    ensures TrimmedEnd(pre + tail + newline) == |pre| + |tail|
  {
  }

  function Prefix(p: Parts): Line {
    p.head + [CLOSE_BRACKET, SPACE] + p.process + [COLON, SPACE] + p.conn
  }

  lemma CoreStartOfParts(p: Parts)
    requires LeadShaped(p)
    requires
      var tail := p.core + p.context + p.newline;
      p.conn == [] ==> tail == [] || tail[0] != STAR
    ensures CoreStart(Join(p)) == |Prefix(p)|
  {
    var before := p.head + [CLOSE_BRACKET, SPACE] + p.process + [COLON, SPACE];
    HeadSkipped(p);
    ProcessSkipped(p);
    assert Join(p) == before + p.conn + (p.core + p.context + p.newline);
    ConnectionSkipped(before, p.conn, p.core + p.context + p.newline);
  }

  lemma CoreIsSlice(line: Line, start: nat, end: nat, cut: nat)
    requires start <= end <= |line| && CoreStart(line) == start && TrimmedEnd(line) == end
    requires start < cut == FirstContext(line, start, end)
    ensures Core(line) == line[start..cut]
  {
  }

  lemma CoreOfPieces(line: Line, pre: Line, tail: Line, newline: Line, at: nat)
    requires line == pre + tail + newline && 0 < at <= |tail| && TailShaped(tail, at, newline)
    requires CoreStart(line) == |pre|
    ensures Core(line) == tail[..at]
  {
    var start, end, cut := |pre|, |pre| + |tail|, |pre| + at;
    assert TrimmedEnd(line) == end by { TrimmedTail(pre, tail, newline); }
    assert FirstContext(line, start, end) == cut by { ContextFound(line, pre, tail, newline, at); }
    CoreIsSlice(line, start, end, cut);
    MiddleSlice(line, pre, tail, newline, at);
  }

  lemma MiddleSlice(line: Line, pre: Line, tail: Line, newline: Line, at: nat)
    requires line == pre + tail + newline && at <= |tail|
    ensures line[|pre|..|pre| + at] == tail[..at]
  {
  }

  /** For every line of the documented shape the result is the message and nothing else. */
  lemma CoreOfWellShaped(p: Parts)
    requires WellShaped(p)
    ensures Core(Join(p)) == p.core
  {
    CoreStartOfParts(p);
    CoreOfPieces(Join(p), Prefix(p), p.core + p.context, p.newline, |p.core|);
    assert (p.core + p.context)[..|p.core|] == p.core;
  }

  /** A line of that shape with no message: nothing, or a context at once, behind the prefix. */
  ghost predicate Messageless(p: Parts) {
    && LeadShaped(p) && p.core == [] && (p.context == [] || ContextAt(p.context, 0, |p.context|))
    && (p.newline == [NEWLINE] || (p.newline == [] && (p.context == [] || p.context[|p.context| - 1] != NEWLINE)))
  }

  lemma NothingLeft(line: Line, pre: Line, context: Line, newline: Line)
    requires line == pre + context + newline && CoreStart(line) == |pre| && pre != [] && pre[|pre| - 1] != NEWLINE
    requires context == [] || ContextAt(context, 0, |context|)
    requires newline == [NEWLINE] || (newline == [] && (context == [] || context[|context| - 1] != NEWLINE))
    ensures Core(line) == line
  {
    assert TrimmedEnd(line) == |pre| + |context|;
    ContextFound(line, pre, context, newline, 0);
  }

  lemma PrefixEnds(p: Parts)
    requires LeadShaped(p)
    ensures Prefix(p) != [] && Prefix(p)[|Prefix(p)| - 1] == SPACE
  {
  }

  /** Such a line is its own core, whole. */
  lemma CoreOfMessageless(p: Parts)
    requires Messageless(p)
    ensures Core(Join(p)) == Join(p)
  {
    var tail := p.context + p.newline;
    assert p.core + p.context + p.newline == tail;
    assert tail == [] || tail[0] != STAR;
    CoreStartOfParts(p);
    PrefixEnds(p);
    JoinOfMessageless(p);
    NothingLeft(Join(p), Prefix(p), p.context, p.newline);
  }

  lemma JoinOfMessageless(p: Parts)
    requires p.core == []
    ensures Join(p) == Prefix(p) + p.context + p.newline
  {
    assert Prefix(p) + [] == Prefix(p);
  }

  // ── The key ─────────────────────────────────────────────────────────────────

  const OFFSET_BASIS: nat := 14695981039346656037
  const PRIME: nat := 1099511628211

  /** Bitwise exclusive or. */
  function Xor(a: nat, b: nat): nat
    decreases b
  {
    if b == 0 then a
    else if a % 2 == b % 2 then 2 * Xor(a / 2, b / 2)
    else 2 * Xor(a / 2, b / 2) + 1
  }

  function Round(h: nat, b: byte): nat { Xor(h, b) * PRIME % U64_SIZE }

  function Fnv(h: nat, s: seq<byte>): nat
    decreases |s|
  {
    if s == [] then h else Fnv(Round(h, s[0]), s[1..])
  }

  function RawHash(severity: byte, core: Line): nat { Fnv(Round(OFFSET_BASIS, severity), core) }

  function Key(severity: byte, core: Line): (k: nat)
    ensures 0 < k < U64_SIZE
  {
    FnvRange(Round(OFFSET_BASIS, severity), core);
    var h := RawHash(severity, core);
    if h == 0 then 1 else h
  }

  lemma {:induction false} FnvRange(h: nat, s: seq<byte>)
    requires h < U64_SIZE
    ensures Fnv(h, s) < U64_SIZE
    decreases |s|
  {
    if s != [] { FnvRange(Round(h, s[0]), s[1..]); }
  }

  method CoalesceKey(severity: byte, core: Line) returns (key: nat)
    ensures key == Key(severity, core)
  {
    var h := Round(OFFSET_BASIS, severity);
    for i := 0 to |core|
      invariant Fnv(h, core[i..]) == RawHash(severity, core)
    {
      h := Round(h, core[i]);
      assert core[i..][1..] == core[i + 1..];
    }
    return if h == 0 then 1 else h;
  }

  /** Everything but severity and message is ignored: equal messages share a key whatever else the lines say. */
  lemma KeyIgnoresPrefixAndContext(p: Parts, q: Parts, severity: byte)
    requires WellShaped(p) && WellShaped(q) && p.core == q.core
    ensures Key(severity, Core(Join(p))) == Key(severity, Core(Join(q)))
  {
    CoreOfWellShaped(p);
    CoreOfWellShaped(q);
  }

  // ── Severities keep one message apart ───────────────────────────────────────

  lemma {:induction false} XorCancels(a: nat, b: nat)
    ensures Xor(Xor(a, b), b) == a
    decreases b
  {
    if b != 0 {
      assert Xor(a, b) / 2 == Xor(a / 2, b / 2);
      XorCancels(a / 2, b / 2);
    }
  }

  lemma XorHalves(a: nat, b: nat)
    ensures Xor(a, b) / 2 == Xor(a / 2, b / 2) && Xor(a, b) % 2 == if a % 2 == b % 2 then 0 else 1
  {
  }

  lemma {:induction false} XorDistinct(a: nat, b: nat, c: nat)
    requires Xor(a, b) == Xor(a, c)
    ensures b == c
    decreases b + c
  {
    if b != 0 || c != 0 {
      XorHalves(a, b);
      XorHalves(a, c);
      XorDistinct(a / 2, b / 2, c / 2);
    }
  }

  lemma HalfBelow(a: nat, b: nat, half: nat)
    requires Xor(a / 2, b / 2) < half
    ensures Xor(a, b) < 2 * half
  {
    XorHalves(a, b);
  }

  lemma {:induction false} XorRange(a: nat, b: nat, n: nat, k: nat)
    requires a < n && b < n && n == Pow2(k)
    ensures Xor(a, b) < n
    decreases k
  {
    if k > 0 {
      var half := Pow2(k - 1);
      assert n == 2 * half;
      XorRange(a / 2, b / 2, half, k - 1);
      HalfBelow(a, b, half);
    }
  }

  /** The FNV prime is odd, so multiplying by it loses nothing modulo 2^64. */
  lemma PrimeInjective(x: nat, y: nat)
    requires x < U64_SIZE && y < U64_SIZE && x * PRIME % U64_SIZE == y * PRIME % U64_SIZE
    ensures x == y
  {
    var inverse, c := 14886173955864302971, 887285111055;
    assert PRIME * inverse == 1 + c * U64_SIZE;
    var d, e := x - y, x * PRIME / U64_SIZE - y * PRIME / U64_SIZE;
    assert d * PRIME == e * U64_SIZE;
    calc {
      d + d * c * U64_SIZE;
      d * (PRIME * inverse);
      (d * PRIME) * inverse;
      e * U64_SIZE * inverse;
    }
    assert d == U64_SIZE * (e * inverse - d * c);
  }

  lemma RoundInjective(h: nat, g: nat, b: byte)
    requires h < U64_SIZE && g < U64_SIZE && Round(h, b) == Round(g, b)
    ensures h == g
  {
    var k := U64IsPow2();
    XorRange(h, b, U64_SIZE, k);
    XorRange(g, b, U64_SIZE, k);
    PrimeInjective(Xor(h, b), Xor(g, b));
    XorCancels(h, b);
    XorCancels(g, b);
  }

  lemma {:induction false} FnvInjective(h: nat, g: nat, s: seq<byte>)
    requires h < U64_SIZE && g < U64_SIZE && Fnv(h, s) == Fnv(g, s)
    ensures h == g
    decreases |s|
  {
    if s != [] {
      FnvInjective(Round(h, s[0]), Round(g, s[0]), s[1..]);
      RoundInjective(h, g, s[0]);
    }
  }

  /** One message at two severities never hashes alike: every FNV round is a bijection. */
  lemma SeveritiesHashApart(core: Line, s1: byte, s2: byte)
    requires s1 != s2
    ensures RawHash(s1, core) != RawHash(s2, core)
  {
    if RawHash(s1, core) == RawHash(s2, core) {
      FnvInjective(Round(OFFSET_BASIS, s1), Round(OFFSET_BASIS, s2), core);
      var k := U64IsPow2();
      XorRange(OFFSET_BASIS, s1, U64_SIZE, k);
      XorRange(OFFSET_BASIS, s2, U64_SIZE, k);
      PrimeInjective(Xor(OFFSET_BASIS, s1), Xor(OFFSET_BASIS, s2));
      XorDistinct(OFFSET_BASIS, s1, s2);
    }
  }

  /**
   So one message gets distinct keys at distinct severities, except in the single case the empty-slot
   sentinel creates: one hash is 0, remapped to 1, and the other is 1.
   */
  lemma SeveritiesKeyApart(core: Line, s1: byte, s2: byte)
    requires s1 != s2
    ensures Key(s1, core) == Key(s2, core) <==> {RawHash(s1, core), RawHash(s2, core)} == {0, 1}
  {
    SeveritiesHashApart(core, s1, s2);
    var a, b := RawHash(s1, core), RawHash(s2, core);
    assert a in {a, b} && b in {a, b};
    if Key(s1, core) == Key(s2, core) {
      assert {a, b} == {0, 1};
    }
  }
}
