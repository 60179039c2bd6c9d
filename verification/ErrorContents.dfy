/**
 What the error lane carries, record by record: which messages are pushed and with which hash, what the parser
 accepts, and what the collection reports of every popped record and of every count without one.
 */
module ErrorContents {
  import opened Bytes
  import opened RingBytes
  import opened Ring
  import opened CoalesceTable
  import opened DrainAccounting

  // ── Messages the coalescer does not track ───────────────────────────────────

  /** Coalescing is off, or the message is an emergency, alert or critical one. */
  predicate OptedOut(msg: Message, enabled: bool) { !enabled || msg.level <= 3 }

  function PlainRecord(msg: Message): Record { EncodeError(ErrorRecord(msg.ts, msg.level, 0, msg.line)) }

  function PlainRecords(msgs: seq<Message>): (recs: seq<Record>)
    ensures |recs| == |msgs| && forall k | 0 <= k < |msgs| :: recs[k] == PlainRecord(msgs[k])
  {
    if msgs == [] then [] else PlainRecords(msgs[..|msgs| - 1]) + [PlainRecord(msgs[|msgs| - 1])]
  }

  /** One such message leaves the table alone and is pushed with hash zero. */
  lemma OptedOutOne(st: LogState, msg: Message, enabled: bool)
    requires OptedOut(msg, enabled)
    ensures LogOne(st, msg, enabled) == LogState(st.table, Pushed(st.ring, PlainRecord(msg)))
  {
  }

  lemma PushAttempts(f: Fifo, rec: Record)
    requires f.cap > 0
    ensures Pushed(f, rec).cap == f.cap && |Pushed(f, rec).records| + Pushed(f, rec).dropped == |f.records| + f.dropped + 1
  {
  }

  lemma {:induction false} OptedOutAttempts(st: LogState, msgs: seq<Message>, enabled: bool)
    requires st.ring.cap > 0 && forall k | 0 <= k < |msgs| :: OptedOut(msgs[k], enabled)
    ensures
      var end := LogAll(st, msgs, enabled);
      && end.table == st.table && end.ring.cap == st.ring.cap
      && |end.ring.records| + end.ring.dropped == |st.ring.records| + st.ring.dropped + |msgs|
    decreases |msgs|
  {
    if msgs != [] {
      var prefix, msg := msgs[..|msgs| - 1], msgs[|msgs| - 1];
      OptedOutAttempts(st, prefix, enabled);
      OptedOutOne(LogAll(st, prefix, enabled), msg, enabled);
      PushAttempts(LogAll(st, prefix, enabled).ring, PlainRecord(msg));
    }
  }

  lemma PlainLast(before: seq<Record>, msgs: seq<Message>)
    requires msgs != []
    ensures
      var prefix, msg := msgs[..|msgs| - 1], msgs[|msgs| - 1];
      before + PlainRecords(msgs) == before + PlainRecords(prefix) + [PlainRecord(msg)]
  {
  }

  lemma {:induction false} OptedOutQueue(st: LogState, msgs: seq<Message>, enabled: bool)
    requires st.ring.cap > 0 && forall k | 0 <= k < |msgs| :: OptedOut(msgs[k], enabled)
    requires |Wire(st.ring.records + PlainRecords(msgs))| <= st.ring.cap
    ensures LogAll(st, msgs, enabled) == st.(ring := st.ring.(records := st.ring.records + PlainRecords(msgs)))
    decreases |msgs|
  {
    if msgs == [] {
      assert st.ring.records + PlainRecords(msgs) == st.ring.records;
    } else {
      var prefix, msg := msgs[..|msgs| - 1], msgs[|msgs| - 1];
      var queued := st.ring.records + PlainRecords(prefix);
      PlainLast(st.ring.records, msgs);
      WireAppend(queued, PlainRecord(msg));
      OptedOutQueue(st, prefix, enabled);
      OptedOutOne(LogAll(st, prefix, enabled), msg, enabled);
    }
  }

  /**
   Any number of such messages leave the table as it was and attempt one push each, with hash zero; when there is
   room they are queued one for one in order.
   */
  lemma OptedOutRun(st: LogState, msgs: seq<Message>, enabled: bool)
    requires st.ring.cap > 0 && forall k | 0 <= k < |msgs| :: OptedOut(msgs[k], enabled)
    ensures
      var end := LogAll(st, msgs, enabled);
      && end.table == st.table
      && |end.ring.records| + end.ring.dropped == |st.ring.records| + st.ring.dropped + |msgs|
      && (|Wire(st.ring.records + PlainRecords(msgs))| <= st.ring.cap ==>
            end.ring.records == st.ring.records + PlainRecords(msgs) && end.ring.dropped == st.ring.dropped)
  {
    OptedOutAttempts(st, msgs, enabled);
    if |Wire(st.ring.records + PlainRecords(msgs))| <= st.ring.cap { OptedOutQueue(st, msgs, enabled); }
  }

  /** The messages that are tracked, in order. */
  function TrackedOnly(msgs: seq<Message>, enabled: bool): seq<Message> {
    if msgs == [] then []
    else
      var msg := msgs[|msgs| - 1];
      TrackedOnly(msgs[..|msgs| - 1], enabled) + (if OptedOut(msg, enabled) then [] else [msg])
  }

  lemma TableOfOne(st: LogState, st': LogState, msg: Message, enabled: bool)
    requires st.table == st'.table
    ensures LogOne(st, msg, enabled).table == LogOne(st', msg, enabled).table
  {
  }

  /** In any mixture, the others do not touch the table: it is that of the tracked messages alone. */
  lemma {:induction false} TableIgnoresOptedOut(st: LogState, msgs: seq<Message>, enabled: bool)
    ensures LogAll(st, msgs, enabled).table == LogAll(st, TrackedOnly(msgs, enabled), enabled).table
    decreases |msgs|
  {
    if msgs != [] {
      var prefix, msg := msgs[..|msgs| - 1], msgs[|msgs| - 1];
      TableIgnoresOptedOut(st, prefix, enabled);
      var only := TrackedOnly(prefix, enabled);
      if OptedOut(msg, enabled) {
        OptedOutOne(LogAll(st, prefix, enabled), msg, enabled);
        assert only + [] == only;
      } else {
        TableOfOne(LogAll(st, prefix, enabled), LogAll(st, only, enabled), msg, enabled);
        assert (only + [msg])[..|only|] == only;
      }
    }
  }

  // ── Which messages are pushed ───────────────────────────────────────────────

  /** The message is in no entry, or the first in its own. */
  ghost predicate Emits(fates: seq<Option<Id>>, k: nat)
    requires k < |fates|
  {
    fates[k].None? || forall j | 0 <= j < k :: fates[j] != fates[k]
  }

  /** The record of a message: its time, level and line, and the key of the entry it opened or zero. */
  function RecordFor(msg: Message, fate: Option<Id>): Record {
    EncodeError(ErrorRecord(msg.ts, msg.level, if fate.Some? then fate.value.0 else 0, msg.line))
  }

  ghost predicate Ascending(from: seq<nat>, n: nat) {
    && (forall i | 0 <= i < |from| :: from[i] < n)
    && (forall i, j | 0 <= i < j < |from| :: from[i] < from[j])
  }

  /** The records are those of the messages numbered in `from`, in order, all of which emit. */
  ghost predicate Carried(recs: seq<Record>, msgs: seq<Message>, fates: seq<Option<Id>>, from: seq<nat>)
    requires |fates| == |msgs|
  {
    && |from| == |recs| && Ascending(from, |msgs|)
    && (forall i | 0 <= i < |recs| :: recs[i] == RecordFor(msgs[from[i]], fates[from[i]]) && Emits(fates, from[i]))
  }

  ghost predicate NoneMissing(fates: seq<Option<Id>>, from: seq<nat>) {
    forall k: nat | k < |fates| && Emits(fates, k) :: k in from
  }

  lemma MissingOn(fates: seq<Option<Id>>, from: seq<nat>)
    requires fates != []
    ensures
      var n := |fates| - 1;
      NoneMissing(fates[..n], from) ==> NoneMissing(fates, from + [n]) && (!Emits(fates, n) ==> NoneMissing(fates, from))
  {
    var n := |fates| - 1;
    forall k: nat | k < n && Emits(fates, k) ensures Emits(fates[..n], k) {
      assert forall j | 0 <= j < n :: fates[..n][j] == fates[j];
    }
  }

  /** Entries are exactly what messages were counted in, each with its sample out. */
  ghost predicate Opened(table: map<Id, Entry>, fates: seq<Option<Id>>) {
    && (forall id | id in table :: table[id].sampled && exists k | 0 <= k < |fates| :: fates[k] == Some(id))
    && (forall k | 0 <= k < |fates| && fates[k].Some? :: fates[k].value in table)
  }

  lemma OpenedStep(table: map<Id, Entry>, fates: seq<Option<Id>>, id: Id, tracked: bool)
    requires Opened(table, fates)
    ensures Opened(SpecCoalesce(table, id, tracked).0, fates + [Fate(table, id, tracked)])
  {
    var f, table' := Fate(table, id, tracked), SpecCoalesce(table, id, tracked).0;
    var longer := fates + [f];
    assert longer[|fates|] == f;
    forall x | x in table' ensures table'[x].sampled && exists k | 0 <= k < |longer| :: longer[k] == Some(x) {
      if x in table {
        var k :| 0 <= k < |fates| && fates[k] == Some(x);
        assert longer[k] == Some(x);
      }
    }
  }

  /** A call pushes its record exactly when it emits, and the record carries the key of its entry. */
  lemma PushStep(st: LogState, msg: Message, fates: seq<Option<Id>>, id: Id, tracked: bool)
    requires Opened(st.table, fates)
    ensures
      var f := Fate(st.table, id, tracked);
      LogAs(st, msg, id, tracked).ring ==
        if Emits(fates + [f], |fates|) then Pushed(st.ring, RecordFor(msg, f)) else st.ring
  {
    var f := Fate(st.table, id, tracked);
    var longer := fates + [f];
    assert forall k | 0 <= k < |fates| :: longer[k] == fates[k];
    if tracked && id in st.table {
      var k :| 0 <= k < |fates| && fates[k] == Some(id);
      assert longer[k] == longer[|fates|];
    }
  }

  lemma CarryOn(recs: seq<Record>, msgs: seq<Message>, fates: seq<Option<Id>>, from: seq<nat>)
    requires msgs != [] && |fates| == |msgs| && Carried(recs, msgs[..|msgs| - 1], fates[..|fates| - 1], from)
    ensures Carried(recs, msgs, fates, from)
    ensures
      var n := |msgs| - 1;
      Emits(fates, n) ==> Carried(recs + [RecordFor(msgs[n], fates[n])], msgs, fates, from + [n])
  {
    var n := |msgs| - 1;
    forall i | 0 <= i < |recs| ensures recs[i] == RecordFor(msgs[from[i]], fates[from[i]]) && Emits(fates, from[i]) {
      assert Emits(fates[..n], from[i]);
      assert forall j | 0 <= j < n :: fates[..n][j] == fates[j];
    }
  }

  /** After the messages: entries opened, the queue carried by `from`, none missing while nothing was dropped. */
  ghost predicate CarriedSince(start: Fifo, end: LogState, msgs: seq<Message>, fates: seq<Option<Id>>, from: seq<nat>)
    requires |fates| == |msgs|
  {
    && Opened(end.table, fates) && Carried(end.ring.records, msgs, fates, from)
    && end.ring.cap == start.cap && end.ring.dropped >= start.dropped
    && (start.cap > 0 && end.ring.dropped == start.dropped ==> NoneMissing(fates, from))
  }

  /** One record pushed, or not. */
  lemma CarryPush(start: Fifo, ring: Fifo, msgs: seq<Message>, fates: seq<Option<Id>>, from: seq<nat>, ring': Fifo) returns (from': seq<nat>)
    requires msgs != [] && |fates| == |msgs| && ring.cap == start.cap && ring.dropped >= start.dropped
    requires Carried(ring.records, msgs[..|msgs| - 1], fates[..|msgs| - 1], from)
    requires start.cap > 0 && ring.dropped == start.dropped ==> NoneMissing(fates[..|msgs| - 1], from)
    requires
      var n := |msgs| - 1;
      ring' == if Emits(fates, n) then Pushed(ring, RecordFor(msgs[n], fates[n])) else ring
    ensures Carried(ring'.records, msgs, fates, from')
    ensures ring'.cap == start.cap && ring'.dropped >= start.dropped
    ensures start.cap > 0 && ring'.dropped == start.dropped ==> NoneMissing(fates, from')
  {
    var n := |msgs| - 1;
    CarryOn(ring.records, msgs, fates, from);
    MissingOn(fates, from);
    from' := if Emits(fates, n) && Fits(ring, RecordFor(msgs[n], fates[n])) then from + [n] else from;
  }

  lemma CarryStep(start: Fifo, mid: LogState, msgs: seq<Message>, fates: seq<Option<Id>>, from: seq<nat>, id: Id, tracked: bool)
      returns (from': seq<nat>)
    requires msgs != [] && |fates| == |msgs| && fates[|msgs| - 1] == Fate(mid.table, id, tracked)
    requires CarriedSince(start, mid, msgs[..|msgs| - 1], fates[..|msgs| - 1], from)
    ensures CarriedSince(start, LogAs(mid, msgs[|msgs| - 1], id, tracked), msgs, fates, from')
  {
    var n := |msgs| - 1;
    var before := fates[..n];
    assert fates == before + [fates[n]];
    OpenedStep(mid.table, before, id, tracked);
    PushStep(mid, msgs[n], before, id, tracked);
    from' := CarryPush(start, mid.ring, msgs, fates, from, LogAs(mid, msgs[n], id, tracked).ring);
  }

  /** From an empty table and ring: the queue is the records of messages that emit, in order, and all of those when nothing was dropped. */
  lemma {:induction false} QueueCarries(st: LogState, msgs: seq<Message>, enabled: bool) returns (from: seq<nat>)
    requires st.table == map[] && st.ring.records == []
    ensures CarriedSince(st.ring, LogAll(st, msgs, enabled), msgs, Fates(st, msgs, enabled), from)
    decreases |msgs|
  {
    if msgs == [] {
      from := [];
    } else {
      var n := |msgs| - 1;
      var all := Fates(st, msgs, enabled);
      from := QueueCarries(st, msgs[..n], enabled);
      assert all[..n] == Fates(st, msgs[..n], enabled);
      from := CarryStep(st.ring, LogAll(st, msgs[..n], enabled), msgs, all, from, MessageId(msgs[n]), Tracked(msgs[n].level, enabled));
    }
  }

  lemma OneMoreId(st: LogState, msg: Message, id: Id, tracked: bool)
    ensures LogAs(st, msg, id, tracked).table.Keys <= st.table.Keys + (if tracked then {id} else {})
  {
  }

  lemma IdsGrow(msgs: seq<Message>, enabled: bool)
    requires msgs != []
    ensures
      var msg := msgs[|msgs| - 1];
      TrackedIds(msgs[..|msgs| - 1], enabled) + (if Tracked(msg.level, enabled) then {MessageId(msg)} else {}) <= TrackedIds(msgs, enabled)
  {
    var n := |msgs| - 1;
    forall id | id in TrackedIds(msgs[..n], enabled) ensures id in TrackedIds(msgs, enabled) {
      var k :| 0 <= k < n && Tracked(msgs[..n][k].level, enabled) && MessageId(msgs[..n][k]) == id;
      assert msgs[k] == msgs[..n][k];
    }
  }

  lemma {:induction false} TableWithin(st: LogState, msgs: seq<Message>, enabled: bool)
    requires st.table == map[]
    ensures LogAll(st, msgs, enabled).table.Keys <= TrackedIds(msgs, enabled)
    decreases |msgs|
  {
    if msgs != [] {
      var prefix, msg := msgs[..|msgs| - 1], msgs[|msgs| - 1];
      TableWithin(st, prefix, enabled);
      OneMoreId(LogAll(st, prefix, enabled), msg, MessageId(msg), Tracked(msg.level, enabled));
      IdsGrow(msgs, enabled);
    }
  }

  lemma FateOf(table: map<Id, Entry>, id: Id, tracked: bool, ids: set<Id>)
    requires table.Keys <= ids && (tracked ==> id in ids) && |ids| <= 256
    ensures Fate(table, id, tracked) == if tracked then Some(id) else None
  {
    if tracked && id !in table {
      Fewer(table.Keys + {id}, ids);
      assert |table.Keys + {id}| == |table| + 1;
    }
  }

  lemma LastFate(st: LogState, msgs: seq<Message>, enabled: bool)
    requires st.table == map[] && msgs != [] && |TrackedIds(msgs, enabled)| <= 256
    ensures
      var prefix, msg := msgs[..|msgs| - 1], msgs[|msgs| - 1];
      Fate(LogAll(st, prefix, enabled).table, MessageId(msg), Tracked(msg.level, enabled)) ==
        if OptedOut(msg, enabled) then None else Some(MessageId(msg))
  {
    var prefix, msg := msgs[..|msgs| - 1], msgs[|msgs| - 1];
    TableWithin(st, prefix, enabled);
    IdsGrow(msgs, enabled);
    FateOf(LogAll(st, prefix, enabled).table, MessageId(msg), Tracked(msg.level, enabled), TrackedIds(msgs, enabled));
  }

  lemma FatesOfPrefix(st: LogState, msgs: seq<Message>, enabled: bool, k: nat)
    requires k < |msgs| - 1
    ensures Fates(st, msgs, enabled)[k] == Fates(st, msgs[..|msgs| - 1], enabled)[k]
  {
  }

  lemma FewerTracked(msgs: seq<Message>, enabled: bool)
    requires msgs != []
    ensures |TrackedIds(msgs[..|msgs| - 1], enabled)| <= |TrackedIds(msgs, enabled)|
  {
    IdsGrow(msgs, enabled);
    Fewer(TrackedIds(msgs[..|msgs| - 1], enabled), TrackedIds(msgs, enabled));
  }

  /** With at most 256 distinct tracked templates, every tracked message is counted in the entry of its key and level. */
  lemma {:induction false} FatesAre(st: LogState, msgs: seq<Message>, enabled: bool, k: nat)
    requires st.table == map[] && |TrackedIds(msgs, enabled)| <= 256 && k < |msgs|
    ensures Fates(st, msgs, enabled)[k] == if OptedOut(msgs[k], enabled) then None else Some(MessageId(msgs[k]))
    decreases |msgs|
  {
    if k == |msgs| - 1 {
      LastFate(st, msgs, enabled);
    } else {
      FatesOfPrefix(st, msgs, enabled, k);
      FewerTracked(msgs, enabled);
      FatesAre(st, msgs[..|msgs| - 1], enabled, k);
    }
  }

  lemma {:induction false} Fewer<T>(a: set<T>, b: set<T>)
    requires a <= b
    ensures |a| <= |b|
    decreases |a|
  {
    if x :| x in a { Fewer(a - {x}, b - {x}); }
  }

  // ── What the parser accepts ─────────────────────────────────────────────────

  /** The record on the wire, with a body of any length that fits its field. */
  function Laid(r: ErrorRecord): Record {
    [1] + BigEndian(r.ts, 8) + [r.level] + BigEndian(r.hash, 8) + BigEndian(|r.body|, 2) + r.body
  }

  /** A buffer parses to a record exactly when it begins with that record laid out. */
  lemma ParsesExactly(buf: seq<byte>, r: ErrorRecord)
    ensures ParseError(buf) == Some(r) <==>
      r.ts < U64_SIZE && r.hash < U64_SIZE && |r.body| < 0x1_0000 && Laid(r) <= buf
  {
    WidthLimits();
    if r.ts < U64_SIZE && r.hash < U64_SIZE && |r.body| < 0x1_0000 && Laid(r) <= buf { LaidParses(buf, r); }
    if ParseError(buf) == Some(r) { ParsedIsLaid(buf, r); }
  }

  lemma LaidLayout(r: ErrorRecord, rest: seq<byte>)
    ensures
      var buf := Laid(r) + rest;
      && |buf| == 20 + |r.body| + |rest| && buf[0] == 1 && buf[9] == r.level
      && buf[1..9] == BigEndian(r.ts, 8) && buf[10..18] == BigEndian(r.hash, 8) && buf[18..20] == BigEndian(|r.body|, 2)
      && buf[20..20 + |r.body|] == r.body
  {
    var ts, hash, len := BigEndian(r.ts, 8), BigEndian(r.hash, 8), BigEndian(|r.body|, 2);
    Layout(r.level, ts, hash, len, r.body + rest);
    assert [1] + ts + [r.level] + hash + len + (r.body + rest) == Laid(r) + rest;
  }

  lemma LaidParses(buf: seq<byte>, r: ErrorRecord)
    requires r.ts < U64_SIZE && r.hash < U64_SIZE && |r.body| < 0x1_0000 && Laid(r) <= buf
    ensures ParseError(buf) == Some(r)
  {
    var rest := buf[|Laid(r)|..];
    assert buf == Laid(r) + rest;
    LaidLayout(r, rest);
    U64RoundTrip(r.ts);
    U64RoundTrip(r.hash);
    U16RoundTrip(|r.body|);
  }

  lemma ParsedIsLaid(buf: seq<byte>, r: ErrorRecord)
    requires ParseError(buf) == Some(r)
    ensures r.ts < U64_SIZE && r.hash < U64_SIZE && |r.body| < 0x1_0000 && Laid(r) <= buf
  {
    WidthLimits();
    EncodeDecode(buf[1..9]);
    EncodeDecode(buf[10..18]);
    EncodeDecode(buf[18..20]);
    var n := 20 + |r.body|;
    assert buf[..n] == [buf[0]] + buf[1..9] + [buf[9]] + buf[10..18] + buf[18..20] + buf[20..n];
  }

  // ── What the collection reports ─────────────────────────────────────────────

  /** The count a sample is given: that of the last line of its hash when it exceeds one, and none otherwise. */
  ghost predicate JoinsLast(vec: seq<Swept>, hash: nat, coalesced: Option<u32>) {
    && (hash == 0 || (forall j | 0 <= j < |vec| :: vec[j].hash != hash) ==> coalesced == None)
    && (forall j | LastLine(vec, hash, j) && hash != 0 :: coalesced == if vec[j].count > 1 then Some(vec[j].count) else None)
  }

  ghost predicate LastLine(vec: seq<Swept>, hash: nat, j: int) {
    0 <= j < |vec| && vec[j].hash == hash && forall k | j < k < |vec| :: vec[k].hash != hash
  }

  lemma {:induction false} CountOfLast(vec: seq<Swept>, hash: nat, j: nat)
    requires LastLine(vec, hash, j)
    ensures hash in CountsMap(vec) && CountsMap(vec)[hash] == vec[j].count
    decreases |vec|
  {
    if j < |vec| - 1 {
      assert LastLine(vec[..|vec| - 1], hash, j);
      CountOfLast(vec[..|vec| - 1], hash, j);
    }
  }

  lemma JoinedLast(rec: ErrorRecord, vec: seq<Swept>)
    ensures Joined(rec, CountsMap(vec)).Sample? && Joined(rec, CountsMap(vec)).rec == rec
    ensures JoinsLast(vec, rec.hash, Joined(rec, CountsMap(vec)).coalesced)
  {
    if forall j | 0 <= j < |vec| :: vec[j].hash != rec.hash { NoLine(vec, rec.hash); }
    forall j | LastLine(vec, rec.hash, j) && rec.hash != 0
      ensures Joined(rec, CountsMap(vec)).coalesced == if vec[j].count > 1 then Some(vec[j].count) else None
    {
      CountOfLast(vec, rec.hash, j);
    }
  }

  /** The records that parse, in order. */
  function Parsing(recs: seq<Record>): (r: seq<Record>)
    ensures forall x | x in r :: x in recs && ParseError(x).Some?
    ensures forall x | x in recs && ParseError(x).Some? :: x in r
    ensures AllParse(recs) ==> r == recs
  {
    if recs == [] then []
    else
      var prefix, x := recs[..|recs| - 1], recs[|recs| - 1];
      assert recs == prefix + [x];
      Parsing(prefix) + (if ParseError(x).Some? then [x] else [])
  }

  /** One sample for each record, with exactly what it parses to and the count of its hash. */
  ghost predicate ReportsEach(samples: seq<OutRecord>, recs: seq<Record>, vec: seq<Swept>) {
    && |samples| == |recs|
    && (forall i | 0 <= i < |recs| ::
          samples[i].Sample? && ParseError(recs[i]) == Some(samples[i].rec) && JoinsLast(vec, samples[i].rec.hash, samples[i].coalesced))
  }

  /** Samples are reported of exactly the records that parse, in ring order. */
  lemma {:induction false} SamplesReport(recs: seq<Record>, vec: seq<Swept>)
    ensures ReportsEach(Samples(recs, CountsMap(vec)), Parsing(recs), vec)
    decreases |recs|
  {
    if recs != [] {
      var p := ParseError(recs[|recs| - 1]);
      SamplesReport(recs[..|recs| - 1], vec);
      if p.Some? { JoinedLast(p.value, vec); }
    }
  }

  /** A counted line that no popped record names. */
  ghost predicate Unnamed(x: Swept, recs: seq<Record>) {
    x.count > 0 && (x.hash == 0 || forall i | 0 <= i < |recs| && ParseError(recs[i]).Some? :: ParseError(recs[i]).value.hash != x.hash)
  }

  function OrphanOf(x: Swept): OutRecord { Synthetic(x.severity, x.hash, x.count) }

  /** The record stands for line `j` of the sweep, which is unnamed. */
  ghost predicate StandsFor(r: OutRecord, vec: seq<Swept>, recs: seq<Record>, j: nat) {
    j < |vec| && Unnamed(vec[j], recs) && r == OrphanOf(vec[j])
  }

  ghost predicate StandsForSome(r: OutRecord, vec: seq<Swept>, recs: seq<Record>) {
    exists j: nat :: StandsFor(r, vec, recs, j)
  }

  /** One synthetic record with severity, hash and count for each unnamed line, and no other. */
  ghost predicate OrphansExactly(synthetics: seq<OutRecord>, vec: seq<Swept>, recs: seq<Record>) {
    && (forall k | 0 <= k < |synthetics| :: StandsForSome(synthetics[k], vec, recs))
    && (forall j | 0 <= j < |vec| && Unnamed(vec[j], recs) :: OrphanOf(vec[j]) in synthetics)
    && (forall k, l | 0 <= k < l < |synthetics| :: synthetics[k] != synthetics[l])
  }

  lemma UnnamedIff(x: Swept, recs: seq<Record>)
    ensures Unnamed(x, recs) <==> x.count > 0 && x.hash !in Consumed(recs)
  {
    ConsumedAre(recs, x.hash);
  }

  lemma StandsOn(r: OutRecord, vec: seq<Swept>, recs: seq<Record>, x: Swept)
    requires StandsForSome(r, vec, recs) && DistinctIds(vec + [x])
    ensures StandsForSome(r, vec + [x], recs) && r != OrphanOf(x)
  {
    var j: nat :| StandsFor(r, vec, recs, j);
    var all := vec + [x];
    assert all[j] == vec[j] && SweptId(all[j]) != SweptId(all[|vec|]);
    assert StandsFor(r, all, recs, j);
  }

  lemma OrphansExtend(synthetics: seq<OutRecord>, vec: seq<Swept>, recs: seq<Record>, x: Swept, more: seq<OutRecord>)
    requires OrphansExactly(synthetics, vec, recs) && DistinctIds(vec + [x])
    requires more == synthetics + (if Unnamed(x, recs) then [OrphanOf(x)] else [])
    ensures OrphansExactly(more, vec + [x], recs)
  {
    var all := vec + [x];
    forall k | 0 <= k < |more|
      ensures StandsForSome(more[k], all, recs) && (k < |synthetics| ==> more[k] != OrphanOf(x))
    {
      if k < |synthetics| {
        assert more[k] == synthetics[k];
        StandsOn(more[k], vec, recs, x);
      } else {
        assert StandsFor(more[k], all, recs, |vec|);
      }
    }
    forall j | 0 <= j < |all| && Unnamed(all[j], recs) ensures OrphanOf(all[j]) in more {
      if j < |vec| {
        assert all[j] == vec[j];
        var k :| 0 <= k < |synthetics| && synthetics[k] == OrphanOf(vec[j]);
        assert more[k] == synthetics[k];
      } else {
        assert more[|synthetics|] == OrphanOf(x);
      }
    }
    forall k, l | 0 <= k < l < |more| ensures more[k] != more[l] {
      assert more[k] == synthetics[k];
      if l < |synthetics| { assert more[l] == synthetics[l]; }
    }
  }

  lemma {:induction false} OrphansAre(vec: seq<Swept>, recs: seq<Record>)
    requires DistinctIds(vec)
    ensures OrphansExactly(Synthetics(vec, Consumed(recs)), vec, recs)
    decreases |vec|
  {
    if vec != [] {
      var prefix, x := vec[..|vec| - 1], vec[|vec| - 1];
      assert vec == prefix + [x];
      OrphansAre(prefix, recs);
      UnnamedIff(x, recs);
      OrphansExtend(Synthetics(prefix, Consumed(recs)), prefix, recs, x, Synthetics(vec, Consumed(recs)));
    }
  }

  // ── From logging to collection ──────────────────────────────────────────────

  /** The record of a message: its time and level, and its line cut after 512 bytes. */
  ghost predicate RecordOfMessage(r: ErrorRecord, m: Message) {
    r.ts == m.ts && r.level == m.level && r.body <= m.line && |r.body| == if |m.line| < 512 then |m.line| else 512
  }

  /** The samples are the records of the messages numbered in `from`, in order. */
  ghost predicate SamplesOf(samples: seq<OutRecord>, msgs: seq<Message>, from: seq<nat>) {
    && Ascending(from, |msgs|) && |samples| <= |from|
    && (forall i | 0 <= i < |samples| :: samples[i].Sample? && RecordOfMessage(samples[i].rec, msgs[from[i]]))
  }

  /** And each carries the hash of its message's template, or zero when it is opted out. */
  ghost predicate HashesOf(samples: seq<OutRecord>, msgs: seq<Message>, enabled: bool, from: seq<nat>) {
    && SamplesOf(samples, msgs, from)
    && (forall i | 0 <= i < |samples| ::
          samples[i].rec.hash == if OptedOut(msgs[from[i]], enabled) then 0 else MessageId(msgs[from[i]]).0)
  }

  function FateHash(f: Option<Id>): nat { if f.Some? then f.value.0 else 0 }

  lemma CarriedParses(recs: seq<Record>, msgs: seq<Message>, fates: seq<Option<Id>>, from: seq<nat>, i: nat)
    requires |fates| == |msgs| && Carried(recs, msgs, fates, from) && i < |recs|
    requires forall k | 0 <= k < |fates| && fates[k].Some? :: fates[k].value.0 < U64_SIZE
    ensures ParseError(recs[i]).Some? && RecordOfMessage(ParseError(recs[i]).value, msgs[from[i]])
    ensures ParseError(recs[i]).value.hash == FateHash(fates[from[i]])
  {
    var m, f := msgs[from[i]], fates[from[i]];
    ParseEncoded(ErrorRecord(m.ts, m.level, FateHash(f), m.line));
  }

  /** What was pushed is what is reported, for the first `n` queued records. */
  lemma CollectedAreLogged(recs: seq<Record>, n: nat, msgs: seq<Message>, fates: seq<Option<Id>>, from: seq<nat>, vec: seq<Swept>)
    requires |fates| == |msgs| && Carried(recs, msgs, fates, from) && n <= |recs|
    requires forall k | 0 <= k < |fates| && fates[k].Some? :: fates[k].value.0 < U64_SIZE
    ensures
      var samples := Samples(recs[..n], CountsMap(vec));
      && |samples| == n && SamplesOf(samples, msgs, from)
      && forall i | 0 <= i < n :: samples[i].rec.hash == FateHash(fates[from[i]])
  {
    var popped := recs[..n];
    forall i | 0 <= i < n
      ensures ParseError(popped[i]).Some? && RecordOfMessage(ParseError(popped[i]).value, msgs[from[i]])
      ensures ParseError(popped[i]).value.hash == FateHash(fates[from[i]])
    {
      CarriedParses(recs, msgs, fates, from, i);
    }
    SamplesReport(popped, vec);
  }

  lemma {:induction false} FateKeys(st: LogState, msgs: seq<Message>, enabled: bool, k: nat)
    requires k < |msgs| && Fates(st, msgs, enabled)[k].Some?
    ensures Fates(st, msgs, enabled)[k].value.0 < U64_SIZE
    decreases |msgs|
  {
    if k < |msgs| - 1 { FateKeys(st, msgs[..|msgs| - 1], enabled, k); }
  }

  /** Every message that is opted out, and the first of every other template, is among `from` when at most 256 templates came. */
  ghost predicate EveryNovelty(msgs: seq<Message>, enabled: bool, from: seq<nat>) {
    |TrackedIds(msgs, enabled)| <= 256 ==>
      forall k: nat | k < |msgs| && Novel(msgs, enabled, k) :: k in from
  }

  ghost predicate Novel(msgs: seq<Message>, enabled: bool, k: nat)
    requires k < |msgs|
  {
    OptedOut(msgs[k], enabled) ||
    forall j | 0 <= j < k && !OptedOut(msgs[j], enabled) :: MessageId(msgs[j]) != MessageId(msgs[k])
  }

  lemma NoveltyEmits(st: LogState, msgs: seq<Message>, enabled: bool, k: nat)
    requires st.table == map[] && |TrackedIds(msgs, enabled)| <= 256 && k < |msgs| && Novel(msgs, enabled, k)
    ensures Emits(Fates(st, msgs, enabled), k)
  {
    FatesAre(st, msgs, enabled, k);
    forall j | 0 <= j < k && !OptedOut(msgs[k], enabled) ensures Fates(st, msgs, enabled)[j] != Fates(st, msgs, enabled)[k] {
      FatesAre(st, msgs, enabled, j);
    }
  }

  /** Logged from empty and collected: the samples are the messages pushed, and with nothing dropped every novelty is among them. */
  lemma LoggedAre(st: LogState, msgs: seq<Message>, enabled: bool, vec: seq<Swept>, n: nat) returns (from: seq<nat>)
    requires st.ring.cap > 0 && st.table == map[] && st.ring.records == [] && n <= |LogAll(st, msgs, enabled).ring.records|
    ensures
      var end := LogAll(st, msgs, enabled);
      var samples := Samples(end.ring.records[..n], CountsMap(vec));
      && |samples| == n && |from| == |end.ring.records| && SamplesOf(samples, msgs, from)
      && (|TrackedIds(msgs, enabled)| <= 256 ==> HashesOf(samples, msgs, enabled, from))
      && (end.ring.dropped == st.ring.dropped ==> EveryNovelty(msgs, enabled, from))
  {
    from := QueueCarries(st, msgs, enabled);
    var end, fates := LogAll(st, msgs, enabled), Fates(st, msgs, enabled);
    forall k | 0 <= k < |fates| && fates[k].Some? ensures fates[k].value.0 < U64_SIZE { FateKeys(st, msgs, enabled, k); }
    CollectedAreLogged(end.ring.records, n, msgs, fates, from, vec);
    if |TrackedIds(msgs, enabled)| <= 256 {
      forall i | 0 <= i < n ensures FateHash(fates[from[i]]) == if OptedOut(msgs[from[i]], enabled) then 0 else MessageId(msgs[from[i]]).0 {
        FatesAre(st, msgs, enabled, from[i]);
      }
    }
    if end.ring.dropped == st.ring.dropped && |TrackedIds(msgs, enabled)| <= 256 {
      forall k: nat | k < |msgs| && Novel(msgs, enabled, k) ensures k in from { NoveltyEmits(st, msgs, enabled, k); }
    }
  }
}
