/**
 One quiescent interval of the error-log lane of one worker: messages go through the coalescer and,
 when it says so, into the error ring; then the exporter sweeps the table, pops the ring, joins the
 two by template hash and emits a synthetic record for every count whose sample never arrived.
 */
module DrainAccounting {
  import opened Bytes
  import opened RingBytes
  import opened Ring
  import opened CoalesceTable
  import SC = StableCore

  // ── The error record on the wire ────────────────────────────────────────────

  const KIND_ERROR: byte := 1
  const ERROR_RECORD_HDR: nat := 20
  const MAX_ERROR_BODY_LEN: nat := 512

  datatype ErrorRecord = ErrorRecord(ts: nat, level: byte, hash: nat, body: seq<byte>)

  function Capped(body: seq<byte>): seq<byte> {
    if |body| <= MAX_ERROR_BODY_LEN then body else body[..MAX_ERROR_BODY_LEN]
  }

  /** `[kind][ts u64][level][hash u64][len u16][body]`, all big-endian. */
  function EncodeError(r: ErrorRecord): Record {
    [KIND_ERROR] + BigEndian(r.ts, 8) + [r.level] + BigEndian(r.hash, 8)
    + BigEndian(|Capped(r.body)|, 2) + Capped(r.body)
  }

  function ParseError(buf: seq<byte>): Option<ErrorRecord> {
    if |buf| < ERROR_RECORD_HDR || buf[0] != KIND_ERROR then None
    else
      var len := FromBigEndian(buf[18..20]);
      if ERROR_RECORD_HDR + len > |buf| then None
      else Some(ErrorRecord(FromBigEndian(buf[1..9]), buf[9], FromBigEndian(buf[10..18]),
                            buf[ERROR_RECORD_HDR..ERROR_RECORD_HDR + len]))
  }

  /** What the writer pushes, the drain parses: every field, the body cut to its cap. */
  lemma ParseEncoded(r: ErrorRecord)
    requires r.ts < U64_SIZE && r.hash < U64_SIZE
    ensures ParseError(EncodeError(r)) == Some(r.(body := Capped(r.body)))
  {
    var buf, body := EncodeError(r), Capped(r.body);
    U64RoundTrip(r.ts);
    U64RoundTrip(r.hash);
    U16RoundTrip(|body|);
    Layout(r.level, BigEndian(r.ts, 8), BigEndian(r.hash, 8), BigEndian(|body|, 2), body);
    assert buf[20..20 + |body|] == body;
  }

  lemma Layout(level: byte, ts: seq<byte>, hash: seq<byte>, len: seq<byte>, body: seq<byte>)
    requires |ts| == 8 && |hash| == 8 && |len| == 2
    ensures
      var buf := [KIND_ERROR] + ts + [level] + hash + len + body;
      && |buf| == 20 + |body| && buf[0] == KIND_ERROR && buf[9] == level
      && buf[1..9] == ts && buf[10..18] == hash && buf[18..20] == len && buf[20..] == body
  {
  }

  // ── The interval: messages in ───────────────────────────────────────────────

  datatype Message = Message(level: byte, line: SC.Line, ts: u64)

  function MessageId(msg: Message): Id { (SC.Key(msg.level, SC.Core(msg.line)), msg.level) }

  datatype LogState = LogState(table: map<Id, Entry>, ring: Fifo)

  ghost function LogOne(st: LogState, msg: Message, enabled: bool): LogState {
    LogAs(st, msg, MessageId(msg), Tracked(msg.level, enabled))
  }

  ghost function LogAs(st: LogState, msg: Message, id: Id, tracked: bool): LogState {
    var (table, result) := SpecCoalesce(st.table, id, tracked);
    match result
    case Coalesced => st.(table := table)
    case EmitVerbatim(hash) =>
      LogState(table, Pushed(st.ring, EncodeError(ErrorRecord(msg.ts, msg.level, hash, msg.line))))
  }

  ghost function LogAll(st: LogState, msgs: seq<Message>, enabled: bool): LogState
    decreases |msgs|
  {
    if msgs == [] then st
    else LogOne(LogAll(st, msgs[..|msgs| - 1], enabled), msgs[|msgs| - 1], enabled)
  }

  // ── The drain: records out ──────────────────────────────────────────────────

  /** `coalesced_count` is attached to a sample only when it exceeds one. */
  datatype OutRecord =
    | Sample(rec: ErrorRecord, coalesced: Option<u32>)
    | Synthetic(severity: byte, hash: nat, count: u32)

  function Weight(r: OutRecord): nat {
    match r
    case Sample(_, None) => 1
    case Sample(_, Some(n)) => n
    case Synthetic(_, _, count) => count
  }

  function TotalWeight(out: seq<OutRecord>): nat {
    if out == [] then 0 else TotalWeight(out[..|out| - 1]) + Weight(out[|out| - 1])
  }

  /** The join map: keyed by hash alone, the last sweep line of a hash winning. */
  function CountsMap(vec: seq<Swept>): map<nat, u32> {
    if vec == [] then map[] else CountsMap(vec[..|vec| - 1])[vec[|vec| - 1].hash := vec[|vec| - 1].count]
  }

  function Joined(rec: ErrorRecord, counts: map<nat, u32>): OutRecord {
    Sample(rec, if rec.hash != 0 && rec.hash in counts && counts[rec.hash] > 1 then Some(counts[rec.hash]) else None)
  }

  /** Records that fail to parse are skipped. */
  function Samples(recs: seq<Record>, counts: map<nat, u32>): seq<OutRecord> {
    if recs == [] then []
    else
      var p := ParseError(recs[|recs| - 1]);
      Samples(recs[..|recs| - 1], counts) + (if p.Some? then [Joined(p.value, counts)] else [])
  }

  /** Only a record that parsed consumes its hash. */
  function Consumed(recs: seq<Record>): set<nat> {
    if recs == [] then {}
    else
      var p := ParseError(recs[|recs| - 1]);
      Consumed(recs[..|recs| - 1]) + (if p.Some? && p.value.hash != 0 then {p.value.hash} else {})
  }

  function Synthetics(vec: seq<Swept>, consumed: set<nat>): seq<OutRecord> {
    if vec == [] then []
    else
      var x := vec[|vec| - 1];
      Synthetics(vec[..|vec| - 1], consumed)
      + (if x.count > 0 && x.hash !in consumed then [Synthetic(x.severity, x.hash, x.count)] else [])
  }

  // ── Reading the table: what has been counted where ──────────────────────────

  /** The entry a message was counted in, if any. */
  ghost function Fate(table: map<Id, Entry>, id: Id, tracked: bool): Option<Id> {
    if tracked && (id in table || |table| < CAPACITY) then Some(id) else None
  }

  ghost function Fates(st: LogState, msgs: seq<Message>, enabled: bool): (fates: seq<Option<Id>>)
    ensures |fates| == |msgs|
    decreases |msgs|
  {
    if msgs == [] then []
    else
      var prefix, msg := msgs[..|msgs| - 1], msgs[|msgs| - 1];
      Fates(st, prefix, enabled)
      + [Fate(LogAll(st, prefix, enabled).table, MessageId(msg), Tracked(msg.level, enabled))]
  }

  function Occurrences(fates: seq<Option<Id>>, id: Id): (n: nat)
    ensures n <= |fates|
  {
    if fates == [] then 0
    else Occurrences(fates[..|fates| - 1], id) + (if fates[|fates| - 1] == Some(id) then 1 else 0)
  }

  function Counted(fates: seq<Option<Id>>): nat {
    if fates == [] then 0
    else Counted(fates[..|fates| - 1]) + (if fates[|fates| - 1].Some? then 1 else 0)
  }

  function SumCounts(vec: seq<Swept>): nat {
    if vec == [] then 0 else SumCounts(vec[..|vec| - 1]) + vec[|vec| - 1].count
  }

  function SumOccurrences(vec: seq<Swept>, fates: seq<Option<Id>>): nat {
    if vec == [] then 0
    else SumOccurrences(vec[..|vec| - 1], fates) + Occurrences(fates, SweptId(vec[|vec| - 1]))
  }

  /** One more fate adds one to exactly the line of the entry it names. */
  lemma {:induction false} SumOneMore(vec: seq<Swept>, fates: seq<Option<Id>>, f: Option<Id>)
    requires DistinctIds(vec)
    ensures SumOccurrences(vec, fates + [f]) ==
      SumOccurrences(vec, fates) + (if f.Some? && exists j | 0 <= j < |vec| :: SweptId(vec[j]) == f.value then 1 else 0)
    decreases |vec|
  {
    if vec != [] {
      var n := |vec| - 1;
      SumOneMore(vec[..n], fates, f);
      assert (fates + [f])[..|fates|] == fates;
      if f.Some? {
        if j :| 0 <= j < n && SweptId(vec[j]) == f.value {
          assert vec[..n][j] == vec[j] && SweptId(vec[j]) != SweptId(vec[n]);
        }
      }
    }
  }

  lemma {:induction false} SumNone(vec: seq<Swept>)
    ensures SumOccurrences(vec, []) == 0
    decreases |vec|
  {
    if vec != [] { SumNone(vec[..|vec| - 1]); }
  }

  /** Every counted message is counted on one line. */
  lemma {:induction false} SumIsCounted(vec: seq<Swept>, fates: seq<Option<Id>>)
    requires DistinctIds(vec)
    requires forall k | 0 <= k < |fates| && fates[k].Some? :: exists j | 0 <= j < |vec| :: SweptId(vec[j]) == fates[k].value
    ensures SumOccurrences(vec, fates) == Counted(fates)
    decreases |fates|
  {
    if fates == [] {
      SumNone(vec);
    } else {
      var n := |fates| - 1;
      SumIsCounted(vec, fates[..n]);
      assert fates == fates[..n] + [fates[n]];
      SumOneMore(vec, fates[..n], fates[n]);
    }
  }

  // ── What holds after any number of messages ─────────────────────────────────

  function TrackedIds(msgs: seq<Message>, enabled: bool): set<Id> {
    set k | 0 <= k < |msgs| && Tracked(msgs[k].level, enabled) :: MessageId(msgs[k])
  }

  /** No key at two severities. */
  ghost predicate KeysApart(ids: set<Id>) {
    forall a, b | a in ids && b in ids && a.0 == b.0 :: a == b
  }

  /** No two severities of tracked messages share a key. */
  ghost predicate NoCollision(msgs: seq<Message>, enabled: bool) {
    KeysApart(TrackedIds(msgs, enabled))
  }

  /** The table counts exactly what the fates say; a sample has been attempted for every entry. */
  ghost predicate CountsMatch(table: map<Id, Entry>, fates: seq<Option<Id>>) {
    && (forall id | id in table :: table[id].sampled && table[id].count == Occurrences(fates, id) > 0)
    && (forall k | 0 <= k < |fates| && fates[k].Some? :: fates[k].value in table)
  }

  lemma SamplesExtend(recs: seq<Record>, counts: map<nat, u32>, n: nat)
    requires n < |recs|
    ensures
      var p := ParseError(recs[n]);
      && Samples(recs[..n + 1], counts) == Samples(recs[..n], counts) + (if p.Some? then [Joined(p.value, counts)] else [])
      && Consumed(recs[..n + 1]) == Consumed(recs[..n]) + (if p.Some? && p.value.hash != 0 then {p.value.hash} else {})
  {
    assert recs[..n + 1][..n] == recs[..n];
  }

  function RecordHash(rec: Record): nat {
    var p := ParseError(rec);
    if p.Some? then p.value.hash else 0
  }

  /** Every queued record parses, names an entry or none, and no entry is named twice. */
  ghost predicate SamplesMatch(recs: seq<Record>, table: map<Id, Entry>) {
    && (forall i | 0 <= i < |recs| :: ParseError(recs[i]).Some?)
    && (forall i | 0 <= i < |recs| && RecordHash(recs[i]) != 0 :: Names(table, RecordHash(recs[i])))
    && (forall i, j | 0 <= i < j < |recs| && RecordHash(recs[i]) != 0 :: RecordHash(recs[i]) != RecordHash(recs[j]))
  }

  ghost predicate Names(table: map<Id, Entry>, hash: nat) {
    exists id: Id :: id in table && id.0 == hash
  }

  ghost predicate Tallied(st: LogState, cap: nat, before: nat, seen: set<Id>, fates: seq<Option<Id>>) {
    && st.ring.cap == cap
    && CountsMatch(st.table, fates)
    && st.table.Keys <= seen
    && SamplesMatch(st.ring.records, st.table)
    && st.ring.dropped >= before
    // one push attempt per entry and per message that is in no entry
    && |st.ring.records| + (st.ring.dropped - before) + Counted(fates) == |st.table| + |fates|
  }

  lemma OccurrencesExtend(fates: seq<Option<Id>>, f: Option<Id>, id: Id)
    ensures Occurrences(fates + [f], id) == Occurrences(fates, id) + (if f == Some(id) then 1 else 0)
    ensures Counted(fates + [f]) == Counted(fates) + (if f.Some? then 1 else 0)
  {
    assert (fates + [f])[..|fates|] == fates;
  }

  lemma {:induction false} NeverCounted(fates: seq<Option<Id>>, id: Id)
    requires forall k | 0 <= k < |fates| :: fates[k] != Some(id)
    ensures Occurrences(fates, id) == 0
    decreases |fates|
  {
    if fates != [] { NeverCounted(fates[..|fates| - 1], id); }
  }

  lemma CountsMatchStep(table: map<Id, Entry>, fates: seq<Option<Id>>, id: Id, tracked: bool)
    requires CountsMatch(table, fates) && |fates| + 1 < U32_SIZE
    ensures CountsMatch(SpecCoalesce(table, id, tracked).0, fates + [Fate(table, id, tracked)])
  {
    var f, table' := Fate(table, id, tracked), SpecCoalesce(table, id, tracked).0;
    forall x | x in table' ensures table'[x].sampled && table'[x].count == Occurrences(fates + [f], x) > 0 {
      OccurrencesExtend(fates, f, x);
      if x !in table { NeverCounted(fates, x); }
    }
  }

  /** Without collisions, a hash the table does not hold under this id it does not hold at all. */
  lemma NovelHash(table: map<Id, Entry>, seen: set<Id>, id: Id)
    requires table.Keys <= seen && id in seen && KeysApart(seen) && id !in table
    ensures !Names(table, id.0)
  {
  }

  lemma NamesGrow(table: map<Id, Entry>, table': map<Id, Entry>, hash: nat)
    requires Names(table, hash) && table.Keys <= table'.Keys
    ensures Names(table', hash)
  {
    var id :| id in table && id.0 == hash;
    assert id in table';
  }

  lemma SamplesGrow(recs: seq<Record>, table: map<Id, Entry>, table': map<Id, Entry>)
    requires SamplesMatch(recs, table) && table.Keys <= table'.Keys
    ensures SamplesMatch(recs, table')
  {
    forall i | 0 <= i < |recs| && RecordHash(recs[i]) != 0 ensures Names(table', RecordHash(recs[i])) {
      NamesGrow(table, table', RecordHash(recs[i]));
    }
  }

  /** A record for a fresh entry, or for none, joins the queue without ambiguity. */
  lemma SamplesPush(recs: seq<Record>, table: map<Id, Entry>, r: ErrorRecord)
    requires SamplesMatch(recs, table) && r.ts < U64_SIZE && r.hash < U64_SIZE
    requires r.hash != 0 ==> Names(table, r.hash)
    requires forall i | 0 <= i < |recs| && RecordHash(recs[i]) != 0 :: RecordHash(recs[i]) != r.hash
    ensures SamplesMatch(recs + [EncodeError(r)], table)
  {
    ParseEncoded(r);
    var all := recs + [EncodeError(r)];
    assert RecordHash(all[|recs|]) == r.hash;
  }

  lemma SamplesMatchStep(st: LogState, msg: Message, id: Id, tracked: bool)
    requires SamplesMatch(st.ring.records, st.table) && (forall x | x in st.table :: st.table[x].sampled)
    requires id.0 < U64_SIZE && (tracked && id !in st.table ==> !Names(st.table, id.0))
    ensures SamplesMatch(LogAs(st, msg, id, tracked).ring.records, LogAs(st, msg, id, tracked).table)
  {
    var (table, result) := SpecCoalesce(st.table, id, tracked);
    SamplesGrow(st.ring.records, st.table, table);
    if result.EmitVerbatim? {
      var r := ErrorRecord(msg.ts, msg.level, result.templateHash, msg.line);
      if r.hash != 0 { assert id in table; }
      SamplesPush(st.ring.records, table, r);
    }
  }

  /** A call either bumps an entry, or attempts exactly one push. */
  lemma AttemptsStep(st: LogState, msg: Message, id: Id, tracked: bool)
    requires st.ring.cap > 0 && forall x | x in st.table :: st.table[x].sampled
    ensures
      var st', f := LogAs(st, msg, id, tracked), Fate(st.table, id, tracked);
      && st'.ring.cap == st.ring.cap && st'.ring.dropped >= st.ring.dropped
      && |st'.ring.records| + st'.ring.dropped - |st'.table| + (if f.Some? then 1 else 0)
         == |st.ring.records| + st.ring.dropped - |st.table| + 1
  {
  }

  lemma TalliedStep(st: LogState, cap: nat, before: nat, seen: set<Id>, fates: seq<Option<Id>>,
                    msg: Message, id: Id, tracked: bool)
    requires cap > 0 && Tallied(st, cap, before, seen, fates) && id.0 < U64_SIZE && |fates| + 1 < U32_SIZE
    requires KeysApart(seen) && (tracked ==> id in seen)
    ensures Tallied(LogAs(st, msg, id, tracked), cap, before, seen, fates + [Fate(st.table, id, tracked)])
  {
    CountsMatchStep(st.table, fates, id, tracked);
    if tracked && id !in st.table { NovelHash(st.table, seen, id); }
    SamplesMatchStep(st, msg, id, tracked);
    AttemptsStep(st, msg, id, tracked);
    OccurrencesExtend(fates, Fate(st.table, id, tracked), id);
  }

  lemma {:induction false} TalliedPrefix(st: LogState, msgs: seq<Message>, enabled: bool, seen: set<Id>)
    requires st.ring.cap > 0 && st.table == map[] && st.ring.records == []
    requires |msgs| < U32_SIZE && TrackedIds(msgs, enabled) <= seen && KeysApart(seen)
    ensures Tallied(LogAll(st, msgs, enabled), st.ring.cap, st.ring.dropped, seen, Fates(st, msgs, enabled))
    decreases |msgs|
  {
    if msgs != [] {
      var n := |msgs| - 1;
      var prefix, msg := msgs[..n], msgs[n];
      assert Tracked(msg.level, enabled) ==> MessageId(msg) in TrackedIds(msgs, enabled);
      assert forall k | 0 <= k < n :: prefix[k] == msgs[k];
      assert TrackedIds(prefix, enabled) <= TrackedIds(msgs, enabled);
      TalliedPrefix(st, prefix, enabled, seen);
      TalliedStep(LogAll(st, prefix, enabled), st.ring.cap, st.ring.dropped, seen, Fates(st, prefix, enabled),
                  msg, MessageId(msg), Tracked(msg.level, enabled));
    }
  }

  lemma TalliedAlways(st: LogState, msgs: seq<Message>, enabled: bool)
    requires st.ring.cap > 0 && st.table == map[] && st.ring.records == []
    requires |msgs| < U32_SIZE && NoCollision(msgs, enabled)
    ensures Tallied(LogAll(st, msgs, enabled), st.ring.cap, st.ring.dropped, TrackedIds(msgs, enabled), Fates(st, msgs, enabled))
  {
    TalliedPrefix(st, msgs, enabled, TrackedIds(msgs, enabled));
  }

  // ── Joining counts and samples ──────────────────────────────────────────────

  ghost predicate HashesApart(vec: seq<Swept>) {
    forall j, k | 0 <= j < k < |vec| :: vec[j].hash != vec[k].hash
  }

  ghost predicate AllCounted(vec: seq<Swept>) {
    forall j | 0 <= j < |vec| :: vec[j].count > 0
  }

  lemma {:induction false} CountsMapAt(vec: seq<Swept>, j: nat)
    requires HashesApart(vec) && j < |vec|
    ensures vec[j].hash in CountsMap(vec) && CountsMap(vec)[vec[j].hash] == vec[j].count
    decreases |vec|
  {
    if j < |vec| - 1 { CountsMapAt(vec[..|vec| - 1], j); }
  }

  /** What the swept lines with a hash in `hashes` count beyond one each. */
  ghost function ExtraIn(vec: seq<Swept>, hashes: set<nat>): int {
    if vec == [] then 0
    else
      var x := vec[|vec| - 1];
      ExtraIn(vec[..|vec| - 1], hashes) + (if x.hash in hashes then x.count - 1 else 0)
  }

  lemma {:induction false} ExtraInsert(vec: seq<Swept>, hashes: set<nat>, hash: nat)
    requires hash !in hashes && forall j | 0 <= j < |vec| :: vec[j].hash != hash
    ensures ExtraIn(vec, hashes + {hash}) == ExtraIn(vec, hashes)
    decreases |vec|
  {
    if vec != [] { ExtraInsert(vec[..|vec| - 1], hashes, hash); }
  }

  lemma {:induction false} ExtraInsertAt(vec: seq<Swept>, hashes: set<nat>, j: nat)
    requires HashesApart(vec) && j < |vec| && vec[j].hash !in hashes
    ensures ExtraIn(vec, hashes + {vec[j].hash}) == ExtraIn(vec, hashes) + (vec[j].count - 1)
    decreases |vec|
  {
    var n := |vec| - 1;
    if j < n {
      ExtraInsertAt(vec[..n], hashes, j);
    } else {
      ExtraInsert(vec[..n], hashes, vec[j].hash);
    }
  }

  lemma {:induction false} ExtraNone(vec: seq<Swept>)
    ensures ExtraIn(vec, {}) == 0
    decreases |vec|
  {
    if vec != [] { ExtraNone(vec[..|vec| - 1]); }
  }

  lemma {:induction false} WeightConcat(a: seq<OutRecord>, b: seq<OutRecord>)
    ensures TotalWeight(a + b) == TotalWeight(a) + TotalWeight(b)
    decreases |b|
  {
    if b == [] {
      assert a + b == a;
    } else {
      assert (a + b)[..|a + b| - 1] == a + b[..|b| - 1];
      WeightConcat(a, b[..|b| - 1]);
    }
  }

  lemma WeightAppend(a: seq<OutRecord>, x: OutRecord)
    ensures TotalWeight(a + [x]) == TotalWeight(a) + Weight(x)
  {
    assert (a + [x])[..|a|] == a;
  }

  lemma {:induction false} ConsumedAre(recs: seq<Record>, hash: nat)
    ensures hash in Consumed(recs) <==> hash != 0 && exists i | 0 <= i < |recs| :: ParseError(recs[i]).Some? && RecordHash(recs[i]) == hash
    decreases |recs|
  {
    if recs != [] {
      var n := |recs| - 1;
      ConsumedAre(recs[..n], hash);
      if i :| 0 <= i < |recs| && ParseError(recs[i]).Some? && RecordHash(recs[i]) == hash {
        assert i < n ==> recs[..n][i] == recs[i];
      }
    }
  }

  /** What a count adds beyond one. */
  function Extra(counts: map<nat, u32>, hash: nat): nat {
    if hash != 0 && hash in counts && counts[hash] > 1 then counts[hash] - 1 else 0
  }

  /** What samples add by joining a count an earlier one has joined already. */
  function Repeats(recs: seq<Record>, counts: map<nat, u32>): nat {
    if recs == [] then 0
    else
      var prefix, hash := recs[..|recs| - 1], RecordHash(recs[|recs| - 1]);
      Repeats(prefix, counts) + (if hash in Consumed(prefix) then Extra(counts, hash) else 0)
  }

  ghost predicate AllParse(recs: seq<Record>) {
    forall i | 0 <= i < |recs| :: ParseError(recs[i]).Some?
  }

  /** No two records share a hash that was counted more than once. */
  ghost predicate NoRepeat(recs: seq<Record>, counts: map<nat, u32>) {
    forall i, j | 0 <= i < j < |recs| && RecordHash(recs[i]) == RecordHash(recs[j]) :: Extra(counts, RecordHash(recs[j])) == 0
  }

  lemma JoinedWeighs(rec: Record, counts: map<nat, u32>)
    requires ParseError(rec).Some?
    ensures Weight(Joined(ParseError(rec).value, counts)) == 1 + Extra(counts, RecordHash(rec))
  {
  }

  /** A line of the sweep adds what the map says; a hash without a line adds nothing. */
  lemma ExtraOne(vec: seq<Swept>, hashes: set<nat>, hash: nat)
    requires HashesApart(vec) && AllCounted(vec) && hash !in hashes && hash != 0
    ensures ExtraIn(vec, hashes + {hash}) == ExtraIn(vec, hashes) + Extra(CountsMap(vec), hash)
  {
    if j :| 0 <= j < |vec| && vec[j].hash == hash {
      CountsMapAt(vec, j);
      ExtraInsertAt(vec, hashes, j);
    } else {
      ExtraInsert(vec, hashes, hash);
      NoLine(vec, hash);
    }
  }

  lemma {:induction false} NoLine(vec: seq<Swept>, hash: nat)
    requires forall j | 0 <= j < |vec| :: vec[j].hash != hash
    ensures hash !in CountsMap(vec)
    decreases |vec|
  {
    if vec != [] { NoLine(vec[..|vec| - 1], hash); }
  }

  /** The samples of any queue weigh one each, what their counts add once, and what repeated joins add. */
  lemma {:induction false} SampleWeights(recs: seq<Record>, vec: seq<Swept>)
    requires HashesApart(vec) && AllCounted(vec) && AllParse(recs)
    ensures TotalWeight(Samples(recs, CountsMap(vec))) == |recs| + ExtraIn(vec, Consumed(recs)) + Repeats(recs, CountsMap(vec))
    decreases |recs|
  {
    if recs == [] {
      ExtraNone(vec);
    } else {
      var n := |recs| - 1;
      var prefix, rec, counts := recs[..n], recs[n], CountsMap(vec);
      assert forall i | 0 <= i < n :: prefix[i] == recs[i];
      SampleWeights(prefix, vec);
      WeightAppend(Samples(prefix, counts), Joined(ParseError(rec).value, counts));
      JoinedWeighs(rec, counts);
      ConsumedAre(prefix, RecordHash(rec));
      if RecordHash(rec) == 0 || RecordHash(rec) in Consumed(prefix) {
        assert Consumed(recs) == Consumed(prefix);
      } else {
        ExtraOne(vec, Consumed(prefix), RecordHash(rec));
      }
    }
  }

  lemma NoRepeatExtends(recs: seq<Record>, counts: map<nat, u32>, n: nat)
    requires AllParse(recs) && n < |recs|
    ensures NoRepeat(recs[..n + 1], counts) <==>
      NoRepeat(recs[..n], counts) && (RecordHash(recs[n]) in Consumed(recs[..n]) ==> Extra(counts, RecordHash(recs[n])) == 0)
  {
    var prefix, longer, hash := recs[..n], recs[..n + 1], RecordHash(recs[n]);
    assert forall i | 0 <= i < n :: prefix[i] == longer[i] == recs[i];
    ConsumedAre(prefix, hash);
    if hash in Consumed(prefix) {
      var i :| 0 <= i < n && RecordHash(prefix[i]) == hash;
      assert RecordHash(longer[i]) == RecordHash(longer[n]);
    }
  }

  lemma {:induction false} RepeatsZeroIff(recs: seq<Record>, counts: map<nat, u32>)
    requires AllParse(recs)
    ensures Repeats(recs, counts) == 0 <==> NoRepeat(recs, counts)
    decreases |recs|
  {
    if recs != [] {
      var n := |recs| - 1;
      assert recs[..n + 1] == recs;
      NoRepeatExtends(recs, counts, n);
      RepeatsZeroIff(recs[..n], counts);
    }
  }

  /** The synthetic records weigh the counts nobody consumed. */
  lemma {:induction false} SyntheticWeights(vec: seq<Swept>, consumed: set<nat>)
    requires AllCounted(vec)
    ensures TotalWeight(Synthetics(vec, consumed)) - |Synthetics(vec, consumed)| ==
            SumCounts(vec) - |vec| - ExtraIn(vec, consumed)
    decreases |vec|
  {
    if vec != [] {
      var n := |vec| - 1;
      SyntheticWeights(vec[..n], consumed);
      var last := if vec[n].hash !in consumed then [Synthetic(vec[n].severity, vec[n].hash, vec[n].count)] else [];
      WeightConcat(Synthetics(vec[..n], consumed), last);
    }
  }

  // ── Conservation ────────────────────────────────────────────────────────────

  lemma ReportedHashesApart(vec: seq<Swept>, table: map<Id, Entry>)
    requires Reports(vec, table) && KeysApart(table.Keys)
    ensures HashesApart(vec)
  {
    forall j, k | 0 <= j < k < |vec| ensures vec[j].hash != vec[k].hash {
      assert SweptId(vec[j]) in table && SweptId(vec[k]) in table;
    }
  }

  function Ids(vec: seq<Swept>): set<Id> {
    set j | 0 <= j < |vec| :: SweptId(vec[j])
  }

  lemma {:induction false} IdsCard(vec: seq<Swept>)
    requires DistinctIds(vec)
    ensures |Ids(vec)| == |vec|
    decreases |vec|
  {
    if vec != [] {
      var n := |vec| - 1;
      IdsCard(vec[..n]);
      assert Ids(vec) == Ids(vec[..n]) + {SweptId(vec[n])};
    }
  }

  /** A report of a map in which everything has been counted has one line per entry. */
  lemma ReportSize(vec: seq<Swept>, table: map<Id, Entry>)
    requires Reports(vec, table) && forall id | id in table :: table[id].count > 0
    ensures |vec| == |table|
  {
    IdsCard(vec);
    forall id | id in table ensures id in Ids(vec) {
      var x := Swept(id.0, id.1, table[id].count);
      var j :| 0 <= j < |vec| && vec[j] == x;
      assert SweptId(vec[j]) == id;
    }
    assert Ids(vec) == table.Keys;
  }

  lemma {:induction false} SumMatches(vec: seq<Swept>, table: map<Id, Entry>, fates: seq<Option<Id>>, n: nat)
    requires Reports(vec, table) && CountsMatch(table, fates) && n <= |vec|
    ensures SumCounts(vec[..n]) == SumOccurrences(vec[..n], fates)
    decreases n
  {
    if n > 0 {
      assert vec[..n][..n - 1] == vec[..n - 1];
      SumMatches(vec, table, fates, n - 1);
      assert SweptId(vec[n - 1]) in table;
    }
  }

  lemma ReportCounts(vec: seq<Swept>, table: map<Id, Entry>, fates: seq<Option<Id>>)
    requires Reports(vec, table) && CountsMatch(table, fates)
    ensures SumCounts(vec) == Counted(fates)
  {
    assert vec[..|vec|] == vec;
    SumMatches(vec, table, fates, |vec|);
    forall k | 0 <= k < |fates| && fates[k].Some? ensures exists j | 0 <= j < |vec| :: SweptId(vec[j]) == fates[k].value {
      var id := fates[k].value;
      var j :| 0 <= j < |vec| && vec[j] == Swept(id.0, id.1, table[id].count);
      assert SweptId(vec[j]) == id;
    }
    SumIsCounted(vec, fates);
  }

  /** In the queue of one interval no hash repeats. */
  lemma QueueNeverRepeats(recs: seq<Record>, table: map<Id, Entry>, n: nat, counts: map<nat, u32>)
    requires SamplesMatch(recs, table) && n <= |recs|
    ensures AllParse(recs[..n]) && Repeats(recs[..n], counts) == 0
  {
    var some := recs[..n];
    assert forall i | 0 <= i < n :: some[i] == recs[i];
    RepeatsZeroIff(some, counts);
  }

  /** The law, for one sequence of messages, one sweep of the table it leaves and the first `n` queued records popped. */
  ghost predicate Conserves(st: LogState, msgs: seq<Message>, enabled: bool, vec: seq<Swept>, n: nat) {
    var end := LogAll(st, msgs, enabled);
    && n <= |end.ring.records|
    && (var popped := end.ring.records[..n];
        var samples := Samples(popped, CountsMap(vec));
        var synthetics := Synthetics(vec, Consumed(popped));
        |msgs| == TotalWeight(samples + synthetics) + (end.ring.dropped - st.ring.dropped) - |synthetics| + (|end.ring.records| - n))
  }

  /**
   Conservation over a quiescent interval that starts with an empty table and an empty ring, when
   the first `n` queued records are popped: every message logged is in the weight of some record, or
   was a ring drop that no synthetic record stands for, or is still queued. `vec` is the sweep of
   the table, in any order.
   */
  lemma Conservation(st: LogState, msgs: seq<Message>, enabled: bool, vec: seq<Swept>, n: nat)
    requires st.ring.cap > 0 && st.table == map[] && st.ring.records == []
    requires |msgs| < U32_SIZE && NoCollision(msgs, enabled)
    requires Reports(vec, LogAll(st, msgs, enabled).table) && n <= |LogAll(st, msgs, enabled).ring.records|
    ensures Conserves(st, msgs, enabled, vec, n)
  {
    TalliedAlways(st, msgs, enabled);
    var end, fates := LogAll(st, msgs, enabled), Fates(st, msgs, enabled);
    var recs := end.ring.records[..n];
    ReportedHashesApart(vec, end.table);
    QueueNeverRepeats(end.ring.records, end.table, n, CountsMap(vec));
    SampleWeights(recs, vec);
    SyntheticWeights(vec, Consumed(recs));
    WeightConcat(Samples(recs, CountsMap(vec)), Synthetics(vec, Consumed(recs)));
    ReportSize(vec, end.table);
    ReportCounts(vec, end.table, fates);
  }
}
