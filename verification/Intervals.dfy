/**
 The error lane of one worker over any number of intervals. The sweep empties the table every time, the drain
 takes at most so many records and leaves the rest in the ring. A record left behind is joined with the counts
 of the interval it is popped in, beside that interval's own sample of the same hash; what it adds there is
 exactly what the conservation law is off by.
 */
module Intervals {
  import opened Bytes
  import opened RingBytes
  import opened Ring
  import opened CoalesceTable
  import opened DrainAccounting
  import opened ErrorContents
  import opened Collisions

  /** The messages of an interval, the sweep of the table they leave, and how many records are popped. */
  datatype Interval = Interval(msgs: seq<Message>, vec: seq<Swept>, popped: nat)

  ghost function Queue(st: LogState, i: Interval, enabled: bool): seq<Record> {
    LogAll(st, i.msgs, enabled).ring.records
  }

  /** The sweep is a sweep of the table, no more is popped than is queued, no count wraps and no two severities collide. */
  ghost predicate Proper(st: LogState, i: Interval, enabled: bool) {
    && |i.msgs| < U32_SIZE && NoCollision(i.msgs, enabled)
    && Reports(i.vec, LogAll(st, i.msgs, enabled).table) && i.popped <= |Queue(st, i, enabled)|
  }

  ghost function Taken(st: LogState, i: Interval, enabled: bool): seq<Record>
    requires Proper(st, i, enabled)
  {
    Queue(st, i, enabled)[..i.popped]
  }

  /** What the collection emits. */
  ghost function Emitted(st: LogState, i: Interval, enabled: bool): seq<OutRecord>
    requires Proper(st, i, enabled)
  {
    Samples(Taken(st, i, enabled), CountsMap(i.vec)) + Synthetics(i.vec, Consumed(Taken(st, i, enabled)))
  }

  ghost function Orphans(st: LogState, i: Interval, enabled: bool): nat
    requires Proper(st, i, enabled)
  {
    |Synthetics(i.vec, Consumed(Taken(st, i, enabled)))|
  }

  /** The table is empty again, and the rest of the queue stays. */
  ghost function Collected(st: LogState, i: Interval, enabled: bool): LogState
    requires Proper(st, i, enabled)
  {
    LogState(map[], LogAll(st, i.msgs, enabled).ring.(records := Queue(st, i, enabled)[i.popped..]))
  }

  // ── Logging on top of a queue ───────────────────────────────────────────────

  /** Counts match the messages, and every push attempt is queued or dropped, whatever was queued before. */
  ghost predicate Accounted(st: LogState, before: LogState, fates: seq<Option<Id>>) {
    && st.ring.cap == before.ring.cap && CountsMatch(st.table, fates) && AllParse(st.ring.records)
    && st.ring.dropped >= before.ring.dropped
    && |st.ring.records| + st.ring.dropped + Counted(fates) == |before.ring.records| + before.ring.dropped + |st.table| + |fates|
  }

  lemma PushParses(st: LogState, msg: Message, id: Id, tracked: bool)
    requires AllParse(st.ring.records) && id.0 < U64_SIZE
    ensures AllParse(LogAs(st, msg, id, tracked).ring.records)
  {
    var result := SpecCoalesce(st.table, id, tracked).1;
    if result.EmitVerbatim? { ParseEncoded(ErrorRecord(msg.ts, msg.level, result.templateHash, msg.line)); }
  }

  lemma {:induction false} AccountedAlways(st: LogState, msgs: seq<Message>, enabled: bool)
    requires st.ring.cap > 0 && st.table == map[] && AllParse(st.ring.records) && |msgs| < U32_SIZE
    ensures Accounted(LogAll(st, msgs, enabled), st, Fates(st, msgs, enabled))
    decreases |msgs|
  {
    if msgs != [] {
      var prefix, msg := msgs[..|msgs| - 1], msgs[|msgs| - 1];
      AccountedAlways(st, prefix, enabled);
      var mid, fates := LogAll(st, prefix, enabled), Fates(st, prefix, enabled);
      var id, tracked := MessageId(msg), Tracked(msg.level, enabled);
      CountsMatchStep(mid.table, fates, id, tracked);
      AttemptsStep(mid, msg, id, tracked);
      PushParses(mid, msg, id, tracked);
      OccurrencesExtend(fates, Fate(mid.table, id, tracked), id);
    }
  }

  /** One interval, on top of any queue of records that parse. */
  lemma IntervalLaw(st: LogState, i: Interval, enabled: bool)
    requires st.ring.cap > 0 && st.table == map[] && AllParse(st.ring.records) && Proper(st, i, enabled)
    ensures AllParse(Collected(st, i, enabled).ring.records)
    ensures
      var after, popped := Collected(st, i, enabled), Taken(st, i, enabled);
      && after.ring.dropped >= st.ring.dropped && after.ring.cap == st.ring.cap
      && |i.msgs| + Repeats(popped, CountsMap(i.vec)) ==
           TotalWeight(Emitted(st, i, enabled)) - Orphans(st, i, enabled)
           + (after.ring.dropped - st.ring.dropped) + |after.ring.records| - |st.ring.records|
  {
    AccountedAlways(st, i.msgs, enabled);
    TableWithin(st, i.msgs, enabled);
    var end, fates, popped := LogAll(st, i.msgs, enabled), Fates(st, i.msgs, enabled), Taken(st, i, enabled);
    ReportedHashesApart(i.vec, end.table);
    SampleWeights(popped, i.vec);
    SyntheticWeights(i.vec, Consumed(popped));
    WeightConcat(Samples(popped, CountsMap(i.vec)), Synthetics(i.vec, Consumed(popped)));
    ReportSize(i.vec, end.table);
    ReportCounts(i.vec, end.table, fates);
  }

  // ── Any number of intervals ─────────────────────────────────────────────────

  ghost predicate ProperAll(st: LogState, intervals: seq<Interval>, enabled: bool)
    decreases |intervals|
  {
    intervals == [] ||
    (Proper(st, intervals[0], enabled) && ProperAll(Collected(st, intervals[0], enabled), intervals[1..], enabled))
  }

  ghost function After(st: LogState, intervals: seq<Interval>, enabled: bool): LogState
    requires ProperAll(st, intervals, enabled)
    decreases |intervals|
  {
    if intervals == [] then st else After(Collected(st, intervals[0], enabled), intervals[1..], enabled)
  }

  function Logged(intervals: seq<Interval>): nat {
    if intervals == [] then 0 else |intervals[0].msgs| + Logged(intervals[1..])
  }

  /** The weight of everything emitted, one less for every synthetic record: its sample is among the drops or still queued. */
  ghost function Weighed(st: LogState, intervals: seq<Interval>, enabled: bool): int
    requires ProperAll(st, intervals, enabled)
    decreases |intervals|
  {
    if intervals == [] then 0
    else
      TotalWeight(Emitted(st, intervals[0], enabled)) - Orphans(st, intervals[0], enabled)
      + Weighed(Collected(st, intervals[0], enabled), intervals[1..], enabled)
  }

  ghost function Repeated(st: LogState, intervals: seq<Interval>, enabled: bool): nat
    requires ProperAll(st, intervals, enabled)
    decreases |intervals|
  {
    if intervals == [] then 0
    else
      Repeats(Taken(st, intervals[0], enabled), CountsMap(intervals[0].vec))
      + Repeated(Collected(st, intervals[0], enabled), intervals[1..], enabled)
  }

  /** No interval pops two records of one hash that it counted more than once. */
  ghost predicate NeverRepeats(st: LogState, intervals: seq<Interval>, enabled: bool)
    requires ProperAll(st, intervals, enabled)
    decreases |intervals|
  {
    intervals == [] ||
    (&& NoRepeat(Taken(st, intervals[0], enabled), CountsMap(intervals[0].vec))
     && NeverRepeats(Collected(st, intervals[0], enabled), intervals[1..], enabled))
  }

  lemma {:induction false} LawWithRepeats(st: LogState, intervals: seq<Interval>, enabled: bool)
    requires st.ring.cap > 0 && st.table == map[] && AllParse(st.ring.records) && ProperAll(st, intervals, enabled)
    ensures
      var after := After(st, intervals, enabled);
      && after.ring.dropped >= st.ring.dropped
      && Logged(intervals) + Repeated(st, intervals, enabled) ==
           Weighed(st, intervals, enabled) + (after.ring.dropped - st.ring.dropped) + |after.ring.records| - |st.ring.records|
    decreases |intervals|
  {
    if intervals != [] {
      IntervalLaw(st, intervals[0], enabled);
      LawWithRepeats(Collected(st, intervals[0], enabled), intervals[1..], enabled);
    }
  }

  lemma {:induction false} RepeatedZeroIff(st: LogState, intervals: seq<Interval>, enabled: bool)
    requires st.ring.cap > 0 && st.table == map[] && AllParse(st.ring.records) && ProperAll(st, intervals, enabled)
    ensures Repeated(st, intervals, enabled) == 0 <==> NeverRepeats(st, intervals, enabled)
    decreases |intervals|
  {
    if intervals != [] {
      IntervalLaw(st, intervals[0], enabled);
      AccountedAlways(st, intervals[0].msgs, enabled);
      RepeatsZeroIff(Taken(st, intervals[0], enabled), CountsMap(intervals[0].vec));
      RepeatedZeroIff(Collected(st, intervals[0], enabled), intervals[1..], enabled);
    }
  }

  /** The law over intervals. */
  ghost predicate ConservesAll(st: LogState, intervals: seq<Interval>, enabled: bool)
    requires ProperAll(st, intervals, enabled)
  {
    var after := After(st, intervals, enabled);
    Logged(intervals) == Weighed(st, intervals, enabled) + (after.ring.dropped - st.ring.dropped) + |after.ring.records|
  }

  /**
   Over every sequence of intervals from an empty table and ring, with any number of records popped each time: the
   messages logged, with what repeated joins add, are the weights emitted, the drops no synthetic record
   stands for and the records still queued. So the law holds exactly when no interval pops two records of one
   hash that it counted more than once.
   */
  lemma IntervalsConserveIff(st: LogState, intervals: seq<Interval>, enabled: bool)
    requires st.ring.cap > 0 && st.table == map[] && st.ring.records == [] && ProperAll(st, intervals, enabled)
    ensures
      var after := After(st, intervals, enabled);
      Logged(intervals) + Repeated(st, intervals, enabled) ==
        Weighed(st, intervals, enabled) + (after.ring.dropped - st.ring.dropped) + |after.ring.records|
    ensures ConservesAll(st, intervals, enabled) <==> NeverRepeats(st, intervals, enabled)
  {
    LawWithRepeats(st, intervals, enabled);
    RepeatedZeroIff(st, intervals, enabled);
  }

  // ── When the ring is drained every time ─────────────────────────────────────

  ghost predicate DrainsAll(st: LogState, intervals: seq<Interval>, enabled: bool)
    requires ProperAll(st, intervals, enabled)
    decreases |intervals|
  {
    intervals == [] ||
    (&& intervals[0].popped == |Queue(st, intervals[0], enabled)|
     && DrainsAll(Collected(st, intervals[0], enabled), intervals[1..], enabled))
  }

  lemma {:induction false} DrainedNeverRepeats(st: LogState, intervals: seq<Interval>, enabled: bool)
    requires st.ring.cap > 0 && st.table == map[] && st.ring.records == [] && ProperAll(st, intervals, enabled)
    requires DrainsAll(st, intervals, enabled)
    ensures NeverRepeats(st, intervals, enabled)
    decreases |intervals|
  {
    if intervals != [] {
      var i := intervals[0];
      TalliedAlways(st, i.msgs, enabled);
      assert Taken(st, i, enabled) == Queue(st, i, enabled);
      IntervalLaw(st, i, enabled);
      DrainedNeverRepeats(Collected(st, i, enabled), intervals[1..], enabled);
    }
  }

  /** When every drain empties the ring, as it does while no more is queued than its cap, the law holds over all intervals. */
  lemma DrainedIntervalsConserve(st: LogState, intervals: seq<Interval>, enabled: bool)
    requires st.ring.cap > 0 && st.table == map[] && st.ring.records == [] && ProperAll(st, intervals, enabled)
    requires DrainsAll(st, intervals, enabled)
    ensures ConservesAll(st, intervals, enabled)
  {
    DrainedNeverRepeats(st, intervals, enabled);
    IntervalsConserveIff(st, intervals, enabled);
  }

  // ── A sample left behind by the cap ─────────────────────────────────────────

  function Copies<T>(x: T, n: nat): seq<T> { seq(n, _ => x) }

  lemma CopyMore<T>(x: T, n: nat)
    ensures Copies(x, n + 1) == Copies(x, n) + [x] && Copies(x, n + 1)[..n] == Copies(x, n)
  {
  }

  /** A message that is in no entry is pushed every time. */
  lemma {:induction false} Untracked(st: LogState, u: Message, n: nat, enabled: bool)
    requires st.table == map[] && st.ring.records == [] && st.ring.cap > 0 && !Tracked(u.level, enabled)
    requires |Wire(Copies(RecordOf(u, 0), n))| <= st.ring.cap
    ensures LogAll(st, Copies(u, n), enabled) == LogState(map[], st.ring.(records := Copies(RecordOf(u, 0), n)))
    decreases n
  {
    if n == 0 {
      assert Copies(RecordOf(u, 0), 0) == [];
    } else {
      CopyMore(u, n - 1);
      CopyMore(RecordOf(u, 0), n - 1);
      WireAppend(Copies(RecordOf(u, 0), n - 1), RecordOf(u, 0));
      Untracked(st, u, n - 1, enabled);
    }
  }

  lemma LogLast(st: LogState, msgs: seq<Message>, m: Message, enabled: bool)
    ensures LogAll(st, msgs + [m], enabled) == LogOne(LogAll(st, msgs, enabled), m, enabled)
  {
    assert (msgs + [m])[..|msgs|] == msgs;
  }

  /** A new entry on top of a queue with room. */
  lemma NewEntry(st: LogState, m: Message, enabled: bool)
    requires st.table == map[] && Tracked(m.level, enabled) && |Wire(st.ring.records)| + Cost(m) <= st.ring.cap
    ensures
      var id := MessageId(m);
      LogOne(st, m, enabled) == LogState(map[id := Entry(1, true)], st.ring.(records := st.ring.records + [RecordOf(m, id.0)]))
  {
  }

  lemma OneId(msgs: seq<Message>, m: Message, enabled: bool)
    requires forall k | 0 <= k < |msgs| && Tracked(msgs[k].level, enabled) :: msgs[k] == m
    ensures NoCollision(msgs, enabled)
  {
  }

  lemma OneLine(id: Id, count: u32)
    requires count > 0
    ensures Reports([Swept(id.0, id.1, count)], map[id := Entry(count, true)])
  {
  }

  /** As many untracked messages as the cap, then a tracked one, whose sample stays behind. */
  lemma FirstInterval(st: LogState, u: Message, m: Message, cap: nat, enabled: bool) returns (i: Interval)
    requires st.table == map[] && st.ring.records == [] && st.ring.cap > 0 && !Tracked(u.level, enabled) && Tracked(m.level, enabled)
    requires |Wire(Copies(RecordOf(u, 0), cap))| + Cost(m) <= st.ring.cap && cap + 1 < U32_SIZE
    ensures Proper(st, i, enabled) && i.popped == cap && |Queue(st, i, enabled)| == cap + 1
    ensures Collected(st, i, enabled) == LogState(map[], st.ring.(records := [RecordOf(m, MessageId(m).0)]))
  {
    var id, recs := MessageId(m), Copies(RecordOf(u, 0), cap);
    i := Interval(Copies(u, cap) + [m], [Swept(id.0, id.1, 1)], cap);
    Untracked(st, u, cap, enabled);
    LogLast(st, Copies(u, cap), m, enabled);
    NewEntry(LogAll(st, Copies(u, cap), enabled), m, enabled);
    OneId(i.msgs, m, enabled);
    OneLine(id, 1);
    assert (recs + [RecordOf(m, id.0)])[cap..] == [RecordOf(m, id.0)];
  }

  lemma LogTwice(st: LogState, m: Message, enabled: bool)
    requires st.table == map[] && st.ring.records == [RecordOf(m, MessageId(m).0)] && Tracked(m.level, enabled)
    requires Cost(m) + Cost(m) <= st.ring.cap
    ensures
      var id := MessageId(m);
      var rec := RecordOf(m, id.0);
      LogAll(st, [m, m], enabled) == LogState(map[id := Entry(2, true)], st.ring.(records := [rec, rec]))
  {
    var id := MessageId(m);
    var rec := RecordOf(m, id.0);
    WireAppend([], rec);
    assert [] + [rec] == [rec] && [rec] + [rec] == [rec, rec] && [] + [m] == [m] && [m] + [m] == [m, m];
    LogLast(st, [], m, enabled);
    LogLast(st, [m], m, enabled);
    NewEntry(st, m, enabled);
    assert map[id := Entry(1, true)][id := Entry(2, true)] == map[id := Entry(2, true)];
  }

  /** An interval that pops its whole queue. */
  lemma WholeQueue(st: LogState, i: Interval, end: LogState, enabled: bool)
    requires LogAll(st, i.msgs, enabled) == end && |i.msgs| < U32_SIZE && NoCollision(i.msgs, enabled)
    requires Reports(i.vec, end.table) && i.popped == |end.ring.records|
    ensures Proper(st, i, enabled) && Queue(st, i, enabled) == Taken(st, i, enabled) == end.ring.records
  {
    assert end.ring.records[..i.popped] == end.ring.records;
  }

  /** The same message twice on top of the sample left behind: two samples of one hash, counted twice. */
  lemma SecondInterval(st: LogState, m: Message, enabled: bool) returns (i: Interval)
    requires st.table == map[] && st.ring.records == [RecordOf(m, MessageId(m).0)] && Tracked(m.level, enabled)
    requires Cost(m) + Cost(m) <= st.ring.cap
    ensures Proper(st, i, enabled) && i.popped == |Queue(st, i, enabled)| && i.vec == [Swept(MessageId(m).0, m.level, 2)]
    ensures Taken(st, i, enabled) == [RecordOf(m, MessageId(m).0), RecordOf(m, MessageId(m).0)]
  {
    var id := MessageId(m);
    var rec := RecordOf(m, id.0);
    i := Interval([m, m], [Swept(id.0, id.1, 2)], 2);
    LogTwice(st, m, enabled);
    OneId(i.msgs, m, enabled);
    OneLine(id, 2);
    WholeQueue(st, i, LogState(map[id := Entry(2, true)], st.ring.(records := [rec, rec])), enabled);
  }

  lemma JoinedTwice(m: Message, hash: nat, vec: seq<Swept>)
    requires 0 < hash < U64_SIZE && vec == [Swept(hash, m.level, 2)]
    ensures !NoRepeat([RecordOf(m, hash), RecordOf(m, hash)], CountsMap(vec))
  {
    ParseEncoded(ErrorRecord(m.ts, m.level, hash, m.line));
    var recs := [RecordOf(m, hash), RecordOf(m, hash)];
    assert vec[..0] == [];
    assert CountsMap(vec) == map[hash := 2];
    assert RecordHash(recs[0]) == RecordHash(recs[1]) == hash;
    assert Extra(CountsMap(vec), RecordHash(recs[1])) == 1;
  }

  /** Two intervals, the second of which repeats, break the law. */
  lemma SecondRepeats(st: LogState, i: Interval, j: Interval, enabled: bool)
    requires st.ring.cap > 0 && st.table == map[] && st.ring.records == [] && Proper(st, i, enabled)
    requires Proper(Collected(st, i, enabled), j, enabled)
    requires !NoRepeat(Taken(Collected(st, i, enabled), j, enabled), CountsMap(j.vec))
    ensures ProperAll(st, [i, j], enabled) && !ConservesAll(st, [i, j], enabled)
  {
    var mid := Collected(st, i, enabled);
    assert [i, j][1..] == [j] && [j][1..] == [];
    assert ProperAll(Collected(mid, j, enabled), [], enabled);
    assert ProperAll(mid, [j], enabled) && !NeverRepeats(mid, [j], enabled);
    IntervalsConserveIff(st, [i, j], enabled);
  }

  /**
   For every cap from two, every tracked message and every untracked one, and a ring with room: two intervals,
   each popping what is queued up to the cap, that break the law.
   */
  lemma CapBreaksConservation(st: LogState, u: Message, m: Message, cap: nat, enabled: bool) returns (intervals: seq<Interval>)
    requires st.table == map[] && st.ring.records == [] && !Tracked(u.level, enabled) && Tracked(m.level, enabled)
    requires |Wire(Copies(RecordOf(u, 0), cap))| + Cost(m) + Cost(m) <= st.ring.cap && 2 <= cap && cap + 1 < U32_SIZE
    ensures |intervals| == 2 && ProperAll(st, intervals, enabled) && !ConservesAll(st, intervals, enabled)
    ensures intervals[0].popped == cap < |Queue(st, intervals[0], enabled)|
    ensures
      var mid := Collected(st, intervals[0], enabled);
      intervals[1].popped == |Queue(mid, intervals[1], enabled)| <= cap
  {
    var i := FirstInterval(st, u, m, cap, enabled);
    var j := SecondInterval(Collected(st, i, enabled), m, enabled);
    JoinedTwice(m, MessageId(m).0, j.vec);
    SecondRepeats(st, i, j, enabled);
    intervals := [i, j];
  }
}
