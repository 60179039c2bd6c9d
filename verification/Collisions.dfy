/**
 Two entries of different severity can share a 64-bit hash. The table keeps them apart, the join map,
 keyed by hash alone, does not. The conservation law of the error lane holds for every sequence of
 messages drawn from a pool exactly when no two of the pool collide in this way.
 */
module Collisions {
  import opened Bytes
  import opened RingBytes
  import opened Ring
  import opened CoalesceTable
  import opened DrainAccounting

  ghost predicate DrawnFrom(msgs: seq<Message>, pool: seq<Message>) {
    forall i | 0 <= i < |msgs| :: msgs[i] in pool
  }

  ghost predicate Drains(st: LogState, msgs: seq<Message>, enabled: bool, vec: seq<Swept>, n: nat) {
    var end := LogAll(st, msgs, enabled);
    Reports(vec, end.table) && n <= |end.ring.records|
  }

  /** The law, for every sequence drawn from the pool, every sweep of the table it leaves and every cut of the queue. */
  ghost predicate AlwaysConserves(st: LogState, pool: seq<Message>, enabled: bool) {
    forall msgs: seq<Message>, vec: seq<Swept>, n: nat
      | DrawnFrom(msgs, pool) && |msgs| < U32_SIZE && Drains(st, msgs, enabled, vec, n) :: Conserves(st, msgs, enabled, vec, n)
  }

  /** Two tracked messages, told apart by their severity, with one hash. */
  ghost predicate Collide(m1: Message, m2: Message, enabled: bool) {
    && Tracked(m1.level, enabled) && Tracked(m2.level, enabled)
    && MessageId(m1) != MessageId(m2) && MessageId(m1).0 == MessageId(m2).0
  }

  /** Ring bytes of a message's record. */
  function Cost(m: Message): nat { 4 + ERROR_RECORD_HDR + |Capped(m.line)| }

  function RecordOf(m: Message, hash: nat): Record { EncodeError(ErrorRecord(m.ts, m.level, hash, m.line)) }

  // ── Three messages, two of them colliding ───────────────────────────────────

  lemma FirstPush(st: LogState, m: Message, id: Id)
    requires st.table == map[] && st.ring.records == [] && Cost(m) <= st.ring.cap && st.ring.cap > 0
    ensures LogAs(st, m, id, true) ==
      LogState(map[id := Entry(1, true)], st.ring.(records := [RecordOf(m, id.0)]))
  {
    assert [] + [RecordOf(m, id.0)] == [RecordOf(m, id.0)];
  }

  lemma SecondPush(st: LogState, m1: Message, id1: Id, m2: Message, id2: Id)
    requires st.table == map[id1 := Entry(1, true)] && st.ring.records == [RecordOf(m1, id1.0)] && id1 != id2
    requires Cost(m1) + Cost(m2) <= st.ring.cap
    ensures LogAs(st, m2, id2, true) ==
      LogState(map[id1 := Entry(1, true), id2 := Entry(1, true)],
               st.ring.(records := [RecordOf(m1, id1.0), RecordOf(m2, id2.0)]))
  {
    WireAppend([], RecordOf(m1, id1.0));
    assert [] + [RecordOf(m1, id1.0)] == [RecordOf(m1, id1.0)];
    assert [RecordOf(m1, id1.0)] + [RecordOf(m2, id2.0)] == [RecordOf(m1, id1.0), RecordOf(m2, id2.0)];
    assert st.table[id2 := Entry(1, true)] == map[id1 := Entry(1, true), id2 := Entry(1, true)];
  }

  lemma ThirdCoalesced(st: LogState, m: Message, id1: Id, id2: Id)
    requires st.table == map[id1 := Entry(1, true), id2 := Entry(1, true)] && id1 != id2
    ensures LogAs(st, m, id2, true) == st.(table := map[id1 := Entry(1, true), id2 := Entry(2, true)])
  {
    assert st.table[id2 := Entry(2, true)] == map[id1 := Entry(1, true), id2 := Entry(2, true)];
  }

  lemma LogThree(st: LogState, a: Message, b: Message, c: Message, enabled: bool)
    ensures LogAll(st, [a, b, c], enabled) == LogOne(LogOne(LogOne(st, a, enabled), b, enabled), c, enabled)
  {
    assert [a, b, c][..2] == [a, b] && [a, b][..1] == [a] && [a][..0] == [];
    assert LogAll(st, [a], enabled) == LogOne(st, a, enabled);
    assert LogAll(st, [a, b], enabled) == LogOne(LogOne(st, a, enabled), b, enabled);
  }

  /** One message of the first kind and two of the second: one entry each, two records queued, nothing dropped. */
  lemma Collided(st: LogState, m1: Message, id1: Id, m2: Message, id2: Id)
    requires st.table == map[] && st.ring.records == [] && id1 != id2 && Cost(m1) + Cost(m2) <= st.ring.cap
    ensures
      LogAs(LogAs(LogAs(st, m1, id1, true), m2, id2, true), m2, id2, true) ==
        LogState(map[id1 := Entry(1, true), id2 := Entry(2, true)],
                 st.ring.(records := [RecordOf(m1, id1.0), RecordOf(m2, id2.0)]))
  {
    FirstPush(st, m1, id1);
    var st1 := LogAs(st, m1, id1, true);
    SecondPush(st1, m1, id1, m2, id2);
    ThirdCoalesced(LogAs(st1, m2, id2, true), m2, id1, id2);
  }

  lemma TwoLines(x: Swept, y: Swept)
    requires x.hash == y.hash
    ensures CountsMap([x, y]) == map[x.hash := y.count]
    ensures SumCounts([x, y]) == x.count + y.count
    ensures Synthetics([x, y], {x.hash}) == []
  {
    var vec := [x, y];
    assert vec[..1] == [x];
    assert [x][..0] == [];
    assert CountsMap([x]) == map[x.hash := x.count];
    assert SumCounts([x]) == x.count;
    assert Synthetics([x], {x.hash}) == [];
  }

  lemma TwoRecords(a: ErrorRecord, b: ErrorRecord, counts: map<nat, u32>)
    requires a.ts < U64_SIZE && b.ts < U64_SIZE && 0 < a.hash == b.hash < U64_SIZE
    ensures Consumed([EncodeError(a), EncodeError(b)]) == {a.hash}
    ensures TotalWeight(Samples([EncodeError(a), EncodeError(b)], counts)) == Weight(Joined(a, counts)) + Weight(Joined(b, counts))
  {
    var recs := [EncodeError(a), EncodeError(b)];
    var a', b' := a.(body := Capped(a.body)), b.(body := Capped(b.body));
    ParseEncoded(a);
    ParseEncoded(b);
    SamplesExtend(recs, counts, 0);
    SamplesExtend(recs, counts, 1);
    assert recs[..2] == recs && recs[..0] == [];
    assert Samples(recs[..1], counts) == [Joined(a', counts)];
    WeightAppend([], Joined(a', counts));
    assert [] + [Joined(a', counts)] == [Joined(a', counts)];
    WeightAppend([Joined(a', counts)], Joined(b', counts));
  }

  /** A sweep of two entries counted once and twice has two lines, in either order. */
  lemma TwoEntries(vec: seq<Swept>, id1: Id, id2: Id)
    requires id1 != id2 && Reports(vec, map[id1 := Entry(1, true), id2 := Entry(2, true)])
    ensures |vec| == 2 && vec == [vec[0], vec[1]]
    ensures SweptId(vec[0]) in {id1, id2} && SweptId(vec[1]) in {id1, id2} && 1 <= vec[1].count <= 2
  {
    var table := map[id1 := Entry(1, true), id2 := Entry(2, true)];
    ReportSize(vec, table);
    assert table.Keys == {id1, id2};
    assert SweptId(vec[0]) in table && SweptId(vec[1]) in table;
  }

  /** The two records and any sweep of the two entries, joined. */
  lemma JoinedOnOneHash(m1: Message, id1: Id, m2: Message, id2: Id, vec: seq<Swept>)
    requires id1 != id2 && 0 < id1.0 == id2.0 < U64_SIZE && Reports(vec, map[id1 := Entry(1, true), id2 := Entry(2, true)])
    ensures
      var recs := [RecordOf(m1, id1.0), RecordOf(m2, id2.0)];
      && Synthetics(vec, Consumed(recs)) == []
      && TotalWeight(Samples(recs, CountsMap(vec))) in {2, 4}
  {
    TwoEntries(vec, id1, id2);
    TwoLines(vec[0], vec[1]);
    TwoRecords(ErrorRecord(m1.ts, m1.level, id1.0, m1.line), ErrorRecord(m2.ts, m2.level, id2.0, m2.line), CountsMap(vec));
  }

  /**
   Any two messages that collide, three of them logged into an empty table and a ring with room: whatever
   the slot order, both records are queued, no synthetic record is emitted, and they weigh two or four.
   */
  lemma CollisionMiscounts(st: LogState, m1: Message, m2: Message, enabled: bool, vec: seq<Swept>)
    requires st.table == map[] && st.ring.records == [] && Cost(m1) + Cost(m2) <= st.ring.cap
    ensures
      var end := LogAll(st, [m1, m2, m2], enabled);
      Collide(m1, m2, enabled) && Reports(vec, end.table) ==>
        && |end.ring.records| == 2 && end.ring.dropped == st.ring.dropped
        && Synthetics(vec, Consumed(end.ring.records)) == []
        && TotalWeight(Samples(end.ring.records, CountsMap(vec))) in {2, 4}
  {
    if Collide(m1, m2, enabled) {
      var id1, id2 := MessageId(m1), MessageId(m2);
      LogThree(st, m1, m2, m2, enabled);
      Collided(st, m1, id1, m2, id2);
      if Reports(vec, map[id1 := Entry(1, true), id2 := Entry(2, true)]) {
        JoinedOnOneHash(m1, id1, m2, id2, vec);
      }
    }
  }

  lemma SweepOfTwo(id1: Id, id2: Id)
    requires id1 != id2
    ensures Reports([Swept(id1.0, id1.1, 1), Swept(id2.0, id2.1, 2)], map[id1 := Entry(1, true), id2 := Entry(2, true)])
  {
  }

  /** So three messages break the law. */
  lemma CollisionBreaks(st: LogState, m1: Message, m2: Message, enabled: bool) returns (vec: seq<Swept>)
    requires st.table == map[] && st.ring.records == [] && Cost(m1) + Cost(m2) <= st.ring.cap
    ensures Collide(m1, m2, enabled) ==> Drains(st, [m1, m2, m2], enabled, vec, 2) && !Conserves(st, [m1, m2, m2], enabled, vec, 2)
  {
    var id1, id2 := MessageId(m1), MessageId(m2);
    vec := [Swept(id1.0, id1.1, 1), Swept(id2.0, id2.1, 2)];
    if Collide(m1, m2, enabled) {
      SweepOfTwo(id1, id2);
      assert Reports(vec, LogAll(st, [m1, m2, m2], enabled).table) by {
        LogThree(st, m1, m2, m2, enabled);
        Collided(st, m1, id1, m2, id2);
      }
      CollisionMiscounts(st, m1, m2, enabled, vec);
      NothingCut(LogAll(st, [m1, m2, m2], enabled).ring.records, vec);
    }
  }

  lemma NothingCut(recs: seq<Record>, vec: seq<Swept>)
    ensures recs[..|recs|] == recs && Samples(recs, CountsMap(vec)) + [] == Samples(recs, CountsMap(vec))
  {
  }

  // ── Exactly when the law holds ──────────────────────────────────────────────

  lemma DrawnApart(msgs: seq<Message>, pool: seq<Message>, enabled: bool)
    requires DrawnFrom(msgs, pool) && NoCollision(pool, enabled)
    ensures NoCollision(msgs, enabled)
  {
    forall id | id in TrackedIds(msgs, enabled) ensures id in TrackedIds(pool, enabled) {
      var i :| 0 <= i < |msgs| && Tracked(msgs[i].level, enabled) && MessageId(msgs[i]) == id;
      var j :| 0 <= j < |pool| && pool[j] == msgs[i];
    }
  }

  lemma FindCollision(pool: seq<Message>, enabled: bool, p: Id, q: Id) returns (m1: Message, m2: Message)
    requires p in TrackedIds(pool, enabled) && q in TrackedIds(pool, enabled) && p != q && p.0 == q.0
    ensures m1 in pool && m2 in pool && Collide(m1, m2, enabled)
  {
    var i :| 0 <= i < |pool| && Tracked(pool[i].level, enabled) && MessageId(pool[i]) == p;
    var j :| 0 <= j < |pool| && Tracked(pool[j].level, enabled) && MessageId(pool[j]) == q;
    m1, m2 := pool[i], pool[j];
  }

  /**
   For every pool of messages and every ring with room for two of them: the law holds for all sequences
   drawn from the pool if and only if no two tracked messages of different severity share a hash.
   */
  lemma ConservationIff(st: LogState, pool: seq<Message>, enabled: bool)
    requires st.ring.cap > 0 && st.table == map[] && st.ring.records == []
    requires forall m | m in pool :: 2 * Cost(m) <= st.ring.cap
    ensures AlwaysConserves(st, pool, enabled) <==> NoCollision(pool, enabled)
  {
    if NoCollision(pool, enabled) {
      forall msgs: seq<Message>, vec: seq<Swept>, n: nat
        | DrawnFrom(msgs, pool) && |msgs| < U32_SIZE && Drains(st, msgs, enabled, vec, n)
        ensures Conserves(st, msgs, enabled, vec, n)
      {
        DrawnApart(msgs, pool, enabled);
        Conservation(st, msgs, enabled, vec, n);
      }
    } else {
      var ids := TrackedIds(pool, enabled);
      var p, q :| p in ids && q in ids && p != q && p.0 == q.0;
      var m1, m2 := FindCollision(pool, enabled, p, q);
      var vec := CollisionBreaks(st, m1, m2, enabled);
      assert DrawnFrom([m1, m2, m2], pool);
    }
  }
}
