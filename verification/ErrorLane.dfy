/** The error-log lane of one worker as code: the writer's side, the drain's side, and one whole interval of both. */
module ErrorLane {
  import opened Bytes
  import opened RingBytes
  import opened Ring
  import opened CoalesceTable
  import opened DrainAccounting
  import opened ErrorContents

  const MAX_ERROR_RECORDS_PER_WORKER_PER_DRAIN: nat := 50_000

  ghost function StateOf(table: Table, ring: SignalRing): LogState
    reads table, ring
  {
    LogState(table.entries, ring.Abs())
  }

  /** The writer: coalesce, then push the encoded line when told to. */
  method LogError(table: Table, ring: SignalRing, msg: Message, enabled: bool)
    requires table.Valid() && ring.Valid()
    modifies table, table.slots, ring, ring.payload
    ensures table.Valid() && ring.Valid()
    ensures StateOf(table, ring) == LogOne(old(StateOf(table, ring)), msg, enabled)
  {
    var result := table.Coalesce(msg.level, msg.line, enabled);
    match result {
      case Coalesced =>
      case EmitVerbatim(hash) =>
        var _ := ring.Push(EncodeError(ErrorRecord(msg.ts, msg.level, hash, msg.line)));
    }
  }

  lemma Peel(recs: seq<Record>, n: nat, rec: Record, rest: seq<Record>)
    requires n <= |recs| && [rec] + rest == recs[n..]
    ensures n < |recs| && rec == recs[n] && rest == recs[n + 1..]
  {
    assert recs[n..][0] == recs[n] && recs[n..][1..] == recs[n + 1..];
  }

  /** One popped record: joined with its count, its hash marked consumed. */
  method TakeSample(buf: Record, counts: map<nat, u32>, out: seq<OutRecord>, consumed: set<nat>, ghost recs: seq<Record>, ghost n: nat)
    returns (more: seq<OutRecord>, seen: set<nat>)
    requires n < |recs| && buf == recs[n]
    requires out == Samples(recs[..n], counts) && consumed == Consumed(recs[..n])
    ensures more == Samples(recs[..n + 1], counts) && seen == Consumed(recs[..n + 1])
  {
    SamplesExtend(recs, counts, n);
    more, seen := out, consumed;
    var parsed := ParseError(buf);
    if parsed.Some? {
      if parsed.value.hash != 0 {
        seen := seen + {parsed.value.hash};
      }
      more := more + [Joined(parsed.value, counts)];
    }
  }

  /** Pops until the ring is empty or the cap is reached; a hash is consumed only by a record that parsed. */
  method PopSamples(ring: SignalRing, counts: map<nat, u32>) returns (out: seq<OutRecord>, consumed: set<nat>, ghost n: nat)
    requires ring.Valid()
    modifies ring
    ensures ring.Valid() && ring.dropped == old(ring.dropped)
    ensures n <= |old(ring.records)| && (n == |old(ring.records)| || n == 50_000)
    ensures ring.records == old(ring.records)[n..]
    ensures out == Samples(old(ring.records)[..n], counts)
    ensures consumed == Consumed(old(ring.records)[..n])
    ensures forall vec: seq<Swept> | counts == CountsMap(vec) :: ReportsEach(out, Parsing(old(ring.records)[..n]), vec)
  {
    out, consumed := [], {};
    ghost var recs := ring.records;
    var drained := 0;
    n := 0;
    while drained < MAX_ERROR_RECORDS_PER_WORKER_PER_DRAIN
      invariant ring.Valid() && ring.dropped == old(ring.dropped)
      invariant n == drained <= |recs| && drained <= MAX_ERROR_RECORDS_PER_WORKER_PER_DRAIN
      invariant ring.records == recs[n..]
      invariant out == Samples(recs[..n], counts)
      invariant consumed == Consumed(recs[..n])
    {
      var ok, buf := PopRecord(ring);
      if !ok {
        break;
      }
      Peel(recs, n, buf, ring.records);
      out, consumed := TakeSample(buf, counts, out, consumed, recs, n);
      drained := drained + 1;
      n := n + 1;
    }
    forall vec: seq<Swept> | counts == CountsMap(vec) ensures ReportsEach(out, Parsing(recs[..n]), vec) {
      SamplesReport(recs[..n], vec);
    }
  }

  method BuildCounts(vec: seq<Swept>) returns (counts: map<nat, u32>)
    ensures counts == CountsMap(vec)
  {
    counts := map[];
    for i := 0 to |vec|
      invariant counts == CountsMap(vec[..i])
    {
      assert vec[..i + 1][..i] == vec[..i];
      counts := counts[vec[i].hash := vec[i].count];
    }
    assert vec[..|vec|] == vec;
  }

  /** `orphaned` is exactly the sum of the synthetic counts. */
  method EmitOrphans(vec: seq<Swept>, consumed: set<nat>) returns (out: seq<OutRecord>, orphaned: nat)
    ensures out == Synthetics(vec, consumed)
    ensures orphaned == TotalWeight(out)
  {
    out, orphaned := [], 0;
    for i := 0 to |vec|
      invariant out == Synthetics(vec[..i], consumed)
      invariant orphaned == TotalWeight(out)
    {
      assert vec[..i + 1][..i] == vec[..i];
      var x := vec[i];
      if x.count > 0 && x.hash !in consumed {
        WeightAppend(out, Synthetic(x.severity, x.hash, x.count));
        out := out + [Synthetic(x.severity, x.hash, x.count)];
        orphaned := orphaned + x.count;
      }
    }
    assert vec[..|vec|] == vec;
  }

  /** The error half of `collect_log_records` for one worker. */
  method CollectErrors(table: Table, ring: SignalRing)
    returns (samples: seq<OutRecord>, synthetics: seq<OutRecord>, errorDropped: nat, orphaned: nat, ghost vec: seq<Swept>, ghost n: nat)
    requires table.Valid() && ring.Valid()
    modifies table, table.slots, ring
    ensures table.Valid() && ring.Valid() && table.entries == map[]
    ensures Reports(vec, old(table.entries))
    ensures n <= |old(ring.records)| && (n == |old(ring.records)| || n == 50_000)
    ensures ring.records == old(ring.records)[n..]
    ensures samples == Samples(old(ring.records)[..n], CountsMap(vec))
    ensures synthetics == Synthetics(vec, Consumed(old(ring.records)[..n]))
    ensures ReportsEach(samples, Parsing(old(ring.records)[..n]), vec)
    ensures OrphansExactly(synthetics, vec, old(ring.records)[..n])
    ensures errorDropped == ring.dropped == old(ring.dropped)
    ensures orphaned == TotalWeight(synthetics)
  {
    var swept := table.Drain();
    vec := swept;
    var counts := BuildCounts(swept);
    errorDropped := ring.DropCount();
    var consumed;
    samples, consumed, n := PopSamples(ring, counts);
    synthetics, orphaned := EmitOrphans(swept, consumed);
    OrphansAre(swept, old(ring.records)[..n]);
  }

  /** An error record costs at least 24 bytes of the ring: its length prefix and its header. */
  lemma {:induction false} FewEnoughRecords(recs: seq<Record>)
    requires forall i | 0 <= i < |recs| :: |recs[i]| >= ERROR_RECORD_HDR
    ensures |recs| * 24 <= |Wire(recs)|
    decreases |recs|
  {
    if recs != [] { FewEnoughRecords(recs[1..]); }
  }

  lemma QueuedAreLong(st: LogState)
    requires SamplesMatch(st.ring.records, st.table)
    ensures forall i | 0 <= i < |st.ring.records| :: |st.ring.records[i]| >= ERROR_RECORD_HDR
  {
    forall i | 0 <= i < |st.ring.records| ensures |st.ring.records[i]| >= ERROR_RECORD_HDR {
      assert ParseError(st.ring.records[i]).Some?;
    }
  }

  method LogEvery(table: Table, ring: SignalRing, msgs: seq<Message>, enabled: bool)
    requires table.Valid() && ring.Valid()
    modifies table, table.slots, ring, ring.payload
    ensures table.Valid() && ring.Valid()
    ensures StateOf(table, ring) == LogAll(old(StateOf(table, ring)), msgs, enabled)
  {
    ghost var st0 := StateOf(table, ring);
    for i := 0 to |msgs|
      invariant table.Valid() && ring.Valid()
      invariant StateOf(table, ring) == LogAll(st0, msgs[..i], enabled)
    {
      assert msgs[..i + 1][..i] == msgs[..i];
      LogError(table, ring, msgs[i], enabled);
    }
    assert msgs[..|msgs|] == msgs;
  }

  /** A small ring queues no more error records than one drain pops. */
  lemma SmallRing(st: LogState)
    requires SamplesMatch(st.ring.records, st.table) && |Wire(st.ring.records)| <= 24 * MAX_ERROR_RECORDS_PER_WORKER_PER_DRAIN
    ensures |st.ring.records| <= MAX_ERROR_RECORDS_PER_WORKER_PER_DRAIN
  {
    QueuedAreLong(st);
    FewEnoughRecords(st.ring.records);
  }

  /**
   A whole quiescent interval, run: from an empty table and ring, log every message, then collect.
   The samples are the messages pushed, field by field, in order. Messages logged = weights collected + ring drops that no synthetic record stands for + records
   the cap left in the ring; a ring of at most 1 200 000 bytes leaves none.
   */
  method QuiescentInterval(table: Table, ring: SignalRing, msgs: seq<Message>, enabled: bool)
    returns (samples: seq<OutRecord>, synthetics: seq<OutRecord>, orphaned: nat, ghost from: seq<nat>)
    requires table.Valid() && ring.Valid() && table.entries == map[] && ring.records == []
    requires 0 < ring.cap
    requires |msgs| < U32_SIZE && NoCollision(msgs, enabled)
    modifies table, table.slots, ring, ring.payload
    ensures table.Valid() && ring.Valid() && table.entries == map[]
    ensures |msgs| == TotalWeight(samples + synthetics) + (ring.dropped - old(ring.dropped)) - |synthetics| + |ring.records|
    ensures ring.cap <= 1_200_000 ==> ring.records == []
    ensures orphaned == TotalWeight(synthetics)
    ensures SamplesOf(samples, msgs, from)
    ensures |TrackedIds(msgs, enabled)| <= 256 ==> HashesOf(samples, msgs, enabled, from)
    ensures ring.records == [] && ring.dropped == old(ring.dropped) ==> |samples| == |from| && EveryNovelty(msgs, enabled, from)
  {
    ghost var st0 := StateOf(table, ring);
    LogEvery(table, ring, msgs, enabled);
    ghost var st := StateOf(table, ring);
    var dropped: nat;
    ghost var vec, n;
    samples, synthetics, dropped, orphaned, vec, n := CollectErrors(table, ring);
    Conservation(st0, msgs, enabled, vec, n);
    from := LoggedAre(st0, msgs, enabled, vec, n);
    if ring.cap <= 24 * MAX_ERROR_RECORDS_PER_WORKER_PER_DRAIN {
      TalliedAlways(st0, msgs, enabled);
      SmallRing(st);
    }
  }
}
