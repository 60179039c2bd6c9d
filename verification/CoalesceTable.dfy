/**
 The error-log coalescer between drains: a 256-slot open-addressed table with linear probing,
 which refines a bounded map from (key, severity) to occurrence count.
 */
module CoalesceTable {
  import opened Bytes
  import opened RingBytes
  import SC = StableCore

  const CAPACITY: nat := 256
  const HIGH_SEVERITY_THRESHOLD: byte := 3

  datatype Slot = Slot(key: nat, severity: byte, count: u32, sampled: bool)

  const EMPTY: Slot := Slot(0, 0, 0, false)

  type Id = (nat, byte)

  datatype Entry = Entry(count: u32, sampled: bool)

  datatype CoalesceResult = Coalesced | EmitVerbatim(templateHash: nat)

  /** One line of a sweep. */
  datatype Swept = Swept(hash: nat, severity: byte, count: u32)

  // ── The specification: a map that holds at most CAPACITY entries ────────────

  predicate Tracked(severity: byte, enabled: bool) {
    enabled && severity > HIGH_SEVERITY_THRESHOLD
  }

  /** Seen this interval: bump, and emit only if no sample is out. Novel: remember and emit once. No room: emit untracked. */
  function SpecCoalesce(m: map<Id, Entry>, id: Id, tracked: bool): (map<Id, Entry>, CoalesceResult) {
    if !tracked then (m, EmitVerbatim(0))
    else if id in m then
      (m[id := Entry(Increment32(m[id].count), true)],
       if m[id].sampled then Coalesced else EmitVerbatim(id.0))
    else if |m| < CAPACITY then (m[id := Entry(1, true)], EmitVerbatim(id.0))
    else (m, EmitVerbatim(0))
  }

  /** A tracked call: an entry is bumped and its sample suppressed once one is out; a new one is remembered while there is room. */
  ghost predicate AnswersAsMap(m: map<Id, Entry>, id: Id, m': map<Id, Entry>, result: CoalesceResult) {
    if id in m then
      && m' == m[id := Entry((m[id].count + 1) % U32_SIZE, true)]
      && result == (if m[id].sampled then Coalesced else EmitVerbatim(id.0))
    else if |m| < 256 then m' == m[id := Entry(1, true)] && result == EmitVerbatim(id.0)
    else m' == m && result == EmitVerbatim(0)
  }

  lemma SpecAnswersAsMap(m: map<Id, Entry>, id: Id, m': map<Id, Entry>, result: CoalesceResult)
    requires m' == SpecCoalesce(m, id, true).0 && result == SpecCoalesce(m, id, true).1
    ensures AnswersAsMap(m, id, m', result)
  {
  }

  // ── Probe sequences ─────────────────────────────────────────────────────────

  /** The slot `d` places along the probe sequence of `key`. */
  function Probed(key: nat, d: nat): (i: nat)
    requires d < CAPACITY
    ensures i < CAPACITY
  {
    var home := key % CAPACITY;
    if home + d < CAPACITY then home + d else home + d - CAPACITY
  }

  predicate OccupiedAt(slots: seq<Slot>, key: nat, d: nat)
    requires |slots| == CAPACITY && d < CAPACITY
  {
    slots[Probed(key, d)].key != 0
  }

  function IdOf(s: Slot): Id { (s.key, s.severity) }

  /** Every probe place before slot `i` in the sequence of its own key is occupied. */
  ghost predicate Reachable(slots: seq<Slot>, i: nat)
    requires |slots| == CAPACITY && i < CAPACITY
  {
    forall d: nat | d < Distance(i, slots[i].key, CAPACITY) :: OccupiedAt(slots, slots[i].key, d)
  }

  ghost predicate NoHoles(slots: seq<Slot>) {
    |slots| == CAPACITY &&
    forall i: nat | i < CAPACITY && slots[i].key != 0 :: Reachable(slots, i)
  }

  /** `at` sends every id in the table to the one slot that holds it. */
  ghost predicate Indexed(slots: seq<Slot>, at: map<Id, nat>) {
    && |slots| == CAPACITY
    && (forall i: nat | i < CAPACITY && slots[i].key != 0 :: IdOf(slots[i]) in at && at[IdOf(slots[i])] == i)
    && (forall id | id in at :: at[id] < CAPACITY && slots[at[id]].key != 0 && IdOf(slots[at[id]]) == id)
  }

  ghost predicate Holds(slots: seq<Slot>, at: map<Id, nat>, m: map<Id, Entry>)
    requires Indexed(slots, at)
  {
    && m.Keys == at.Keys
    && forall id | id in m :: m[id] == Entry(slots[at[id]].count, slots[at[id]].sampled)
  }

  /** An id in the table sits where its probe sequence finds it before any empty slot. */
  lemma IdOnPath(slots: seq<Slot>, at: map<Id, nat>, id: Id)
    requires Indexed(slots, at) && NoHoles(slots) && id in at
    ensures
      var d := Distance(at[id], id.0, CAPACITY);
      && Probed(id.0, d) == at[id]
      && forall e: nat | e <= d :: OccupiedAt(slots, id.0, e)
  {
    assert Reachable(slots, at[id]);
  }

  /** The first `d` places on the path of `id` are occupied by other entries. */
  ghost predicate PassedOver(slots: seq<Slot>, id: Id, d: nat)
    requires |slots| == CAPACITY && d <= CAPACITY
  {
    forall e: nat | e < d :: OccupiedAt(slots, id.0, e) && IdOf(slots[Probed(id.0, e)]) != id
  }

  /** An empty slot with only other entries before it on the path proves the id absent. */
  lemma AbsentAtHole(slots: seq<Slot>, at: map<Id, nat>, id: Id, d: nat)
    requires Indexed(slots, at) && NoHoles(slots) && d <= CAPACITY
    requires d < CAPACITY ==> !OccupiedAt(slots, id.0, d)
    requires PassedOver(slots, id, d)
    ensures id !in at
  {
    if id in at {
      IdOnPath(slots, at, id);
      assert false;
    }
  }

  lemma {:induction false} InjectiveCard(at: map<Id, nat>)
    requires forall a, b | a in at && b in at && at[a] == at[b] :: a == b
    ensures |at.Keys| == |at.Values|
    decreases |at|
  {
    if at.Keys != {} {
      var id :| id in at;
      var rest := at - {id};
      assert rest.Keys == at.Keys - {id};
      forall v | v in at.Values - {at[id]} ensures v in rest.Values {
        var a :| a in at && at[a] == v;
        assert a in rest;
      }
      assert rest.Values == at.Values - {at[id]};
      InjectiveCard(rest);
    }
  }

  lemma {:induction false} BoundedCard(s: set<nat>, n: nat)
    requires forall i | i in s :: i < n
    ensures |s| <= n
    ensures |s| == n <==> forall i: nat | i < n :: i in s
    decreases n
  {
    if n > 0 {
      var t := s - {n - 1};
      BoundedCard(t, n - 1);
      assert n - 1 !in s ==> t == s;
      if forall i: nat | i < n :: i in s {
        assert forall i: nat | i < n - 1 :: i in t;
      } else if n - 1 in s {
        var i: nat :| i < n && i !in s;
        assert i < n - 1 && i !in t;
      }
    }
  }

  /** The table is full exactly when the map holds CAPACITY entries. */
  lemma FullIffCapacity(slots: seq<Slot>, at: map<Id, nat>)
    requires Indexed(slots, at)
    ensures |at| <= CAPACITY
    ensures |at| == CAPACITY <==> forall i: nat | i < CAPACITY :: slots[i].key != 0
  {
    InjectiveCard(at);
    BoundedCard(at.Values, CAPACITY);
    assert |at| == |at.Keys|;
    forall i: nat | i < CAPACITY ensures i in at.Values <==> slots[i].key != 0 {
      if slots[i].key != 0 { assert at[IdOf(slots[i])] == i; }
    }
  }

  // ── One update of one slot ──────────────────────────────────────────────────

  /** Filling the first empty place on a probe path keeps every path free of holes. */
  lemma FillKeepsNoHoles(slots: seq<Slot>, key: nat, d: nat, s: Slot)
    requires NoHoles(slots) && key != 0 && d < CAPACITY && s.key == key
    requires !OccupiedAt(slots, key, d) && forall e: nat | e < d :: OccupiedAt(slots, key, e)
    ensures NoHoles(slots[Probed(key, d) := s])
  {
    var i := Probed(key, d);
    var slots' := slots[i := s];
    assert forall k: nat, e: nat | e < CAPACITY && OccupiedAt(slots, k, e) :: OccupiedAt(slots', k, e);
    assert Distance(i, key, CAPACITY) == d;
    forall j: nat | j < CAPACITY && slots'[j].key != 0 ensures Reachable(slots', j) {
      if j != i { assert Reachable(slots, j); }
    }
  }

  /** Rewriting count and flag of an occupied slot moves nothing. */
  lemma BumpKeepsNoHoles(slots: seq<Slot>, i: nat, s: Slot)
    requires NoHoles(slots) && i < CAPACITY && slots[i].key != 0 && IdOf(s) == IdOf(slots[i])
    ensures NoHoles(slots[i := s])
  {
    var slots' := slots[i := s];
    assert forall k: nat, e: nat | e < CAPACITY && OccupiedAt(slots, k, e) :: OccupiedAt(slots', k, e);
    forall j: nat | j < CAPACITY && slots'[j].key != 0 ensures Reachable(slots', j) {
      assert Reachable(slots, j);
    }
  }

  // ── The table ───────────────────────────────────────────────────────────────

  datatype Found = Match(i: nat) | Hole(i: nat, d: nat) | TableFull

  class Table {
    const slots: array<Slot>
    ghost var entries: map<Id, Entry>
    ghost var at: map<Id, nat>

    ghost predicate Valid()
      reads this, slots
    {
      && slots.Length == CAPACITY
      && NoHoles(slots[..])
      && Indexed(slots[..], at)
      && Holds(slots[..], at, entries)
    }

    constructor ()
      ensures Valid() && entries == map[] && fresh(slots)
    {
      slots := new Slot[CAPACITY](_ => EMPTY);
      entries, at := map[], map[];
    }

    /** The probe loop: stops at the first match or hole, and gives up after a whole lap. */
    method Probe(key: nat, severity: byte) returns (found: Found)
      requires slots.Length == CAPACITY && key != 0
      ensures
        match found
        case Match(i) => i < CAPACITY && IdOf(slots[i]) == (key, severity)
        case Hole(i, d) =>
          d < CAPACITY && i == Probed(key, d) && slots[i].key == 0 && PassedOver(slots[..], (key, severity), d)
        case TableFull => PassedOver(slots[..], (key, severity), CAPACITY)
    {
      ghost var view, id := slots[..], (key, severity);
      var start := key % CAPACITY;
      var probe := start;
      var probes := 0;
      while true
        invariant 0 <= probes < CAPACITY && probe == Probed(key, probes)
        invariant PassedOver(view, id, probes)
        decreases CAPACITY - probes
      {
        var slotKey := slots[probe].key;
        if slotKey == 0 {
          return Hole(probe, probes);
        }
        if slotKey == key && slots[probe].severity == severity {
          return Match(probe);
        }
        probe := (probe + 1) % CAPACITY;
        probes := probes + 1;
        if probes >= CAPACITY || probe == start {
          return TableFull;
        }
      }
    }

    /** What the probe says about the map. */
    lemma ProbeDecides(id: Id, found: Found)
      requires Valid() && id.0 != 0
      requires found.Match? ==> found.i < CAPACITY && IdOf(slots[found.i]) == id
      requires found.Hole? ==> found.d < CAPACITY && slots[Probed(id.0, found.d)].key == 0 && PassedOver(slots[..], id, found.d)
      requires found.TableFull? ==> PassedOver(slots[..], id, CAPACITY)
      ensures found.Match? <==> id in entries
      ensures found.TableFull? ==> |entries| == CAPACITY
    {
      match found
      case Match(i) => assert slots[..][i].key != 0;
      case Hole(_, d) => AbsentAtHole(slots[..], at, id, d);
      case TableFull =>
        AbsentAtHole(slots[..], at, id, CAPACITY);
        AllProbedAllFull(id.0);
    }

    lemma AllProbedAllFull(key: nat)
      requires Valid() && forall e: nat | e < CAPACITY :: OccupiedAt(slots[..], key, e)
      ensures |entries| == CAPACITY
    {
      forall i: nat | i < CAPACITY ensures slots[..][i].key != 0 {
        assert OccupiedAt(slots[..], key, Distance(i, key, CAPACITY));
      }
      FullIffCapacity(slots[..], at);
      assert |entries| == |entries.Keys| == |at.Keys| == |at|;
    }

    method Insert(key: nat, severity: byte, i: nat, ghost d: nat)
      requires Valid() && key != 0 && (key, severity) !in entries
      requires d < CAPACITY && i == Probed(key, d) && !OccupiedAt(slots[..], key, d)
      requires forall e: nat | e < d :: OccupiedAt(slots[..], key, e)
      modifies this, slots
      ensures Valid() && entries == old(entries)[(key, severity) := Entry(1, true)]
      ensures |old(entries)| < CAPACITY
    {
      FullIffCapacity(slots[..], at);
      assert |entries| == |entries.Keys| == |at.Keys| == |at|;
      var s := Slot(key, severity, 1, true);
      FillKeepsNoHoles(slots[..], key, d, s);
      ghost var before := slots[..];
      slots[i] := s;
      assert slots[..] == before[i := s];
      at := at[(key, severity) := i];
      entries := entries[(key, severity) := Entry(1, true)];
    }

    method Bump(i: nat) returns (alreadyEmitted: bool)
      requires Valid() && i < CAPACITY && slots[i].key != 0
      modifies this, slots
      ensures IdOf(old(slots[i])) in old(entries)
      ensures alreadyEmitted == old(entries)[IdOf(old(slots[i]))].sampled
      ensures
        var id := IdOf(old(slots[i]));
        Valid() && entries == old(entries)[id := Entry(Increment32(old(entries)[id].count), true)]
    {
      var s := slots[i];
      ghost var before, id := slots[..], IdOf(s);
      alreadyEmitted := s.sampled;
      var s' := s.(count := Increment32(s.count), sampled := true);
      assert before[i] == s && at[id] == i;
      BumpKeepsNoHoles(before, i, s');
      slots[i] := s';
      assert slots[..] == before[i := s'];
      entries := entries[id := Entry(s'.count, true)];
    }

    /** The table answers every call exactly as the bounded map does, and changes exactly as it does. */
    method Coalesce(severity: byte, buf: SC.Line, enabled: bool) returns (result: CoalesceResult)
      requires Valid()
      modifies this, slots
      ensures Valid()
      ensures (entries, result) ==
        SpecCoalesce(old(entries), (SC.Key(severity, SC.Core(buf)), severity), Tracked(severity, enabled))
      ensures !enabled || severity <= 3 ==> result == EmitVerbatim(0) && entries == old(entries)
      ensures enabled && severity > 3 ==>
        AnswersAsMap(old(entries), (SC.Key(severity, SC.Core(buf)), severity), entries, result)
    {
      if !enabled {
        return EmitVerbatim(0);
      }
      if severity <= HIGH_SEVERITY_THRESHOLD {
        return EmitVerbatim(0);
      }
      var core := SC.StableCore(buf);
      var key := SC.CoalesceKey(severity, core);
      result := CoalesceKeyed(key, severity);
    }

    method CoalesceKeyed(key: nat, severity: byte) returns (result: CoalesceResult)
      requires Valid() && key != 0
      modifies this, slots
      ensures Valid()
      ensures entries == SpecCoalesce(old(entries), (key, severity), true).0
      ensures result == SpecCoalesce(old(entries), (key, severity), true).1
      ensures AnswersAsMap(old(entries), (key, severity), entries, result)
    {
      var found := Probe(key, severity);
      ProbeDecides((key, severity), found);
      match found {
        case Hole(i, d) =>
          Insert(key, severity, i, d);
          result := EmitVerbatim(key);
        case Match(i) =>
          var already := Bump(i);
          result := if already then Coalesced else EmitVerbatim(key);
        case TableFull =>
          result := EmitVerbatim(0);
      }
      SpecAnswersAsMap(old(entries), (key, severity), entries, result);
    }

    /** Reads and evicts every occupied slot; reports those with a count, in slot order. */
    method EvictAll() returns (out: seq<Swept>)
      requires slots.Length == CAPACITY
      modifies slots
      ensures forall j | 0 <= j < CAPACITY :: slots[j].key == 0
      ensures out == SweepFirst(old(slots[..]), CAPACITY)
    {
      out := [];
      ghost var before := slots[..];
      for i := 0 to CAPACITY
        invariant forall j | 0 <= j < i :: slots[j].key == 0
        invariant forall j | i <= j < CAPACITY :: slots[j] == before[j]
        invariant out == SweepFirst(before, i)
      {
        if slots[i].key == 0 {
          continue;
        }
        var count := slots[i].count;
        var keyHash, severity := slots[i].key, slots[i].severity;
        slots[i] := EMPTY;
        if count > 0 {
          out := out + [Swept(keyHash, severity, count)];
        }
      }
    }

    /** The sweep reports exactly the map and leaves it empty. */
    method Drain() returns (out: seq<Swept>)
      requires Valid()
      modifies this, slots
      ensures Valid() && entries == map[]
      ensures Reports(out, old(entries))
    {
      SweepReports(slots[..], at, entries);
      out := EvictAll();
      entries, at := map[], map[];
    }
  }

  // ── What a sweep reports ────────────────────────────────────────────────────

  /** The report of the first `n` slots. */
  function SweepFirst(slots: seq<Slot>, n: nat): seq<Swept>
    requires n <= |slots|
  {
    if n == 0 then []
    else
      var s := slots[n - 1];
      SweepFirst(slots, n - 1) + (if s.key != 0 && s.count > 0 then [Swept(s.key, s.severity, s.count)] else [])
  }

  function SweptId(x: Swept): Id { (x.hash, x.severity) }

  ghost predicate DistinctIds(out: seq<Swept>) {
    forall j, k | 0 <= j < k < |out| :: SweptId(out[j]) != SweptId(out[k])
  }

  /** A report of a map: each entry with a count exactly once, with its count. */
  ghost predicate Reports(out: seq<Swept>, m: map<Id, Entry>) {
    && (forall j | 0 <= j < |out| ::
          SweptId(out[j]) in m && m[SweptId(out[j])].count == out[j].count > 0)
    && DistinctIds(out)
    && (forall id | id in m && m[id].count > 0 :: Swept(id.0, id.1, m[id].count) in out)
  }

  lemma {:induction false} SweepLists(slots: seq<Slot>, n: nat, x: Swept)
    requires n <= |slots|
    ensures x in SweepFirst(slots, n) <==>
      x.count > 0 && exists i: nat | i < n :: slots[i].key == x.hash != 0 && slots[i].severity == x.severity && slots[i].count == x.count
    decreases n
  {
    if n > 0 { SweepLists(slots, n - 1, x); }
  }

  lemma {:induction false} SweepDistinct(slots: seq<Slot>, n: nat, at: map<Id, nat>)
    requires Indexed(slots, at) && n <= CAPACITY
    ensures DistinctIds(SweepFirst(slots, n))
    decreases n
  {
    if n > 0 {
      SweepDistinct(slots, n - 1, at);
      var before, s := SweepFirst(slots, n - 1), slots[n - 1];
      forall j | 0 <= j < |before| ensures s.key != 0 ==> SweptId(before[j]) != IdOf(s) {
        SweepLists(slots, n - 1, before[j]);
      }
    }
  }

  /** The sweep of a table reports exactly the map it refines. */
  lemma SweepReports(slots: seq<Slot>, at: map<Id, nat>, m: map<Id, Entry>)
    requires Indexed(slots, at) && Holds(slots, at, m)
    ensures Reports(SweepFirst(slots, CAPACITY), m)
  {
    var out := SweepFirst(slots, CAPACITY);
    SweepDistinct(slots, CAPACITY, at);
    forall j | 0 <= j < |out| ensures SweptId(out[j]) in m && m[SweptId(out[j])].count == out[j].count > 0 {
      SweepLists(slots, CAPACITY, out[j]);
    }
    forall id | id in m && m[id].count > 0 ensures Swept(id.0, id.1, m[id].count) in out {
      assert slots[at[id]].key != 0;
      SweepLists(slots, CAPACITY, Swept(id.0, id.1, m[id].count));
    }
  }
}
