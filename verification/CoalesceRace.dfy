/**
 The coalescer table while the exporter sweeps it. The writer (one worker) and the drain (the
 exporter) each advance one atomic load, store, swap or fetch-add at a time, and `Exec` runs an
 arbitrary schedule of those steps, so schedules range over every interleaving.

 The drain reports whatever it swapped out of a slot. Nothing stops the writer from bumping a slot
 between the drain's swap of the count and its clearing of the key; those observations stay behind
 in an empty slot and are overwritten by the next insertion there, or reported under its key.
 */
module CoalesceRace {
  import opened Bytes
  import opened CoalesceTable

  /** Where `coalesce` stands; `d` is the number of slots already passed over. */
  datatype Writer =
    | WIdle
    | WProbe(key: nat, severity: byte, d: nat)      // before loading key_hash
    | WSeverity(key: nat, severity: byte, d: nat)   // key matched, before loading severity
    | WStoreKey(key: nat, severity: byte, i: nat)
    | WStoreSeverity(key: nat, severity: byte, i: nat)
    | WStoreCount(key: nat, severity: byte, i: nat)
    | WStoreSample(i: nat)
    | WLoadSample(key: nat, severity: byte, i: nat)
    | WFetchAdd(key: nat, severity: byte, i: nat, emitted: bool)
    | WMarkSample(i: nat)

  /** Where `drain_coalesce_table` stands in slot `i`. */
  datatype Drain =
    | DIdle
    | DLoad(i: nat)
    | DSwap(i: nat)
    | DLoadKey(i: nat, count: u32)
    | DLoadSeverity(i: nat, count: u32, key: nat)
    | DClearKey(i: nat, count: u32, key: nat, severity: byte)
    | DClearSeverity(i: nat, count: u32, key: nat, severity: byte)
    | DClearSample(i: nat, count: u32, key: nat, severity: byte)

  datatype State = State(
    slots: seq<Slot>, writer: Writer, drain: Drain,
    drained: seq<Swept>,  // everything reported so far
    calls: seq<Id>,       // key and severity of the calls that inserted or bumped
    lost: nat)            // observations overwritten or wrapped away

  datatype Action = Call(key: nat, severity: byte) | WriterStep | StartDrain | DrainStep

  predicate Shaped(s: State) {
    && |s.slots| == CAPACITY
    && (match s.writer
        case WIdle => true
        case WProbe(key, _, d) => key != 0 && d < CAPACITY
        case WSeverity(key, _, d) => key != 0 && d < CAPACITY
        case WStoreKey(key, _, i) => key != 0 && i < CAPACITY
        case WStoreSeverity(key, _, i) => key != 0 && i < CAPACITY
        case WStoreCount(key, _, i) => key != 0 && i < CAPACITY
        case WLoadSample(key, _, i) => key != 0 && i < CAPACITY
        case WFetchAdd(key, _, i, _) => key != 0 && i < CAPACITY
        case WStoreSample(i) => i < CAPACITY
        case WMarkSample(i) => i < CAPACITY)
    && (s.drain.DIdle? || s.drain.i < CAPACITY)
  }

  /** A zeroed table, nobody at work on it. */
  ghost predicate IsInitial(s: State) {
    && |s.slots| == CAPACITY && (forall i | 0 <= i < CAPACITY :: s.slots[i] == EMPTY)
    && s.writer == WIdle && s.drain == DIdle && s.drained == [] && s.calls == [] && s.lost == 0
  }

  function WriterNext(s: State): State
    requires Shaped(s)
  {
    match s.writer
    case WIdle => s
    case WProbe(key, severity, d) =>
      var i := Probed(key, d);
      if s.slots[i].key == 0 then s.(writer := WStoreKey(key, severity, i))
      else if s.slots[i].key == key then s.(writer := WSeverity(key, severity, d))
      else s.(writer := Advance(key, severity, d))
    case WSeverity(key, severity, d) =>
      var i := Probed(key, d);
      if s.slots[i].severity == severity then s.(writer := WLoadSample(key, severity, i))
      else s.(writer := Advance(key, severity, d))
    case WStoreKey(key, severity, i) =>
      s.(slots := s.slots[i := s.slots[i].(key := key)], writer := WStoreSeverity(key, severity, i))
    case WStoreSeverity(key, severity, i) =>
      s.(slots := s.slots[i := s.slots[i].(severity := severity)], writer := WStoreCount(key, severity, i))
    case WStoreCount(key, severity, i) =>
      s.(slots := s.slots[i := s.slots[i].(count := 1)], writer := WStoreSample(i),
         calls := s.calls + [(key, severity)], lost := s.lost + s.slots[i].count)
    case WStoreSample(i) => s.(slots := s.slots[i := s.slots[i].(sampled := true)], writer := WIdle)
    case WLoadSample(key, severity, i) => s.(writer := WFetchAdd(key, severity, i, s.slots[i].sampled))
    case WFetchAdd(key, severity, i, emitted) =>
      var c := Increment32(s.slots[i].count);
      s.(slots := s.slots[i := s.slots[i].(count := c)],
         writer := if emitted then WIdle else WMarkSample(i),
         calls := s.calls + [(key, severity)], lost := if c == 0 then s.lost + U32_SIZE else s.lost)
    case WMarkSample(i) => s.(slots := s.slots[i := s.slots[i].(sampled := true)], writer := WIdle)
  }

  function Advance(key: nat, severity: byte, d: nat): Writer {
    if d + 1 < CAPACITY then WProbe(key, severity, d + 1) else WIdle
  }

  function NextSlot(i: nat): Drain {
    if i + 1 < CAPACITY then DLoad(i + 1) else DIdle
  }

  function DrainNext(s: State): State
    requires Shaped(s)
  {
    match s.drain
    case DIdle => s
    case DLoad(i) => s.(drain := if s.slots[i].key == 0 then NextSlot(i) else DSwap(i))
    case DSwap(i) =>
      s.(slots := s.slots[i := s.slots[i].(count := 0)], drain := DLoadKey(i, s.slots[i].count))
    case DLoadKey(i, count) => s.(drain := DLoadSeverity(i, count, s.slots[i].key))
    case DLoadSeverity(i, count, key) => s.(drain := DClearKey(i, count, key, s.slots[i].severity))
    case DClearKey(i, count, key, severity) =>
      s.(slots := s.slots[i := s.slots[i].(key := 0)], drain := DClearSeverity(i, count, key, severity))
    case DClearSeverity(i, count, key, severity) =>
      s.(slots := s.slots[i := s.slots[i].(severity := 0)], drain := DClearSample(i, count, key, severity))
    case DClearSample(i, count, key, severity) =>
      s.(slots := s.slots[i := s.slots[i].(sampled := false)], drain := NextSlot(i),
         drained := if count > 0 then s.drained + [Swept(key, severity, count)] else s.drained)
  }

  function Step(s: State, a: Action): (s': State)
    requires Shaped(s)
    ensures Shaped(s')
  {
    match a
    case Call(key, severity) => if s.writer.WIdle? && key != 0 then s.(writer := WProbe(key, severity, 0)) else s
    case WriterStep => WriterNext(s)
    case StartDrain => if s.drain.DIdle? then s.(drain := DLoad(0)) else s
    case DrainStep => DrainNext(s)
  }

  function Exec(s: State, schedule: seq<Action>): (s': State)
    requires Shaped(s)
    ensures Shaped(s')
    decreases |schedule|
  {
    if schedule == [] then s else Exec(Step(s, schedule[0]), schedule[1..])
  }

  // ── Tallies: of everything, of one key, or of one key at one severity ───────

  datatype Scope = All | Only(key: nat) | OnlyId(id: Id)

  predicate Covers(w: Scope, id: Id) {
    match w
    case All => true
    case Only(key) => id.0 == key
    case OnlyId(one) => id == one
  }

  function InSlot(w: Scope, s: Slot): nat { if Covers(w, IdOf(s)) then s.count else 0 }

  function InSlots(w: Scope, slots: seq<Slot>): nat { InFirstSlots(w, slots, |slots|) }

  function InFirstSlots(w: Scope, slots: seq<Slot>, n: nat): nat
    requires n <= |slots|
  {
    if n == 0 then 0 else InFirstSlots(w, slots, n - 1) + InSlot(w, slots[n - 1])
  }

  function Reported(w: Scope, out: seq<Swept>): nat { FirstReported(w, out, |out|) }

  function FirstReported(w: Scope, out: seq<Swept>, n: nat): nat
    requires n <= |out|
  {
    if n == 0 then 0
    else FirstReported(w, out, n - 1) + (if Covers(w, SweptId(out[n - 1])) then out[n - 1].count else 0)
  }

  function Calls(w: Scope, calls: seq<Id>): nat { FirstCalls(w, calls, |calls|) }

  function FirstCalls(w: Scope, calls: seq<Id>, n: nat): nat
    requires n <= |calls|
  {
    if n == 0 then 0 else FirstCalls(w, calls, n - 1) + (if Covers(w, calls[n - 1]) then 1 else 0)
  }

  /** A count the drain has swapped out and not yet reported; until it has re-read key and severity, the slot's stand for them. */
  function InFlight(w: Scope, s: State): nat
    requires Shaped(s)
  {
    match s.drain
    case DLoadKey(i, count) => if Covers(w, IdOf(s.slots[i])) then count else 0
    case DLoadSeverity(i, count, key) => if Covers(w, (key, s.slots[i].severity)) then count else 0
    case DClearKey(_, count, key, severity) => if Covers(w, (key, severity)) then count else 0
    case DClearSeverity(_, count, key, severity) => if Covers(w, (key, severity)) then count else 0
    case DClearSample(_, count, key, severity) => if Covers(w, (key, severity)) then count else 0
    case _ => 0
  }

  function Tally(w: Scope, s: State): nat
    requires Shaped(s)
  {
    Reported(w, s.drained) + InFlight(w, s) + InSlots(w, s.slots)
  }

  lemma {:induction false} UpdateSlot(w: Scope, slots: seq<Slot>, i: nat, x: Slot, n: nat)
    requires i < |slots| && n <= |slots|
    ensures InFirstSlots(w, slots[i := x], n) ==
            InFirstSlots(w, slots, n) + (if i < n then InSlot(w, x) - InSlot(w, slots[i]) else 0)
    decreases n
  {
    if n > 0 { UpdateSlot(w, slots, i, x, n - 1); }
  }

  lemma {:induction false} CallsExtend(w: Scope, calls: seq<Id>, id: Id, n: nat)
    requires n <= |calls|
    ensures FirstCalls(w, calls + [id], n) == FirstCalls(w, calls, n)
    decreases n
  {
    if n > 0 { CallsExtend(w, calls, id, n - 1); }
  }

  lemma CountOne(w: Scope, calls: seq<Id>, id: Id)
    ensures Calls(w, calls + [id]) == Calls(w, calls) + (if Covers(w, id) then 1 else 0)
  {
    CallsExtend(w, calls, id, |calls|);
  }

  lemma {:induction false} ReportExtends(w: Scope, out: seq<Swept>, x: Swept, n: nat)
    requires n <= |out|
    ensures FirstReported(w, out + [x], n) == FirstReported(w, out, n)
    decreases n
  {
    if n > 0 { ReportExtends(w, out, x, n - 1); }
  }

  lemma ReportOne(w: Scope, out: seq<Swept>, x: Swept)
    ensures Reported(w, out + [x]) == Reported(w, out) + (if Covers(w, SweptId(x)) then x.count else 0)
  {
    ReportExtends(w, out, x, |out|);
  }

  lemma {:induction false} AllEmpty(w: Scope, slots: seq<Slot>, n: nat)
    requires n <= |slots| && forall i | 0 <= i < |slots| :: slots[i] == EMPTY
    ensures InFirstSlots(w, slots, n) == 0
    decreases n
  {
    if n > 0 { AllEmpty(w, slots, n - 1); }
  }

  // ── Never over-reported ─────────────────────────────────────────────────────

  ghost predicate Balanced(s: State) {
    Shaped(s) && Tally(All, s) + s.lost == Calls(All, s.calls)
  }

  /** One slot rewritten: the tally of slots moves by the difference. */
  lemma SlotMoved(w: Scope, s: State, s': State, i: nat)
    requires |s.slots| == |s'.slots| == CAPACITY && i < CAPACITY && s'.slots == s.slots[i := s'.slots[i]]
    ensures InSlots(w, s'.slots) == InSlots(w, s.slots) - InSlot(w, s.slots[i]) + InSlot(w, s'.slots[i])
  {
    UpdateSlot(w, s.slots, i, s'.slots[i], |s.slots|);
  }

  /** A count is in a slot, or overwrote or wrapped away what was there. */
  lemma CountingTotal(s: State)
    requires Shaped(s) && (s.writer.WStoreCount? || s.writer.WFetchAdd?)
    ensures
      var s' := WriterNext(s);
      InSlots(All, s'.slots) + s'.lost - Calls(All, s'.calls) == InSlots(All, s.slots) + s.lost - Calls(All, s.calls)
  {
    var s', i := WriterNext(s), s.writer.i;
    SlotMoved(All, s, s', i);
    CountOne(All, s.calls, (s.writer.key, s.writer.severity));
    assert s'.slots[i].count + (s'.lost - s.lost) == s.slots[i].count + 1;
  }

  lemma WriterTotal(s: State)
    requires Shaped(s)
    ensures
      var s' := WriterNext(s);
      InSlots(All, s'.slots) + s'.lost - Calls(All, s'.calls) == InSlots(All, s.slots) + s.lost - Calls(All, s.calls)
  {
    if s.writer.WStoreCount? || s.writer.WFetchAdd? {
      CountingTotal(s);
    } else if s.writer.WStoreKey? || s.writer.WStoreSeverity? || s.writer.WStoreSample? || s.writer.WMarkSample? {
      SlotMoved(All, s, WriterNext(s), s.writer.i);
    } else {
      assert WriterNext(s).slots == s.slots;
    }
  }

  /** The drain moves counts from slots to its hand to its list. */
  lemma DrainTotal(s: State)
    requires Shaped(s)
    ensures Tally(All, DrainNext(s)) == Tally(All, s) && DrainNext(s).lost == s.lost && DrainNext(s).calls == s.calls
  {
    var s' := DrainNext(s);
    if s.drain.DClearSample? {
      SlotMoved(All, s, s', s.drain.i);
      ReportOne(All, s.drained, Swept(s.drain.key, s.drain.severity, s.drain.count));
    } else if s.drain.DSwap? || s.drain.DClearKey? || s.drain.DClearSeverity? {
      SlotMoved(All, s, s', s.drain.i);
    } else {
      assert s'.slots == s.slots;
    }
  }

  lemma {:induction false} BalancedAlways(s: State, schedule: seq<Action>)
    requires Balanced(s)
    ensures Balanced(Exec(s, schedule))
    decreases |schedule|
  {
    if schedule != [] {
      BalancedStep(s, schedule[0]);
      BalancedAlways(Step(s, schedule[0]), schedule[1..]);
    }
  }

  /**
   In every interleaving: what has been reported, what the drain holds and what still lies in slots,
   together with what was overwritten, is exactly the number of inserting or bumping calls.
   Hence nothing is ever over-reported in total.
   */
  lemma NeverOverReported(init: State, schedule: seq<Action>)
    requires IsInitial(init)
    ensures
      var s := Exec(init, schedule);
      && Tally(All, s) + s.lost == Calls(All, s.calls)
      && Reported(All, s.drained) + InSlots(All, s.slots) <= Calls(All, s.calls)
  {
    AllEmpty(All, init.slots, CAPACITY);
    BalancedAlways(init, schedule);
  }

  // ── Exact when no call overlaps the swap-to-clear window ────────────────────

  /** The drain has taken the count of slot `i` and not yet cleared its key. */
  predicate InWindow(d: Drain, i: nat) {
    (d.DLoadKey? || d.DLoadSeverity? || d.DClearKey?) && d.i == i
  }

  /** The writer has committed to slot `i` and not yet counted there. */
  predicate Engaged(w: Writer, i: nat) {
    match w
    case WSeverity(key, _, d) => d < CAPACITY && Probed(key, d) == i
    case WStoreSeverity(_, _, j) => j == i
    case WStoreCount(_, _, j) => j == i
    case WLoadSample(_, _, j) => j == i
    case WFetchAdd(_, _, j, _) => j == i
    case _ => false
  }

  /** The window to the clearing of the key, or the wide one to the clearing of the severity. */
  predicate Window(d: Drain, i: nat, wide: bool) {
    InWindow(d, i) || (wide && d.DClearSeverity? && d.i == i)
  }

  ghost predicate NoOverlap(s: State, wide: bool) {
    forall i: nat | i < CAPACITY :: !(Window(s.drain, i, wide) && Engaged(s.writer, i))
  }

  /** No state of the run has a call and the window on the same slot. */
  ghost predicate QuietRun(s: State, schedule: seq<Action>, wide: bool)
    requires Shaped(s)
    decreases |schedule|
  {
    NoOverlap(s, wide) && (schedule == [] || QuietRun(Step(s, schedule[0]), schedule[1..], wide))
  }

  ghost predicate WriterTrue(s: State)
    requires Shaped(s)
  {
    match s.writer
    case WSeverity(key, _, d) => s.slots[Probed(key, d)].key == key
    case WStoreKey(_, _, i) => s.slots[i].key == 0
    case WStoreSeverity(key, _, i) => s.slots[i].key == key && s.slots[i].count == 0
    case WStoreCount(key, _, i) => s.slots[i].key == key && s.slots[i].count == 0
    case WLoadSample(key, _, i) => s.slots[i].key == key
    case WFetchAdd(key, _, i, _) => s.slots[i].key == key
    case _ => true
  }

  /** Inside its window the drain has left the slot's count at zero. */
  ghost predicate DrainTrue(s: State, wide: bool)
    requires Shaped(s)
  {
    !s.drain.DIdle? && Window(s.drain, s.drain.i, wide) ==> s.slots[s.drain.i].count == 0
  }

  /** The severity the writer goes by is the slot's; what the wide window adds. */
  ghost predicate SeverityTrue(s: State)
    requires Shaped(s)
  {
    match s.writer
    case WStoreCount(_, severity, i) => s.slots[i].severity == severity
    case WLoadSample(_, severity, i) => s.slots[i].severity == severity
    case WFetchAdd(_, severity, i, _) => s.slots[i].severity == severity
    case _ => true
  }

  ghost predicate HolesEmpty(slots: seq<Slot>) {
    forall i | 0 <= i < |slots| && slots[i].key == 0 :: slots[i].count == 0
  }

  /** What both parties rely on, for an account by `w`. */
  ghost predicate Agreed(w: Scope, s: State) {
    && Shaped(s) && WriterTrue(s) && DrainTrue(s, w.OnlyId?)
    && HolesEmpty(s.slots) && (w.OnlyId? ==> SeverityTrue(s))
  }

  ghost predicate Exact(w: Scope, s: State) {
    Agreed(w, s) && Tally(w, s) == Calls(w, s.calls)
  }

  lemma {:induction false} SlotWithinTotal(w: Scope, slots: seq<Slot>, i: nat, n: nat)
    requires i < n <= |slots|
    ensures InSlot(w, slots[i]) <= InFirstSlots(w, slots, n)
    decreases n
  {
    if i < n - 1 { SlotWithinTotal(w, slots, i, n - 1); }
  }

  /** Below 2^32 calls no count can wrap. */
  lemma NoWrap(s: State, i: nat)
    requires Balanced(s) && i < CAPACITY && Calls(All, s.calls) + 1 < U32_SIZE
    ensures s.slots[i].count + 1 < U32_SIZE
  {
    SlotWithinTotal(All, s.slots, i, |s.slots|);
  }

  /** The one place where they could meet. */
  lemma OnDrainSlot(s: State, wide: bool)
    requires Shaped(s) && NoOverlap(s, wide)
    ensures !s.drain.DIdle? ==> !(Window(s.drain, s.drain.i, wide) && Engaged(s.writer, s.drain.i))
  {
  }

  /** Neither party's step spoils what the other relies on, because they are not on the same slot. */
  lemma WriterKeepsAgreed(w: Scope, s: State)
    requires Agreed(w, s) && NoOverlap(s, w.OnlyId?)
    requires s.writer.WFetchAdd? ==> s.slots[s.writer.i].count + 1 < U32_SIZE
    ensures Agreed(w, WriterNext(s)) && WriterNext(s).lost == s.lost
  {
    OnDrainSlot(s, w.OnlyId?);
  }

  lemma DrainKeepsAgreed(w: Scope, s: State)
    requires Agreed(w, s) && NoOverlap(s, w.OnlyId?)
    ensures Agreed(w, DrainNext(s)) && DrainNext(s).lost == s.lost
  {
    OnDrainSlot(s, w.OnlyId?);
  }

  /** A count lands on the key it was meant for. */
  lemma CountingTally(w: Scope, s: State)
    requires Agreed(w, s) && (s.writer.WStoreCount? || s.writer.WFetchAdd?)
    requires s.slots[s.writer.i].count + 1 < U32_SIZE
    ensures InSlots(w, WriterNext(s).slots) - Calls(w, WriterNext(s).calls) == InSlots(w, s.slots) - Calls(w, s.calls)
  {
    SlotMoved(w, s, WriterNext(s), s.writer.i);
    CountOne(w, s.calls, (s.writer.key, s.writer.severity));
  }

  /** Labels move no count, because an unlabelled slot holds none. */
  lemma LabellingTally(w: Scope, s: State)
    requires Agreed(w, s)
    requires s.writer.WStoreKey? || s.writer.WStoreSeverity? || s.writer.WStoreSample? || s.writer.WMarkSample?
    ensures InSlots(w, WriterNext(s).slots) == InSlots(w, s.slots)
  {
    SlotMoved(w, s, WriterNext(s), s.writer.i);
  }

  lemma WriterTally(w: Scope, s: State)
    requires Agreed(w, s) && (s.writer.WFetchAdd? ==> s.slots[s.writer.i].count + 1 < U32_SIZE)
    ensures InSlots(w, WriterNext(s).slots) - Calls(w, WriterNext(s).calls) == InSlots(w, s.slots) - Calls(w, s.calls)
  {
    if s.writer.WStoreCount? || s.writer.WFetchAdd? {
      CountingTally(w, s);
    } else if s.writer.WStoreKey? || s.writer.WStoreSeverity? || s.writer.WStoreSample? || s.writer.WMarkSample? {
      LabellingTally(w, s);
    } else {
      assert WriterNext(s).slots == s.slots;
    }
  }

  /** The writer changes no label under which the drain will report what it holds. */
  lemma WriterKeepsFlight(w: Scope, s: State)
    requires Shaped(s) && NoOverlap(s, false) && NoOverlap(WriterNext(s), false)
    ensures InFlight(w, WriterNext(s)) == InFlight(w, s)
  {
    OnDrainSlot(s, false);
    OnDrainSlot(WriterNext(s), false);
  }

  lemma DrainTally(w: Scope, s: State)
    requires Agreed(w, s)
    ensures Tally(w, DrainNext(s)) == Tally(w, s)
  {
    var s' := DrainNext(s);
    if s.drain.DClearSample? {
      SlotMoved(w, s, s', s.drain.i);
      ReportOne(w, s.drained, Swept(s.drain.key, s.drain.severity, s.drain.count));
    } else if s.drain.DSwap? || s.drain.DClearKey? || s.drain.DClearSeverity? {
      SlotMoved(w, s, s', s.drain.i);
    } else {
      assert s'.slots == s.slots;
    }
  }

  /** The wide window is the wider. */
  lemma WideIsQuiet(s: State, wide: bool)
    requires NoOverlap(s, wide)
    ensures NoOverlap(s, false)
  {
    forall i: nat | i < CAPACITY ensures !(Window(s.drain, i, false) && Engaged(s.writer, i)) {
      assert !(Window(s.drain, i, wide) && Engaged(s.writer, i));
    }
  }

  lemma {:induction false} CallsGrow(s: State, schedule: seq<Action>)
    requires Shaped(s)
    ensures Calls(All, s.calls) <= Calls(All, Exec(s, schedule).calls)
    decreases |schedule|
  {
    if schedule != [] {
      var s' := Step(s, schedule[0]);
      if s'.calls != s.calls { CountOne(All, s.calls, s'.calls[|s.calls|]); }
      CallsGrow(s', schedule[1..]);
    }
  }

  lemma ExactStep(w: Scope, s: State, a: Action)
    requires Exact(w, s) && Balanced(s) && NoOverlap(s, w.OnlyId?) && NoOverlap(Step(s, a), w.OnlyId?)
    requires Calls(All, Step(s, a).calls) < U32_SIZE
    ensures Exact(w, Step(s, a)) && Step(s, a).lost == s.lost
  {
    WideIsQuiet(s, w.OnlyId?);
    WideIsQuiet(Step(s, a), w.OnlyId?);
    match a
    case WriterStep =>
      if s.writer.WFetchAdd? {
        CountOne(All, s.calls, (s.writer.key, s.writer.severity));
        NoWrap(s, s.writer.i);
      }
      WriterKeepsAgreed(w, s);
      WriterTally(w, s);
      WriterKeepsFlight(w, s);
    case DrainStep =>
      DrainKeepsAgreed(w, s);
      DrainTally(w, s);
    case _ =>
  }

  /** In total, what the drain holds does not depend on labels. */
  lemma FlightOfAll(s: State, s': State)
    requires Shaped(s) && Shaped(s') && s'.drain == s.drain
    ensures InFlight(All, s') == InFlight(All, s)
  {
  }

  lemma BalancedStep(s: State, a: Action)
    requires Balanced(s)
    ensures Balanced(Step(s, a))
  {
    match a
    case WriterStep =>
      WriterTotal(s);
      FlightOfAll(s, WriterNext(s));
    case DrainStep => DrainTotal(s);
    case _ =>
  }

  lemma {:induction false} ExactAlways(w: Scope, s: State, schedule: seq<Action>)
    requires Exact(w, s) && Balanced(s) && QuietRun(s, schedule, w.OnlyId?)
    requires Calls(All, Exec(s, schedule).calls) < U32_SIZE
    ensures Exact(w, Exec(s, schedule)) && Exec(s, schedule).lost == s.lost
    decreases |schedule|
  {
    if schedule != [] {
      var s' := Step(s, schedule[0]);
      assert QuietRun(s', schedule[1..], w.OnlyId?);
      CallsGrow(s', schedule[1..]);
      BalancedStep(s, schedule[0]);
      ExactStep(w, s, schedule[0]);
      ExactAlways(w, s', schedule[1..]);
    }
  }

  /**
   When no call overlaps the swap-to-clear window of the slot it touches, and fewer than 2^32 calls
   count, nothing is lost and every key's reported, held and pending counts add up to its calls. When
   none overlaps the wide window either, to the clearing of the severity, the same holds for every
   key at every severity.
   */
  lemma ExactWithoutOverlap(w: Scope, init: State, schedule: seq<Action>)
    requires IsInitial(init) && QuietRun(init, schedule, w.OnlyId?)
    requires Calls(All, Exec(init, schedule).calls) < U32_SIZE
    ensures
      var s := Exec(init, schedule);
      Tally(w, s) == Calls(w, s.calls) && s.lost == 0
  {
    AllEmpty(w, init.slots, CAPACITY);
    AllEmpty(All, init.slots, CAPACITY);
    ExactAlways(w, init, schedule);
  }
}
