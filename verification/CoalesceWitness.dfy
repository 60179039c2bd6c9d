/**
 Runs of writer and sweep that meet the bounds and break what holds only without overlap: any number of
 observations lost in one sweep, a count reported under another key, a severity wiped from a live
 entry, and one entry in two slots. Each is built for every key, or every two keys with one home slot.

 A run is a schedule with what it leads to: one slot of the table, both parties and the books, the calls
 that overlapped, the sweeps begun, and whether it was quiet. `Do` adds one action to a run when the
 step system takes that action to the view given; everything else is stretches of such steps:

 - an insertion up to its count, the rest of it, a bump in the window;
 - a sweep brought to a slot, taking its count, reading and clearing its labels, leaving it.
 */
module CoalesceWitness {
  import opened Bytes
  import opened CoalesceTable
  import opened CoalesceRace
  import opened CoalesceLoss

  // ── Runs, built one step at a time ──────────────────────────────────────────

  datatype Books = Books(drained: seq<Swept>, calls: seq<Id>, lost: nat)

  /** One slot of the table, both parties, and the books. */
  datatype View = View(slot: Slot, writer: Writer, drain: Drain, books: Books)

  /** A schedule, the view of slot `h` it leads to, its overlapping calls, its sweeps, and whether it was quiet, narrowly and widely. */
  datatype Run = Run(schedule: seq<Action>, base: seq<Slot>, h: nat, v: View, mark: Mark, sweeps: nat, quiet: bool, wide: bool)

  /** The table `base` with the view in slot `h`. */
  function Scene(base: seq<Slot>, h: nat, v: View): State
    requires h < |base|
  {
    State(base[h := v.slot], v.writer, v.drain, v.books.drained, v.books.calls, v.books.lost)
  }

  function Sweeps(schedule: seq<Action>): nat {
    if schedule == [] then 0
    else Sweeps(schedule[..|schedule| - 1]) + (if schedule[|schedule| - 1].StartDrain? then 1 else 0)
  }

  ghost predicate Reaches(init: State, r: Run) {
    && Shaped(init) && r.h < |r.base| == CAPACITY && Exec(init, r.schedule) == Scene(r.base, r.h, r.v)
    && r.mark == Marks(init, Mark(false, 0), r.schedule)
    && r.sweeps == Sweeps(r.schedule)
    && (r.quiet ==> QuietRun(init, r.schedule, false))
    && (r.wide ==> QuietRun(init, r.schedule, true))
  }

  /** A call stands in the window, narrow or wide. */
  predicate Clash(writer: Writer, drain: Drain, wide: bool) {
    !drain.DIdle? && Window(drain, drain.i, wide) && Engaged(writer, drain.i)
  }

  lemma NoClash(s: State, wide: bool)
    requires !Clash(s.writer, s.drain, wide)
    ensures NoOverlap(s, wide)
  {
  }

  /** The run with one more action, which leaves slot and parties as in `v`. */
  function Next(r: Run, a: Action, v: View): Run {
    var m := if a.Call? && r.v.writer.WIdle? then r.mark.(marked := false) else r.mark;
    Run(r.schedule + [a], r.base, r.h, v,
        if Clash(v.writer, v.drain, false) && !m.marked then Mark(true, m.overlaps + 1) else m,
        if a.StartDrain? then r.sweeps + 1 else r.sweeps,
        r.quiet && !Clash(v.writer, v.drain, false), r.wide && !Clash(v.writer, v.drain, true))
  }

  lemma {:induction false} ExecLast(s: State, m: Mark, schedule: seq<Action>, a: Action, wide: bool)
    requires Shaped(s)
    ensures Exec(s, schedule + [a]) == Step(Exec(s, schedule), a)
    ensures Marks(s, m, schedule + [a]) == MarkStep(Exec(s, schedule), a, Marks(s, m, schedule))
    ensures QuietRun(s, schedule, wide) && NoOverlap(Step(Exec(s, schedule), a), wide) ==> QuietRun(s, schedule + [a], wide)
    decreases |schedule|
  {
    var all := schedule + [a];
    if schedule == [] {
      assert all == [a] && all[1..] == [];
      assert Exec(Step(s, a), all[1..]) == Step(s, a);
      assert Marks(Step(s, a), MarkStep(s, a, m), all[1..]) == MarkStep(s, a, m);
      assert QuietRun(Step(s, a), all[1..], wide) == NoOverlap(Step(s, a), wide);
    } else {
      assert all[1..] == schedule[1..] + [a];
      ExecLast(Step(s, schedule[0]), MarkStep(s, schedule[0], m), schedule[1..], a, wide);
    }
  }

  /** The action changes slot `h`, the parties and the books to those of `v` and nothing else. */
  predicate StepsTo(r: Run, a: Action, v: View) {
    && r.h < |r.base| == CAPACITY
    && (var s := Scene(r.base, r.h, r.v);
        Shaped(s) && Step(s, a) == State(s.slots[r.h := v.slot], v.writer, v.drain, v.books.drained, v.books.calls, v.books.lost))
  }

  lemma Extend(init: State, r: Run, s: State, a: Action, s': State, wide: bool)
    requires Shaped(init) && Exec(init, r.schedule) == s && Step(s, a) == s' && r.mark == Marks(init, Mark(false, 0), r.schedule)
    ensures Exec(init, r.schedule + [a]) == s'
    ensures Marks(init, Mark(false, 0), r.schedule + [a]) ==
      Noted(s', if a.Call? && s.writer.WIdle? then r.mark.(marked := false) else r.mark)
    ensures QuietRun(init, r.schedule, wide) && !Clash(s'.writer, s'.drain, wide) ==> QuietRun(init, r.schedule + [a], wide)
  {
    ExecLast(init, Mark(false, 0), r.schedule, a, wide);
    if !Clash(s'.writer, s'.drain, wide) { NoClash(s', wide); }
  }

  /** One more step at the end of a run. */
  lemma Do(init: State, r: Run, a: Action, v: View) returns (r': Run)
    requires Reaches(init, r) && StepsTo(r, a, v)
    ensures Reaches(init, r') && r' == Next(r, a, v)
  {
    r' := Next(r, a, v);
    var s, s' := Scene(r.base, r.h, r.v), Scene(r.base, r.h, v);
    assert s.slots[r.h := v.slot] == s'.slots;
    Extend(init, r, s, a, s', false);
    Extend(init, r, s, a, s', true);
    assert r'.schedule[..|r.schedule|] == r.schedule;
  }

  lemma DoTwo(init: State, r: Run, a: Action, v: View, b: Action, w: View) returns (r': Run)
    requires Reaches(init, r) && StepsTo(r, a, v) && StepsTo(Next(r, a, v), b, w)
    ensures Reaches(init, r') && r' == Next(Next(r, a, v), b, w)
  {
    r' := Do(init, r, a, v);
    r' := Do(init, r', b, w);
  }

  /** Same table and slot, no sweep begun, no overlap, as quiet as before. */
  predicate Calm(r: Run, r': Run) {
    (r'.base, r'.h, r'.sweeps, r'.mark.overlaps, r'.quiet) == (r.base, r.h, r.sweeps, r.mark.overlaps, r.quiet)
  }

  const NOTHING: Books := Books([], [], 0)

  lemma Begin(init: State, h: nat) returns (r: Run)
    requires IsInitial(init) && h < CAPACITY
    ensures Reaches(init, r) && r == Run([], init.slots, h, View(EMPTY, WIdle, DIdle, NOTHING), Mark(false, 0), 0, true, true)
  {
    r := Run([], init.slots, h, View(EMPTY, WIdle, DIdle, NOTHING), Mark(false, 0), 0, true, true);
    assert init.slots[h := EMPTY] == init.slots;
    NoClash(init, false);
    NoClash(init, true);
  }

  // ── An insertion, a bump, a sweep ───────────────────────────────────────────

  /** A call up to its decision to insert into its empty home slot. */
  lemma FindHole(init: State, r: Run, key: nat) returns (r': Run)
    requires Reaches(init, r) && key != 0 && Probed(key, 0) == r.h && r.v.writer == WIdle && r.v.slot.key == 0
    ensures Reaches(init, r') && Calm(r, r') && r'.wide == r.wide && r'.v == r.v.(writer := WStoreKey(key, 4, r.h))
  {
    assert Shaped(Scene(r.base, r.h, r.v));
    r' := DoTwo(init, r, Call(key, 4), r.v.(writer := WProbe(key, 4, 0)), WriterStep, r.v.(writer := WStoreKey(key, 4, r.h)));
  }

  /** An insertion into its empty home slot, up to the store of the count. */
  lemma Insert(init: State, r: Run, key: nat) returns (r': Run)
    requires Reaches(init, r) && key != 0 && Probed(key, 0) == r.h && r.v.writer == WIdle && r.v.slot.key == 0
    requires !Window(r.v.drain, r.h, false)
    ensures Reaches(init, r') && Calm(r, r') && (!Window(r.v.drain, r.h, true) ==> r'.wide == r.wide)
    ensures r'.v == r.v.(slot := r.v.slot.(key := key, severity := 4), writer := WStoreCount(key, 4, r.h))
  {
    r' := FindHole(init, r, key);
    var u := r.v.(slot := r.v.slot.(key := key), writer := WStoreSeverity(key, 4, r.h));
    r' := DoTwo(init, r', WriterStep, u, WriterStep, u.(slot := u.slot.(severity := 4), writer := WStoreCount(key, 4, r.h)));
  }

  /** The rest of the insertion. */
  lemma FinishInsert(init: State, r: Run, key: nat, sampled: bool) returns (r': Run)
    requires Reaches(init, r) && key != 0 && r.v.slot == Slot(key, 4, 0, sampled) && r.v.writer == WStoreCount(key, 4, r.h)
    requires !Window(r.v.drain, r.h, true)
    ensures Reaches(init, r') && Calm(r, r') && r'.wide == r.wide
    ensures r'.v == View(Slot(key, 4, 1, true), WIdle, r.v.drain, r.v.books.(calls := r.v.books.calls + [(key, 4)]))
  {
    var books := r.v.books.(calls := r.v.books.calls + [(key, 4)]);
    assert Shaped(Scene(r.base, r.h, r.v));
    r' := DoTwo(init, r, WriterStep, View(Slot(key, 4, 1, sampled), WStoreSample(r.h), r.v.drain, books),
                WriterStep, View(Slot(key, 4, 1, true), WIdle, r.v.drain, books));
  }

  /** The key inserted in the empty table and counted once. */
  lemma CountedOnce(init: State, a: nat) returns (r: Run)
    requires IsInitial(init) && a != 0
    ensures Reaches(init, r) && r.base == init.slots && r.h == Probed(a, 0) && (r.sweeps, r.mark.overlaps, r.quiet, r.wide) == (0, 0, true, true)
    ensures r.v == View(Slot(a, 4, 1, true), WIdle, DIdle, Books([], [(a, 4)], 0))
  {
    r := Begin(init, Probed(a, 0));
    r := Insert(init, r, a);
    assert [] + [(a, 4)] == [(a, 4)];
    r := FinishInsert(init, r, a, false);
  }

  /** No slot but `h` is in use. */
  ghost predicate Alone(base: seq<Slot>, h: nat) {
    h < |base| == CAPACITY && forall i | 0 <= i < CAPACITY && i != h :: base[i] == EMPTY
  }

  lemma PassEmpty(init: State, r: Run, j: nat) returns (r': Run)
    requires Reaches(init, r) && Alone(r.base, r.h) && j < CAPACITY && j != r.h && r.v.drain == DLoad(j)
    ensures Reaches(init, r') && Calm(r, r') && r'.mark == r.mark && r'.wide == r.wide && r'.v == r.v.(drain := NextSlot(j))
  {
    assert Shaped(Scene(r.base, r.h, r.v));
    r' := Do(init, r, DrainStep, r.v.(drain := NextSlot(j)));
  }

  /** A sweep brought over empty slots to slot `h`. */
  lemma PassTo(init: State, r: Run) returns (r': Run)
    requires Reaches(init, r) && Alone(r.base, r.h) && r.v.drain == DLoad(0)
    ensures Reaches(init, r') && Calm(r, r') && r'.mark == r.mark && r'.wide == r.wide && r'.v == r.v.(drain := DLoad(r.h))
  {
    r' := r;
    for j := 0 to r.h
      invariant Reaches(init, r') && Calm(r, r') && r'.mark == r.mark && r'.wide == r.wide && r'.v == r.v.(drain := DLoad(j))
    {
      r' := PassEmpty(init, r', j);
    }
  }

  lemma StartSweep(init: State, r: Run) returns (r': Run)
    requires Reaches(init, r) && r.v.drain == DIdle
    ensures Reaches(init, r') && (r'.base, r'.h, r'.sweeps, r'.mark) == (r.base, r.h, r.sweeps + 1, r.mark)
    ensures (r'.quiet, r'.wide) == (r.quiet, r.wide) && r'.v == r.v.(drain := DLoad(0))
  {
    r' := Do(init, r, StartDrain, r.v.(drain := DLoad(0)));
  }

  lemma SweepTo(init: State, r: Run) returns (r': Run)
    requires Reaches(init, r) && Alone(r.base, r.h) && r.v.drain == DIdle
    ensures Reaches(init, r') && (r'.base, r'.h, r'.sweeps, r'.mark) == (r.base, r.h, r.sweeps + 1, r.mark)
    ensures (r'.quiet, r'.wide) == (r.quiet, r.wide) && r'.v == r.v.(drain := DLoad(r.h))
  {
    r' := StartSweep(init, r);
    r' := PassTo(init, r');
  }

  /** The sweep takes the count of slot `h`. */
  lemma TakeCount(init: State, r: Run) returns (r': Run)
    requires Reaches(init, r) && r.v.drain == DLoad(r.h) && r.v.slot.key != 0
    ensures Reaches(init, r') && (r'.base, r'.h, r'.sweeps) == (r.base, r.h, r.sweeps)
    ensures r'.v == r.v.(slot := r.v.slot.(count := 0), drain := DLoadKey(r.h, r.v.slot.count))
    ensures r.v.writer == WIdle ==> Calm(r, r') && r'.wide == r.wide
  {
    assert Shaped(Scene(r.base, r.h, r.v));
    r' := DoTwo(init, r, DrainStep, r.v.(drain := DSwap(r.h)),
                DrainStep, r.v.(slot := r.v.slot.(count := 0), drain := DLoadKey(r.h, r.v.slot.count)));
  }

  /** The sweep, past its swap, reads the slot's labels. */
  lemma ReadLabels(init: State, r: Run, n: u32) returns (r': Run)
    requires Reaches(init, r) && r.v.drain == DLoadKey(r.h, n)
    ensures Reaches(init, r') && (r'.base, r'.h, r'.sweeps) == (r.base, r.h, r.sweeps)
    ensures r'.v == r.v.(drain := DClearKey(r.h, n, r.v.slot.key, r.v.slot.severity))
    ensures r.v.writer == WIdle ==> Calm(r, r') && r'.wide == r.wide
  {
    assert Shaped(Scene(r.base, r.h, r.v));
    r' := DoTwo(init, r, DrainStep, r.v.(drain := DLoadSeverity(r.h, n, r.v.slot.key)),
                DrainStep, r.v.(drain := DClearKey(r.h, n, r.v.slot.key, r.v.slot.severity)));
  }

  /** The sweep clears the key it has read. */
  lemma ClearKey(init: State, r: Run, n: u32) returns (r': Run)
    requires Reaches(init, r) && r.v.drain == DLoadKey(r.h, n)
    ensures Reaches(init, r') && (r'.base, r'.h, r'.sweeps) == (r.base, r.h, r.sweeps)
    ensures r'.v == r.v.(slot := r.v.slot.(key := 0), drain := DClearSeverity(r.h, n, r.v.slot.key, r.v.slot.severity))
    ensures r.v.writer == WIdle ==> Calm(r, r') && r'.wide == r.wide
  {
    r' := ReadLabels(init, r, n);
    assert Shaped(Scene(r.base, r.h, r.v));
    r' := Do(init, r', DrainStep,
             r.v.(slot := r.v.slot.(key := 0), drain := DClearSeverity(r.h, n, r.v.slot.key, r.v.slot.severity)));
  }

  /** And the rest, and lists what it took. */
  lemma LeaveSlot(init: State, r: Run, n: u32, key: nat, severity: byte) returns (r': Run)
    requires Reaches(init, r) && r.v.drain == DClearSeverity(r.h, n, key, severity) && n > 0
    ensures Reaches(init, r') && (r'.base, r'.h, r'.sweeps) == (r.base, r.h, r.sweeps)
    ensures r'.v == r.v.(slot := r.v.slot.(severity := 0, sampled := false), drain := NextSlot(r.h),
                         books := r.v.books.(drained := r.v.books.drained + [Swept(key, severity, n)]))
    ensures r.v.writer == WIdle ==> Calm(r, r') && r'.wide == r.wide
  {
    var v := r.v.(slot := r.v.slot.(severity := 0), drain := DClearSample(r.h, n, key, severity));
    assert Shaped(Scene(r.base, r.h, r.v));
    r' := DoTwo(init, r, DrainStep, v,
                DrainStep, v.(slot := v.slot.(sampled := false), drain := NextSlot(r.h),
                              books := v.books.(drained := v.books.drained + [Swept(key, severity, n)])));
  }

  // ── Any number lost ─────────────────────────────────────────────────────────

  /** The key counted once, and a sweep that has just taken that count. */
  lemma OpenWindow(init: State, a: nat) returns (r: Run)
    requires IsInitial(init) && a != 0
    ensures Reaches(init, r) && r.base == init.slots && r.h == Probed(a, 0) && (r.sweeps, r.mark.overlaps, r.quiet) == (1, 0, true)
    ensures r.v == View(Slot(a, 4, 0, true), WIdle, DLoadKey(r.h, 1), Books([], [(a, 4)], 0))
  {
    r := CountedOnce(init, a);
    r := SweepTo(init, r);
    r := TakeCount(init, r);
  }

  lemma FindSlot(init: State, r: Run, a: nat, n: u32) returns (r': Run)
    requires Reaches(init, r) && a != 0 && Probed(a, 0) == r.h && r.v.slot == Slot(a, 4, n, true)
    requires r.v.writer == WIdle && r.v.drain == DLoadKey(r.h, 1)
    ensures Reaches(init, r') && (r'.base, r'.h, r'.sweeps, r'.mark) == (r.base, r.h, r.sweeps, Mark(true, r.mark.overlaps + 1))
    ensures r'.v == r.v.(writer := WSeverity(a, 4, 0))
  {
    r' := DoTwo(init, r, Call(a, 4), r.v.(writer := WProbe(a, 4, 0)), WriterStep, r.v.(writer := WSeverity(a, 4, 0)));
  }

  /** One call on the slot while the sweep waits between swap and clear. */
  lemma OneBump(init: State, r: Run, a: nat, n: u32) returns (r': Run)
    requires Reaches(init, r) && a != 0 && Probed(a, 0) == r.h && r.v.slot == Slot(a, 4, n, true) && n + 1 < U32_SIZE
    requires r.v.writer == WIdle && r.v.drain == DLoadKey(r.h, 1)
    ensures Reaches(init, r') && (r'.base, r'.h, r'.sweeps, r'.mark.overlaps) == (r.base, r.h, r.sweeps, r.mark.overlaps + 1)
    ensures r'.v == r.v.(slot := Slot(a, 4, n + 1, true), books := r.v.books.(calls := r.v.books.calls + [(a, 4)]))
  {
    r' := FindSlot(init, r, a, n);
    r' := Do(init, r', WriterStep, r.v.(writer := WLoadSample(a, 4, r.h)));
    r' := DoTwo(init, r', WriterStep, r.v.(writer := WFetchAdd(a, 4, r.h, true)),
                WriterStep, r.v.(slot := Slot(a, 4, n + 1, true), books := r.v.books.(calls := r.v.books.calls + [(a, 4)])));
  }

  /** Any number of them. */
  lemma {:induction false} BumpsInWindow(init: State, a: nat, b: nat, n: u32) returns (r: Run)
    requires IsInitial(init) && a != 0 && a != b
    ensures Reaches(init, r) && r.base == init.slots && r.h == Probed(a, 0) && (r.sweeps, r.mark.overlaps) == (1, n)
    ensures r.v == View(Slot(a, 4, n, true), WIdle, DLoadKey(r.h, 1), Books([], r.v.books.calls, 0))
    ensures Calls(Only(b), r.v.books.calls) == 0
    decreases n
  {
    if n == 0 {
      r := OpenWindow(init, a);
      CountOne(Only(b), [], (a, 4));
      assert [] + [(a, 4)] == [(a, 4)];
    } else {
      var shorter := BumpsInWindow(init, a, b, n - 1);
      r := OneBump(init, shorter, a, n - 1);
      CountOne(Only(b), shorter.v.books.calls, (a, 4));
    }
  }

  /**
   For every key and every `n`, one sweep can lose `n` observations: after `n` calls in the window, the next
   insertion overwrites them all. No more calls overlapped than were lost, so the bound by overlapping
   calls is met.
   */
  lemma AnyNumberLost(init: State, a: nat, n: u32) returns (schedule: seq<Action>)
    requires IsInitial(init) && a != 0
    ensures Sweeps(schedule) == 1 && Exec(init, schedule).lost == n == OverlappingCalls(init, schedule)
  {
    var r := BumpsInWindow(init, a, a + 1, n);
    r := ClearKey(init, r, 1);
    r := Insert(init, r, a);
    r := Do(init, r, WriterStep, r.v.(slot := r.v.slot.(count := 1), writer := WStoreSample(r.h),
            books := Books([], r.v.books.calls + [(a, 4)], n)));
    schedule := r.schedule;
  }

  // ── A count under another key ───────────────────────────────────────────────

  lemma FinishSweep(init: State, r: Run) returns (r': Run)
    requires Reaches(init, r) && Alone(r.base, r.h) && r.v.drain == NextSlot(r.h)
    ensures Reaches(init, r') && Calm(r, r') && r'.v == r.v.(drain := DIdle)
  {
    r' := r;
    for j := r.h + 1 to CAPACITY
      invariant Reaches(init, r') && Calm(r, r') && r'.v == r.v.(drain := NextSlot(j - 1))
    {
      r' := PassEmpty(init, r', j);
    }
  }

  /** One key's leftovers lie in a slot without a key; the sweep is over. */
  lemma LeftoverAfterSweep(init: State, a: nat, b: nat, n: u32) returns (r: Run)
    requires IsInitial(init) && a != 0 && a != b
    ensures Reaches(init, r) && r.base == init.slots && r.h == Probed(a, 0)
    ensures r.v == View(Slot(0, 0, n, false), WIdle, DIdle, r.v.books)
    ensures Calls(Only(b), r.v.books.calls) == 0 && Reported(Only(b), r.v.books.drained) == 0
  {
    r := BumpsInWindow(init, a, b, n);
    r := ClearKey(init, r, 1);
    r := LeaveSlot(init, r, 1, a, 4);
    ReportOne(Only(b), [], Swept(a, 4, 1));
    r := FinishSweep(init, r);
  }

  /** A second sweep meets the other key between the stores of its key and its count, and reports the leftovers. */
  lemma ReportLeftovers(init: State, before: Run, b: nat, n: u32) returns (r: Run)
    requires Reaches(init, before) && b != 0 && Probed(b, 0) == before.h && Alone(before.base, before.h) && n > 0
    requires before.v == View(Slot(0, 0, n, false), WIdle, DIdle, before.v.books)
    ensures Reaches(init, r) && (r.base, r.h) == (before.base, before.h)
    ensures r.v == View(Slot(0, 0, 0, false), WStoreCount(b, 4, r.h), NextSlot(r.h),
                        before.v.books.(drained := before.v.books.drained + [Swept(b, 4, n)]))
  {
    r := Insert(init, before, b);
    r := SweepTo(init, r);
    r := TakeCount(init, r);
    r := ClearKey(init, r, n);
    r := LeaveSlot(init, r, n, b, 4);
  }

  /**
   A single key can be over-reported, although the total cannot: for every two keys with one home slot and
   every `n` from two, a run in which the second, called once, is reported `n` times.
   */
  lemma MisattributedCount(init: State, a: nat, b: nat, n: u32) returns (schedule: seq<Action>)
    requires IsInitial(init) && a != 0 && b != 0 && a != b && Probed(a, 0) == Probed(b, 0) && n >= 2
    ensures
      var s := Exec(init, schedule);
      Calls(Only(b), s.calls) == 1 && Reported(Only(b), s.drained) == n
  {
    var before := LeftoverAfterSweep(init, a, b, n);
    var r := ReportLeftovers(init, before, b, n);
    r := Do(init, r, WriterStep, r.v.(slot := r.v.slot.(count := 1), writer := WStoreSample(r.h),
            books := r.v.books.(calls := r.v.books.calls + [(b, 4)])));
    ReportOne(Only(b), before.v.books.drained, Swept(b, 4, n));
    CountOne(Only(b), before.v.books.calls, (b, 4));
    schedule := r.schedule;
  }

  // ── A severity wiped from a live entry ──────────────────────────────────────

  lemma OnlyHere(w: Scope, base: seq<Slot>, h: nat, x: Slot)
    requires h < |base| && forall i | 0 <= i < |base| :: base[i] == EMPTY
    ensures InSlots(w, base[h := x]) == InSlot(w, x)
  {
    AllEmpty(w, base, |base|);
    UpdateSlot(w, base, h, x, |base|);
  }

  /** A key inserted behind a sweep that has cleared the slot's key and not yet its severity, which it then clears. */
  lemma InsertBehindDrain(init: State, a: nat, b: nat) returns (r: Run)
    requires IsInitial(init) && a != 0 && b != 0 && Probed(a, 0) == Probed(b, 0)
    ensures Reaches(init, r) && r.quiet && r.base == init.slots && r.h == Probed(a, 0)
    ensures r.v == View(Slot(b, 0, 1, true), WStoreSample(r.h), DClearSample(r.h, 1, a, 4), Books([], [(a, 4), (b, 4)], 0))
  {
    r := OpenWindow(init, a);
    r := ClearKey(init, r, 1);
    r := Insert(init, r, b);
    assert [(a, 4)] + [(b, 4)] == [(a, 4), (b, 4)];
    r := DoTwo(init, r, DrainStep, r.v.(slot := Slot(b, 0, 0, true), drain := DClearSample(r.h, 1, a, 4)),
               WriterStep, View(Slot(b, 0, 1, true), WStoreSample(r.h), DClearSample(r.h, 1, a, 4), Books([], [(a, 4), (b, 4)], 0)));
  }

  lemma TwoCalls(w: Scope, x: Id, y: Id)
    ensures Calls(w, [x, y]) == (if Covers(w, x) then 1 else 0) + (if Covers(w, y) then 1 else 0)
  {
    CountOne(w, [], x);
    CountOne(w, [x], y);
    assert [] + [x] == [x] && [x] + [y] == [x, y];
  }

  /**
   In a run with no call in the narrow window, accounting by key and severity can fail, for every two keys with
   one home slot: the one call of the second at severity 4 is counted, nothing is lost, and no count anywhere
   stands for it.
   */
  lemma SeverityWiped(init: State, a: nat, b: nat) returns (schedule: seq<Action>)
    requires IsInitial(init) && a != 0 && b != 0 && a != b && Probed(a, 0) == Probed(b, 0)
    ensures
      var s := Exec(init, schedule);
      && QuietRun(init, schedule, false) && s.lost == 0
      && Calls(OnlyId((b, 4)), s.calls) == 1 && Tally(OnlyId((b, 4)), s) == 0
      && Tally(OnlyId((b, 0)), s) == 1 && Calls(OnlyId((b, 0)), s.calls) == 0
  {
    var r := InsertBehindDrain(init, a, b);
    OnlyHere(OnlyId((b, 4)), init.slots, r.h, r.v.slot);
    OnlyHere(OnlyId((b, 0)), init.slots, r.h, r.v.slot);
    TwoCalls(OnlyId((b, 4)), (a, 4), (b, 4));
    TwoCalls(OnlyId((b, 0)), (a, 4), (b, 4));
    schedule := r.schedule;
  }

  // ── One entry in two slots ──────────────────────────────────────────────────

  /** The same state, seen from another slot. */
  lemma Elsewhere(init: State, r: Run, base: seq<Slot>, h: nat, x: Slot) returns (r': Run)
    requires Reaches(init, r) && |base| == CAPACITY && h < CAPACITY && base[h := x] == r.base[r.h := r.v.slot]
    ensures Reaches(init, r') && r' == r.(base := base, h := h, v := r.v.(slot := x))
  {
    r' := r.(base := base, h := h, v := r.v.(slot := x));
  }

  /** The second key finds its home slot taken and goes into the next, which lies behind or ahead of the sweep. */
  lemma InsertNextDoor(init: State, r: Run, a: nat, b: nat) returns (r': Run)
    requires Reaches(init, r) && a != 0 && b != 0 && a != b && r.h == Probed(b, 1) && r.base[Probed(b, 0)].key == a
    requires r.v.slot == EMPTY && r.v.writer == WIdle && r.v.drain == DLoad(Probed(b, 0))
    ensures Reaches(init, r') && (r'.base, r'.h, r'.wide) == (r.base, r.h, r.wide)
    ensures r'.v == View(Slot(b, 4, 1, true), WIdle, r.v.drain, r.v.books.(calls := r.v.books.calls + [(b, 4)]))
  {
    assert Shaped(Scene(r.base, r.h, r.v));
    r' := DoTwo(init, r, Call(b, 4), r.v.(writer := WProbe(b, 4, 0)), WriterStep, r.v.(writer := WProbe(b, 4, 1)));
    r' := Do(init, r', WriterStep, r.v.(writer := WStoreKey(b, 4, r.h)));
    r' := StoreLabels(init, r', b);
    r' := FinishInsert(init, r', b, false);
  }

  lemma StoreLabels(init: State, r: Run, b: nat) returns (r': Run)
    requires Reaches(init, r) && b != 0 && r.h == Probed(b, 1) && r.v.slot == EMPTY && r.v.writer == WStoreKey(b, 4, r.h) && r.v.drain.DLoad?
    ensures Reaches(init, r') && Calm(r, r') && r'.wide == r.wide
    ensures r'.v == r.v.(slot := Slot(b, 4, 0, false), writer := WStoreCount(b, 4, r.h))
  {
    assert Shaped(Scene(r.base, r.h, r.v));
    r' := DoTwo(init, r, WriterStep, r.v.(slot := Slot(b, 0, 0, false), writer := WStoreSeverity(b, 4, r.h)),
                WriterStep, r.v.(slot := Slot(b, 4, 0, false), writer := WStoreCount(b, 4, r.h)));
  }

  /** A sweep over a slot that holds one count, nobody calling. */
  lemma SweepSlot(init: State, r: Run, a: nat) returns (r': Run)
    requires Reaches(init, r) && a != 0 && r.v.slot == Slot(a, 4, 1, true) && r.v.writer == WIdle && r.v.drain == DLoad(r.h)
    ensures Reaches(init, r') && Calm(r, r') && r'.wide == r.wide
    ensures r'.v == View(EMPTY, WIdle, NextSlot(r.h), r.v.books.(drained := r.v.books.drained + [Swept(a, 4, 1)]))
  {
    r' := TakeCount(init, r);
    r' := ClearKey(init, r', 1);
    r' := LeaveSlot(init, r', 1, a, 4);
  }

  /**
   One entry can occupy two slots, even in a run with no call in the wide window: for every two keys with one
   home slot, the sweep opens a hole there while the second key sits next door.
   */
  lemma EntryInTwoSlots(init: State, a: nat, b: nat) returns (schedule: seq<Action>)
    requires IsInitial(init) && a != 0 && b != 0 && a != b && Probed(a, 0) == Probed(b, 0)
    ensures
      var s := Exec(init, schedule);
      && QuietRun(init, schedule, true) && |s.slots| == CAPACITY
      && IdOf(s.slots[Probed(b, 0)]) == IdOf(s.slots[Probed(b, 1)]) == (b, 4) && Probed(b, 0) != Probed(b, 1)
  {
    var z, h, g := init.slots, Probed(b, 0), Probed(b, 1);
    var x, y := Slot(a, 4, 1, true), Slot(b, 4, 1, true);
    var r := CountedOnce(init, a);
    r := SweepTo(init, r);
    assert z[h := x][g := EMPTY] == z[h := x];
    r := Elsewhere(init, r, z[h := x], g, EMPTY);
    r := InsertNextDoor(init, r, a, b);
    assert z[h := x][g := y] == z[g := y][h := x];
    r := Elsewhere(init, r, z[g := y], h, x);
    r := SweepSlot(init, r, a);
    r := Insert(init, r, b);
    schedule := r.schedule;
  }
}
