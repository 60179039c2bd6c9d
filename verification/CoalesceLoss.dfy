/**
 How much a sweep can lose. A call overlaps when, before it has counted, it stands on a slot whose count
 the drain has taken and whose key it has not yet cleared. In every interleaving what is lost, and what
 lies in slots without a key, is bounded by the number of calls that overlapped.
 */
module CoalesceLoss {
  import opened Bytes
  import opened CoalesceTable
  import opened CoalesceRace

  // ── Counting the calls that overlap ─────────────────────────────────────────

  predicate Overlapping(s: State) {
    !s.drain.DIdle? && InWindow(s.drain, s.drain.i) && Engaged(s.writer, s.drain.i)
  }

  /** Whether the call in progress has overlapped yet, and how many calls have. */
  datatype Mark = Mark(marked: bool, overlaps: nat)

  function Noted(s: State, m: Mark): Mark {
    if Overlapping(s) && !m.marked then Mark(true, m.overlaps + 1) else m
  }

  function MarkStep(s: State, a: Action, m: Mark): Mark
    requires Shaped(s)
  {
    Noted(Step(s, a), if a.Call? && s.writer.WIdle? then m.(marked := false) else m)
  }

  function Marks(s: State, m: Mark, schedule: seq<Action>): Mark
    requires Shaped(s)
    decreases |schedule|
  {
    if schedule == [] then m else Marks(Step(s, schedule[0]), MarkStep(s, schedule[0], m), schedule[1..])
  }

  function OverlappingCalls(init: State, schedule: seq<Action>): nat
    requires Shaped(init)
  {
    Marks(init, Mark(false, 0), schedule).overlaps
  }

  // ── What is lost or at risk ─────────────────────────────────────────────────

  /** The slot has its key stored for an insertion that has yet to store its count. */
  predicate Uncounted(w: Writer, i: nat) {
    (w.WStoreSeverity? || w.WStoreCount?) && w.i == i
  }

  /** The count of a slot that no later sweep will report for the calls that made it. */
  function StrayAt(s: State, i: nat): nat
    requires i < |s.slots|
  {
    if s.slots[i].key == 0 || InWindow(s.drain, i) || Uncounted(s.writer, i) then s.slots[i].count else 0
  }

  function FirstStrays(s: State, n: nat): nat
    requires n <= |s.slots|
  {
    if n == 0 then 0 else FirstStrays(s, n - 1) + StrayAt(s, n - 1)
  }

  function Strays(s: State): nat { FirstStrays(s, |s.slots|) }

  /** Counts lying in slots without a key. */
  function InHoles(slots: seq<Slot>, n: nat): nat
    requires n <= |slots|
  {
    if n == 0 then 0 else InHoles(slots, n - 1) + (if slots[n - 1].key == 0 then slots[n - 1].count else 0)
  }

  lemma {:induction false} HolesAreStrays(s: State, n: nat)
    requires n <= |s.slots|
    ensures InHoles(s.slots, n) <= FirstStrays(s, n)
  {
    if n > 0 { HolesAreStrays(s, n - 1); }
  }

  lemma {:induction false} StraysMoved(s: State, s': State, i: nat, n: nat)
    requires |s.slots| == |s'.slots| && i < |s.slots| && n <= |s.slots|
    requires forall j: nat | j < |s.slots| && j != i :: StrayAt(s', j) == StrayAt(s, j)
    ensures FirstStrays(s', n) == FirstStrays(s, n) + (if i < n then StrayAt(s', i) - StrayAt(s, i) else 0)
    decreases n
  {
    if n > 0 { StraysMoved(s, s', i, n - 1); }
  }

  // ── The invariant ───────────────────────────────────────────────────────────

  /** The call has yet to count. */
  predicate Counting(w: Writer) {
    !w.WIdle? && !w.WStoreSample? && !w.WMarkSample?
  }

  /** An overlap that has not yet cost a count. */
  function Reserved(s: State, m: Mark): nat { if m.marked && Counting(s.writer) then 1 else 0 }

  /** The slot the writer has committed to, if any. */
  function Target(w: Writer): Option<nat> {
    match w
    case WSeverity(key, _, d) => if d < CAPACITY then Some(Probed(key, d)) else None
    case WStoreSeverity(_, _, i) => Some(i)
    case WStoreCount(_, _, i) => Some(i)
    case WLoadSample(_, _, i) => Some(i)
    case WFetchAdd(_, _, i, _) => Some(i)
    case _ => None
  }

  /** A call standing on a slot that is without its key, or in the window, has overlapped. */
  ghost predicate TouchedIsMarked(s: State, m: Mark)
    requires Shaped(s)
  {
    var t := Target(s.writer);
    t.Some? && t.value < CAPACITY && (s.slots[t.value].key == 0 || InWindow(s.drain, t.value)) ==> m.marked
  }

  ghost predicate Within(s: State, m: Mark) {
    && Shaped(s)
    && (s.writer.WStoreKey? ==> s.slots[s.writer.i].key == 0)
    && TouchedIsMarked(s, m)
    && s.lost + Strays(s) + Reserved(s, m) <= m.overlaps
  }

  lemma NotedKeeps(s: State, m: Mark)
    requires Shaped(s) && (s.writer.WStoreKey? ==> s.slots[s.writer.i].key == 0)
    requires s.lost + Strays(s) + Reserved(s, m) <= m.overlaps
    requires TouchedIsMarked(s, m) || Overlapping(s)
    ensures Within(s, Noted(s, m))
  {
  }

  /** A count, once: it costs an overlap exactly when it strays. */
  lemma CountingWithin(s: State, m: Mark)
    requires Within(s, m) && (s.writer.WStoreCount? || s.writer.WFetchAdd?)
    requires s.slots[s.writer.i].count + 1 < U32_SIZE
    ensures Within(WriterNext(s), Noted(WriterNext(s), m))
  {
    var s', i := WriterNext(s), s.writer.i;
    StraysMoved(s, s', i, CAPACITY);
    NotedKeeps(s', m);
  }

  lemma LabellingWithin(s: State, m: Mark)
    requires Within(s, m) && (s.writer.WStoreKey? || s.writer.WStoreSeverity? || s.writer.WStoreSample? || s.writer.WMarkSample?)
    ensures Within(WriterNext(s), Noted(WriterNext(s), m))
  {
    var s', i := WriterNext(s), s.writer.i;
    StraysMoved(s, s', i, CAPACITY);
    NotedKeeps(s', m);
  }

  lemma {:induction false} StraysSame(s: State, s': State, n: nat)
    requires |s.slots| == |s'.slots| && n <= |s.slots|
    requires forall j: nat | j < |s.slots| :: StrayAt(s', j) == StrayAt(s, j)
    ensures FirstStrays(s', n) == FirstStrays(s, n)
  {
    if n > 0 { StraysSame(s, s', n - 1); }
  }

  lemma SearchingWithin(s: State, m: Mark)
    requires Within(s, m) && (s.writer.WProbe? || s.writer.WSeverity? || s.writer.WLoadSample? || s.writer.WIdle?)
    ensures Within(WriterNext(s), Noted(WriterNext(s), m))
  {
    var s' := WriterNext(s);
    StraysSame(s, s', CAPACITY);
    NotedKeeps(s', m);
  }

  lemma WriterWithin(s: State, m: Mark)
    requires Within(s, m) && (s.writer.WFetchAdd? || s.writer.WStoreCount? ==> s.slots[s.writer.i].count + 1 < U32_SIZE)
    ensures Within(WriterNext(s), Noted(WriterNext(s), m))
  {
    if s.writer.WStoreCount? || s.writer.WFetchAdd? {
      CountingWithin(s, m);
    } else if s.writer.WStoreKey? || s.writer.WStoreSeverity? || s.writer.WStoreSample? || s.writer.WMarkSample? {
      LabellingWithin(s, m);
    } else {
      SearchingWithin(s, m);
    }
  }

  lemma DrainWithin(s: State, m: Mark)
    requires Within(s, m)
    ensures Within(DrainNext(s), Noted(DrainNext(s), m))
  {
    var s' := DrainNext(s);
    if !s.drain.DIdle? {
      StraysMoved(s, s', s.drain.i, CAPACITY);
    } else {
      StraysSame(s, s', CAPACITY);
    }
    NotedKeeps(s', m);
  }

  lemma StepWithin(s: State, a: Action, m: Mark)
    requires Within(s, m) && Balanced(s) && Calls(All, Step(s, a).calls) < U32_SIZE
    ensures Within(Step(s, a), MarkStep(s, a, m))
  {
    match a
    case WriterStep =>
      if s.writer.WFetchAdd? || s.writer.WStoreCount? {
        CountOne(All, s.calls, (s.writer.key, s.writer.severity));
        NoWrap(s, s.writer.i);
      }
      WriterWithin(s, m);
    case DrainStep => DrainWithin(s, m);
    case _ =>
      var s' := Step(s, a);
      StraysSame(s, s', CAPACITY);
      NotedKeeps(s', if a.Call? && s.writer.WIdle? then m.(marked := false) else m);
  }

  lemma {:induction false} WithinAlways(s: State, m: Mark, schedule: seq<Action>)
    requires Within(s, m) && Balanced(s) && Calls(All, Exec(s, schedule).calls) < U32_SIZE
    ensures Within(Exec(s, schedule), Marks(s, m, schedule))
    decreases |schedule|
  {
    if schedule != [] {
      var s', m' := Step(s, schedule[0]), MarkStep(s, schedule[0], m);
      CallsGrow(s', schedule[1..]);
      StepWithin(s, schedule[0], m);
      BalancedStep(s, schedule[0]);
      WithinAlways(s', m', schedule[1..]);
    }
  }

  lemma {:induction false} NoStrays(s: State, n: nat)
    requires IsInitial(s) && n <= CAPACITY
    ensures FirstStrays(s, n) == 0
  {
    if n > 0 { NoStrays(s, n - 1); }
  }

  /**
   In every interleaving with fewer than 2^32 counting calls: what has been overwritten, together with what
   lies in slots without a key, is at most the number of calls that overlapped a window.
   */
  lemma LossBounded(init: State, schedule: seq<Action>)
    requires IsInitial(init) && Calls(All, Exec(init, schedule).calls) < U32_SIZE
    ensures
      var s := Exec(init, schedule);
      s.lost + InHoles(s.slots, |s.slots|) <= OverlappingCalls(init, schedule)
  {
    NoStrays(init, CAPACITY);
    AllEmpty(All, init.slots, CAPACITY);
    WithinAlways(init, Mark(false, 0), schedule);
    HolesAreStrays(Exec(init, schedule), CAPACITY);
  }
}
