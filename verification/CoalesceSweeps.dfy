/**
 The coalescer table under any number of sweeps at once, as a hand-off leaves it when two exporters stand
 past an open gate, with a sweep cut short at any step when its exporter dies. The total is still never
 over-reported. What keeps it exact: no call in any sweep's window; key by key, also no two sweeps in the
 windows of one slot.
 */
module CoalesceSweeps {
  import opened Bytes
  import opened CoalesceTable
  import opened CoalesceRace

  /** A sweep under way and what it has listed; `DIdle` when there is none. */
  datatype Hand = Hand(drain: Drain, out: seq<Swept>)

  /** The table, with the lists of all finished sweeps, every exporter's sweep, and what died with an exporter. */
  datatype Shared = Shared(table: State, hands: seq<Hand>, died: seq<Swept>)

  datatype Turn = Write(a: Action) | Begin(i: nat) | Sweep(i: nat) | Die(i: nat)

  const RESTING: Hand := Hand(DIdle, [])

  /** The table as one sweep acts on it. */
  function With(t: State, h: Hand): State { t.(drain := h.drain, drained := h.out) }

  predicate HandFormed(h: Hand) {
    if h.drain.DIdle? then h.out == [] else h.drain.i < CAPACITY
  }

  ghost predicate Formed(s: Shared) {
    Shaped(s.table) && s.table.drain == DIdle && forall h | h in s.hands :: HandFormed(h)
  }

  lemma FormedShapes(s: Shared, i: nat)
    requires Formed(s) && i < |s.hands|
    ensures HandFormed(s.hands[i]) && Shaped(With(s.table, s.hands[i]))
  {
    assert s.hands[i] in s.hands;
  }

  function Fresh(table: State, exporters: nat): Shared { Shared(table, seq(exporters, _ => RESTING), []) }

  /** What the sweep has taken out of a slot and not yet listed. */
  function InHand(t: State, h: Hand): seq<Swept>
    requires Shaped(t) && HandFormed(h)
  {
    match h.drain
    case DLoadKey(i, count) => [Swept(t.slots[i].key, t.slots[i].severity, count)]
    case DLoadSeverity(i, count, key) => [Swept(key, t.slots[i].severity, count)]
    case DClearKey(_, count, key, severity) => [Swept(key, severity, count)]
    case DClearSeverity(_, count, key, severity) => [Swept(key, severity, count)]
    case DClearSample(_, count, key, severity) => [Swept(key, severity, count)]
    case _ => []
  }

  /** A finished sweep hands its list over. */
  function Delivered(s: Shared, i: nat, t: State): Shared
    requires i < |s.hands|
  {
    if t.drain.DIdle? then
      s.(table := t.(drain := DIdle, drained := s.table.drained + t.drained), hands := s.hands[i := RESTING])
    else
      s.(table := t.(drain := DIdle, drained := s.table.drained), hands := s.hands[i := Hand(t.drain, t.drained)])
  }

  function TakeTurn(s: Shared, t: Turn): Shared
    requires Formed(s)
  {
    match t
    case Write(a) => if a.Call? || a.WriterStep? then s.(table := Step(s.table, a)) else s
    case Begin(i) =>
      if i < |s.hands| && s.hands[i].drain.DIdle? then s.(hands := s.hands[i := Hand(DLoad(0), [])]) else s
    case Sweep(i) => if i < |s.hands| then FormedShapes(s, i); Delivered(s, i, DrainNext(With(s.table, s.hands[i]))) else s
    case Die(i) =>
      if i < |s.hands| then
        s.(hands := s.hands[i := RESTING], died := s.died + s.hands[i].out + InHand(s.table, s.hands[i]))
      else s
  }

  lemma SweepShapes(t: State, h: Hand)
    requires Shaped(t) && HandFormed(h)
    ensures
      var t' := DrainNext(With(t, h));
      Shaped(t'.(drain := DIdle)) && HandFormed(if t'.drain.DIdle? then RESTING else Hand(t'.drain, t'.drained))
  {
    assert Shaped(DrainNext(With(t, h)));
  }

  lemma ReplacedHand(hands: seq<Hand>, i: nat, h: Hand)
    requires i < |hands| && HandFormed(h) && forall x | x in hands :: HandFormed(x)
    ensures forall x | x in hands[i := h] :: HandFormed(x)
  {
  }

  lemma TurnFormed(s: Shared, t: Turn)
    requires Formed(s)
    ensures Formed(TakeTurn(s, t))
  {
    match t
    case Write(a) =>
    case Begin(i) => if i < |s.hands| { ReplacedHand(s.hands, i, Hand(DLoad(0), [])); }
    case Die(i) => if i < |s.hands| { ReplacedHand(s.hands, i, RESTING); }
    case Sweep(i) =>
      if i < |s.hands| {
        FormedShapes(s, i);
        SweepShapes(s.table, s.hands[i]);
        ReplacedHand(s.hands, i, TakeTurn(s, t).hands[i]);
      }
  }

  function Turns(s: Shared, schedule: seq<Turn>): (s': Shared)
    requires Formed(s)
    ensures Formed(s')
    decreases |schedule|
  {
    if schedule == [] then s else TurnFormed(s, schedule[0]); Turns(TakeTurn(s, schedule[0]), schedule[1..])
  }

  // ── The account ─────────────────────────────────────────────────────────────

  /** Listed or taken by one sweep. */
  function Held(w: Scope, t: State, h: Hand): nat
    requires Shaped(t) && HandFormed(h)
  {
    Reported(w, h.out) + InFlight(w, With(t, h))
  }

  ghost function FirstHeld(w: Scope, t: State, hands: seq<Hand>, n: nat): nat
    requires Shaped(t) && n <= |hands| && forall h | h in hands :: HandFormed(h)
  {
    if n == 0 then 0 else FirstHeld(w, t, hands, n - 1) + Held(w, t, hands[n - 1])
  }

  /** Handed over, listed, taken, died with an exporter, or still in slots. */
  ghost function Account(w: Scope, s: Shared): nat
    requires Formed(s)
  {
    Reported(w, s.table.drained) + FirstHeld(w, s.table, s.hands, |s.hands|) + Reported(w, s.died) + InSlots(w, s.table.slots)
  }

  lemma {:induction false} HeldMoved(w: Scope, t: State, hands: seq<Hand>, t': State, i: nat, h: Hand, n: nat)
    requires Shaped(t) && Shaped(t') && n <= |hands| && i < |hands| && HandFormed(h) && forall x | x in hands :: HandFormed(x)
    requires forall x | x in hands[i := h] :: HandFormed(x)
    requires forall j: nat | j < |hands| && j != i :: HandFormed(hands[j]) && Held(w, t', hands[j]) == Held(w, t, hands[j])
    ensures HandFormed(hands[i])
    ensures FirstHeld(w, t', hands[i := h], n) == FirstHeld(w, t, hands, n) + (if i < n then Held(w, t', h) - Held(w, t, hands[i]) else 0)
    decreases n
  {
    assert hands[i] in hands;
    if n > 0 { HeldMoved(w, t, hands, t', i, h, n - 1); }
  }

  lemma {:induction false} HeldSame(w: Scope, t: State, hands: seq<Hand>, t': State, n: nat)
    requires Shaped(t) && Shaped(t') && n <= |hands| && forall x | x in hands :: HandFormed(x)
    requires forall x | x in hands :: Held(w, t', x) == Held(w, t, x)
    ensures FirstHeld(w, t', hands, n) == FirstHeld(w, t, hands, n)
    decreases n
  {
    if n > 0 { HeldSame(w, t, hands, t', n - 1); }
  }

  lemma {:induction false} ReportConcat(w: Scope, a: seq<Swept>, b: seq<Swept>)
    ensures Reported(w, a + b) == Reported(w, a) + Reported(w, b)
    decreases |b|
  {
    if b == [] {
      assert a + b == a;
    } else {
      var b', x := b[..|b| - 1], b[|b| - 1];
      ReportConcat(w, a, b');
      ReportOne(w, a + b', x);
      ReportOne(w, b', x);
      assert b == b' + [x] && a + b == (a + b') + [x];
    }
  }

  /** What dies with a sweep is what it held. */
  lemma InHandIsFlight(w: Scope, t: State, h: Hand)
    requires Shaped(t) && HandFormed(h)
    ensures Reported(w, InHand(t, h)) == InFlight(w, With(t, h))
  {
    if InHand(t, h) != [] {
      ReportOne(w, [], InHand(t, h)[0]);
      assert [] + [InHand(t, h)[0]] == InHand(t, h);
    }
  }

  /** Nothing else is held differently. */
  ghost predicate OthersHeld(w: Scope, s: Shared, t: State, i: nat)
    requires Formed(s) && Shaped(t)
  {
    forall j: nat | j < |s.hands| && j != i :: HandFormed(s.hands[j]) && Held(w, t, s.hands[j]) == Held(w, s.table, s.hands[j])
  }

  /** A step of one sweep moves counts within the account. */
  lemma SweepAccount(w: Scope, s: Shared, i: nat)
    requires Formed(s) && i < |s.hands| && Shaped(With(s.table, s.hands[i]))
    requires Tally(w, DrainNext(With(s.table, s.hands[i]))) == Tally(w, With(s.table, s.hands[i]))
    requires OthersHeld(w, s, DrainNext(With(s.table, s.hands[i])), i)
    ensures Formed(TakeTurn(s, Sweep(i))) && Account(w, TakeTurn(s, Sweep(i))) == Account(w, s)
  {
    TurnFormed(s, Sweep(i));
    var s', t' := TakeTurn(s, Sweep(i)), DrainNext(With(s.table, s.hands[i]));
    SameHeld(w, s, t', s'.table, i);
    HeldMoved(w, s.table, s.hands, s'.table, i, s'.hands[i], |s.hands|);
    if t'.drain.DIdle? { ReportConcat(w, s.table.drained, t'.drained); }
  }

  lemma SameHeld(w: Scope, s: Shared, t: State, t': State, i: nat)
    requires Formed(s) && Shaped(t) && Shaped(t') && OthersHeld(w, s, t, i) && t'.slots == t.slots
    ensures OthersHeld(w, s, t', i)
  {
  }

  lemma DieAccount(w: Scope, s: Shared, i: nat)
    requires Formed(s) && i < |s.hands|
    ensures Formed(TakeTurn(s, Die(i))) && Account(w, TakeTurn(s, Die(i))) == Account(w, s)
  {
    TurnFormed(s, Die(i));
    FormedShapes(s, i);
    var h := s.hands[i];
    assert forall j: nat | j < |s.hands| :: s.hands[j] in s.hands;
    HeldMoved(w, s.table, s.hands, s.table, i, RESTING, |s.hands|);
    InHandIsFlight(w, s.table, h);
    ReportConcat(w, s.died, h.out);
    ReportConcat(w, s.died + h.out, InHand(s.table, h));
  }

  lemma BeginAccount(w: Scope, s: Shared, i: nat)
    requires Formed(s) && i < |s.hands|
    ensures Formed(TakeTurn(s, Begin(i))) && Account(w, TakeTurn(s, Begin(i))) == Account(w, s)
  {
    TurnFormed(s, Begin(i));
    FormedShapes(s, i);
    assert forall j: nat | j < |s.hands| :: s.hands[j] in s.hands;
    if s.hands[i].drain.DIdle? { HeldMoved(w, s.table, s.hands, s.table, i, Hand(DLoad(0), []), |s.hands|); }
  }

  // ── Never over-reported ─────────────────────────────────────────────────────

  lemma TotalStep(s: Shared, t: Turn)
    requires Formed(s)
    ensures
      var s' := TakeTurn(s, t);
      && Formed(s')
      && Account(All, s') + s'.table.lost - Calls(All, s'.table.calls) == Account(All, s) + s.table.lost - Calls(All, s.table.calls)
  {
    TurnFormed(s, t);
    match t
    case Write(a) =>
      var t' := TakeTurn(s, t).table;
      forall h | h in s.hands ensures Held(All, t', h) == Held(All, s.table, h) { FlightOfAll(With(s.table, h), With(t', h)); }
      HeldSame(All, s.table, s.hands, t', |s.hands|);
      if a.WriterStep? { WriterTotal(s.table); }
    case Begin(i) => if i < |s.hands| { BeginAccount(All, s, i); }
    case Die(i) => if i < |s.hands| { DieAccount(All, s, i); }
    case Sweep(i) => if i < |s.hands| { TotalSweep(s, i); }
  }

  lemma TotalSweep(s: Shared, i: nat)
    requires Formed(s) && i < |s.hands|
    ensures
      var s' := TakeTurn(s, Sweep(i));
      && Formed(s') && Account(All, s') == Account(All, s)
      && s'.table.lost == s.table.lost && s'.table.calls == s.table.calls
  {
    FormedShapes(s, i);
    var t' := DrainNext(With(s.table, s.hands[i]));
    DrainTotal(With(s.table, s.hands[i]));
    forall j: nat | j < |s.hands| && j != i
      ensures HandFormed(s.hands[j]) && Held(All, t', s.hands[j]) == Held(All, s.table, s.hands[j])
    {
      FormedShapes(s, j);
      FlightOfAll(With(s.table, s.hands[j]), With(t', s.hands[j]));
    }
    SweepAccount(All, s, i);
  }

  lemma {:induction false} TotalAlways(s: Shared, schedule: seq<Turn>)
    requires Formed(s) && Account(All, s) + s.table.lost == Calls(All, s.table.calls)
    ensures
      var s' := Turns(s, schedule);
      Account(All, s') + s'.table.lost == Calls(All, s'.table.calls)
    decreases |schedule|
  {
    if schedule != [] {
      TotalStep(s, schedule[0]);
      TotalAlways(TakeTurn(s, schedule[0]), schedule[1..]);
    }
  }

  lemma {:induction false} NothingHeld(w: Scope, t: State, exporters: nat, n: nat)
    requires Shaped(t) && n <= exporters
    ensures FirstHeld(w, t, Fresh(t, exporters).hands, n) == 0
    decreases n
  {
    if n > 0 { NothingHeld(w, t, exporters, n - 1); }
  }

  /**
   In every interleaving of a writer and any number of sweeps, with exporters dying at any step: what was
   handed over, is held, died, lies in slots or was overwritten is exactly the number of counting calls.
   */
  lemma SweepsNeverOverReport(init: State, exporters: nat, schedule: seq<Turn>)
    requires IsInitial(init)
    ensures
      var s := Turns(Fresh(init, exporters), schedule);
      && Account(All, s) + s.table.lost == Calls(All, s.table.calls)
      && Reported(All, s.table.drained) + InSlots(All, s.table.slots) <= Calls(All, s.table.calls)
  {
    AllEmpty(All, init.slots, CAPACITY);
    NothingHeld(All, init, exporters, exporters);
    TotalAlways(Fresh(init, exporters), schedule);
  }

  // ── Exact without overlap ───────────────────────────────────────────────────

  /** No call stands in a sweep's window. */
  ghost predicate Quiet(s: Shared, wide: bool) {
    forall h | h in s.hands :: NoOverlap(With(s.table, h), wide)
  }

  predicate Crossing(d: Drain, e: Drain, wide: bool) {
    !d.DIdle? && !e.DIdle? && d.i == e.i && Window(d, d.i, wide) && Window(e, e.i, wide)
  }

  /** No two sweeps stand in the windows of one slot. */
  ghost predicate Apart(s: Shared, wide: bool) {
    forall i, j | 0 <= i < |s.hands| && 0 <= j < |s.hands| && i != j :: !Crossing(s.hands[i].drain, s.hands[j].drain, wide)
  }

  /** What an account by `w` asks of every state: in total quiet, by key also sweeps apart, by severity both widely. */
  ghost predicate Orderly(w: Scope, s: Shared) {
    Quiet(s, w.OnlyId?) && (w.All? || Apart(s, w.OnlyId?))
  }

  ghost predicate OrderlyRun(w: Scope, s: Shared, schedule: seq<Turn>)
    requires Formed(s)
    decreases |schedule|
  {
    Orderly(w, s) &&
    (schedule == [] || (Formed(TakeTurn(s, schedule[0])) && OrderlyRun(w, TakeTurn(s, schedule[0]), schedule[1..])))
  }

  ghost predicate AllAgreed(w: Scope, s: Shared) {
    Formed(s) && Agreed(w, s.table) && forall h | h in s.hands :: Agreed(w, With(s.table, h))
  }

  /** A step of one sweep leaves what another holds, as they are not on one slot. */
  lemma OtherUndisturbed(w: Scope, t: State, h: Hand, g: Hand)
    requires Shaped(t) && HandFormed(h) && HandFormed(g)
    requires w.All? || !Crossing(h.drain, g.drain, w.OnlyId?)
    ensures
      var t' := DrainNext(With(t, h));
      Shaped(t') && Held(w, t', g) == Held(w, t, g)
  {
  }

  /** No step of a sweep raises a count. */
  lemma OtherStaysAgreed(w: Scope, t: State, h: Hand, g: Hand)
    requires Shaped(t) && HandFormed(h) && HandFormed(g) && Agreed(w, With(t, g))
    requires Agreed(w, DrainNext(With(t, h)))
    ensures Agreed(w, With(DrainNext(With(t, h)), g))
  {
    var d := h.drain;
    assert !d.DIdle? ==> DrainNext(With(t, h)).slots[d.i].count <= t.slots[d.i].count;
  }

  lemma AgreedIdle(w: Scope, t: State, h: Hand)
    requires Agreed(w, t)
    ensures Agreed(w, With(t, Hand(DIdle, h.out))) && Agreed(w, With(t, Hand(DLoad(0), h.out)))
  {
  }

  lemma SweepAgreed(w: Scope, s: Shared, i: nat)
    requires AllAgreed(w, s) && Quiet(s, w.OnlyId?) && i < |s.hands|
    ensures AllAgreed(w, TakeTurn(s, Sweep(i)))
  {
    TurnFormed(s, Sweep(i));
    FormedShapes(s, i);
    var s', t' := TakeTurn(s, Sweep(i)), DrainNext(With(s.table, s.hands[i]));
    DrainKeepsAgreed(w, With(s.table, s.hands[i]));
    forall h | h in s'.hands ensures Agreed(w, With(s'.table, h)) {
      if h in s.hands { OtherStaysAgreed(w, s.table, s.hands[i], h); }
      assert With(s'.table, h) == With(t', h);
    }
  }

  lemma ExactSweep(w: Scope, s: Shared, i: nat)
    requires AllAgreed(w, s) && Orderly(w, s) && i < |s.hands|
    ensures AllAgreed(w, TakeTurn(s, Sweep(i))) && Account(w, TakeTurn(s, Sweep(i))) == Account(w, s)
  {
    SweepAgreed(w, s, i);
    FormedShapes(s, i);
    var t' := DrainNext(With(s.table, s.hands[i]));
    DrainTally(w, With(s.table, s.hands[i]));
    forall j: nat | j < |s.hands| && j != i
      ensures HandFormed(s.hands[j]) && Held(w, t', s.hands[j]) == Held(w, s.table, s.hands[j])
    {
      FormedShapes(s, j);
      OtherUndisturbed(w, s.table, s.hands[i], s.hands[j]);
    }
    SweepAccount(w, s, i);
  }

  lemma ReplacedAgreed(w: Scope, s: Shared, i: nat, h: Hand)
    requires AllAgreed(w, s) && i < |s.hands| && HandFormed(h) && Agreed(w, With(s.table, h))
    ensures forall x | x in s.hands[i := h] :: Agreed(w, With(s.table, x))
  {
    forall x | x in s.hands[i := h] ensures Agreed(w, With(s.table, x)) {
      if x != h { assert x in s.hands; }
    }
  }

  lemma RestAgreed(w: Scope, s: Shared, t: Turn)
    requires AllAgreed(w, s) && (t.Begin? || t.Die?)
    ensures AllAgreed(w, TakeTurn(s, t)) && Account(w, TakeTurn(s, t)) == Account(w, s)
  {
    TurnFormed(s, t);
    AgreedIdle(w, s.table, RESTING);
    if t.i < |s.hands| {
      ReplacedAgreed(w, s, t.i, RESTING);
      ReplacedAgreed(w, s, t.i, Hand(DLoad(0), []));
      if t.Begin? { BeginAccount(w, s, t.i); } else { DieAccount(w, s, t.i); }
    }
  }

  lemma WriteAgreed(w: Scope, s: Shared)
    requires AllAgreed(w, s) && Quiet(s, w.OnlyId?)
    requires s.table.writer.WFetchAdd? ==> s.table.slots[s.table.writer.i].count + 1 < U32_SIZE
    ensures AllAgreed(w, TakeTurn(s, Write(WriterStep))) && WriterNext(s.table).lost == s.table.lost
  {
    TurnFormed(s, Write(WriterStep));
    WriterKeepsAgreed(w, s.table);
    forall h | h in s.hands ensures Agreed(w, With(WriterNext(s.table), h)) {
      WriterKeepsAgreed(w, With(s.table, h));
      assert WriterNext(With(s.table, h)) == With(WriterNext(s.table), h);
    }
  }

  lemma ExactWrite(w: Scope, s: Shared)
    requires AllAgreed(w, s) && Quiet(s, w.OnlyId?) && Quiet(TakeTurn(s, Write(WriterStep)), w.OnlyId?)
    requires s.table.writer.WFetchAdd? ==> s.table.slots[s.table.writer.i].count + 1 < U32_SIZE
    ensures
      var s' := TakeTurn(s, Write(WriterStep));
      && AllAgreed(w, s') && s'.table.lost == s.table.lost
      && Account(w, s') - Calls(w, s'.table.calls) == Account(w, s) - Calls(w, s.table.calls)
  {
    WriteAgreed(w, s);
    var t' := WriterNext(s.table);
    forall h | h in s.hands ensures Held(w, t', h) == Held(w, s.table, h) {
      assert WriterNext(With(s.table, h)) == With(t', h);
      WideIsQuiet(With(s.table, h), w.OnlyId?);
      WideIsQuiet(With(t', h), w.OnlyId?);
      WriterKeepsFlight(w, With(s.table, h));
    }
    HeldSame(w, s.table, s.hands, t', |s.hands|);
    WriterTally(w, s.table);
  }

  lemma SlotBelowLimit(s: Shared, i: nat)
    requires Formed(s) && i < CAPACITY && Account(All, s) + s.table.lost == Calls(All, s.table.calls)
    requires Calls(All, s.table.calls) + 1 < U32_SIZE
    ensures s.table.slots[i].count + 1 < U32_SIZE
  {
    SlotWithinTotal(All, s.table.slots, i, CAPACITY);
  }

  lemma ExactTurn(w: Scope, s: Shared, t: Turn)
    requires AllAgreed(w, s) && Orderly(w, s) && Orderly(w, TakeTurn(s, t))
    requires Account(All, s) + s.table.lost == Calls(All, s.table.calls) && Calls(All, TakeTurn(s, t).table.calls) < U32_SIZE
    ensures
      var s' := TakeTurn(s, t);
      && AllAgreed(w, s') && s'.table.lost == s.table.lost
      && Account(w, s') - Calls(w, s'.table.calls) == Account(w, s) - Calls(w, s.table.calls)
  {
    if t.Sweep? {
      if t.i < |s.hands| {
        ExactSweep(w, s, t.i);
        TotalSweep(s, t.i);
      }
    } else if t.Begin? || t.Die? {
      RestAgreed(w, s, t);
    } else if t.a.WriterStep? {
      if s.table.writer.WFetchAdd? {
        CountOne(All, s.table.calls, (s.table.writer.key, s.table.writer.severity));
        SlotBelowLimit(s, s.table.writer.i);
      }
      ExactWrite(w, s);
    } else {
      CallAgreed(w, s, t.a);
    }
  }

  lemma CallAgreed(w: Scope, s: Shared, a: Action)
    requires AllAgreed(w, s) && !a.WriterStep?
    ensures
      var s' := TakeTurn(s, Write(a));
      AllAgreed(w, s') && s'.table.lost == s.table.lost && s'.table.calls == s.table.calls && Account(w, s') == Account(w, s)
  {
    TurnFormed(s, Write(a));
    HeldSame(w, s.table, s.hands, TakeTurn(s, Write(a)).table, |s.hands|);
  }

  lemma {:induction false} MoreCalls(s: Shared, schedule: seq<Turn>)
    requires Formed(s)
    ensures Calls(All, s.table.calls) <= Calls(All, Turns(s, schedule).table.calls)
    decreases |schedule|
  {
    if schedule != [] {
      TurnFormed(s, schedule[0]);
      var s' := TakeTurn(s, schedule[0]);
      if s'.table.calls != s.table.calls { CountOne(All, s.table.calls, s'.table.calls[|s.table.calls|]); }
      MoreCalls(s', schedule[1..]);
    }
  }

  lemma {:induction false} ExactTurns(w: Scope, s: Shared, schedule: seq<Turn>)
    requires AllAgreed(w, s) && Account(w, s) == Calls(w, s.table.calls) && OrderlyRun(w, s, schedule)
    requires Account(All, s) + s.table.lost == Calls(All, s.table.calls) && Calls(All, Turns(s, schedule).table.calls) < U32_SIZE
    ensures
      var s' := Turns(s, schedule);
      Account(w, s') == Calls(w, s'.table.calls) && s'.table.lost == s.table.lost
    decreases |schedule|
  {
    if schedule != [] {
      var s' := TakeTurn(s, schedule[0]);
      assert OrderlyRun(w, s', schedule[1..]);
      MoreCalls(s', schedule[1..]);
      ExactTurn(w, s, schedule[0]);
      TotalStep(s, schedule[0]);
      ExactTurns(w, s', schedule[1..]);
    }
  }

  /**
   With any number of sweeps and fewer than 2^32 counting calls: when no call stands in a sweep's window nothing
   is overwritten and the total is exact; when also no two sweeps stand in the windows of one slot, every key's
   account is exact; and with both windows wide, every key's at every severity.
   */
  lemma SweepsExact(w: Scope, init: State, exporters: nat, schedule: seq<Turn>)
    requires IsInitial(init) && OrderlyRun(w, Fresh(init, exporters), schedule)
    requires Calls(All, Turns(Fresh(init, exporters), schedule).table.calls) < U32_SIZE
    ensures
      var s := Turns(Fresh(init, exporters), schedule);
      Account(w, s) == Calls(w, s.table.calls) && s.table.lost == 0
  {
    AllEmpty(w, init.slots, CAPACITY);
    AllEmpty(All, init.slots, CAPACITY);
    NothingHeld(w, init, exporters, exporters);
    NothingHeld(All, init, exporters, exporters);
    ExactTurns(w, Fresh(init, exporters), schedule);
  }

  // ── Sweeps that cross ───────────────────────────────────────────────────────

  /** The run leads from `s` to `s'` with no call in a window on the way. */
  ghost predicate Leads(s: Shared, run: seq<Turn>, s': Shared) {
    Formed(s) && Turns(s, run) == s' && OrderlyRun(All, s, run)
  }

  lemma {:induction false} Move(s: Shared, run: seq<Turn>, at: Shared, t: Turn, next: Shared)
    requires Leads(s, run, at) && TakeTurn(at, t) == next && Quiet(next, false)
    ensures Leads(s, run + [t], next)
    decreases |run|
  {
    TurnFormed(at, t);
    if run == [] {
      assert run + [t] == [t] && [t][1..] == [];
      assert Turns(next, [t][1..]) == next && OrderlyRun(All, next, [t][1..]);
    } else {
      assert (run + [t])[1..] == run[1..] + [t];
      Move(TakeTurn(s, run[0]), run[1..], at, t, next);
    }
  }

  /** Slot `h` of the empty table `z` holds `x`; the writer and two sweeps stand as given, nothing listed. */
  function Scene(z: seq<Slot>, h: nat, x: Slot, writer: Writer, calls: seq<Id>, d: Drain, e: Drain): Shared
    requires h < |z|
  {
    Shared(State(z[h := x], writer, DIdle, [], calls, 0), [Hand(d, []), Hand(e, [])], [])
  }

  ghost predicate EmptyTable(z: seq<Slot>) { |z| == CAPACITY && forall i | 0 <= i < CAPACITY :: z[i] == EMPTY }

  lemma QuietScene(z: seq<Slot>, h: nat, x: Slot, writer: Writer, calls: seq<Id>, d: Drain, e: Drain)
    requires h < |z| && (writer.WIdle? || (d.DIdle? && e.DIdle?))
    ensures Quiet(Scene(z, h, x, writer, calls, d, e), false)
  {
    forall g | g in Scene(z, h, x, writer, calls, d, e).hands ensures NoOverlap(With(Scene(z, h, x, writer, calls, d, e).table, g), false) {
      assert g == Hand(d, []) || g == Hand(e, []);
    }
  }

  lemma WriteScene(s: Shared, run: seq<Turn>, z: seq<Slot>, h: nat, x: Slot, w: Writer, c: seq<Id>, a: Action, y: Slot, w': Writer, c': seq<Id>)
      returns (longer: seq<Turn>)
    requires EmptyTable(z) && h < CAPACITY && Leads(s, run, Scene(z, h, x, w, c, DIdle, DIdle)) && (a.Call? || a.WriterStep?)
    requires
      var t := State(z[h := x], w, DIdle, [], c, 0);
      Shaped(t) && Step(t, a) == t.(slots := t.slots[h := y], writer := w', calls := c')
    ensures Leads(s, longer, Scene(z, h, y, w', c', DIdle, DIdle))
  {
    assert z[h := x][h := y] == z[h := y];
    QuietScene(z, h, y, w', c', DIdle, DIdle);
    longer := run + [Write(a)];
    Move(s, run, Scene(z, h, x, w, c, DIdle, DIdle), Write(a), Scene(z, h, y, w', c', DIdle, DIdle));
  }

  lemma LabelScene(init: State, a: nat) returns (run: seq<Turn>)
    requires IsInitial(init) && a != 0
    ensures Leads(Fresh(init, 2), run,
                  Scene(init.slots, Probed(a, 0), EMPTY.(key := a), WStoreSeverity(a, 4, Probed(a, 0)), [], DIdle, DIdle))
  {
    var s, z, h := Fresh(init, 2), init.slots, Probed(a, 0);
    run := [];
    assert z[h := EMPTY] == z && s.hands == [RESTING, RESTING];
    QuietScene(z, h, EMPTY, WIdle, [], DIdle, DIdle);
    assert Leads(s, run, Scene(z, h, EMPTY, WIdle, [], DIdle, DIdle));
    run := WriteScene(s, run, z, h, EMPTY, WIdle, [], Call(a, 4), EMPTY, WProbe(a, 4, 0), []);
    run := WriteScene(s, run, z, h, EMPTY, WProbe(a, 4, 0), [], WriterStep, EMPTY, WStoreKey(a, 4, h), []);
    run := WriteScene(s, run, z, h, EMPTY, WStoreKey(a, 4, h), [], WriterStep, EMPTY.(key := a), WStoreSeverity(a, 4, h), []);
  }

  lemma InsertScene(init: State, a: nat) returns (run: seq<Turn>)
    requires IsInitial(init) && a != 0
    ensures Leads(Fresh(init, 2), run, Scene(init.slots, Probed(a, 0), Slot(a, 4, 1, true), WIdle, [(a, 4)], DIdle, DIdle))
  {
    var s, z, h := Fresh(init, 2), init.slots, Probed(a, 0);
    var x := EMPTY.(key := a, severity := 4);
    run := LabelScene(init, a);
    run := WriteScene(s, run, z, h, EMPTY.(key := a), WStoreSeverity(a, 4, h), [], WriterStep, x, WStoreCount(a, 4, h), []);
    assert [] + [(a, 4)] == [(a, 4)];
    run := WriteScene(s, run, z, h, x, WStoreCount(a, 4, h), [], WriterStep, x.(count := 1), WStoreSample(h), [(a, 4)]);
    run := WriteScene(s, run, z, h, x.(count := 1), WStoreSample(h), [(a, 4)], WriterStep, Slot(a, 4, 1, true), WIdle, [(a, 4)]);
  }

  /** One sweep of the pair moved on. */
  function Moved(first: bool, d: Drain, e: Drain, to: Drain): (Drain, Drain) {
    if first then (to, e) else (d, to)
  }

  lemma SweepScene(s: Shared, run: seq<Turn>, z: seq<Slot>, h: nat, x: Slot, c: seq<Id>, d: Drain, e: Drain, first: bool, y: Slot, to: Drain)
      returns (longer: seq<Turn>)
    requires EmptyTable(z) && h < CAPACITY && Leads(s, run, Scene(z, h, x, WIdle, c, d, e))
    requires
      var t := State(z[h := x], WIdle, if first then d else e, [], c, 0);
      Shaped(t) && DrainNext(t) == t.(slots := t.slots[h := y], drain := to) && !to.DIdle?
    ensures Leads(s, longer, Scene(z, h, y, WIdle, c, Moved(first, d, e, to).0, Moved(first, d, e, to).1))
  {
    var at, turn := Scene(z, h, x, WIdle, c, d, e), Sweep(if first then 0 else 1);
    var (d', e') := Moved(first, d, e, to);
    assert z[h := x][h := y] == z[h := y];
    assert TakeTurn(at, turn).hands == [Hand(d', []), Hand(e', [])];
    QuietScene(z, h, y, WIdle, c, d', e');
    longer := run + [turn];
    Move(s, run, at, turn, Scene(z, h, y, WIdle, c, d', e'));
  }

  lemma BeginScene(s: Shared, run: seq<Turn>, z: seq<Slot>, h: nat, x: Slot, c: seq<Id>, d: Drain, e: Drain, first: bool)
      returns (longer: seq<Turn>)
    requires EmptyTable(z) && h < CAPACITY && Leads(s, run, Scene(z, h, x, WIdle, c, d, e)) && (if first then d else e) == DIdle
    ensures Leads(s, longer, Scene(z, h, x, WIdle, c, Moved(first, d, e, DLoad(0)).0, Moved(first, d, e, DLoad(0)).1))
  {
    var turn := Begin(if first then 0 else 1);
    var (d', e') := Moved(first, d, e, DLoad(0));
    QuietScene(z, h, x, WIdle, c, d', e');
    assert TakeTurn(Scene(z, h, x, WIdle, c, d, e), turn).hands == [Hand(d', []), Hand(e', [])];
    Move(s, run, Scene(z, h, x, WIdle, c, d, e), turn, Scene(z, h, x, WIdle, c, d', e'));
    longer := run + [turn];
  }

  /** A sweep brought over the empty slots to slot `h`. */
  lemma ReachScene(s: Shared, run: seq<Turn>, z: seq<Slot>, h: nat, x: Slot, c: seq<Id>, d: Drain, e: Drain, first: bool)
      returns (longer: seq<Turn>)
    requires EmptyTable(z) && h < CAPACITY
    requires Leads(s, run, Scene(z, h, x, WIdle, c, Moved(first, d, e, DLoad(0)).0, Moved(first, d, e, DLoad(0)).1))
    ensures Leads(s, longer, Scene(z, h, x, WIdle, c, Moved(first, d, e, DLoad(h)).0, Moved(first, d, e, DLoad(h)).1))
  {
    longer := run;
    assert z[h := x][h := x] == z[h := x];
    for j := 0 to h
      invariant Leads(s, longer, Scene(z, h, x, WIdle, c, Moved(first, d, e, DLoad(j)).0, Moved(first, d, e, DLoad(j)).1))
    {
      var (dj, ej) := Moved(first, d, e, DLoad(j));
      longer := SweepScene(s, longer, z, h, x, c, dj, ej, first, x, DLoad(j + 1));
    }
  }

  /** Both sweeps on slot `h`: the first takes the count. */
  lemma TakeScene(s: Shared, run: seq<Turn>, z: seq<Slot>, h: nat, a: nat, c: seq<Id>) returns (longer: seq<Turn>)
    requires EmptyTable(z) && h < CAPACITY && a != 0 && Leads(s, run, Scene(z, h, Slot(a, 4, 1, true), WIdle, c, DLoad(h), DLoad(h)))
    ensures Leads(s, longer, Scene(z, h, Slot(a, 4, 0, true), WIdle, c, DLoadKey(h, 1), DLoadKey(h, 0)))
  {
    var x, y := Slot(a, 4, 1, true), Slot(a, 4, 0, true);
    longer := SweepScene(s, run, z, h, x, c, DLoad(h), DLoad(h), true, x, DSwap(h));
    longer := SweepScene(s, longer, z, h, x, c, DSwap(h), DLoad(h), false, x, DSwap(h));
    longer := SweepScene(s, longer, z, h, x, c, DSwap(h), DSwap(h), true, y, DLoadKey(h, 1));
    longer := SweepScene(s, longer, z, h, y, c, DLoadKey(h, 1), DSwap(h), false, y, DLoadKey(h, 0));
  }

  /** The second clears the key before the first reads it. */
  lemma CrossScene(s: Shared, run: seq<Turn>, z: seq<Slot>, h: nat, a: nat, c: seq<Id>) returns (longer: seq<Turn>)
    requires EmptyTable(z) && h < CAPACITY && a != 0 && Leads(s, run, Scene(z, h, Slot(a, 4, 0, true), WIdle, c, DLoadKey(h, 1), DLoadKey(h, 0)))
    ensures Leads(s, longer, Scene(z, h, Slot(0, 4, 0, true), WIdle, c, DLoadSeverity(h, 1, 0), DClearSeverity(h, 0, a, 4)))
  {
    var y, k := Slot(a, 4, 0, true), Slot(0, 4, 0, true);
    longer := SweepScene(s, run, z, h, y, c, DLoadKey(h, 1), DLoadKey(h, 0), false, y, DLoadSeverity(h, 0, a));
    longer := SweepScene(s, longer, z, h, y, c, DLoadKey(h, 1), DLoadSeverity(h, 0, a), false, y, DClearKey(h, 0, a, 4));
    longer := SweepScene(s, longer, z, h, y, c, DLoadKey(h, 1), DClearKey(h, 0, a, 4), false, k, DClearSeverity(h, 0, a, 4));
    longer := SweepScene(s, longer, z, h, k, c, DLoadKey(h, 1), DClearSeverity(h, 0, a, 4), true, k, DLoadSeverity(h, 1, 0));
  }

  lemma CrossedAccount(w: Scope, z: seq<Slot>, h: nat, a: nat)
    requires EmptyTable(z) && h < CAPACITY && a != 0
    requires Formed(Scene(z, h, Slot(0, 4, 0, true), WIdle, [(a, 4)], DLoadSeverity(h, 1, 0), DClearSeverity(h, 0, a, 4)))
    ensures
      var s := Scene(z, h, Slot(0, 4, 0, true), WIdle, [(a, 4)], DLoadSeverity(h, 1, 0), DClearSeverity(h, 0, a, 4));
      && Account(w, s) == (if Covers(w, (0, 4)) then 1 else 0)
      && Calls(w, s.table.calls) == (if Covers(w, (a, 4)) then 1 else 0)
  {
    var s := Scene(z, h, Slot(0, 4, 0, true), WIdle, [(a, 4)], DLoadSeverity(h, 1, 0), DClearSeverity(h, 0, a, 4));
    AllEmpty(w, z, CAPACITY);
    UpdateSlot(w, z, h, Slot(0, 4, 0, true), CAPACITY);
    CountOne(w, [], (a, 4));
    assert [] + [(a, 4)] == [(a, 4)];
    assert FirstHeld(w, s.table, s.hands, 1) == Held(w, s.table, s.hands[0]);
    assert FirstHeld(w, s.table, s.hands, 2) == Held(w, s.table, s.hands[0]) + Held(w, s.table, s.hands[1]);
  }

  /**
   For every key there is a run with no call in a window, so exact in total, in which two sweeps cross on its
   slot and its one observation is about to be reported under key zero.
   */
  lemma CrossedSweepsMisname(init: State, a: nat) returns (schedule: seq<Turn>)
    requires IsInitial(init) && a != 0
    ensures
      var s := Turns(Fresh(init, 2), schedule);
      && OrderlyRun(All, Fresh(init, 2), schedule)
      && Calls(Only(a), s.table.calls) == 1 && Account(Only(a), s) == 0
      && Calls(Only(0), s.table.calls) == 0 && Account(Only(0), s) == 1
  {
    var s, z, h, x, c := Fresh(init, 2), init.slots, Probed(a, 0), Slot(a, 4, 1, true), [(a, 4)];
    schedule := InsertScene(init, a);
    schedule := BeginScene(s, schedule, z, h, x, c, DIdle, DIdle, true);
    schedule := ReachScene(s, schedule, z, h, x, c, DIdle, DIdle, true);
    schedule := BeginScene(s, schedule, z, h, x, c, DLoad(h), DIdle, false);
    schedule := ReachScene(s, schedule, z, h, x, c, DLoad(h), DIdle, false);
    schedule := TakeScene(s, schedule, z, h, a, c);
    schedule := CrossScene(s, schedule, z, h, a, c);
    assert Formed(Turns(s, schedule));
    CrossedAccount(Only(a), z, h, a);
    CrossedAccount(Only(0), z, h, a);
  }
}
