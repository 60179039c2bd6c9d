/**
 The crash-loop breaker: a start counter and a window start in shared memory, consulted by every
 exporter start and cleared by an exporter that has stayed up for a whole window.
 */
module CrashGate {
  import opened Bytes
  import opened Backoff

  const MAX_CRASH_RESTARTS: nat := 5
  const CRASH_WINDOW_SECS: nat := 60
  const CRASH_BACKOFF_BASE_MS: u64 := 100
  const CRASH_BACKOFF_CAP_MS: u64 := 5_000
  const SECOND_NS: nat := 1_000_000_000

  // ── The pause before a restart ──────────────────────────────────────────────

  function SaturatingMul(a: u64, b: u64): u64 { Min(a * b, U64_MAX) }

  function CrashBackoffMs(count: u64): u64 {
    if count <= 1 then 0
    else
      var shift := Min(count - 1, 31);
      Min(SaturatingMul(CRASH_BACKOFF_BASE_MS, Shifted(shift)), CRASH_BACKOFF_CAP_MS)
  }

  /** `1 << shift`, within a 64-bit word for every shift the caller can pass. */
  function Shifted(shift: nat): (p: u64)
    requires shift <= 31
    ensures p == Pow2(shift)
  {
    Below31(shift);
    Pow2(shift)
  }

  lemma Below31(shift: nat)
    requires shift <= 31
    ensures Pow2(shift) < U64_SIZE
  {
    var k := U64IsPow2();
    Pow2Monotone(shift, k - 1);
  }

  /** The clipped shift and the saturating product lose nothing: the pause doubles from 200 ms up to the cap. */
  lemma CrashBackoffIsIdeal(count: u64)
    requires count >= 2
    ensures CrashBackoffMs(count) == Min(CRASH_BACKOFF_BASE_MS * Pow2(count - 1), CRASH_BACKOFF_CAP_MS)
  {
    if count >= 7 {
      var six := 6;
      assert Pow2(six) == 64 by { assert Pow2(3) == 8; }
      Pow2Monotone(six, count - 1);
      Pow2Monotone(six, Min(count - 1, 31));
    }
  }

  // ── The gate over a whole run ───────────────────────────────────────────────

  /** A start the gate let through: when, in nanoseconds and seconds, the window it was counted in, its number there, and its pause. */
  datatype Start = Start(ns: nat, at: nat, window: nat, count: u64, pause: nat)

  datatype Phase =
    | Down
    | Starting(until: nat)              // pausing, then initialising
    | Running(since: nat, reset: bool)
    | Disabled                          // exit(2): never respawned

  datatype State = State(now: nat, count: u64, window: nat, phase: Phase, starts: seq<Start>)

  datatype Action =
    | Wait(ns: nat)
    | Launch
    | LoopBegins
    | Tick
    | Crash                             // of its own making: not before its pause is over
    | Kill                              // from outside, at any time

  function PauseNs(count: u64): nat { CrashBackoffMs(count) * 1_000_000 }

  function Secs(ns: nat): nat { ns / SECOND_NS }

  /** The window a start at `now` is counted in: a new one when none is open or the open one is past. */
  predicate Reopens(window: nat, now: nat) { window == 0 || now - window > CRASH_WINDOW_SECS }

  function Gate(s: State): State {
    var now := Secs(s.now);
    var s1 := if Reopens(s.window, now) then s.(count := 0, window := now) else s;
    var s2 := s1.(count := Increment64(s1.count));
    if s2.count > MAX_CRASH_RESTARTS then s2.(phase := Disabled)
    else s2.(phase := Starting(s.now + PauseNs(s2.count)), starts := s2.starts + [Start(s.now, now, s2.window, s2.count, PauseNs(s2.count))])
  }

  /** A 64-bit fetch-add of one: wraps to zero. */
  function Increment64(n: u64): u64 { if n == U64_MAX then 0 else n + 1 }

  function Step(s: State, a: Action): State {
    match a
    case Wait(ns) => s.(now := s.now + ns)
    case Launch => if s.phase.Down? then Gate(s) else s
    case LoopBegins => if s.phase.Starting? && s.now >= s.phase.until then s.(phase := Running(s.now, false)) else s
    case Tick =>
      if s.phase.Running? && !s.phase.reset && s.now - s.phase.since >= CRASH_WINDOW_SECS * SECOND_NS
      then s.(count := 0, window := 0, phase := s.phase.(reset := true))
      else s
    case Crash => if s.phase.Running? || (s.phase.Starting? && s.now >= s.phase.until) then s.(phase := Down) else s
    case Kill => if s.phase.Running? || s.phase.Starting? then s.(phase := Down) else s
  }

  function Exec(s: State, schedule: seq<Action>): State {
    if schedule == [] then s
    else Step(Exec(s, schedule[..|schedule| - 1]), schedule[|schedule| - 1])
  }

  /** The zone as a cold start or a reload leaves it. */
  predicate Cleared(s: State) {
    s.count == 0 && s.window == 0 && s.phase == Down && s.starts == [] && Secs(s.now) > 0
  }

  // ── Invariant ───────────────────────────────────────────────────────────────

  /** An earlier start and a later window: the same, or a whole window apart with the start before it. */
  predicate Apart(p: Start, window: nat) {
    p.window == window || (p.window + CRASH_WINDOW_SECS <= window && p.at <= window)
  }

  /** The first start counted in its window, which is the one that opened it. */
  ghost predicate Opening(starts: seq<Start>, i: nat)
    requires i < |starts|
  {
    i == 0 || starts[i - 1].window != starts[i].window
  }

  ghost predicate Spaced(starts: seq<Start>) {
    && (forall i | 0 <= i < |starts| :: 0 < starts[i].window <= starts[i].at)
    && (forall i | 0 <= i < |starts| && Opening(starts, i) :: starts[i].at == starts[i].window)
    && (forall i, j | 0 <= i < j < |starts| :: ApartAt(starts, i, j))
    && (forall i | 0 <= i < |starts| - 5 :: Full(starts, i))
  }

  ghost predicate ApartAt(starts: seq<Start>, i: nat, j: nat)
    requires i < j < |starts|
  {
    Apart(starts[i], starts[j].window)
  }

  /** The start that opens or joins a window is not joined by the fifth after it. */
  ghost predicate Full(starts: seq<Start>, i: nat)
    requires i + 5 < |starts|
  {
    starts[i].window != starts[i + 5].window
  }

  /** The starts counted in the open window are the last `count`. */
  ghost predicate Counted(starts: seq<Start>, count: nat, window: nat) {
    && count <= |starts|
    && (forall i | 0 <= i < |starts| :: starts[i].window == window <==> |starts| - count <= i)
  }

  ghost predicate Before(starts: seq<Start>, secs: int) {
    forall i | 0 <= i < |starts| :: starts[i].at <= secs
  }

  ghost predicate Inv(s: State) {
    var now := Secs(s.now);
    && now > 0 && Spaced(s.starts) && Before(s.starts, now)
    && (s.phase.Running? ==> Before(s.starts, Secs(s.phase.since)) && s.phase.since <= s.now)
    && (!s.phase.Disabled? ==>
        && s.count <= MAX_CRASH_RESTARTS
        && s.window <= now
        && (s.window == 0 ==> s.count == 0 && Before(s.starts, now - CRASH_WINDOW_SECS))
        && (s.window != 0 ==>
            && s.count > 0 && Counted(s.starts, s.count, s.window)
            && forall i | 0 <= i < |s.starts| :: Apart(s.starts[i], s.window)))
  }

  lemma SecsMonotone(a: nat, b: nat)
    requires a <= b
    ensures Secs(a) <= Secs(b)
  {
  }

  lemma WindowElapsed(since: nat, now: nat)
    requires now - since >= CRASH_WINDOW_SECS * SECOND_NS
    ensures Secs(since) <= Secs(now) - CRASH_WINDOW_SECS
  {
  }

  /** One more start: it opens its window or joins one with fewer than five. */
  lemma SpacedAppend(starts: seq<Start>, p: Start)
    requires Spaced(starts) && 0 < p.window <= p.at
    requires forall i | 0 <= i < |starts| :: Apart(starts[i], p.window)
    requires |starts| == 0 || starts[|starts| - 1].window != p.window ==> p.at == p.window
    requires |starts| >= 5 ==> starts[|starts| - 5].window != p.window
    ensures Spaced(starts + [p])
  {
    var all, n := starts + [p], |starts|;
    forall i | 0 <= i < |all| && Opening(all, i) ensures all[i].at == all[i].window {
      if i < n { assert Opening(starts, i); }
    }
    forall i, j | 0 <= i < j < |all| ensures ApartAt(all, i, j) {
      if j < n { assert ApartAt(starts, i, j); }
    }
    forall i | 0 <= i < |all| - 5 ensures Full(all, i) {
      if i + 5 < n { assert Full(starts, i); }
    }
  }

  /** A start that opens a window. */
  lemma OpensApart(s: State)
    requires Inv(s) && s.phase.Down? && Reopens(s.window, Secs(s.now))
    ensures Inv(Gate(s))
  {
    var now := Secs(s.now);
    var p := Start(s.now, now, now, 1, PauseNs(1));
    var starts := s.starts + [p];
    forall i | 0 <= i < |s.starts| ensures Apart(s.starts[i], now) && s.starts[i].window != now {
      if s.window != 0 { assert Apart(s.starts[i], s.window); }
    }
    SpacedAppend(s.starts, p);
    assert Counted(starts, 1, now);
  }

  lemma CountedAppend(starts: seq<Start>, count: nat, p: Start)
    requires Counted(starts, count, p.window)
    ensures Counted(starts + [p], count + 1, p.window)
  {
    var all := starts + [p];
    forall i | 0 <= i < |all| ensures all[i].window == p.window <==> |all| - (count + 1) <= i {
      if i < |starts| { assert all[i] == starts[i]; }
    }
  }

  /** A start counted in the open window. */
  lemma JoinsWindow(s: State)
    requires Inv(s) && s.phase.Down? && !Reopens(s.window, Secs(s.now))
    ensures Inv(Gate(s))
  {
    if s.count < MAX_CRASH_RESTARTS {
      var p := Start(s.now, Secs(s.now), s.window, s.count + 1, PauseNs(s.count + 1));
      CountedAppend(s.starts, s.count, p);
      WindowStarted(s);
      SpacedAppend(s.starts, p);
    }
  }

  /** An open window has at least the start that opened it. */
  lemma WindowStarted(s: State)
    requires Inv(s) && !s.phase.Disabled? && s.window != 0
    ensures s.count > 0 && |s.starts| > 0 && s.starts[|s.starts| - 1].window == s.window
  {
  }

  lemma StepKeepsInv(s: State, a: Action)
    requires Inv(s)
    ensures Inv(Step(s, a))
  {
    match a
    case Wait(ns) => SecsMonotone(s.now, s.now + ns);
    case Launch =>
      if s.phase.Down? {
        if Reopens(s.window, Secs(s.now)) { OpensApart(s); } else { JoinsWindow(s); }
      }
    case LoopBegins =>
    case Tick =>
      if s.phase.Running? && !s.phase.reset && s.now - s.phase.since >= CRASH_WINDOW_SECS * SECOND_NS {
        WindowElapsed(s.phase.since, s.now);
      }
    case Crash =>
    case Kill =>
  }

  lemma {:induction false} InvAlways(s: State, schedule: seq<Action>)
    requires Cleared(s)
    ensures Inv(Exec(s, schedule))
  {
    if schedule != [] {
      InvAlways(s, schedule[..|schedule| - 1]);
      StepKeepsInv(Exec(s, schedule[..|schedule| - 1]), schedule[|schedule| - 1]);
    }
  }

  // ── What the breaker promises ───────────────────────────────────────────────

  /**
   Over every run between two reloads: any two windows are at least sixty seconds apart, and six starts
   span two of them; six starts within sixty seconds never begin with one that opened a window; and no
   ten starts fall within sixty seconds.
   */
  lemma RestartsBounded(s: State, schedule: seq<Action>)
    requires Cleared(s)
    ensures
      var starts := Exec(s, schedule).starts;
      && (forall i, j | 0 <= i < j < |starts| :: starts[i].window == starts[j].window || starts[j].window >= starts[i].window + 60)
      && (forall i | 0 <= i < |starts| - 5 :: SixSpread(starts, i))
      && (forall i | 0 <= i < |starts| - 9 :: TenSpread(starts, i))
  {
    InvAlways(s, schedule);
    var starts := Exec(s, schedule).starts;
    forall i, j | 0 <= i < j < |starts| ensures starts[i].window == starts[j].window || starts[j].window >= starts[i].window + 60 {
      assert ApartAt(starts, i, j);
    }
    forall i | 0 <= i < |starts| - 5 ensures SixSpread(starts, i) {
      assert Full(starts, i);
      assert ApartAt(starts, i, i + 5);
    }
    forall i | 0 <= i < |starts| - 9 ensures TenSpread(starts, i) {
      TenSpan(starts, i);
    }
  }

  ghost predicate SixSpread(starts: seq<Start>, i: nat)
    requires i + 5 < |starts|
  {
    && starts[i + 5].window >= starts[i].window + 60
    && (Opening(starts, i) ==> starts[i + 5].at >= starts[i].at + 60)
  }

  ghost predicate TenSpread(starts: seq<Start>, i: nat)
    requires i + 9 < |starts|
  {
    starts[i + 9].at >= starts[i].at + 60
  }

  lemma TenSpan(starts: seq<Start>, i: nat)
    requires Spaced(starts) && i + 9 < |starts|
    ensures TenSpread(starts, i)
  {
    if Opening(starts, i) {
      assert Full(starts, i);
      assert ApartAt(starts, i, i + 5);
      assert ApartAt(starts, i + 5, i + 9);
    } else {
      assert Full(starts, i - 1) && Full(starts, i + 4);
      assert ApartAt(starts, i, i + 4);
      assert ApartAt(starts, i + 4, i + 9);
    }
  }

  /** A start is refused exactly when its window is open and five starts were already counted in it. */
  lemma RefusedIff(s: State, schedule: seq<Action>)
    requires Cleared(s) && Exec(s, schedule).phase.Down?
    ensures
      var e := Exec(s, schedule);
      var n := |e.starts|;
      Gate(e).phase.Disabled? <==>
        && e.window != 0 && Secs(e.now) - e.window <= 60
        && n >= 5 && e.starts[n - 5].window == e.window
  {
    InvAlways(s, schedule);
  }

  /** An exporter that has been up for sixty seconds makes the next start the first of a window, with no pause, whatever came before. */
  lemma HealthyStartsOver(s: State, ns: nat)
    requires s.phase.Running? && !s.phase.reset && s.now - s.phase.since >= 60_000_000_000
    ensures
      var up := Step(s, Tick);
      var next := Step(Step(Step(up, Crash), Wait(ns)), Launch);
      && up.count == 0 && up.phase.Running? && next.phase == Starting(s.now + ns)
      && next.starts == s.starts + [Start(s.now + ns, (s.now + ns) / 1_000_000_000, (s.now + ns) / 1_000_000_000, 1, 0)]
  {
  }

  /** One that has not been is left with its count. */
  lemma YoungKeepsCount(s: State)
    requires s.phase.Running? && s.now - s.phase.since < 60_000_000_000
    ensures Step(s, Tick) == s
  {
  }

  /** Once refused, no later start goes through. */
  lemma {:induction false} DisabledForGood(s: State, schedule: seq<Action>)
    requires s.phase.Disabled?
    ensures Exec(s, schedule).phase.Disabled? && Exec(s, schedule).starts == s.starts
  {
    if schedule != [] { DisabledForGood(s, schedule[..|schedule| - 1]); }
  }

  lemma ExecSnoc(s: State, schedule: seq<Action>, a: Action)
    ensures Exec(s, schedule + [a]) == Step(Exec(s, schedule), a)
  {
    assert (schedule + [a])[..|schedule|] == schedule;
  }

  // ── The pause between starts ────────────────────────────────────────────────

  ghost predicate OrdinalAt(starts: seq<Start>, i: nat)
    requires i < |starts|
  {
    && starts[i].at == Secs(starts[i].ns) && starts[i].count <= MAX_CRASH_RESTARTS
    && starts[i].count == if Opening(starts, i) then 1 else starts[i - 1].count + 1
  }

  /** The starts are numbered within their window, from one. */
  ghost predicate Ordinals(starts: seq<Start>) {
    forall i | 0 <= i < |starts| :: OrdinalAt(starts, i)
  }

  ghost predicate LastCounted(s: State) {
    !s.phase.Disabled? && s.window != 0 ==> s.starts != [] && s.starts[|s.starts| - 1].count == s.count
  }

  lemma OrdinalsAppend(starts: seq<Start>, p: Start)
    requires Ordinals(starts) && p.count <= MAX_CRASH_RESTARTS && p.at == Secs(p.ns)
    requires p.count == if starts == [] || starts[|starts| - 1].window != p.window then 1 else starts[|starts| - 1].count + 1
    ensures Ordinals(starts + [p])
  {
    var all, n := starts + [p], |starts|;
    forall i | 0 <= i < |all| ensures OrdinalAt(all, i) {
      if i > 0 { assert all[i - 1] == starts[i - 1]; }
      if i < n { assert OrdinalAt(starts, i); }
    }
  }

  lemma GateOrdinals(s: State)
    requires Inv(s) && Ordinals(s.starts) && LastCounted(s) && s.phase.Down?
    ensures Ordinals(Gate(s).starts) && LastCounted(Gate(s))
  {
    var now := Secs(s.now);
    if Reopens(s.window, now) {
      if s.starts != [] { NewWindow(s); }
      OrdinalsAppend(s.starts, Start(s.now, now, now, 1, PauseNs(1)));
    } else if s.count < MAX_CRASH_RESTARTS {
      WindowStarted(s);
      OrdinalsAppend(s.starts, Start(s.now, now, s.window, s.count + 1, PauseNs(s.count + 1)));
    }
  }

  lemma OrdinalsStep(s: State, a: Action)
    requires Inv(s) && Ordinals(s.starts) && LastCounted(s)
    ensures Ordinals(Step(s, a).starts) && LastCounted(Step(s, a))
  {
    if a.Launch? && s.phase.Down? { GateOrdinals(s); }
  }

  /** The window a start opens is not the last start's. */
  lemma NewWindow(s: State)
    requires Inv(s) && s.phase.Down? && Reopens(s.window, Secs(s.now)) && s.starts != []
    ensures s.starts[|s.starts| - 1].window != Secs(s.now)
  {
    var p := s.starts[|s.starts| - 1];
    if s.window != 0 { assert Apart(p, s.window); }
  }

  lemma {:induction false} OrdinalsAlways(s: State, schedule: seq<Action>)
    requires Cleared(s)
    ensures Inv(Exec(s, schedule)) && Ordinals(Exec(s, schedule).starts) && LastCounted(Exec(s, schedule))
  {
    InvAlways(s, schedule);
    if schedule != [] {
      var before := schedule[..|schedule| - 1];
      OrdinalsAlways(s, before);
      OrdinalsStep(Exec(s, before), schedule[|schedule| - 1]);
    }
  }

  ghost predicate Undisturbed(schedule: seq<Action>) {
    forall k | 0 <= k < |schedule| :: schedule[k] != Kill
  }

  /** Start `i` finished its pause before the next one came. */
  ghost predicate PausedAfter(starts: seq<Start>, i: nat)
    requires i + 1 < |starts|
  {
    starts[i + 1].ns >= starts[i].ns + starts[i].pause && starts[i].pause == PauseNs(starts[i].count)
  }

  ghost predicate AllPaused(starts: seq<Start>) {
    forall i | 0 <= i < |starts| - 1 :: PausedAfter(starts, i)
  }

  ghost predicate Rested(s: State) {
    && AllPaused(s.starts)
    && (s.starts != [] ==>
        var last := s.starts[|s.starts| - 1];
        last.pause == PauseNs(last.count) &&
        (if s.phase.Starting? then s.phase.until else s.now) >= last.ns + last.pause)
  }

  lemma RestedStep(s: State, a: Action)
    requires Rested(s) && a != Kill
    ensures Rested(Step(s, a))
  {
    if a.Launch? && s.phase.Down? {
      var s', n := Gate(s), |s.starts|;
      forall i | 0 <= i < |s'.starts| - 1 ensures PausedAfter(s'.starts, i) {
        if i + 1 < n { assert PausedAfter(s.starts, i); }
      }
    }
  }

  lemma {:induction false} RestedAlways(s: State, schedule: seq<Action>)
    requires Cleared(s) && Undisturbed(schedule)
    ensures Rested(Exec(s, schedule))
  {
    if schedule != [] {
      var before := schedule[..|schedule| - 1];
      RestedAlways(s, before);
      RestedStep(Exec(s, before), schedule[|schedule| - 1]);
    }
  }

  lemma PauseTable()
    ensures PauseNs(1) == 0 && PauseNs(2) == 200_000_000 && PauseNs(3) == 400_000_000
    ensures PauseNs(4) == 800_000_000 && PauseNs(5) == 1_600_000_000
  {
    assert Pow2(1) == 2;
    assert Pow2(2) == 4;
    assert Pow2(3) == 8;
    assert Pow2(4) == 16;
  }

  /**
   Over every run in which no start is killed from outside: the starts of a window are numbered from
   one, and the `n`-th pauses min(100·2^(n−1), 5000) ms, the first not at all, before the next start.
   */
  lemma PausesKept(s: State, schedule: seq<Action>)
    requires Cleared(s) && Undisturbed(schedule)
    ensures
      var starts := Exec(s, schedule).starts;
      && Ordinals(starts)
      && AllPaused(starts)
      && (forall n: u64 | 2 <= n <= 5 :: PauseNs(n) == Min(100 * Pow2(n - 1), 5000) * 1_000_000)
  {
    OrdinalsAlways(s, schedule);
    RestedAlways(s, schedule);
    forall n: u64 | 2 <= n <= 5 ensures PauseNs(n) == Min(100 * Pow2(n - 1), 5000) * 1_000_000 {
      CrashBackoffIsIdeal(n);
    }
  }

  /** Sixty on the clock of seconds is well over 4.4 seconds. */
  lemma SecsApart(a: nat, b: nat)
    requires Secs(b) >= Secs(a) + 60
    ensures b >= a + 4_400_000_000
  {
  }

  /** Four pauses lie between a start and the fourth after it. */
  lemma FourPauses(starts: seq<Start>, i: nat)
    requires i + 4 < |starts| && AllPaused(starts)
    ensures
      starts[i + 4].ns >= starts[i].ns + starts[i].pause + starts[i + 1].pause + starts[i + 2].pause + starts[i + 3].pause
  {
    assert PausedAfter(starts, i) && PausedAfter(starts, i + 1) && PausedAfter(starts, i + 2) && PausedAfter(starts, i + 3);
  }

  /** A start that opens a window, and another window later: sixty seconds. */
  lemma LaterWindow(starts: seq<Start>, j: nat, k: nat)
    requires Spaced(starts) && Ordinals(starts) && j < k < |starts|
    requires Opening(starts, j) && starts[k].window != starts[j].window
    ensures starts[k].ns >= starts[j].ns + 4_400_000_000
  {
    assert ApartAt(starts, j, k) && OrdinalAt(starts, j) && OrdinalAt(starts, k);
    SecsApart(starts[j].ns, starts[k].ns);
  }

  /** The first of the next `n` starts that belongs to another window. */
  lemma {:induction false} NextWindow(starts: seq<Start>, i: nat, n: nat) returns (k: nat)
    requires i + n < |starts| && n > 0 && starts[i + n].window != starts[i].window
    ensures i < k <= i + n && starts[k - 1].window == starts[i].window != starts[k].window
    ensures forall j | i <= j < k :: starts[j].window == starts[i].window
  {
    k := i + 1;
    while starts[k].window == starts[i].window
      invariant i < k <= i + n
      invariant forall j | i <= j < k :: starts[j].window == starts[i].window
      decreases i + n - k
    {
      k := k + 1;
    }
  }

  ghost predicate NineSpread(starts: seq<Start>, i: nat)
    requires i + 8 < |starts|
  {
    starts[i + 8].ns >= starts[i].ns + 4_400_000_000
  }

  lemma {:induction false} NsMonotone(starts: seq<Start>, i: nat, j: nat)
    requires i <= j < |starts| && AllPaused(starts)
    ensures starts[i].ns <= starts[j].ns
    decreases j - i
  {
    if i < j {
      assert PausedAfter(starts, i);
      NsMonotone(starts, i + 1, j);
    }
  }

  /** Five starts of one window, the first of which opened it. */
  lemma FiveOfOne(starts: seq<Start>, i: nat)
    requires Spaced(starts) && Ordinals(starts) && i + 4 < |starts| && Opening(starts, i)
    requires AllPaused(starts)
    ensures starts[i + 4].ns >= starts[i].ns + 1_400_000_000
  {
    if starts[i + 4].window != starts[i].window {
      LaterWindow(starts, i, i + 4);
    } else {
      assert ApartAt(starts, i, i + 1) && ApartAt(starts, i, i + 2) && ApartAt(starts, i, i + 3);
      assert ApartAt(starts, i + 1, i + 4) && ApartAt(starts, i + 2, i + 4) && ApartAt(starts, i + 3, i + 4);
      assert OrdinalAt(starts, i) && OrdinalAt(starts, i + 1) && OrdinalAt(starts, i + 2) && OrdinalAt(starts, i + 3);
      FourPauses(starts, i);
      PauseTable();
      assert PausedAfter(starts, i) && PausedAfter(starts, i + 1) && PausedAfter(starts, i + 2) && PausedAfter(starts, i + 3);
    }
  }

  /** The last four starts of one window. */
  lemma FourOfOne(starts: seq<Start>, i: nat)
    requires Ordinals(starts) && i + 4 < |starts| && !Opening(starts, i)
    requires forall j | i <= j < i + 4 :: starts[j].window == starts[i].window
    requires AllPaused(starts)
    ensures starts[i + 4].ns >= starts[i].ns + 3_000_000_000
  {
    assert OrdinalAt(starts, i - 1) && OrdinalAt(starts, i);
    assert OrdinalAt(starts, i + 1) && OrdinalAt(starts, i + 2) && OrdinalAt(starts, i + 3);
    FourPauses(starts, i);
    PauseTable();
    assert PausedAfter(starts, i) && PausedAfter(starts, i + 1) && PausedAfter(starts, i + 2) && PausedAfter(starts, i + 3);
  }

  /** Six starts, the first of which opened a window. */
  lemma OpenedSpan(starts: seq<Start>, k: nat, j: nat)
    requires Spaced(starts) && Ordinals(starts) && k + 5 <= j < |starts| && Opening(starts, k)
    requires AllPaused(starts)
    ensures starts[j].ns >= starts[k].ns + 4_400_000_000
  {
    assert Full(starts, k);
    LaterWindow(starts, k, k + 5);
    NsMonotone(starts, k + 5, j);
  }

  lemma NineSpan(starts: seq<Start>, i: nat)
    requires Spaced(starts) && Ordinals(starts) && i + 8 < |starts|
    requires AllPaused(starts)
    ensures NineSpread(starts, i)
  {
    if Opening(starts, i) {
      OpenedSpan(starts, i, i + 8);
    } else {
      assert Full(starts, i - 1);
      var k := NextWindow(starts, i, 4);
      LateSpan(starts, i, k);
    }
  }

  lemma LateSpan(starts: seq<Start>, i: nat, k: nat)
    requires Spaced(starts) && Ordinals(starts) && i < k <= i + 4 && i + 8 < |starts| && !Opening(starts, i) && Opening(starts, k)
    requires forall j | i <= j < k :: starts[j].window == starts[i].window
    requires AllPaused(starts)
    ensures NineSpread(starts, i)
  {
    if k < i + 4 {
      NsMonotone(starts, i, k);
      OpenedSpan(starts, k, i + 8);
    } else {
      FourOfOne(starts, i);
      FiveOfOne(starts, k);
    }
  }

  /** Over every run in which no start is killed from outside, nine starts take at least 4.4 seconds. */
  lemma NineTakeLong(s: State, schedule: seq<Action>)
    requires Cleared(s) && Undisturbed(schedule)
    ensures
      var starts := Exec(s, schedule).starts;
      forall i | 0 <= i < |starts| - 8 :: NineSpread(starts, i)
  {
    OrdinalsAlways(s, schedule);
    RestedAlways(s, schedule);
    var starts := Exec(s, schedule).starts;
    forall i | 0 <= i < |starts| - 8 ensures NineSpread(starts, i) {
      NineSpan(starts, i);
    }
  }

  // ── Runs that meet the bounds ───────────────────────────────────────────────

  /** The start the gate would let through at `b`. */
  function NextStart(b: State): Start {
    var now := Secs(b.now);
    if Reopens(b.window, now) then Start(b.now, now, now, 1, PauseNs(1))
    else Start(b.now, now, b.window, Increment64(b.count), PauseNs(Increment64(b.count)))
  }

  /** A start that lives for `wait` and then goes down. */
  lemma StartAndStop(s: State, schedule: seq<Action>, b: State, p: Start, wait: nat, stop: Action) returns (longer: seq<Action>)
    requires b == Exec(s, schedule) && b.phase.Down? && p == NextStart(b) && p.count <= MAX_CRASH_RESTARTS
    requires stop == Kill || (stop == Crash && wait >= PauseNs(p.count))
    ensures Exec(s, longer) == State(b.now + wait, p.count, p.window, Down, b.starts + [p])
    ensures Undisturbed(schedule) && stop == Crash ==> Undisturbed(longer)
  {
    longer := schedule + [Launch] + [Wait(wait)] + [stop];
    ExecSnoc(s, schedule, Launch);
    ExecSnoc(s, schedule + [Launch], Wait(wait));
    ExecSnoc(s, schedule + [Launch] + [Wait(wait)], stop);
  }

  /** Starts two to five of an open window, each going down as soon as its pause is over. */
  lemma FourRested(s: State, schedule: seq<Action>, b: State) returns (longer: seq<Action>, e: State)
    requires b == Exec(s, schedule) && Undisturbed(schedule) && b.phase.Down? && b.count == 1 && b.window != 0
    requires Secs(b.now + 1_400_000_000) - b.window <= 60
    ensures e == Exec(s, longer) && Undisturbed(longer) && e.phase.Down? && e.window == b.window
    ensures e.now == b.now + 3_000_000_000 && |e.starts| == |b.starts| + 4 && b.starts <= e.starts
    ensures e.starts[|b.starts|].ns == b.now && e.starts[|b.starts| + 3].ns == b.now + 1_400_000_000
  {
    PauseTable();
    longer, e := OneRested(s, schedule, b, 200_000_000);
    longer, e := OneRested(s, longer, e, 400_000_000);
    longer, e := OneRested(s, longer, e, 800_000_000);
    longer, e := OneRested(s, longer, e, 1_600_000_000);
  }

  lemma OneRested(s: State, schedule: seq<Action>, b: State, pause: nat) returns (longer: seq<Action>, e: State)
    requires b == Exec(s, schedule) && Undisturbed(schedule) && b.phase.Down? && b.count < 5 && b.window != 0
    requires Secs(b.now) - b.window <= 60 && pause == PauseNs(b.count + 1)
    ensures e == Exec(s, longer) && Undisturbed(longer)
    ensures e == State(b.now + pause, b.count + 1, b.window, Down, b.starts + [Start(b.now, Secs(b.now), b.window, b.count + 1, PauseNs(b.count + 1))])
  {
    longer := StartAndStop(s, schedule, b, Start(b.now, Secs(b.now), b.window, b.count + 1, PauseNs(b.count + 1)), pause, Crash);
    e := Exec(s, longer);
  }

  lemma ClockOf(now: nat)
    ensures Secs(now + 58_000_000_000 + 1_400_000_000) <= Secs(now) + 60
    ensures Secs(now + 61_000_000_000) == Secs(now) + 61 && Secs(now + 61_000_000_000 + 1_400_000_000) <= Secs(now) + 121
    ensures Secs(now + 60_000_000_000) == Secs(now) + 60
  {
  }

  /** With no start killed: nine within 4.4 seconds, four at the end of a window and five in the next. */
  lemma NineInFiveSeconds(s: State) returns (schedule: seq<Action>)
    requires Cleared(s)
    ensures Undisturbed(schedule)
    ensures
      var starts := Exec(s, schedule).starts;
      |starts| == 10 && starts[9].ns == starts[1].ns + 4_400_000_000
  {
    var w := Secs(s.now);
    PauseTable();
    ClockOf(s.now);
    schedule := StartAndStop(s, [], s, Start(s.now, w, w, 1, PauseNs(1)), 58_000_000_000, Crash);
    var e := Exec(s, schedule);
    schedule, e := FourRested(s, schedule, e);
    ghost var first := e.starts;
    schedule := StartAndStop(s, schedule, e, Start(e.now, w + 61, w + 61, 1, PauseNs(1)), 0, Crash);
    e := Exec(s, schedule);
    schedule, e := FourRested(s, schedule, e);
    assert e.starts[1] == first[1];
  }

  /** Starts two to five of an open window, all killed in their pause at once. */
  lemma FourKilled(s: State, schedule: seq<Action>, b: State, last: nat) returns (longer: seq<Action>, e: State)
    requires b == Exec(s, schedule) && b.phase.Down? && b.count == 1 && b.window != 0 && Secs(b.now) - b.window <= 60
    ensures e == Exec(s, longer) && e.phase.Down? && e.window == b.window && e.now == b.now + last
    ensures |e.starts| == |b.starts| + 4 && b.starts <= e.starts
    ensures e.starts[|b.starts|].at == e.starts[|b.starts| + 3].at == Secs(b.now)
  {
    longer, e := OneKilled(s, schedule, b, 0);
    longer, e := OneKilled(s, longer, e, 0);
    longer, e := OneKilled(s, longer, e, 0);
    longer, e := OneKilled(s, longer, e, last);
  }

  lemma OneKilled(s: State, schedule: seq<Action>, b: State, wait: nat) returns (longer: seq<Action>, e: State)
    requires b == Exec(s, schedule) && b.phase.Down? && b.count < 5 && b.window != 0 && Secs(b.now) - b.window <= 60
    ensures e == Exec(s, longer)
    ensures e == State(b.now + wait, b.count + 1, b.window, Down, b.starts + [Start(b.now, Secs(b.now), b.window, b.count + 1, PauseNs(b.count + 1))])
  {
    longer := StartAndStop(s, schedule, b, Start(b.now, Secs(b.now), b.window, b.count + 1, PauseNs(b.count + 1)), wait, Kill);
    e := Exec(s, longer);
  }

  /** With starts killed from outside during their pause, the bound of nine is met within two seconds. */
  lemma NineInTwoSeconds(s: State) returns (schedule: seq<Action>)
    requires Cleared(s)
    ensures
      var starts := Exec(s, schedule).starts;
      |starts| == 10 && starts[1].at == Secs(s.now) + 60 && starts[9].at == starts[1].at + 1
  {
    var w := Secs(s.now);
    ClockOf(s.now);
    schedule := StartAndStop(s, [], s, Start(s.now, w, w, 1, PauseNs(1)), 60_000_000_000, Kill);
    var e := Exec(s, schedule);
    schedule, e := FourKilled(s, schedule, e, 1_000_000_000);
    ghost var first := e.starts;
    schedule := StartAndStop(s, schedule, e, Start(e.now, w + 61, w + 61, 1, PauseNs(1)), 0, Kill);
    e := Exec(s, schedule);
    schedule, e := FourKilled(s, schedule, e, 0);
    assert e.starts[1] == first[1];
  }

  // ── The zone as code ────────────────────────────────────────────────────────

  datatype Verdict = Proceed(pauseMs: u64) | SelfDisable

  class CrashCounter {
    var count: u64
    var window: u64

    constructor ()
      ensures count == 0 && window == 0
    {
      count, window := 0, 0;
    }

    /** The start-up gate: what `Gate` does to the counters, and its verdict with the pause. */
    method Admit(now: u64) returns (v: Verdict)
      modifies this
      ensures
        var e := Gate(State(now * SECOND_NS, old(count), old(window), Down, []));
        count == e.count && window == e.window && (v.SelfDisable? <==> e.phase.Disabled?)
      ensures
        var reopens := old(window) == 0 || now - old(window) > 60;
        && window == (if reopens then now else old(window))
        && count == (if reopens then 1 else (old(count) + 1) % U64_SIZE)
        && (v.SelfDisable? <==> count > 5)
      ensures v.Proceed? ==> v.pauseMs == if count <= 1 then 0 else Min(CRASH_BACKOFF_BASE_MS * Pow2(count - 1), CRASH_BACKOFF_CAP_MS)
      ensures v.Proceed? ==> v.pauseMs * 1_000_000 == PauseNs(count)
    {
      assert Secs(now * SECOND_NS) == now;
      if window == 0 || now - window > CRASH_WINDOW_SECS {
        count := 0;
        window := now;
      }
      count := Increment64(count);
      if count > MAX_CRASH_RESTARTS {
        return SelfDisable;
      }
      if count > 1 {
        CrashBackoffIsIdeal(count);
        return Proceed(CrashBackoffMs(count));
      }
      return Proceed(0);
    }

    /** Clears the counters once the loop has been up for a whole window; at most once per process. */
    method HealthyReset(nowNs: u64, healthySinceNs: u64, done: bool) returns (done': bool)
      modifies this
      ensures
        var e := Step(State(nowNs, old(count), old(window), Running(healthySinceNs, done), []), Tick);
        count == e.count && window == e.window && done' == e.phase.reset
      ensures done' <==> done || nowNs - healthySinceNs >= 60_000_000_000
      ensures (count, window) == if done' && !done then (0, 0) else (old(count), old(window))
    {
      done' := done;
      if !done {
        if nowNs - healthySinceNs >= CRASH_WINDOW_SECS * SECOND_NS {
          count, window := 0, 0;
          done' := true;
        }
      }
    }
  }
}
