/**
 The reload hand-off. The master announces a successor by bumping `successor_gen`, forks it, and
 takes the announcement back when the fork fails. Every exporter snapshots the generation once,
 reads the gate `successor_gen > my_gen` once per tick and once on shutdown, and pops the log and
 span rings only behind a gate it found open. Sends are awaited between the gate and the pops.

 Each exporter, and the master, advances one such action at a time; `Exec` runs an arbitrary schedule
 in which an action that is not enabled leaves the state alone.
 */
module Handoff {

  datatype Pc =
    | Starting         // forked, generation not yet snapshotted
    | Top              // asleep, or between ticks
    | BeforeLogs       // gate read, log-ring pass still to come
    | BeforeSpans      // span-ring pass still to come
    | FinalLogs        // in graceful drain, gate read
    | FinalSpans
    | Gone

  datatype Exporter = Exporter(
    pc: Pc, myGen: nat,
    abdicated: bool,       // the one-way latch of the periodic path
    hasSuccessor: bool,    // the reading of the graceful path
    logPasses: nat, spanPasses: nat,
    gateReads: nat,        // readings of the gate so far, on either path
    origin: nat,           // the generation it, or the one it was respawned for, was forked for
    told: bool,            // the master has sent it the quit command
    replaced: bool)        // the master has respawned it

  datatype State = State(gen: nat, forks: nat, respawns: nat, forking: bool, exporters: seq<Exporter>)

  datatype Action =
    | Announce | SpawnOk | SpawnFail
    | Snapshot(e: nat) | Gate(e: nat) | Quit(e: nat)
    | LogPass(e: nat) | SpanPass(e: nat)
    | Skip(e: nat)     // a lane deferred, disabled or abdicated
    | Break(e: nat)    // shutdown noticed between sends
    | Exit(e: nat)     // by itself or by a crash
    | Tell(e: nat) | Respawn(e: nat)

  function Newborn(origin: nat): Exporter { Exporter(Starting, 0, false, false, 0, 0, 0, origin, false, false) }

  function Initial(): State { State(0, 0, 0, false, [Newborn(0)]) }

  /** The gate: a successor has been announced. */
  predicate Closed(x: Exporter, gen: nat) { gen > x.myGen }

  function Advance(x: Exporter, gen: nat, a: Action): Exporter {
    match (a, x.pc)
    case (Snapshot(_), Starting) => x.(pc := Top, myGen := gen)
    case (Gate(_), Top) =>
      x.(pc := BeforeLogs, abdicated := x.abdicated || Closed(x, gen), gateReads := x.gateReads + 1)
    case (Quit(_), Top) => x.(pc := FinalLogs, hasSuccessor := Closed(x, gen), gateReads := x.gateReads + 1)
    case (LogPass(_), BeforeLogs) => if x.abdicated then x else x.(pc := BeforeSpans, logPasses := x.logPasses + 1)
    case (LogPass(_), FinalLogs) => if x.hasSuccessor then x else x.(pc := FinalSpans, logPasses := x.logPasses + 1)
    case (SpanPass(_), BeforeSpans) => if x.abdicated then x else x.(pc := Top, spanPasses := x.spanPasses + 1)
    case (SpanPass(_), FinalSpans) => if x.hasSuccessor then x else x.(pc := Gone, spanPasses := x.spanPasses + 1)
    case (Skip(_), BeforeLogs) => x.(pc := BeforeSpans)
    case (Skip(_), BeforeSpans) => x.(pc := Top)
    case (Skip(_), FinalLogs) => x.(pc := FinalSpans)
    case (Skip(_), FinalSpans) => x.(pc := Gone)
    case (Break(_), BeforeLogs) => x.(pc := Top)
    case (Break(_), BeforeSpans) => x.(pc := Top)
    case (Exit(_), _) => x.(pc := Gone)
    case (Tell(_), _) => x.(told := true)
    case _ => x
  }

  /** The master respawns an exporter that is gone unless it has told it to quit, and once. */
  predicate Respawnable(x: Exporter) { x.pc == Gone && !x.told && !x.replaced }

  predicate IsMaster(a: Action) { a.Announce? || a.SpawnOk? || a.SpawnFail? }

  function Step(s: State, a: Action): State {
    match a
    case Announce => if s.forking then s else s.(gen := s.gen + 1, forking := true)
    case SpawnOk =>
      if s.forking then s.(forks := s.forks + 1, forking := false, exporters := s.exporters + [Newborn(s.forks + 1)]) else s
    case SpawnFail => if s.forking && s.gen > 0 then s.(gen := s.gen - 1, forking := false) else s
    case Respawn(e) =>
      if e < |s.exporters| && Respawnable(s.exporters[e]) then
        s.(respawns := s.respawns + 1,
           exporters := s.exporters[e := s.exporters[e].(replaced := true)] + [Newborn(s.exporters[e].origin)])
      else s
    case _ => if a.e < |s.exporters| then s.(exporters := s.exporters[a.e := Advance(s.exporters[a.e], s.gen, a)]) else s
  }

  function Exec(s: State, schedule: seq<Action>): State
    decreases |schedule|
  {
    if schedule == [] then s else Exec(Step(s, schedule[0]), schedule[1..])
  }

  lemma {:induction false} ExecConcat(s: State, a: seq<Action>, b: seq<Action>)
    ensures Exec(s, a + b) == Exec(Exec(s, a), b)
    decreases |a|
  {
    if a == [] {
      assert a + b == b;
    } else {
      assert (a + b)[1..] == a[1..] + b;
      ExecConcat(Step(s, a[0]), a[1..], b);
    }
  }

  lemma ExecTwo(s: State, a: Action, b: Action)
    ensures Exec(s, [a, b]) == Step(Step(s, a), b)
  {
    assert [a, b][1..] == [b] && [b][1..] == [];
    assert Exec(Step(s, a), [b]) == Exec(Step(Step(s, a), b), [b][1..]);
  }

  lemma ExecThree(s: State, a: Action, b: Action, c: Action)
    ensures Exec(s, [a, b, c]) == Step(Step(Step(s, a), b), c)
  {
    assert [a, b, c][1..] == [b, c];
    ExecTwo(Step(s, a), b, c);
  }

  // ── The counter ─────────────────────────────────────────────────────────────

  ghost predicate Counts(s: State) {
    && s.gen == s.forks + (if s.forking then 1 else 0)
    && |s.exporters| == s.forks + s.respawns + 1
  }

  lemma {:induction false} CountsAlways(s: State, schedule: seq<Action>)
    requires Counts(s)
    ensures Counts(Exec(s, schedule)) && Exec(s, schedule).forks >= s.forks
    decreases |schedule|
  {
    if schedule != [] { CountsAlways(Step(s, schedule[0]), schedule[1..]); }
  }

  /** In every run, whenever the master is not between announcement and fork result, the counter is the number of successful reload forks. */
  lemma GenCountsSuccessfulForks(schedule: seq<Action>)
    ensures
      var s := Exec(Initial(), schedule);
      && s.forks == |s.exporters| - 1 - s.respawns
      && (!s.forking ==> s.gen == s.forks)
      && (s.forking ==> s.gen == s.forks + 1)
  {
    CountsAlways(Initial(), schedule);
  }

  // ── Bounded overlap ─────────────────────────────────────────────────────────

  /** The passes an exporter may still start without reading the gate again. */
  function LogAllowance(x: Exporter): nat {
    if (x.pc == BeforeLogs && !x.abdicated) || (x.pc == FinalLogs && !x.hasSuccessor) then 1 else 0
  }

  function SpanAllowance(x: Exporter): nat {
    if ((x.pc == BeforeLogs || x.pc == BeforeSpans) && !x.abdicated)
    || ((x.pc == FinalLogs || x.pc == FinalSpans) && !x.hasSuccessor) then 1 else 0
  }

  lemma ClosedLogs(x: Exporter, gen: nat, a: Action)
    requires x.pc != Starting && Closed(x, gen)
    ensures Advance(x, gen, a).logPasses + LogAllowance(Advance(x, gen, a)) <= x.logPasses + LogAllowance(x)
  {
  }

  lemma ClosedSpans(x: Exporter, gen: nat, a: Action)
    requires x.pc != Starting && Closed(x, gen)
    ensures Advance(x, gen, a).spanPasses + SpanAllowance(Advance(x, gen, a)) <= x.spanPasses + SpanAllowance(x)
  {
  }

  /** While the gate is closed, an allowance is only ever spent. */
  lemma ClosedSpends(x: Exporter, gen: nat, a: Action)
    requires x.pc != Starting && Closed(x, gen)
    ensures
      var x' := Advance(x, gen, a);
      && x'.pc != Starting && x'.myGen == x.myGen
      && x'.logPasses + LogAllowance(x') <= x.logPasses + LogAllowance(x)
      && x'.spanPasses + SpanAllowance(x') <= x.spanPasses + SpanAllowance(x)
  {
    ClosedLogs(x, gen, a);
    ClosedSpans(x, gen, a);
  }

  /** The counter never drops below `g` along the run. */
  ghost predicate StaysAtLeast(s: State, schedule: seq<Action>, g: nat)
    decreases |schedule|
  {
    s.gen >= g && (schedule == [] || StaysAtLeast(Step(s, schedule[0]), schedule[1..], g))
  }

  lemma {:induction false} ClosedRun(s: State, schedule: seq<Action>, e: nat)
    requires e < |s.exporters| && s.exporters[e].pc != Starting
    requires StaysAtLeast(s, schedule, s.exporters[e].myGen + 1)
    ensures e < |Exec(s, schedule).exporters|
    ensures
      var x, x' := s.exporters[e], Exec(s, schedule).exporters[e];
      && x'.logPasses <= x.logPasses + LogAllowance(x)
      && x'.spanPasses <= x.spanPasses + SpanAllowance(x)
    decreases |schedule|
  {
    if schedule != [] {
      var a := schedule[0];
      if !IsMaster(a) && a.e == e { ClosedSpends(s.exporters[e], s.gen, a); }
      ClosedRun(Step(s, a), schedule[1..], e);
    }
  }

  predicate NoFailure(schedule: seq<Action>) {
    forall k | 0 <= k < |schedule| :: !schedule[k].SpawnFail?
  }

  /** An announcement that is not taken back stays in force. */
  lemma {:induction false} KeptWithoutFailure(s: State, schedule: seq<Action>)
    requires NoFailure(schedule)
    ensures StaysAtLeast(s, schedule, s.gen) && Exec(s, schedule).gen >= s.gen
    decreases |schedule|
  {
    if schedule != [] {
      KeptWithoutFailure(Step(s, schedule[0]), schedule[1..]);
      AtLeastWeaker(Step(s, schedule[0]), schedule[1..], Step(s, schedule[0]).gen, s.gen);
    }
  }

  lemma {:induction false} AtLeastWeaker(s: State, schedule: seq<Action>, g: nat, h: nat)
    requires StaysAtLeast(s, schedule, g) && h <= g
    ensures StaysAtLeast(s, schedule, h)
    decreases |schedule|
  {
    if schedule != [] { AtLeastWeaker(Step(s, schedule[0]), schedule[1..], g, h); }
  }

  /** Successful forks are never undone, so the counter never falls below their number. */
  lemma {:induction false} KeptAfterFork(s: State, schedule: seq<Action>)
    requires Counts(s)
    ensures StaysAtLeast(s, schedule, s.forks)
    decreases |schedule|
  {
    if schedule != [] {
      KeptAfterFork(Step(s, schedule[0]), schedule[1..]);
      AtLeastWeaker(Step(s, schedule[0]), schedule[1..], Step(s, schedule[0]).forks, s.forks);
    }
  }

  lemma {:induction false} AtLeastConcat(s: State, a: seq<Action>, b: seq<Action>, g: nat)
    requires StaysAtLeast(s, a, g) && StaysAtLeast(Exec(s, a), b, g)
    ensures StaysAtLeast(s, a + b, g)
    decreases |a|
  {
    if a == [] {
      assert a + b == b;
    } else {
      assert (a + b)[1..] == a[1..] + b;
      AtLeastConcat(Step(s, a[0]), a[1..], b, g);
    }
  }

  /** A reload whose fork succeeds: announced at `s`, forked after `during`, then anything at all. */
  lemma ReloadKeepsGateClosed(s: State, during: seq<Action>, after: seq<Action>)
    requires Counts(s) && !s.forking && NoFailure(during)
    ensures StaysAtLeast(Step(s, Announce), during + [SpawnOk] + after, s.gen + 1)
  {
    var s1 := Step(s, Announce);
    var head := during + [SpawnOk];
    KeptWithoutFailure(s1, head);
    CountsAlways(s1, head);
    ForkedBy(s1, during);
    KeptAfterFork(Exec(s1, head), after);
    AtLeastWeaker(Exec(s1, head), after, Exec(s1, head).forks, s.gen + 1);
    AtLeastConcat(s1, head, after, s.gen + 1);
  }

  lemma {:induction false} ForkedBy(s: State, during: seq<Action>)
    requires s.forking && Counts(s) && NoFailure(during)
    ensures Exec(s, during + [SpawnOk]).forks > s.forks
    decreases |during|
  {
    var all := during + [SpawnOk];
    if during == [] {
      assert all == [SpawnOk] && all[1..] == [];
    } else {
      assert all[1..] == during[1..] + [SpawnOk];
      var s' := Step(s, during[0]);
      if during[0].SpawnOk? {
        CountsAlways(s', all[1..]);
      } else {
        ForkedBy(s', during[1..]);
      }
    }
  }

  /**
   Bounded overlap: in every run with a successful reload, an exporter whose generation precedes the
   announcement starts at most one more log-ring pass and one more span-ring pass after it.
   */
  lemma AtMostOneMorePass(s: State, during: seq<Action>, after: seq<Action>, e: nat)
    requires Counts(s) && !s.forking && NoFailure(during)
    requires e < |s.exporters| && s.exporters[e].pc != Starting && s.exporters[e].myGen <= s.gen
    ensures
      var end := Exec(s, [Announce] + during + [SpawnOk] + after);
      && e < |end.exporters|
      && end.exporters[e].logPasses <= s.exporters[e].logPasses + 1
      && end.exporters[e].spanPasses <= s.exporters[e].spanPasses + 1
  {
    var s1, rest := Step(s, Announce), during + [SpawnOk] + after;
    ReloadKeepsGateClosed(s, during, after);
    AtLeastWeaker(s1, rest, s.gen + 1, s.exporters[e].myGen + 1);
    ClosedRun(s1, rest, e);
    assert [Announce] + during + [SpawnOk] + after == [Announce] + rest;
    assert ([Announce] + rest)[1..] == rest;
  }

  /** And none at all after a reading, on either path, that saw the successor. */
  lemma NoPassAfterSeeing(s: State, a: Action, schedule: seq<Action>, e: nat)
    requires e < |s.exporters| && (a == Gate(e) || a == Quit(e)) && s.exporters[e].pc == Top
    requires StaysAtLeast(s, [a] + schedule, s.exporters[e].myGen + 1)
    ensures
      var end := Exec(s, [a] + schedule);
      && e < |end.exporters|
      && end.exporters[e].logPasses == s.exporters[e].logPasses
      && end.exporters[e].spanPasses == s.exporters[e].spanPasses
  {
    assert ([a] + schedule)[1..] == schedule;
    ClosedRun(Step(s, a), schedule, e);
    PassesGrow(Step(s, a), schedule, e);
  }

  /** What an action can do to one exporter. */
  lemma StepOn(s: State, a: Action, e: nat)
    requires e < |s.exporters|
    ensures e < |Step(s, a).exporters|
    ensures
      var x, x' := s.exporters[e], Step(s, a).exporters[e];
      x' == x || x' == Advance(x, s.gen, a) || x' == x.(replaced := true)
    ensures !IsMaster(a) && a.e != e ==> Step(s, a).exporters[e] == s.exporters[e]
  {
  }

  lemma AdvanceGrows(x: Exporter, gen: nat, a: Action)
    ensures Advance(x, gen, a).logPasses >= x.logPasses && Advance(x, gen, a).spanPasses >= x.spanPasses
  {
  }

  lemma {:induction false} PassesGrow(s: State, schedule: seq<Action>, e: nat)
    requires e < |s.exporters|
    ensures e < |Exec(s, schedule).exporters|
    ensures
      var x, x' := s.exporters[e], Exec(s, schedule).exporters[e];
      x'.logPasses >= x.logPasses && x'.spanPasses >= x.spanPasses
    decreases |schedule|
  {
    if schedule != [] {
      StepOn(s, schedule[0], e);
      AdvanceGrows(s.exporters[e], s.gen, schedule[0]);
      PassesGrow(Step(s, schedule[0]), schedule[1..], e);
    }
  }

  // ── Exactly when the overlap is bounded ─────────────────────────────────────

  /** Log passes of exporter `e` after a reload at `s` and then `after`. */
  ghost function LogsAfterReload(s: State, e: nat, after: seq<Action>): nat {
    var end := Exec(s, [Announce, SpawnOk] + after);
    if e < |end.exporters| then end.exporters[e].logPasses else 0
  }

  ghost function SpansAfterReload(s: State, e: nat, after: seq<Action>): nat {
    var end := Exec(s, [Announce, SpawnOk] + after);
    if e < |end.exporters| then end.exporters[e].spanPasses else 0
  }

  function Ticks(e: nat, n: nat): seq<Action> {
    if n == 0 then [] else [Gate(e), LogPass(e), SpanPass(e)] + Ticks(e, n - 1)
  }

  /** An exporter whose gate stays open passes at every tick. */
  lemma {:induction false} OpenTicks(s: State, e: nat, n: nat)
    requires e < |s.exporters| && s.exporters[e].pc == Top && !s.exporters[e].abdicated && !Closed(s.exporters[e], s.gen)
    ensures |Exec(s, Ticks(e, n)).exporters| == |s.exporters|
    ensures Exec(s, Ticks(e, n)).exporters[e].logPasses == s.exporters[e].logPasses + n
    ensures Exec(s, Ticks(e, n)).exporters[e].spanPasses == s.exporters[e].spanPasses + n
    decreases n
  {
    if n > 0 {
      ExecThree(s, Gate(e), LogPass(e), SpanPass(e));
      ExecConcat(s, [Gate(e), LogPass(e), SpanPass(e)], Ticks(e, n - 1));
      OpenTicks(Exec(s, [Gate(e), LogPass(e), SpanPass(e)]), e, n - 1);
    }
  }

  /**
   For an idle exporter that has not abdicated, the overlap of a successful reload is bounded, in log
   passes and in span passes, exactly when its generation does not run ahead of the counter. It runs ahead when the snapshot fell inside
   the window of a fork that failed; then the next successor never closes its gate.
   */
  lemma OverlapBoundedIff(s: State, e: nat)
    requires Counts(s) && !s.forking && e < |s.exporters|
    requires s.exporters[e].pc == Top && !s.exporters[e].abdicated
    ensures s.exporters[e].myGen <= s.gen <==>
            forall after :: LogsAfterReload(s, e, after) <= s.exporters[e].logPasses + 1
    ensures s.exporters[e].myGen <= s.gen <==>
            forall after :: SpansAfterReload(s, e, after) <= s.exporters[e].spanPasses + 1
  {
    if s.exporters[e].myGen <= s.gen {
      forall after
        ensures LogsAfterReload(s, e, after) <= s.exporters[e].logPasses + 1
        ensures SpansAfterReload(s, e, after) <= s.exporters[e].spanPasses + 1
      {
        AtMostOneMorePass(s, [], after, e);
        assert [Announce] + [] + [SpawnOk] + after == [Announce, SpawnOk] + after;
      }
    } else {
      var after := Ticks(e, 2);
      var s1 := Step(Step(s, Announce), SpawnOk);
      ExecTwo(s, Announce, SpawnOk);
      ExecConcat(s, [Announce, SpawnOk], after);
      OpenTicks(s1, e, 2);
      assert LogsAfterReload(s, e, after) == s.exporters[e].logPasses + 2;
      assert SpansAfterReload(s, e, after) == s.exporters[e].spanPasses + 2;
    }
  }

  /** The unbounded case is reachable: the first exporter snapshots while a fork is about to fail. */
  lemma SnapshotInsideFailedFork()
    ensures
      var s := Exec(Initial(), [Announce, Snapshot(0), SpawnFail]);
      Counts(s) && !s.forking && s.exporters[0].pc == Top && !s.exporters[0].abdicated && s.exporters[0].myGen > s.gen
  {
    ExecThree(Initial(), Announce, Snapshot(0), SpawnFail);
  }

  // ── What an exporter without a successor drains ─────────────────────────────

  predicate Periodic(pc: Pc) { pc == Top || pc == BeforeLogs || pc == BeforeSpans }

  /** Steps of the master and of other exporters. */
  predicate OthersOnly(schedule: seq<Action>, e: nat) {
    forall k | 0 <= k < |schedule| :: IsMaster(schedule[k]) || schedule[k].e != e
  }

  lemma {:induction false} OthersLeave(s: State, schedule: seq<Action>, e: nat)
    requires e < |s.exporters| && OthersOnly(schedule, e)
    ensures e < |Exec(s, schedule).exporters| && Exec(s, schedule).exporters[e] == s.exporters[e]
    decreases |schedule|
  {
    if schedule != [] {
      StepOn(s, schedule[0], e);
      assert OthersOnly(schedule[1..], e);
      OthersLeave(Step(s, schedule[0]), schedule[1..], e);
    }
  }

  predicate Own(a: Action, e: nat) { !IsMaster(a) && !a.Respawn? && a.e == e }

  /** A step of exporter `e`, then anything by others. */
  lemma OwnStep(s: State, a: Action, others: seq<Action>, e: nat) returns (s': State)
    requires e < |s.exporters| && Own(a, e) && OthersOnly(others, e)
    ensures s' == Exec(s, [a] + others) && e < |s'.exporters| && s'.exporters[e] == Advance(s.exporters[e], s.gen, a)
  {
    assert ([a] + others)[1..] == others;
    OthersLeave(Step(s, a), others, e);
    s' := Exec(s, [a] + others);
  }

  /** A shutdown: out of the tick under way, the graceful gate, the final log pass, the final span pass, others in between. */
  function FinalDrain(e: nat, x: seq<Action>, y: seq<Action>, z: seq<Action>): seq<Action> {
    ([Break(e)] + x) + ([Quit(e)] + y) + ([LogPass(e)] + z) + ([SpanPass(e)] + [])
  }

  lemma ExecFour(s: State, a: seq<Action>, b: seq<Action>, c: seq<Action>, d: seq<Action>)
    ensures Exec(s, a + b + c + d) == Exec(Exec(Exec(Exec(s, a), b), c), d)
  {
    ExecConcat(s, a + b + c, d);
    ExecConcat(s, a + b, c);
    ExecConcat(s, a, b);
  }

  /**
   A shutdown of a running exporter, from wherever in its tick and with anything of others in between, takes the
   final log pass and the final span pass exactly when no successor had been announced by the time the graceful
   path read the gate. Whether the periodic path had abdicated before plays no part.
   */
  lemma ShutdownDrainsIff(s: State, e: nat, x: seq<Action>, y: seq<Action>, z: seq<Action>)
    requires e < |s.exporters| && Periodic(s.exporters[e].pc) && OthersOnly(x, e) && OthersOnly(y, e) && OthersOnly(z, e)
    ensures
      var read, end := Exec(s, [Break(e)] + x), Exec(s, FinalDrain(e, x, y, z));
      var more := if read.gen <= s.exporters[e].myGen then 1 else 0;
      && e < |end.exporters| && (more == 1 ==> end.exporters[e].pc == Gone)
      && end.exporters[e].logPasses == s.exporters[e].logPasses + more
      && end.exporters[e].spanPasses == s.exporters[e].spanPasses + more
  {
    var g2, g3 := FourSteps(s, e, Break(e), x, Quit(e), y, LogPass(e), z, SpanPass(e));
    var x1 := Advance(s.exporters[e], s.gen, Break(e));
    BreakToTop(s.exporters[e], s.gen, e);
    FinalPasses(x1, Exec(s, [Break(e)] + x).gen, g2, g3, e);
  }

  lemma BreakToTop(x: Exporter, gen: nat, e: nat)
    requires Periodic(x.pc)
    ensures Advance(x, gen, Break(e)) == x.(pc := Top)
  {
  }

  lemma FinalPasses(x: Exporter, g1: nat, g2: nat, g3: nat, e: nat)
    requires x.pc == Top
    ensures
      var end := Advance(Advance(Advance(x, g1, Quit(e)), g2, LogPass(e)), g3, SpanPass(e));
      var more := if g1 <= x.myGen then 1 else 0;
      (more == 1 ==> end.pc == Gone) && end.logPasses == x.logPasses + more && end.spanPasses == x.spanPasses + more
  {
  }

  /** Four steps of one exporter, others in between: what they make of it. */
  lemma FourSteps(s: State, e: nat, a: Action, x: seq<Action>, b: Action, y: seq<Action>, c: Action, z: seq<Action>, d: Action)
      returns (g2: nat, g3: nat)
    requires e < |s.exporters| && Own(a, e) && Own(b, e) && Own(c, e) && Own(d, e)
    requires OthersOnly(x, e) && OthersOnly(y, e) && OthersOnly(z, e)
    ensures
      var end, g1 := Exec(s, ([a] + x) + ([b] + y) + ([c] + z) + ([d] + [])), Exec(s, [a] + x).gen;
      && e < |end.exporters|
      && end.exporters[e] == Advance(Advance(Advance(Advance(s.exporters[e], s.gen, a), g1, b), g2, c), g3, d)
  {
    ExecFour(s, [a] + x, [b] + y, [c] + z, [d] + []);
    var s1 := OwnStep(s, a, x, e);
    var s2 := OwnStep(s1, b, y, e);
    var s3 := OwnStep(s2, c, z, e);
    var s4 := OwnStep(s3, d, [], e);
    g2, g3 := s2.gen, s3.gen;
  }

  ghost predicate PassesAfterQuit(s: State, e: nat, more: seq<Action>) {
    var end := Exec(s, [Quit(e)] + more);
    e < |s.exporters| && e < |end.exporters| &&
    (end.exporters[e].logPasses > s.exporters[e].logPasses || end.exporters[e].spanPasses > s.exporters[e].spanPasses)
  }

  /** Past a graceful gate that was found closed no pass is started, whatever the counter does. */
  lemma {:induction false} SeenStaysOut(s: State, schedule: seq<Action>, e: nat)
    requires e < |s.exporters| && s.exporters[e].hasSuccessor && Final(s.exporters[e].pc)
    ensures e < |Exec(s, schedule).exporters|
    ensures Exec(s, schedule).exporters[e].logPasses == s.exporters[e].logPasses
    ensures Exec(s, schedule).exporters[e].spanPasses == s.exporters[e].spanPasses
    decreases |schedule|
  {
    if schedule != [] {
      StepOn(s, schedule[0], e);
      FinalAdvance(s.exporters[e], s.gen, schedule[0]);
      SeenStaysOut(Step(s, schedule[0]), schedule[1..], e);
    }
  }

  predicate Final(pc: Pc) { pc == FinalLogs || pc == FinalSpans || pc == Gone }

  lemma FinalAdvance(x: Exporter, gen: nat, a: Action)
    requires x.hasSuccessor && Final(x.pc)
    ensures
      var x' := Advance(x, gen, a);
      x'.hasSuccessor && Final(x'.pc) && x'.logPasses == x.logPasses && x'.spanPasses == x.spanPasses
  {
  }

  /** After the graceful gate is read a pass can still be started if and only if no successor had been announced. */
  lemma PassAfterQuitIff(s: State, e: nat)
    requires e < |s.exporters| && s.exporters[e].pc == Top
    ensures (exists more :: PassesAfterQuit(s, e, more)) <==> s.gen <= s.exporters[e].myGen
  {
    if s.gen <= s.exporters[e].myGen {
      var s1 := OwnStep(s, Quit(e), [], e);
      var s2 := OwnStep(s1, LogPass(e), [], e);
      ExecConcat(s, [Quit(e)] + [], [LogPass(e)] + []);
      assert [Quit(e)] + [] + ([LogPass(e)] + []) == [Quit(e)] + [LogPass(e)];
      assert PassesAfterQuit(s, e, [LogPass(e)]);
    } else {
      forall more ensures !PassesAfterQuit(s, e, more) {
        assert ([Quit(e)] + more)[1..] == more;
        SeenStaysOut(Step(s, Quit(e)), more, e);
      }
    }
  }

  /** The run of one tick of an exporter, out of the one before, its lanes passed or skipped, others in between. */
  function Tick(e: nat, logs: bool, spans: bool, x: seq<Action>, y: seq<Action>): seq<Action> {
    ([Break(e)] + []) + ([Gate(e)] + x) + ([if logs then LogPass(e) else Skip(e)] + y) + ([if spans then SpanPass(e) else Skip(e)] + [])
  }

  /**
   A tick of an exporter that has not abdicated passes the lanes that are not skipped exactly when no successor
   had been announced when it read the gate; a skipped lane does not hold up the other. Otherwise it abdicates.
   */
  lemma TickPassesIff(s: State, e: nat, logs: bool, spans: bool, x: seq<Action>, y: seq<Action>)
    requires e < |s.exporters| && Periodic(s.exporters[e].pc) && !s.exporters[e].abdicated && OthersOnly(x, e) && OthersOnly(y, e)
    ensures
      var end, open := Exec(s, Tick(e, logs, spans, x, y)), s.gen <= s.exporters[e].myGen;
      && e < |end.exporters| && end.exporters[e].abdicated == !open && (open ==> end.exporters[e].pc == Top)
      && end.exporters[e].logPasses == s.exporters[e].logPasses + (if open && logs then 1 else 0)
      && end.exporters[e].spanPasses == s.exporters[e].spanPasses + (if open && spans then 1 else 0)
  {
    var log, span := if logs then LogPass(e) else Skip(e), if spans then SpanPass(e) else Skip(e);
    var g2, g3 := FourSteps(s, e, Break(e), [], Gate(e), x, log, y, span);
    BreakToTop(s.exporters[e], s.gen, e);
    assert [Break(e)] + [] == [Break(e)] && [Break(e)][1..] == [];
    assert Exec(s, [Break(e)]) == Step(s, Break(e));
    TickPasses(s.exporters[e].(pc := Top), s.gen, g2, g3, e, logs, spans);
  }

  lemma TickPasses(x: Exporter, g1: nat, g2: nat, g3: nat, e: nat, logs: bool, spans: bool)
    requires x.pc == Top && !x.abdicated
    ensures
      var log, span := if logs then LogPass(e) else Skip(e), if spans then SpanPass(e) else Skip(e);
      var end, open := Advance(Advance(Advance(x, g1, Gate(e)), g2, log), g3, span), g1 <= x.myGen;
      && end.abdicated == !open && (open ==> end.pc == Top)
      && end.logPasses == x.logPasses + (if open && logs then 1 else 0)
      && end.spanPasses == x.spanPasses + (if open && spans then 1 else 0)
  {
  }

  // ── Who is respawned ────────────────────────────────────────────────────────

  /** An exporter the master has told to quit is not respawned, whatever follows. */
  lemma {:induction false} ToldIsNotRespawned(s: State, schedule: seq<Action>, e: nat)
    requires e < |s.exporters| && s.exporters[e].told && !s.exporters[e].replaced
    ensures e < |Exec(s, schedule).exporters| && !Exec(s, schedule).exporters[e].replaced
    decreases |schedule|
  {
    if schedule != [] {
      ToldStep(s, schedule[0], e);
      ToldIsNotRespawned(Step(s, schedule[0]), schedule[1..], e);
    }
  }

  lemma ToldStep(s: State, a: Action, e: nat)
    requires e < |s.exporters| && s.exporters[e].told && !s.exporters[e].replaced
    ensures e < |Step(s, a).exporters| && Step(s, a).exporters[e].told && !Step(s, a).exporters[e].replaced
  {
  }

  /** One that died untold is, once: the newcomer stands for the same generation and has everything before it. */
  lemma CrashIsRespawned(s: State, e: nat)
    requires e < |s.exporters| && Live(s.exporters[e]) && !s.exporters[e].told && !s.exporters[e].replaced
    ensures
      var dead := Step(s, Exit(e));
      var back, again := Step(dead, Respawn(e)), Step(Step(dead, Respawn(e)), Respawn(e));
      && |back.exporters| == |s.exporters| + 1 && again == back && back.gen == s.gen
      && back.exporters[|s.exporters|].pc == Starting && back.exporters[|s.exporters|].origin == s.exporters[e].origin
      && !back.exporters[|s.exporters|].told && back.exporters[|s.exporters|].gateReads == 0
  {
  }

  // ── One open gate ───────────────────────────────────────────────────────────

  /** The premise: no reload is announced while some exporter has yet to snapshot. */
  ghost predicate SnapshotsInTime(s: State, schedule: seq<Action>)
    decreases |schedule|
  {
    schedule == [] ||
    (&& (schedule[0].Announce? ==> forall e | 0 <= e < |s.exporters| :: s.exporters[e].pc != Starting)
     && SnapshotsInTime(Step(s, schedule[0]), schedule[1..]))
  }

  /** And an exporter is respawned only for the generation in force. */
  ghost predicate RespawnsInTime(s: State, schedule: seq<Action>)
    decreases |schedule|
  {
    schedule == [] ||
    (&& (schedule[0].Respawn? && schedule[0].e < |s.exporters| ==> s.exporters[schedule[0].e].origin == s.gen)
     && RespawnsInTime(Step(s, schedule[0]), schedule[1..]))
  }

  /** At work, or gone and open to being respawned. */
  predicate Current(x: Exporter) { x.pc != Gone || !x.replaced }

  /** A running exporter has the generation it was forked for, and no other exporter stands for that generation. */
  ghost predicate Numbered(s: State) {
    && Counts(s)
    && (forall e | 0 <= e < |s.exporters| :: NumberedOne(s, s.exporters[e]))
    && (forall d, e | 0 <= d < e < |s.exporters| && Current(s.exporters[d]) && Current(s.exporters[e]) ::
          s.exporters[d].origin != s.exporters[e].origin)
  }

  ghost predicate NumberedOne(s: State, x: Exporter) {
    && x.origin <= s.forks
    && (x.pc == Starting ==> x.origin == s.forks && !s.forking)
    && (x.pc != Starting && x.pc != Gone ==> x.myGen == x.origin)
  }

  lemma {:induction false} NumberedAlways(s: State, schedule: seq<Action>)
    requires Numbered(s) && SnapshotsInTime(s, schedule) && RespawnsInTime(s, schedule)
    ensures Numbered(Exec(s, schedule))
    decreases |schedule|
  {
    if schedule != [] {
      NumberedStep(s, schedule[0]);
      NumberedAlways(Step(s, schedule[0]), schedule[1..]);
    }
  }

  /** One exporter replaced by another that stands for no more than it did. */
  ghost predicate Behind(x: Exporter, x': Exporter) {
    x'.origin == x.origin && (Current(x') ==> Current(x))
  }

  lemma AdvanceNumbered(s: State, x: Exporter, a: Action)
    requires Counts(s) && NumberedOne(s, x)
    ensures NumberedOne(s, Advance(x, s.gen, a)) && Behind(x, Advance(x, s.gen, a))
  {
  }

  lemma ExporterNumbered(s: State, e: nat, x': Exporter)
    requires Numbered(s) && e < |s.exporters| && NumberedOne(s, x') && Behind(s.exporters[e], x')
    ensures Numbered(s.(exporters := s.exporters[e := x']))
  {
  }

  lemma ForkNumbered(s: State)
    requires Numbered(s) && s.forking
    ensures Numbered(Step(s, SpawnOk))
  {
    var s' := Step(s, SpawnOk);
    forall e | 0 <= e < |s'.exporters| ensures NumberedOne(s', s'.exporters[e]) {
      if e < |s.exporters| { assert NumberedOne(s, s.exporters[e]); }
    }
  }

  lemma RespawnNumbered(s: State, e: nat)
    requires Numbered(s) && e < |s.exporters| && s.exporters[e].origin == s.gen
    ensures Numbered(Step(s, Respawn(e)))
  {
    if Respawnable(s.exporters[e]) {
      var x, s' := s.exporters[e], Step(s, Respawn(e));
      assert NumberedOne(s, x);
      forall d | 0 <= d < |s'.exporters| ensures NumberedOne(s', s'.exporters[d]) {
        if d < |s.exporters| { assert NumberedOne(s, s.exporters[d]); }
      }
      forall d | 0 <= d < |s.exporters| && Current(s'.exporters[d]) ensures s'.exporters[d].origin != x.origin {
        assert d != e && s'.exporters[d] == s.exporters[d];
      }
    }
  }

  lemma NumberedStep(s: State, a: Action)
    requires Numbered(s)
    requires a.Announce? ==> forall e | 0 <= e < |s.exporters| :: s.exporters[e].pc != Starting
    requires a.Respawn? && a.e < |s.exporters| ==> s.exporters[a.e].origin == s.gen
    ensures Numbered(Step(s, a))
  {
    if a.Respawn? {
      if a.e < |s.exporters| { RespawnNumbered(s, a.e); }
    } else if a.SpawnOk? {
      if s.forking { ForkNumbered(s); }
    } else if a.Announce? || a.SpawnFail? {
      assert forall e | 0 <= e < |s.exporters| :: NumberedOne(s, s.exporters[e]);
    } else if a.e < |s.exporters| {
      AdvanceNumbered(s, s.exporters[a.e], a);
      ExporterNumbered(s, a.e, Advance(s.exporters[a.e], s.gen, a));
    }
  }

  predicate Live(x: Exporter) { x.pc != Gone }

  /** Has yet to take its snapshot, or would find its gate open if it read it now. */
  predicate GateOpenOrUnread(x: Exporter, gen: nat) { Live(x) && (x.pc == Starting || !Closed(x, gen)) }

  /** Whatever happens after `s`, exporter `d` starts at most one more log pass and one more span pass. */
  ghost predicate OneMoreAtMost(s: State, d: nat)
    requires d < |s.exporters|
  {
    forall more :: PassesWithin(s, d, more)
  }

  ghost predicate PassesWithin(s: State, d: nat, more: seq<Action>)
    requires d < |s.exporters|
  {
    var end := Exec(s, more);
    && d < |end.exporters|
    && end.exporters[d].logPasses <= s.exporters[d].logPasses + 1
    && end.exporters[d].spanPasses <= s.exporters[d].spanPasses + 1
  }

  lemma ElderRuns(s: State, d: nat, more: seq<Action>)
    requires Numbered(s) && d < |s.exporters| && Live(s.exporters[d]) && s.exporters[d].origin < s.forks
    ensures PassesWithin(s, d, more)
  {
    KeptAfterFork(s, more);
    AtLeastWeaker(s, more, s.forks, s.exporters[d].myGen + 1);
    ClosedRun(s, more, d);
  }

  /**
   When every exporter snapshots before the next announcement and is respawned only for the generation in
   force: live generations are pairwise distinct; at most one live exporter would find its gate open or has
   still to take its snapshot; and every live exporter of an older generation, even one past a gate it found
   open, has at most one log pass and one span pass left, whatever follows.
   */
  lemma AtMostOneOpenGate(schedule: seq<Action>)
    requires SnapshotsInTime(Initial(), schedule) && RespawnsInTime(Initial(), schedule)
    ensures
      var s := Exec(Initial(), schedule);
      && (forall d, e | 0 <= d < e < |s.exporters| && Live(s.exporters[d]) && Live(s.exporters[e])
            && s.exporters[d].pc != Starting && s.exporters[e].pc != Starting :: s.exporters[d].myGen != s.exporters[e].myGen)
      && (forall d, e | 0 <= d < e < |s.exporters| :: !(GateOpenOrUnread(s.exporters[d], s.gen) && GateOpenOrUnread(s.exporters[e], s.gen)))
      && (forall d | 0 <= d < |s.exporters| && Live(s.exporters[d]) && s.exporters[d].origin < s.forks :: OneMoreAtMost(s, d))
  {
    NumberedAlways(Initial(), schedule);
    var s := Exec(Initial(), schedule);
    forall d, e | 0 <= d < e < |s.exporters|
      ensures !(GateOpenOrUnread(s.exporters[d], s.gen) && GateOpenOrUnread(s.exporters[e], s.gen))
    {
      OpenIsYoungest(s, s.exporters[d]);
      OpenIsYoungest(s, s.exporters[e]);
    }
    forall d, more | 0 <= d < |s.exporters| && Live(s.exporters[d]) && s.exporters[d].origin < s.forks ensures PassesWithin(s, d, more) {
      ElderRuns(s, d, more);
    }
  }

  lemma OpenIsYoungest(s: State, x: Exporter)
    requires Numbered(s) && NumberedOne(s, x)
    ensures GateOpenOrUnread(x, s.gen) ==> x.origin == s.forks && Current(x)
  {
  }

  /** The overlap is real: with every snapshot in time, two exporters can both stand past a gate they found open. */
  lemma BothPop()
    ensures
      var first, then_ := [Snapshot(0), Gate(0), Announce], [SpawnOk, Snapshot(1), Gate(1)];
      var s := Exec(Initial(), first + then_);
      && SnapshotsInTime(Initial(), first + then_)
      && |s.exporters| == 2 && LogAllowance(s.exporters[0]) == 1 && LogAllowance(s.exporters[1]) == 1
  {
    var first, then_ := [Snapshot(0), Gate(0), Announce], [SpawnOk, Snapshot(1), Gate(1)];
    ExecThree(Initial(), Snapshot(0), Gate(0), Announce);
    var s3 := Exec(Initial(), first);
    ExecThree(s3, SpawnOk, Snapshot(1), Gate(1));
    ExecConcat(Initial(), first, then_);
    var s1 := Step(Initial(), Snapshot(0));
    var s2 := Step(s1, Gate(0));
    InTimeThree(s3, SpawnOk, Snapshot(1), Gate(1));
    InTimeCons(s2, Announce, then_);
    InTimeCons(s1, Gate(0), [Announce] + then_);
    InTimeCons(Initial(), Snapshot(0), [Gate(0)] + ([Announce] + then_));
    assert first + then_ == [Snapshot(0)] + ([Gate(0)] + ([Announce] + then_));
  }

  lemma InTimeCons(s: State, a: Action, more: seq<Action>)
    requires a.Announce? ==> forall e | 0 <= e < |s.exporters| :: s.exporters[e].pc != Starting
    requires SnapshotsInTime(Step(s, a), more)
    ensures SnapshotsInTime(s, [a] + more)
  {
    assert ([a] + more)[1..] == more;
  }

  lemma InTimeThree(s: State, a: Action, b: Action, c: Action)
    requires !a.Announce? && !b.Announce? && !c.Announce?
    ensures SnapshotsInTime(s, [a, b, c])
  {
    var s1, s2 := Step(s, a), Step(Step(s, a), b);
    assert [a, b, c][1..] == [b, c] && [b, c][1..] == [c] && [c][1..] == [];
    assert SnapshotsInTime(Step(s2, c), []);
    assert SnapshotsInTime(s2, [c]);
    assert SnapshotsInTime(s1, [b, c]);
  }

  /** Without the premise two live exporters can share a generation, both gates open. */
  lemma LateSnapshotShares()
    ensures
      var s := Exec(Initial(), [Announce, SpawnOk, Snapshot(0), Snapshot(1)]);
      && |s.exporters| == 2 && s.exporters[0].myGen == s.exporters[1].myGen == s.gen
      && s.exporters[0].pc == Top && s.exporters[1].pc == Top
  {
    ExecTwo(Initial(), Announce, SpawnOk);
    var s2 := Step(Step(Initial(), Announce), SpawnOk);
    ExecTwo(s2, Snapshot(0), Snapshot(1));
    ExecConcat(Initial(), [Announce, SpawnOk], [Snapshot(0), Snapshot(1)]);
    assert [Announce, SpawnOk] + [Snapshot(0), Snapshot(1)] == [Announce, SpawnOk, Snapshot(0), Snapshot(1)];
  }

  lemma {:induction false} InTimeConcat(s: State, a: seq<Action>, b: seq<Action>)
    requires SnapshotsInTime(s, a) && SnapshotsInTime(Exec(s, a), b)
    ensures SnapshotsInTime(s, a + b)
    decreases |a|
  {
    if a == [] {
      assert a + b == b;
    } else {
      assert (a + b)[1..] == a[1..] + b;
      InTimeConcat(Step(s, a[0]), a[1..], b);
    }
  }

  /**
   Nor does it hold without the other premise: an exporter that crashes after the announcement and is respawned
   before it is told to quit takes its successor's generation, every snapshot in time, both gates open.
   */
  lemma LateRespawnShares()
    ensures
      var first, then_, last := [Snapshot(0), Announce, SpawnOk], [Snapshot(1), Exit(0), Respawn(0)], [Snapshot(2)];
      var s := Exec(Initial(), first + then_ + last);
      && SnapshotsInTime(Initial(), first + then_ + last)
      && |s.exporters| == 3 && s.exporters[1].myGen == s.exporters[2].myGen == s.gen
      && s.exporters[1].pc == Top && s.exporters[2].pc == Top
  {
    var first, then_, last := [Snapshot(0), Announce, SpawnOk], [Snapshot(1), Exit(0), Respawn(0)], [Snapshot(2)];
    var s3 := Reloaded();
    var s6 := RespawnedLate(s3);
    assert last[1..] == [];
    assert Exec(s6, last) == Step(s6, Snapshot(2));
    ExecConcat(Initial(), first, then_);
    ExecConcat(Initial(), first + then_, last);
    ReloadInTime();
    InTimeConcat(Initial(), first, then_);
    InTimeCons(s6, Snapshot(2), []);
    assert last == [Snapshot(2)] + [];
    InTimeConcat(Initial(), first + then_, last);
  }

  lemma Reloaded() returns (s: State)
    ensures s == Exec(Initial(), [Snapshot(0), Announce, SpawnOk])
    ensures s == State(1, 1, 0, false, [Newborn(0).(pc := Top), Newborn(1)])
  {
    ExecThree(Initial(), Snapshot(0), Announce, SpawnOk);
    s := Exec(Initial(), [Snapshot(0), Announce, SpawnOk]);
  }

  lemma RespawnedLate(s: State) returns (s': State)
    requires s == State(1, 1, 0, false, [Newborn(0).(pc := Top), Newborn(1)])
    ensures s' == Exec(s, [Snapshot(1), Exit(0), Respawn(0)]) && SnapshotsInTime(s, [Snapshot(1), Exit(0), Respawn(0)])
    ensures |s'.exporters| == 3 && s'.gen == 1 && s'.exporters[1].myGen == 1 && s'.exporters[1].pc == Top && s'.exporters[2] == Newborn(0)
  {
    ExecThree(s, Snapshot(1), Exit(0), Respawn(0));
    InTimeThree(s, Snapshot(1), Exit(0), Respawn(0));
    s' := Exec(s, [Snapshot(1), Exit(0), Respawn(0)]);
  }

  lemma ReloadInTime()
    ensures SnapshotsInTime(Initial(), [Snapshot(0), Announce, SpawnOk])
  {
    var s1 := Step(Initial(), Snapshot(0));
    InTimeCons(Step(s1, Announce), SpawnOk, []);
    InTimeCons(s1, Announce, [SpawnOk] + []);
    InTimeCons(Initial(), Snapshot(0), [Announce] + ([SpawnOk] + []));
    assert [Snapshot(0), Announce, SpawnOk] == [Snapshot(0)] + ([Announce] + ([SpawnOk] + []));
  }

  // ── A fork that fails ───────────────────────────────────────────────────────

  /** Exporters act while the fork is pending; the master does nothing. */
  predicate ExportersOnly(schedule: seq<Action>) {
    forall k | 0 <= k < |schedule| :: !IsMaster(schedule[k])
  }

  ghost predicate Latched(x: Exporter) { x.abdicated || x.hasSuccessor }

  /** With the gate closed throughout, a reading is exactly what latches, and nothing unlatches. */
  lemma {:induction false} ClosedReads(s: State, schedule: seq<Action>, e: nat)
    requires ExportersOnly(schedule) && e < |s.exporters| && s.exporters[e].pc != Starting && Closed(s.exporters[e], s.gen)
    ensures Exec(s, schedule).gen == s.gen && Exec(s, schedule).forking == s.forking && e < |Exec(s, schedule).exporters|
    ensures
      var x, x' := s.exporters[e], Exec(s, schedule).exporters[e];
      && x'.myGen == x.myGen && x'.pc != Starting
      && x'.gateReads >= x.gateReads
      && (Latched(x') <==> Latched(x) || x'.gateReads > x.gateReads)
    decreases |schedule|
  {
    if schedule != [] {
      assert ExportersOnly(schedule[1..]);
      ClosedRead(s, schedule[0], e);
      ClosedReads(Step(s, schedule[0]), schedule[1..], e);
    }
  }

  lemma ClosedAdvance(x: Exporter, gen: nat, a: Action)
    requires x.pc != Starting && Closed(x, gen)
    ensures
      var x' := Advance(x, gen, a);
      && x'.myGen == x.myGen && x'.pc != Starting
      && x'.gateReads >= x.gateReads
      && (Latched(x') <==> Latched(x) || x'.gateReads > x.gateReads)
  {
  }

  lemma ClosedRead(s: State, a: Action, e: nat)
    requires !IsMaster(a) && e < |s.exporters| && s.exporters[e].pc != Starting && Closed(s.exporters[e], s.gen)
    ensures Step(s, a).gen == s.gen && Step(s, a).forking == s.forking && e < |Step(s, a).exporters|
    ensures
      var x, x' := s.exporters[e], Step(s, a).exporters[e];
      && x'.myGen == x.myGen && x'.pc != Starting
      && x'.gateReads >= x.gateReads
      && (Latched(x') <==> Latched(x) || x'.gateReads > x.gateReads)
  {
    StepOn(s, a, e);
    ClosedAdvance(s.exporters[e], s.gen, a);
  }

  /**
   A reload whose fork fails restores the counter, and leaves a running exporter unlatched, its gate
   open, exactly when that exporter did not read the gate between announcement and rollback.
   */
  lemma FailedForkHarmlessIff(s: State, during: seq<Action>, e: nat)
    requires Counts(s) && !s.forking && ExportersOnly(during)
    requires e < |s.exporters| && s.exporters[e].pc != Starting && s.exporters[e].myGen == s.gen && !Latched(s.exporters[e])
    ensures
      var end := Exec(s, [Announce] + during + [SpawnFail]);
      && end.gen == s.gen && !end.forking && e < |end.exporters|
      && !Closed(end.exporters[e], end.gen)
      && (!Latched(end.exporters[e]) <==> end.exporters[e].gateReads == s.exporters[e].gateReads)
  {
    var s1 := Step(s, Announce);
    var run := [Announce] + during + [SpawnFail];
    ClosedReads(s1, during, e);
    assert run[1..] == during + [SpawnFail];
    ExecConcat(s1, during, [SpawnFail]);
    assert [SpawnFail][1..] == [];
    assert Exec(Exec(s1, during), [SpawnFail]) == Step(Exec(s1, during), SpawnFail);
  }

  lemma AbdicatedAdvance(x: Exporter, gen: nat, a: Action)
    requires x.abdicated && (Periodic(x.pc) || x.pc == Gone) && !a.Quit?
    ensures
      var x' := Advance(x, gen, a);
      && x'.abdicated && (Periodic(x'.pc) || x'.pc == Gone)
      && x'.logPasses == x.logPasses && x'.spanPasses == x.spanPasses
  {
  }

  /** The latch is one-way: whatever the counter does afterwards, the periodic path never pops again. */
  lemma {:induction false} AbdicationIsForever(s: State, schedule: seq<Action>, e: nat)
    requires e < |s.exporters| && s.exporters[e].abdicated && (Periodic(s.exporters[e].pc) || s.exporters[e].pc == Gone)
    requires forall k | 0 <= k < |schedule| :: schedule[k] != Quit(e)
    ensures e < |Exec(s, schedule).exporters|
    ensures Exec(s, schedule).exporters[e].logPasses == s.exporters[e].logPasses
    ensures Exec(s, schedule).exporters[e].spanPasses == s.exporters[e].spanPasses
    decreases |schedule|
  {
    if schedule != [] {
      StepOn(s, schedule[0], e);
      if !schedule[0].Quit? { AbdicatedAdvance(s.exporters[e], s.gen, schedule[0]); }
      AbdicationIsForever(Step(s, schedule[0]), schedule[1..], e);
    }
  }
}

/** The shared control header and the master's reload sequence, as code. */
module ControlShm {
  import opened Bytes

  class Control {
    var successorGen: u64
    var crashCount: u64
    var windowStart: u64

    constructor ()
      ensures successorGen == crashCount == windowStart == 0
    {
      successorGen, crashCount, windowStart := 0, 0, 0;
    }

    /** A 64-bit fetch-add of one. */
    method AnnounceSuccessor()
      modifies this`successorGen
      ensures successorGen == (old(successorGen) + 1) % U64_SIZE
    {
      successorGen := (successorGen + 1) % U64_SIZE;
    }

    /** A 64-bit fetch-sub of one. */
    method RollbackSuccessor()
      modifies this`successorGen
      ensures successorGen == (old(successorGen) + U64_SIZE - 1) % U64_SIZE
    {
      successorGen := (successorGen + U64_SIZE - 1) % U64_SIZE;
    }

    /** On reload the zone keeps its generation and forgets its crashes. */
    method ReloadReset()
      modifies this`crashCount, this`windowStart
      ensures crashCount == windowStart == 0
    {
      crashCount, windowStart := 0, 0;
    }

    /**
     Announce, spawn, roll back on failure. `spawned` is what the fork will answer. The counter moves
     exactly when a reload forked a successor: announce and rollback undo each other even at the wrap.
     */
    method InitModule(isReload: bool, spawned: bool)
      modifies this`successorGen
      ensures successorGen == if isReload && spawned then (old(successorGen) + 1) % U64_SIZE else old(successorGen)
    {
      var announced := false;
      if isReload {
        AnnounceSuccessor();
        announced := true;
      }
      if !spawned && announced {
        RollbackSuccessor();
      }
    }
  }
}
