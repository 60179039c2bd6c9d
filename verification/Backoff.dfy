/** The per-signal delivery policy: what a verdict does to the batch, and how long it defers the lane. */
module Backoff {
  import opened Bytes

  const BACKOFF_BASE_MS: u64 := 250
  const BACKOFF_CAP_MS: u64 := 30_000
  const U64_MAX: u64 := 0xFFFF_FFFF_FFFF_FFFF
  const U32_MAX: u32 := 0xFFFF_FFFF
  const HALF_RANGE: nat := 0x8000_0000_0000_0000  // 2^63

  function Min(a: int, b: int): int { if a <= b then a else b }

  // ── The shift ───────────────────────────────────────────────────────────────

  function BitLength(n: nat): nat {
    if n == 0 then 0 else 1 + BitLength(n / 2)
  }

  lemma {:induction false} BitLengthBounds(n: nat)
    requires n > 0
    ensures BitLength(n) >= 1 && Pow2(BitLength(n) - 1) <= n < Pow2(BitLength(n))
  {
    if n > 1 { BitLengthBounds(n / 2); }
  }

  function LeadingZeros(n: u64): int { 64 - BitLength(n) }

  /** `x << shift` in a 64-bit register. */
  function ShiftLeft(x: u64, shift: nat): u64 { x * Pow2(shift) % U64_SIZE }

  function BackoffMs(consecutive: u32, base: u64, cap: u64): u64 {
    if base == 0 then 0
    else
      var shift := if consecutive == 0 then 0 else consecutive - 1;
      if shift >= LeadingZeros(base) then cap else Min(ShiftLeft(base, shift), cap)
  }

  /** The backoff over unbounded integers: doubling from `base`, clipped at `cap`. */
  function IdealBackoff(consecutive: u32, base: u64, cap: u64): int {
    Min(base * Pow2(if consecutive == 0 then 0 else consecutive - 1), cap)
  }

  lemma {:induction false} Pow2Monotone(a: nat, b: nat)
    requires a <= b
    ensures Pow2(a) <= Pow2(b)
    decreases b - a
  {
    if a < b { Pow2Monotone(a, b - 1); }
  }

  /** Within the headroom the shift loses nothing; beyond it the true product is at least 2^63. */
  lemma ShiftWithinHeadroom(base: u64, shift: nat)
    requires base > 0
    ensures shift < LeadingZeros(base) ==> base * Pow2(shift) < U64_SIZE
    ensures shift >= LeadingZeros(base) ==> base * Pow2(shift) >= HALF_RANGE
  {
    var len := BitLength(base);
    BitLengthBounds(base);
    var k := U64IsPow2();
    if shift < LeadingZeros(base) {
      Pow2Add(len, shift);
      Pow2Monotone(len + shift, k);
      ScaledBelow(base, Pow2(len), Pow2(shift));
    } else {
      Pow2Add(len - 1, shift);
      Pow2Monotone(k - 1, len - 1 + shift);
      ScaledBelow(Pow2(len - 1), base + 1, Pow2(shift));
    }
  }

  lemma ScaledBelow(a: nat, b: nat, p: nat)
    requires a < b && p > 0
    ensures a * p < b * p && a * p <= (b - 1) * p
  {
  }

  lemma BackoffIsIdeal(consecutive: u32, base: u64, cap: u64)
    requires cap <= HALF_RANGE
    ensures BackoffMs(consecutive, base, cap) == IdealBackoff(consecutive, base, cap)
  {
    if base > 0 {
      var shift := if consecutive == 0 then 0 else consecutive - 1;
      ShiftWithinHeadroom(base, shift);
    }
  }

  /**
   The guarded shift is the unbounded doubling, for every base and every number of failures, exactly
   when the cap is at most 2^63. Above that the guard gives up one bit too early: base 1, failure 64.
   */
  lemma BackoffExactIff(cap: u64)
    ensures (forall n: u32, base: u64 :: BackoffMs(n, base, cap) == IdealBackoff(n, base, cap)) <==> cap <= HALF_RANGE
  {
    if cap <= HALF_RANGE {
      forall n: u32, base: u64 ensures BackoffMs(n, base, cap) == IdealBackoff(n, base, cap) {
        BackoffIsIdeal(n, base, cap);
      }
    } else {
      var k := U64IsPow2();
      assert BitLength(1) == 1;
      assert BackoffMs(k, 1, cap) == cap;
      assert IdealBackoff(k, 1, cap) == HALF_RANGE;
    }
  }

  // ── The policy ──────────────────────────────────────────────────────────────

  datatype Outcome =
    | Accepted
    | PartialReject(rejected: u64)
    | Retryable(retryAfterMs: Option<nat>)
    | Permanent
    | Unauthorized

  datatype Disposition = Release | Requeue | Drop

  datatype SignalBackoff = SignalBackoff(notBefore: u64, consecutive: u32)

  const IDLE: SignalBackoff := SignalBackoff(0, 0)

  predicate IsDeferred(b: SignalBackoff, now: u64) {
    b.notBefore != 0 && now < b.notBefore
  }

  function SaturatingAdd(a: u64, b: u64): u64 { Min(a + b, U64_MAX) }

  function SaturatingIncrement(n: u32): u32 { if n == U32_MAX then n else n + 1 }

  /** A hint is honoured verbatim, at least one millisecond; without one the doubling applies. */
  function DeferMs(consecutive: u32, hint: Option<nat>): u64 {
    match hint
    case Some(ms) => if ms == 0 then 1 else Min(ms, U64_MAX)
    case None => BackoffMs(consecutive, BACKOFF_BASE_MS, BACKOFF_CAP_MS)
  }

  function AfterOutcome(b: SignalBackoff, outcome: Outcome, now: u64): SignalBackoff {
    match outcome
    case Accepted => SignalBackoff(0, 0)
    case PartialReject(_) => SignalBackoff(0, 0)
    case Retryable(hint) =>
      var n := SaturatingIncrement(b.consecutive);
      var at := SaturatingAdd(now, DeferMs(n, hint));
      SignalBackoff(if at == 0 then 1 else at, n)
    case Permanent => b
    case Unauthorized => b
  }

  function DispositionOf(outcome: Outcome): Disposition {
    match outcome
    case Accepted => Release
    case PartialReject(_) => Release
    case Retryable(_) => Requeue
    case Permanent => Drop
    case Unauthorized => Drop
  }

  /** The deferral a doubling verdict asks for is the clipped doubling, and never zero. */
  lemma DoublingDeferral(n: u32)
    requires n >= 1
    ensures DeferMs(n, None) == Min(250 * Pow2(n - 1), 30_000) >= 250
  {
    BackoffIsIdeal(n, BACKOFF_BASE_MS, BACKOFF_CAP_MS);
  }

  /** What the `n`-th retryable verdict in a row asks for: its hint to the millisecond, at least one, or the clipped doubling. */
  function AskedMs(n: nat, hint: Option<nat>): nat
    requires n >= 1
  {
    match hint
    case Some(ms) => if ms == 0 then 1 else ms
    case None => Min(250 * Pow2(n - 1), 30_000)
  }

  lemma DeferIsAsked(n: u32, hint: Option<nat>)
    requires n >= 1
    ensures DeferMs(n, hint) == Min(AskedMs(n, hint), U64_MAX)
  {
    if hint.None? { DoublingDeferral(n); }
  }

  /** After a retryable verdict the lane is deferred until exactly the hinted or doubled time, clipped to 64 bits. */
  lemma DeferredUntil(b: SignalBackoff, hint: Option<nat>, now: u64, t: u64)
    ensures
      var b' := AfterOutcome(b, Retryable(hint), now);
      && b'.consecutive == Min(b.consecutive + 1, U32_MAX)
      && (IsDeferred(b', t) <==> t < Min(now + AskedMs(b'.consecutive, hint), U64_MAX))
  {
    DeferIsAsked(AfterOutcome(b, Retryable(hint), now).consecutive, hint);
  }

  /** A verdict that took the batch. */
  predicate Delivered(o: Outcome) { o.Accepted? || o.PartialReject? }

  /** A verdict that refused it for good. */
  predicate Refused(o: Outcome) { o.Permanent? || o.Unauthorized? }

  /** The policy by the verdict alone: what takes the batch clears the deferral, what refuses it leaves it, the rest defers. */
  lemma PolicyOf(b: SignalBackoff, o: Outcome, now: u64, t: u64)
    ensures Delivered(o) ==> DispositionOf(o) == Release && AfterOutcome(b, o, now) == SignalBackoff(0, 0)
    ensures Refused(o) ==> DispositionOf(o) == Drop && AfterOutcome(b, o, now) == b
    ensures o.Retryable? ==> DispositionOf(o) == Requeue && AfterOutcome(b, o, now).consecutive == Min(b.consecutive + 1, U32_MAX)
    ensures o.Retryable? ==>
      (IsDeferred(AfterOutcome(b, o, now), t) <==> t < Min(now + AskedMs(Min(b.consecutive + 1, U32_MAX), o.retryAfterMs), U64_MAX))
  {
    if o.Retryable? { DeferredUntil(b, o.retryAfterMs, now, t); }
  }

  datatype Event = Event(outcome: Outcome, now: u64)

  function RunEvents(b: SignalBackoff, events: seq<Event>): SignalBackoff
    decreases |events|
  {
    if events == [] then b
    else AfterOutcome(RunEvents(b, events[..|events| - 1]), events[|events| - 1].outcome, events[|events| - 1].now)
  }

  /** Retryable verdicts since the last release. */
  function Streak(events: seq<Event>): nat
    decreases |events|
  {
    if events == [] then 0
    else
      var o := events[|events| - 1].outcome;
      if Delivered(o) then 0
      else Streak(events[..|events| - 1]) + (if o.Retryable? then 1 else 0)
  }

  /** In every run of verdicts the counter is the saturating number of retryables since the last release. */
  lemma {:induction false} CounterIsStreak(events: seq<Event>)
    ensures RunEvents(IDLE, events).consecutive == Min(Streak(events), U32_MAX)
    decreases |events|
  {
    if events != [] { CounterIsStreak(events[..|events| - 1]); }
  }

  predicate NoRelease(events: seq<Event>) {
    forall k | 0 <= k < |events| :: !Delivered(events[k].outcome)
  }

  lemma {:induction false} StreakGrows(events: seq<Event>, more: seq<Event>)
    requires NoRelease(more)
    ensures Streak(events + more) >= Streak(events)
    decreases |more|
  {
    if more == [] {
      assert events + more == events;
    } else {
      assert (events + more)[..|events + more| - 1] == events + more[..|more| - 1];
      StreakGrows(events, more[..|more| - 1]);
    }
  }

  lemma DeferralMonotone(m: u32, n: u32)
    requires 1 <= m <= n
    ensures DeferMs(m, None) <= DeferMs(n, None) <= BACKOFF_CAP_MS
  {
    DoublingDeferral(m);
    DoublingDeferral(n);
    Pow2Monotone(m - 1, n - 1);
  }

  /**
   In every run, between two releases the unhinted deferral never shrinks, and it never exceeds the
   cap: if a retryable verdict comes after `events` and another after `more` further verdicts none
   of which releases, the second defers at least as long.
   */
  lemma DeferralNeverShrinks(events: seq<Event>, more: seq<Event>)
    requires NoRelease(more)
    ensures
      var first := SaturatingIncrement(RunEvents(IDLE, events).consecutive);
      var second := SaturatingIncrement(RunEvents(IDLE, events + more).consecutive);
      DeferMs(first, None) <= DeferMs(second, None) <= BACKOFF_CAP_MS
  {
    CounterIsStreak(events);
    CounterIsStreak(events + more);
    StreakGrows(events, more);
    DeferralMonotone(SaturatingIncrement(RunEvents(IDLE, events).consecutive),
                     SaturatingIncrement(RunEvents(IDLE, events + more).consecutive));
  }

  /** The latest retryable verdict since the last release. */
  function LatestRetryable(events: seq<Event>): (k: nat)
    requires Streak(events) > 0
    ensures k < |events| && events[k].outcome.Retryable?
    decreases |events|
  {
    if events[|events| - 1].outcome.Retryable? then |events| - 1 else LatestRetryable(events[..|events| - 1])
  }

  /** The time the latest retryable verdict of a run asks for. */
  function AskedFor(events: seq<Event>): int
    requires Streak(events) > 0
  {
    var e := events[LatestRetryable(events)];
    Min(e.now + AskedMs(Min(Streak(events), U32_MAX), e.outcome.retryAfterMs), U64_MAX)
  }

  /**
   In every run of verdicts the lane is deferred at `t` exactly when there has been a retryable verdict
   since the last release and `t` is before the time the latest of them asked for.
   */
  lemma {:induction false} DeferralInForce(events: seq<Event>, t: u64)
    ensures IsDeferred(RunEvents(IDLE, events), t) <==> Streak(events) > 0 && t < AskedFor(events)
    decreases |events|
  {
    if events != [] {
      var before, e := events[..|events| - 1], events[|events| - 1];
      match e.outcome
      case Retryable(hint) =>
        CounterIsStreak(events);
        DeferredUntil(RunEvents(IDLE, before), hint, e.now, t);
      case Permanent => DeferralInForce(before, t);
      case Unauthorized => DeferralInForce(before, t);
      case Accepted =>
      case PartialReject(_) =>
    }
  }
}
