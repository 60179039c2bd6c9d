/** The worker's dead-exporter alert: raised on a ring-full drop, latched per exporter generation. */
module Liveness {
  import opened Bytes

  const HEARTBEAT_STALE_THRESHOLD_MS: u64 := 5_000
  const LATCH_UNSET: u64 := 0xFFFF_FFFF_FFFF_FFFF

  /** What one dropped push finds: the worker's clock, the exporter's last beat and the generation. */
  datatype Observation = Observation(now: u64, lastBeat: u64, gen: u64)

  /** Never beaten is startup grace; a beat ahead of the clock is skew. Neither is stale. */
  predicate Stale(o: Observation) {
    o.lastBeat != 0 && (if o.now < o.lastBeat then 0 else o.now - o.lastBeat) > HEARTBEAT_STALE_THRESHOLD_MS
  }

  predicate LatchShouldAlert(latched: u64, gen: u64, stale: bool) {
    stale && latched != gen
  }

  /** The latch after a history of drops. */
  function Latch(obs: seq<Observation>, n: nat): u64
    requires n <= |obs|
    decreases n, 0
  {
    if n == 0 then LATCH_UNSET
    else if Alerts(obs, n - 1) then obs[n - 1].gen
    else Latch(obs, n - 1)
  }

  predicate Alerts(obs: seq<Observation>, i: nat)
    requires i < |obs|
    decreases i, 1
  {
    LatchShouldAlert(Latch(obs, i), obs[i].gen, Stale(obs[i]))
  }

  // ── When an exporter counts as dead ─────────────────────────────────────────

  /** Stale means exactly: it has beaten, and its last beat is more than five seconds behind the clock. */
  lemma StaleIff(o: Observation)
    ensures Stale(o) <==> o.lastBeat > 0 && o.now > o.lastBeat + 5_000
  {
  }

  /** An exporter that has not beaten yet, or beats at least every five seconds, is never alerted, over every history of drops. */
  lemma {:induction false} AliveNeverAlerts(obs: seq<Observation>, n: nat)
    requires n <= |obs| && forall i | 0 <= i < |obs| :: obs[i].lastBeat == 0 || obs[i].now <= obs[i].lastBeat + 5_000
    ensures Latch(obs, n) == 0xFFFF_FFFF_FFFF_FFFF && forall i: nat | i < n :: !Alerts(obs, i)
  {
    if n > 0 { AliveNeverAlerts(obs, n - 1); }
  }

  /** A dead one of a generation a counter can reach is alerted at the first drop that finds it dead. */
  lemma FirstDeadAlerts(obs: seq<Observation>, n: nat)
    requires n < |obs| && obs[n].lastBeat > 0 && obs[n].now > obs[n].lastBeat + 5_000 && obs[n].gen < 0xFFFF_FFFF_FFFF_FFFF
    requires forall i | 0 <= i < n :: obs[i].lastBeat == 0 || obs[i].now <= obs[i].lastBeat + 5_000
    ensures Alerts(obs, n)
  {
    assert NoneStale(obs, 0, n);
    LatchUnset(obs, n);
  }

  // ── What the latch remembers ────────────────────────────────────────────────

  /** The stale drops from `i` up to `n` all saw the same generation. */
  ghost predicate SameFrom(obs: seq<Observation>, i: nat, n: nat)
    requires i <= n <= |obs|
  {
    forall j | i <= j < n && Stale(obs[j]) :: obs[j].gen == obs[i].gen
  }

  ghost predicate NoneStale(obs: seq<Observation>, i: nat, n: nat)
    requires i <= n <= |obs|
  {
    forall j | i <= j < n :: !Stale(obs[j])
  }

  lemma {:induction false} LatchUnset(obs: seq<Observation>, n: nat)
    requires n <= |obs| && NoneStale(obs, 0, n)
    ensures Latch(obs, n) == LATCH_UNSET
  {
    if n > 0 { LatchUnset(obs, n - 1); }
  }

  /** The latch is the generation of the latest stale drop. */
  lemma {:induction false} LatchIsLatest(obs: seq<Observation>, k: nat, n: nat)
    requires k < n <= |obs| && Stale(obs[k]) && NoneStale(obs, k + 1, n)
    ensures Latch(obs, n) == obs[k].gen
  {
    if k + 1 < n { LatchIsLatest(obs, k, n - 1); }
  }

  /**
   An alert is raised at a drop exactly when it finds a stale heartbeat and the latest stale drop
   before it saw another generation, or there was none and the generation is not the sentinel.
   */
  lemma AlertIff(obs: seq<Observation>, i: nat)
    requires i < |obs|
    ensures Alerts(obs, i) <==>
      && Stale(obs[i])
      && (NoneStale(obs, 0, i) ==> obs[i].gen != LATCH_UNSET)
      && forall k: nat | Latest(obs, k, i) :: obs[k].gen != obs[i].gen
  {
    if NoneStale(obs, 0, i) {
      LatchUnset(obs, i);
    } else {
      var k := LatestStale(obs, i);
      LatchIsLatest(obs, k, i);
      forall j: nat | Latest(obs, j, i) ensures j == k { OneLatest(obs, j, k, i); }
      assert Latest(obs, k, i);
    }
  }

  /** Drop `k` is the latest stale one before drop `i`. */
  ghost predicate Latest(obs: seq<Observation>, k: nat, i: nat)
    requires i <= |obs|
  {
    k < i && Stale(obs[k]) && NoneStale(obs, k + 1, i)
  }

  lemma OneLatest(obs: seq<Observation>, j: nat, k: nat, i: nat)
    requires i <= |obs| && Latest(obs, j, i) && Latest(obs, k, i)
    ensures j == k
  {
  }

  lemma {:induction false} LatestStale(obs: seq<Observation>, n: nat) returns (k: nat)
    requires n <= |obs| && !NoneStale(obs, 0, n)
    ensures k < n && Stale(obs[k]) && NoneStale(obs, k + 1, n)
  {
    if Stale(obs[n - 1]) { k := n - 1; } else { k := LatestStale(obs, n - 1); }
  }

  /** Every stale drop up to `i` saw the sentinel, which an unset latch takes for already alerted. */
  ghost predicate OnlySentinel(obs: seq<Observation>, i: nat)
    requires i < |obs|
  {
    forall j | 0 <= j <= i && Stale(obs[j]) :: obs[j].gen == LATCH_UNSET
  }

  /** A stale drop the latch can tell from an unset one. Every stale drop of a real generation is one. */
  ghost predicate Noticed(obs: seq<Observation>, i: nat)
    requires i < |obs|
  {
    Stale(obs[i]) && !OnlySentinel(obs, i)
  }

  /** Every noticed drop is covered: an alert for its generation came with it or before it, and no other since. */
  lemma {:induction false} AlertBehind(obs: seq<Observation>, i: nat) returns (a: nat)
    requires i < |obs| && Noticed(obs, i)
    ensures a <= i && Alerts(obs, a) && obs[a].gen == obs[i].gen && SameFrom(obs, a, i + 1)
    decreases i
  {
    if Alerts(obs, i) {
      a := i;
    } else {
      if NoneStale(obs, 0, i) { LatchUnset(obs, i); }
      var k := LatestStale(obs, i);
      LatchIsLatest(obs, k, i);
      a := AlertBehind(obs, k);
    }
  }

  lemma {:induction false} AlertIsNoticed(obs: seq<Observation>, i: nat)
    requires i < |obs| && Alerts(obs, i)
    ensures Noticed(obs, i)
  {
    if NoneStale(obs, 0, i) {
      LatchUnset(obs, i);
    } else {
      var k := LatestStale(obs, i);
      LatchIsLatest(obs, k, i);
    }
  }

  // ── Once per generation ─────────────────────────────────────────────────────

  ghost predicate OncePerGeneration(obs: seq<Observation>) {
    forall i: nat, j: nat | i < j < |obs| :: !AlertsTwice(obs, i, j)
  }

  ghost predicate AlertsTwice(obs: seq<Observation>, i: nat, j: nat)
    requires i < j < |obs|
  {
    Alerts(obs, i) && Alerts(obs, j) && obs[i].gen == obs[j].gen
  }

  /** No generation is seen stale, then another, then the first again, the sentinel at the very start aside. */
  ghost predicate NoRevisit(obs: seq<Observation>) {
    forall i: nat, j: nat, k: nat | i < j < k < |obs| :: !Revisits(obs, i, j, k)
  }

  ghost predicate Revisits(obs: seq<Observation>, i: nat, j: nat, k: nat)
    requires i < j < k < |obs|
  {
    && Noticed(obs, i) && Noticed(obs, j) && Noticed(obs, k)
    && obs[i].gen == obs[k].gen && obs[j].gen != obs[i].gen
  }

  lemma RevisitRepeats(obs: seq<Observation>, i: nat, j: nat, k: nat)
    requires i < j < k < |obs| && Revisits(obs, i, j, k)
    ensures !OncePerGeneration(obs)
  {
    var a := AlertBehind(obs, i);
    var b := AlertBehind(obs, k);
    assert b > j;
    assert AlertsTwice(obs, a, b);
  }

  lemma RepeatRevisits(obs: seq<Observation>, i: nat, j: nat)
    requires i < j < |obs| && Alerts(obs, i) && Alerts(obs, j) && obs[i].gen == obs[j].gen
    ensures !NoRevisit(obs)
  {
    var k := LatestStale(obs, j);
    LatchIsLatest(obs, k, j);
    AlertIsNoticed(obs, i);
    AlertIsNoticed(obs, j);
    assert i < k < j && obs[k].gen != obs[i].gen;
    assert Revisits(obs, i, k, j);
  }

  /** At most one alert per generation, over every history of drops, exactly when none is revisited. */
  lemma OnceIff(obs: seq<Observation>)
    ensures OncePerGeneration(obs) <==> NoRevisit(obs)
  {
    if !NoRevisit(obs) {
      var i: nat, j: nat, k: nat :| i < j < k < |obs| && Revisits(obs, i, j, k);
      RevisitRepeats(obs, i, j, k);
    }
    if !OncePerGeneration(obs) {
      var i: nat, j: nat :| i < j < |obs| && AlertsTwice(obs, i, j);
      RepeatRevisits(obs, i, j);
    }
  }

  /** Generations that only grow, as successful reloads make them, are never revisited. */
  lemma GrowingIsOnce(obs: seq<Observation>)
    requires forall i, j | 0 <= i < j < |obs| :: obs[i].gen <= obs[j].gen
    ensures OncePerGeneration(obs)
  {
    assert NoRevisit(obs);
    OnceIff(obs);
  }

  /** A failed fork takes its generation back; drops before, inside and after it alert three times for two generations. */
  lemma RollbackAlertsAgain(now: u64, beat: u64, gen: u64)
    requires beat != 0 && now > beat + HEARTBEAT_STALE_THRESHOLD_MS && gen < LATCH_UNSET - 1
    ensures
      var obs := [Observation(now, beat, gen), Observation(now, beat, gen + 1), Observation(now, beat, gen)];
      Alerts(obs, 0) && Alerts(obs, 1) && Alerts(obs, 2) && !OncePerGeneration(obs)
  {
    var obs := [Observation(now, beat, gen), Observation(now, beat, gen + 1), Observation(now, beat, gen)];
    assert Latch(obs, 1) == gen;
    assert Latch(obs, 2) == gen + 1;
    assert AlertsTwice(obs, 0, 2);
  }

  // ── The hook ────────────────────────────────────────────────────────────────

  class Worker {
    var latched: u64
    ghost var drops: seq<Observation>

    ghost predicate Valid()
      reads this
    {
      latched == Latch(drops, |drops|)
    }

    constructor ()
      ensures Valid() && drops == []
    {
      latched, drops := LATCH_UNSET, [];
    }

    /** Called on a dropped push; latches before it logs. */
    method CheckExporterLiveness(o: Observation) returns (alert: bool)
      requires Valid()
      modifies this
      ensures Valid() && drops == old(drops) + [o]
      ensures alert <==> Alerts(drops, |drops| - 1)
      ensures alert <==> o.lastBeat > 0 && o.now > o.lastBeat + 5_000 && old(latched) != o.gen
      ensures latched == if alert then o.gen else old(latched)
    {
      ghost var before := drops;
      drops := drops + [o];
      LatchPrefix(before, drops, |before|);
      var stale := Stale(o);
      if !stale {
        return false;
      }
      if !LatchShouldAlert(latched, o.gen, stale) {
        return false;
      }
      latched := o.gen;
      return true;
    }
  }

  lemma {:induction false} LatchPrefix(a: seq<Observation>, b: seq<Observation>, n: nat)
    requires a <= b && n <= |a|
    ensures Latch(a, n) == Latch(b, n)
  {
    if n > 0 { LatchPrefix(a, b, n - 1); }
  }
}
