/**
 The ring with any number of consumers, as a hand-off between exporters can leave it for a moment. The read
 offset is loaded and stored without a compare-and-swap, so a pop can commit from an offset that another one
 has already moved. The queue is kept exactly as long as none does, while no pop finds the read offset ahead
 of the write offset it loaded before; one that does sees almost 2^64 bytes available.
 */
module RingConsumers {
  import opened Bytes
  import opened RingBytes
  import opened RingSteps

  /** The ring with its producer, and the private state of each consumer. */
  datatype Shared = Shared(ring: State, pops: seq<Consumer>)

  datatype Turn = Push(a: Action) | Pop(i: nat, a: Action)

  function Start(buf: seq<byte>, consumers: nat): Shared {
    Shared(Initial(buf), seq(consumers, _ => CIdle))
  }

  /** The ring as consumer `c` acts on it. */
  function With(ring: State, c: Consumer): State { ring.(consumer := c) }

  function TakeTurn(s: Shared, t: Turn): (s': Shared)
    requires |s.ring.buf| > 0
    ensures |s'.ring.buf| == |s.ring.buf|
  {
    match t
    case Push(a) => s.(ring := ProducerStep(s.ring, a))
    case Pop(i, a) =>
      if i < |s.pops| then
        var after := ConsumerStep(With(s.ring, s.pops[i]), a);
        Shared(With(after, CIdle), s.pops[i := after.consumer])
      else s
  }

  function Turns(s: Shared, schedule: seq<Turn>): (s': Shared)
    requires |s.ring.buf| > 0
    ensures |s'.ring.buf| == |s.ring.buf|
    decreases |schedule|
  {
    if schedule == [] then s else Turns(TakeTurn(s, schedule[0]), schedule[1..])
  }

  // ── The queue, and what can break it ────────────────────────────────────────

  /** Offsets within one lap, committed pops a prefix of published pushes, the rest between the offsets. */
  ghost predicate Fifo(s: State) {
    && 0 < |s.buf|
    && s.r <= s.w <= s.r + |s.buf|
    && s.committed <= s.accepted
    && Window(s.buf, s.r, s.w - s.r) == Wire(s.accepted[|s.committed|..])
  }

  ghost predicate FifoThroughout(s: Shared, schedule: seq<Turn>)
    requires |s.ring.buf| > 0
    decreases |schedule|
  {
    Fifo(s.ring) && (schedule == [] || FifoThroughout(TakeTurn(s, schedule[0]), schedule[1..]))
  }

  /** The turn is a commit, of a pop that has read its record in full. */
  predicate Commits(s: Shared, t: Turn) {
    t.Pop? && t.a.Commit? && t.i < |s.pops| && s.pops[t.i].CReadingBody? && Complete(s.pops[t.i].got, s.pops[t.i].len)
  }

  /** A commit from a read offset that is no longer the ring's: the test a compare-and-swap would make. */
  predicate Stale(s: Shared, t: Turn) {
    Commits(s, t) && s.pops[t.i].r1 != s.ring.r
  }

  /** The pop's read offset was ahead of the write offset it had loaded. */
  predicate Ahead(c: Consumer) {
    !c.CIdle? && !c.CHaveWrite? && c.r1 > c.w1
  }

  ghost predicate TakesNext(ring: State, c: Consumer) {
    && c.CReadingBody? && Complete(c.got, c.len)
    && |ring.committed| < |ring.accepted|
    && Gathered(c.got, c.len) == ring.accepted[|ring.committed|]
  }

  /** A commit of a pop that loaded ahead, of something that is not the next record. */
  ghost predicate Astray(s: Shared, t: Turn) {
    Commits(s, t) && Ahead(s.pops[t.i]) && !TakesNext(s.ring, s.pops[t.i])
  }

  predicate NoStaleCommit(s: Shared, schedule: seq<Turn>)
    requires |s.ring.buf| > 0
    decreases |schedule|
  {
    schedule == [] || (!Stale(s, schedule[0]) && NoStaleCommit(TakeTurn(s, schedule[0]), schedule[1..]))
  }

  ghost predicate NoStrayCommit(s: Shared, schedule: seq<Turn>)
    requires |s.ring.buf| > 0
    decreases |schedule|
  {
    schedule == [] || (!Astray(s, schedule[0]) && NoStrayCommit(TakeTurn(s, schedule[0]), schedule[1..]))
  }

  /** At no point of the run does a pop stand on a read offset ahead of its write offset. */
  ghost predicate NeverAhead(s: Shared, schedule: seq<Turn>)
    requires |s.ring.buf| > 0
    decreases |schedule|
  {
    && (forall c | c in s.pops :: !Ahead(c))
    && (schedule == [] || NeverAhead(TakeTurn(s, schedule[0]), schedule[1..]))
  }

  // ── The invariant ───────────────────────────────────────────────────────────

  /** The loaded write offset is the end of the `seen`-th record ever accepted. */
  ghost predicate Marked(s: State, w1: nat, seen: nat) {
    seen <= |s.accepted| && w1 + |Wire(s.accepted[seen..])| == s.w
  }

  /** A pop that is neither stale nor ahead is as a single consumer's would be. */
  ghost predicate PopOk(ring: State, c: Consumer) {
    match c
    case CIdle => true
    case CHaveWrite(w1, seen) => Marked(ring, w1, seen)
    case _ => c.r1 <= ring.r && (c.r1 == ring.r && c.r1 <= c.w1 ==> ConsumerOk(With(ring, c)))
  }

  ghost predicate Sound(s: Shared) {
    && Inv(s.ring) && s.ring.consumer == CIdle
    && (forall c | c in s.pops :: PopOk(s.ring, c))
  }

  lemma SoundIsFifo(s: Shared)
    requires Sound(s)
    ensures Fifo(s.ring)
  {
  }

  lemma PublishMarks(s: State, s': State, rec: Record, w1: nat, seen: nat)
    requires Marked(s, w1, seen)
    requires s'.accepted == s.accepted + [rec] && s'.w == s.w + 4 + |rec|
    ensures Marked(s', w1, seen)
  {
    WireAppend(s.accepted[seen..], rec);
    assert s'.accepted[seen..] == s.accepted[seen..] + [rec];
  }

  /** What a step of the producer leaves alone. */
  lemma ProducerFrame(s: State, a: Action)
    requires Inv(s)
    ensures
      var s' := ProducerStep(s, a);
      && s'.r == s.r && s'.committed == s.committed && s'.consumer == s.consumer
      && ((s'.accepted == s.accepted && s'.w == s.w) ||
          (exists rec :: s'.accepted == s.accepted + [rec] && s'.w == s.w + 4 + |rec|))
  {
    if a.Publish? && s.producer.PCopying? && AllDone(s.producer.done, 4 + |s.producer.rec|) {
      assert ProducerStep(s, a).accepted == s.accepted + [s.producer.rec];
    }
  }

  lemma PushKeepsPop(s: State, a: Action, c: Consumer)
    requires Inv(s) && PopOk(s, c)
    ensures PopOk(ProducerStep(s, a), c)
  {
    var s' := ProducerStep(s, a);
    ProducerFrame(s, a);
    if c.CHaveWrite? {
      if s'.accepted != s.accepted {
        var rec :| s'.accepted == s.accepted + [rec] && s'.w == s.w + 4 + |rec|;
        PublishMarks(s, s', rec, c.w1, c.seen);
      }
    } else if !c.CIdle? && c.r1 == s.r && c.r1 <= c.w1 {
      AcceptedGrows(With(s, c), With(s', c));
    }
  }

  lemma PushKeepsSound(s: Shared, a: Action)
    requires Sound(s)
    ensures Sound(TakeTurn(s, Push(a)))
  {
    ProducerKeepsInv(s.ring, a);
    ProducerFrame(s.ring, a);
    forall c | c in s.pops ensures PopOk(ProducerStep(s.ring, a), c) {
      PushKeepsPop(s.ring, a, c);
    }
  }

  /** Later marks lie further on. */
  lemma MarkIsBoundary(s: State, w1: nat, seen: nat)
    requires SharedOk(s) && Marked(s, w1, seen) && s.r <= w1
    ensures AtBoundary(s, w1, seen)
  {
    var c := |s.committed|;
    if seen < c {
      WireConcat(s.accepted[seen..c], s.accepted[c..]);
      assert s.accepted[seen..c] + s.accepted[c..] == s.accepted[seen..];
      WireLength(s.accepted[seen..c]);
      assert false;
    } else {
      WireConcat(s.accepted[c..seen], s.accepted[seen..]);
      assert s.accepted[c..seen] + s.accepted[seen..] == s.accepted[c..];
    }
  }

  lemma LoadKeepsPop(s: State, c: Consumer, a: Action)
    requires Inv(s) && PopOk(s, c) && (c.CIdle? || c.CHaveWrite?)
    ensures PopOk(s, ConsumerStep(With(s, c), a).consumer)
  {
    if c.CIdle? && a.PopLoadWrite? {
      assert s.accepted[|s.accepted|..] == [];
    } else if c.CHaveWrite? && a.PopLoadRead? && s.r <= c.w1 {
      MarkIsBoundary(s, c.w1, c.seen);
    }
  }

  lemma ReadKeepsPop(s: State, c: Consumer, a: Action)
    requires Inv(s) && PopOk(s, c) && !c.CIdle? && !c.CHaveWrite?
    requires !(a.Commit? && c.CReadingBody? && Complete(c.got, c.len))
    ensures PopOk(s, ConsumerStep(With(s, c), a).consumer)
  {
    var c' := ConsumerStep(With(s, c), a).consumer;
    assert c'.CIdle? || (!c'.CHaveWrite? && c'.r1 == c.r1 && c'.w1 == c.w1);
    if c.r1 == s.r && c.r1 <= c.w1 {
      ConsumerKeepsInv(With(s, c), a);
      ReadLeavesRing(s, c, a);
    }
  }

  /** Everything but a commit changes the pop alone. */
  lemma ReadLeavesRing(s: State, c: Consumer, a: Action)
    requires |s.buf| > 0
    requires !(a.Commit? && c.CReadingBody? && Complete(c.got, c.len))
    ensures
      var s' := ConsumerStep(With(s, c), a);
      s' == With(s, s'.consumer)
  {
  }

  lemma ReadKeepsSound(s: Shared, i: nat, a: Action)
    requires Sound(s) && i < |s.pops| && !Commits(s, Pop(i, a))
    ensures Sound(TakeTurn(s, Pop(i, a)))
  {
    var c := s.pops[i];
    var s' := TakeTurn(s, Pop(i, a));
    ReadLeavesRing(s.ring, c, a);
    assert s'.ring == s.ring;
    if c.CIdle? || c.CHaveWrite? { LoadKeepsPop(s.ring, c, a); } else { ReadKeepsPop(s.ring, c, a); }
    forall d | d in s'.pops ensures PopOk(s'.ring, d) {
      assert d in s.pops || d == s'.pops[i];
    }
  }

  // ── Commits ─────────────────────────────────────────────────────────────────

  /** The ring after `c` commits. */
  function Committed(s: State, c: Consumer): State
    requires c.CReadingBody? && Complete(c.got, c.len)
  {
    s.(r := c.r1 + 4 + c.len, committed := s.committed + [Gathered(c.got, c.len)])
  }

  /** A commit from the ring's own read offset, of the next record, takes that record off the queue. */
  lemma TakingNextKeepsInv(s: State, c: Consumer)
    requires Inv(s) && s.consumer == CIdle && TakesNext(s, c) && c.r1 == s.r
    ensures Inv(Committed(s, c))
  {
    PendingHead(s);
    assert Committed(s, c).committed == s.accepted[..|s.committed| + 1];
  }

  lemma WireHead(recs: seq<Record>, n: nat)
    requires n < |recs|
    ensures |Wire(recs[n..])| == 4 + |recs[n]| + |Wire(recs[n + 1..])|
  {
    assert recs[n..][1..] == recs[n + 1..];
  }

  /** Any other commit breaks it: either the record is wrong or the offset does not move by its length. */
  lemma OtherCommitBreaks(s: State, c: Consumer)
    requires Inv(s) && c.CReadingBody? && Complete(c.got, c.len)
    requires !(TakesNext(s, c) && c.r1 == s.r)
    ensures !Fifo(Committed(s, c))
  {
    var n := |s.committed|;
    assert Committed(s, c).committed[n] == Gathered(c.got, c.len);
    if TakesNext(s, c) { WireHead(s.accepted, n); }
  }

  /** A pop that is neither stale nor ahead has the next record in hand. */
  lemma TruePopTakesNext(s: State, c: Consumer)
    requires Inv(s) && PopOk(s, c) && c.CReadingBody? && Complete(c.got, c.len)
    requires c.r1 == s.r && c.r1 <= c.w1
    ensures TakesNext(s, c)
  {
    CompleteMatch(c.got, s.accepted[|s.committed|]);
  }

  lemma CommitTurn(s: Shared, t: Turn)
    requires |s.ring.buf| > 0 && Commits(s, t) && s.ring.consumer == CIdle
    ensures TakeTurn(s, t) == Shared(Committed(s.ring, s.pops[t.i]), s.pops[t.i := CIdle])
  {
  }

  /** After a commit every other pop on the same offset is stale. */
  lemma CommitKeepsSound(s: Shared, t: Turn)
    requires Sound(s) && Commits(s, t) && !Stale(s, t) && TakesNext(s.ring, s.pops[t.i])
    ensures Sound(TakeTurn(s, t))
  {
    var c, s' := s.pops[t.i], TakeTurn(s, t);
    CommitTurn(s, t);
    TakingNextKeepsInv(s.ring, c);
    forall d | d in s'.pops ensures PopOk(s'.ring, d) {
      assert d in s.pops || d == CIdle;
    }
  }

  /** A turn keeps the queue sound unless it is a stale or stray commit; then the queue is broken. */
  lemma TurnDecides(s: Shared, t: Turn)
    requires Sound(s)
    ensures !Stale(s, t) && !Astray(s, t) ==> Sound(TakeTurn(s, t))
    ensures Stale(s, t) || Astray(s, t) ==> !Fifo(TakeTurn(s, t).ring)
  {
    if t.Push? {
      PushKeepsSound(s, t.a);
    } else if Commits(s, t) {
      var c := s.pops[t.i];
      CommitTurn(s, t);
      if Stale(s, t) || Astray(s, t) {
        OtherCommitBreaks(s.ring, c);
      } else {
        if !Ahead(c) { TruePopTakesNext(s.ring, c); }
        CommitKeepsSound(s, t);
      }
    } else if t.i < |s.pops| {
      ReadKeepsSound(s, t.i, t.a);
    }
  }

  // ── Exactly when the queue is kept ──────────────────────────────────────────

  lemma {:induction false} KeptIff(s: Shared, schedule: seq<Turn>)
    requires Sound(s)
    ensures FifoThroughout(s, schedule) <==> NoStaleCommit(s, schedule) && NoStrayCommit(s, schedule)
    decreases |schedule|
  {
    SoundIsFifo(s);
    if schedule != [] {
      TurnDecides(s, schedule[0]);
      if !Stale(s, schedule[0]) && !Astray(s, schedule[0]) {
        KeptIff(TakeTurn(s, schedule[0]), schedule[1..]);
      }
    }
  }

  lemma StartIsSound(buf: seq<byte>, consumers: nat)
    requires 0 < |buf| < U32_SIZE
    ensures Sound(Start(buf, consumers))
  {
  }

  /**
   For every schedule of a producer and any number of consumers, the ring is a queue at every point of the run
   if and only if no commit is stale and none of a pop that loaded ahead takes anything but the next record.
   */
  lemma QueueKeptIff(buf: seq<byte>, consumers: nat, schedule: seq<Turn>)
    requires 0 < |buf| < U32_SIZE
    ensures
      var s := Start(buf, consumers);
      FifoThroughout(s, schedule) <==> NoStaleCommit(s, schedule) && NoStrayCommit(s, schedule)
  {
    StartIsSound(buf, consumers);
    KeptIff(Start(buf, consumers), schedule);
  }

  lemma {:induction false} NeverAheadNeverAstray(s: Shared, schedule: seq<Turn>)
    requires |s.ring.buf| > 0 && NeverAhead(s, schedule)
    ensures NoStrayCommit(s, schedule)
    decreases |schedule|
  {
    if schedule != [] {
      NeverAheadNeverAstray(TakeTurn(s, schedule[0]), schedule[1..]);
    }
  }

  /** While no pop loads ahead, that is exactly the absence of stale commits. */
  lemma NoStaleCommitIff(buf: seq<byte>, consumers: nat, schedule: seq<Turn>)
    requires 0 < |buf| < U32_SIZE && NeverAhead(Start(buf, consumers), schedule)
    ensures FifoThroughout(Start(buf, consumers), schedule) <==> NoStaleCommit(Start(buf, consumers), schedule)
  {
    QueueKeptIff(buf, consumers, schedule);
    NeverAheadNeverAstray(Start(buf, consumers), schedule);
  }

  // ── Pops that do not overlap ────────────────────────────────────────────────

  ghost predicate OneAtATime(s: Shared) {
    forall i, j | 0 <= i < j < |s.pops| :: s.pops[i].CIdle? || s.pops[j].CIdle?
  }

  /** At no point of the run are two consumers inside a pop. */
  ghost predicate Disjoint(s: Shared, schedule: seq<Turn>)
    requires |s.ring.buf| > 0
    decreases |schedule|
  {
    OneAtATime(s) && (schedule == [] || Disjoint(TakeTurn(s, schedule[0]), schedule[1..]))
  }

  /** Every pop is as a single consumer's would be. */
  ghost predicate AllTrue(s: Shared) {
    Inv(s.ring) && s.ring.consumer == CIdle && forall c | c in s.pops :: ConsumerOk(With(s.ring, c))
  }

  lemma TrueIsSound(s: Shared)
    requires AllTrue(s)
    ensures Sound(s)
  {
    forall c | c in s.pops ensures PopOk(s.ring, c) {
      if c.CHaveWrite? {
        var n := |s.ring.committed|;
        WireConcat(s.ring.accepted[n..c.seen], s.ring.accepted[c.seen..]);
        assert s.ring.accepted[n..c.seen] + s.ring.accepted[c.seen..] == s.ring.accepted[n..];
      }
    }
  }

  lemma PushKeepsTrue(s: Shared, a: Action)
    requires AllTrue(s)
    ensures AllTrue(TakeTurn(s, Push(a)))
  {
    var s' := TakeTurn(s, Push(a));
    ProducerKeepsInv(s.ring, a);
    ProducerFrame(s.ring, a);
    forall c | c in s.pops ensures ConsumerOk(With(s'.ring, c)) {
      AcceptedGrows(With(s.ring, c), With(s'.ring, c));
    }
  }

  /** A turn of the only consumer inside a pop is a step of a single consumer. */
  lemma PopKeepsTrue(s: Shared, i: nat, a: Action)
    requires AllTrue(s) && OneAtATime(s) && i < |s.pops| && OneAtATime(TakeTurn(s, Pop(i, a)))
    ensures AllTrue(TakeTurn(s, Pop(i, a)))
  {
    var c, s' := s.pops[i], TakeTurn(s, Pop(i, a));
    ConsumerKeepsInv(With(s.ring, c), a);
    if !Commits(s, Pop(i, a)) { ReadLeavesRing(s.ring, c, a); }
    forall k | 0 <= k < |s'.pops| && k != i ensures ConsumerOk(With(s'.ring, s'.pops[k])) {
      if !s.pops[k].CIdle? { assert s.pops[k] in s.pops && c.CIdle?; }
    }
  }

  lemma DisjointTurn(s: Shared, t: Turn)
    requires AllTrue(s) && OneAtATime(s) && OneAtATime(TakeTurn(s, t))
    ensures AllTrue(TakeTurn(s, t)) && !Stale(s, t) && !Astray(s, t)
  {
    if t.Push? {
      PushKeepsTrue(s, t.a);
    } else if t.i < |s.pops| {
      PopKeepsTrue(s, t.i, t.a);
      if Commits(s, t) {
        var c := s.pops[t.i];
        assert c in s.pops && ConsumerOk(With(s.ring, c));
      }
    }
  }

  lemma {:induction false} DisjointKeeps(s: Shared, schedule: seq<Turn>)
    requires AllTrue(s) && Disjoint(s, schedule)
    ensures FifoThroughout(s, schedule) && NoStaleCommit(s, schedule) && AllTrue(Turns(s, schedule))
    decreases |schedule|
  {
    TrueIsSound(s);
    if schedule != [] {
      DisjointTurn(s, schedule[0]);
      DisjointKeeps(TakeTurn(s, schedule[0]), schedule[1..]);
    }
  }

  /** Pops that do not overlap, whichever consumer makes them, keep the queue at every point of the run. */
  lemma DisjointPopsAreFifo(buf: seq<byte>, consumers: nat, schedule: seq<Turn>)
    requires 0 < |buf| < U32_SIZE && Disjoint(Start(buf, consumers), schedule)
    ensures FifoThroughout(Start(buf, consumers), schedule) && Fifo(Turns(Start(buf, consumers), schedule).ring)
  {
    DisjointKeeps(Start(buf, consumers), schedule);
  }

  // ── Runs ────────────────────────────────────────────────────────────────────

  /** The run leads from `s` to `t` and commits nothing from a stale offset. */
  ghost predicate Leads(s: Shared, run: seq<Turn>, t: Shared) {
    |s.ring.buf| > 0 && Turns(s, run) == t && NoStaleCommit(s, run)
  }

  lemma {:induction false} LeadsOn(s: Shared, run: seq<Turn>, t: Shared, run': seq<Turn>, t': Shared)
    requires Leads(s, run, t) && |t.ring.buf| > 0 && Turns(t, run') == t'
    ensures Turns(s, run + run') == t'
    ensures NoStaleCommit(t, run') ==> Leads(s, run + run', t')
    decreases |run|
  {
    if run == [] {
      assert run + run' == run';
    } else {
      assert (run + run')[1..] == run[1..] + run';
      LeadsOn(TakeTurn(s, run[0]), run[1..], t, run', t');
    }
  }

  lemma OneTurn(s: Shared, turn: Turn)
    requires |s.ring.buf| > 0
    ensures Turns(s, [turn]) == TakeTurn(s, turn)
    ensures !Stale(s, turn) ==> Leads(s, [turn], TakeTurn(s, turn))
  {
    assert [turn][1..] == [];
    assert Turns(TakeTurn(s, turn), [turn][1..]) == TakeTurn(s, turn);
  }

  /** One more turn at the end of a run. */
  lemma Go(s: Shared, run: seq<Turn>, t: Shared, turn: Turn) returns (longer: seq<Turn>)
    requires Leads(s, run, t) && !Stale(t, turn)
    ensures |t.ring.buf| > 0 && Leads(s, longer, TakeTurn(t, turn)) && longer == run + [turn]
  {
    longer := run + [turn];
    OneTurn(t, turn);
    LeadsOn(s, run, t, [turn], TakeTurn(t, turn));
  }

  ghost predicate Pushes(run: seq<Turn>) { forall k | 0 <= k < |run| :: run[k].Push? }

  lemma {:induction false} PushesKeepSound(s: Shared, run: seq<Turn>)
    requires Sound(s) && Pushes(run)
    ensures Sound(Turns(s, run))
    decreases |run|
  {
    if run != [] {
      PushKeepsSound(s, run[0].a);
      PushesKeepSound(TakeTurn(s, run[0]), run[1..]);
    }
  }

  /** A producer at rest with room for the record decides to copy it. */
  lemma BeginPush(s: Shared, rec: Record) returns (run: seq<Turn>, t: Shared)
    requires 0 < |s.ring.buf| < U32_SIZE && s.ring.producer == PIdle
    requires s.ring.r <= s.ring.w && s.ring.w - s.ring.r + 4 + |rec| <= |s.ring.buf|
    ensures Leads(s, run, t) && Pushes(run)
    ensures t == s.(ring := s.ring.(producer := PCopying(rec, s.ring.w, {}), attempts := s.ring.attempts + 1))
  {
    run := Go(s, [], s, Push(LoadWrite(rec)));
    t := TakeTurn(s, Push(LoadWrite(rec)));
    run := Go(s, run, t, Push(LoadRead));
    t := TakeTurn(t, Push(LoadRead));
    run := Go(s, run, t, Push(Decide));
    t := TakeTurn(t, Push(Decide));
  }

  /** `t` is `s` with bytes of `rec` laid down. */
  predicate Midway(s: Shared, t: Shared, rec: Record, done: set<nat>) {
    && t.pops == s.pops && |t.ring.buf| > 0
    && t.ring == s.ring.(buf := t.ring.buf, producer := PCopying(rec, s.ring.w, done), attempts := t.ring.attempts)
  }

  lemma CopyOne(s: Shared, run: seq<Turn>, t: Shared, rec: Record, done: set<nat>, k: nat)
      returns (longer: seq<Turn>, t': Shared)
    requires Leads(s, run, t) && Pushes(run) && Midway(s, t, rec, done)
    requires k < 4 + |rec| && forall j: nat | j < k :: j in done
    ensures Leads(s, longer, t') && Pushes(longer) && Midway(s, t', rec, done + {k})
  {
    longer := Go(s, run, t, Push(CopyByte(k)));
    t' := TakeTurn(t, Push(CopyByte(k)));
  }

  lemma CopyAll(s: Shared, start: seq<Turn>, copying: Shared, rec: Record) returns (run: seq<Turn>, t: Shared, done: set<nat>)
    requires Leads(s, start, copying) && Pushes(start) && Midway(s, copying, rec, {})
    ensures Leads(s, run, t) && Pushes(run) && Midway(s, t, rec, done) && AllDone(done, 4 + |rec|)
  {
    run, t, done := start, copying, {};
    for k := 0 to 4 + |rec|
      invariant Leads(s, run, t) && Pushes(run) && Midway(s, t, rec, done)
      invariant forall j: nat | j < k :: j in done
    {
      run, t := CopyOne(s, run, t, rec, done, k);
      done := done + {k};
    }
  }

  /** From every sound state with a producer at rest and room for the record, the producer can publish it. */
  lemma PushRecord(s: Shared, rec: Record) returns (run: seq<Turn>, t: Shared)
    requires Sound(s) && s.ring.producer == PIdle && s.ring.w - s.ring.r + 4 + |rec| <= |s.ring.buf|
    ensures Leads(s, run, t) && Sound(t) && t.pops == s.pops && t.ring.producer == PIdle
    ensures t.ring.accepted == s.ring.accepted + [rec] && t.ring.committed == s.ring.committed
    ensures t.ring.r == s.ring.r && t.ring.w == s.ring.w + 4 + |rec|
  {
    var done;
    run, t := BeginPush(s, rec);
    run, t, done := CopyAll(s, run, t, rec);
    run := Go(s, run, t, Push(Publish));
    t := TakeTurn(t, Push(Publish));
    PushesKeepSound(s, run);
  }

  /** `s` with consumer `i` at `c`. */
  function At(s: Shared, i: nat, c: Consumer): Shared
    requires i < |s.pops|
  {
    s.(pops := s.pops[i := c])
  }

  lemma Read(s: Shared, run: seq<Turn>, t: Shared, i: nat, c: Consumer, a: Action) returns (longer: seq<Turn>)
    requires i < |t.pops| && Leads(s, run, At(t, i, c)) && t.ring.consumer == CIdle && |t.ring.buf| > 0
    requires !a.Commit?
    ensures Leads(s, longer, At(t, i, ConsumerStep(With(t.ring, c), a).consumer))
  {
    longer := Go(s, run, At(t, i, c), Pop(i, a));
    ReadLeavesRing(t.ring, c, a);
    var c' := ConsumerStep(With(t.ring, c), a).consumer;
    assert t.pops[i := c][i := c'] == t.pops[i := c'];
  }

  /** What a pop that loaded these offsets reads as the length. */
  function LengthAt(s: State, r1: nat): (len: nat)
    requires |s.buf| > 0
    ensures len < U32_SIZE
  {
    WidthLimits();
    FromBigEndian(Window(s.buf, r1, 4))
  }

  /** The bytes gathered so far are those of the ring from `off` on. */
  ghost predicate Copied(got: map<nat, byte>, n: nat, buf: seq<byte>, off: nat)
    requires |buf| > 0
  {
    forall j: nat | j < n :: j in got && got[j] == buf[(off + j) % |buf|]
  }

  lemma ReadFour(s: Shared, run: seq<Turn>, t: Shared, i: nat, w1: nat, r1: nat, seen: nat)
      returns (longer: seq<Turn>, got: map<nat, byte>)
    requires i < |t.pops| && Leads(s, run, At(t, i, CReadingLen(w1, r1, seen, map[])))
    requires t.ring.consumer == CIdle && |t.ring.buf| > 0
    ensures Leads(s, longer, At(t, i, CReadingLen(w1, r1, seen, got))) && Copied(got, 4, t.ring.buf, r1)
  {
    longer, got := run, map[];
    for k := 0 to 4
      invariant Leads(s, longer, At(t, i, CReadingLen(w1, r1, seen, got))) && Copied(got, k, t.ring.buf, r1)
    {
      longer := Read(s, longer, t, i, CReadingLen(w1, r1, seen, got), ReadLenByte(k));
      got := got[k := t.ring.buf[(r1 + k) % |t.ring.buf|]];
    }
  }

  lemma ReadLength(s: Shared, run: seq<Turn>, t: Shared, i: nat, w1: nat, r1: nat, seen: nat) returns (longer: seq<Turn>)
    requires i < |t.pops| && Leads(s, run, At(t, i, CHaveBoth(w1, r1, seen))) && t.ring.consumer == CIdle && |t.ring.buf| > 0
    requires Span(w1, r1) >= 4 + LengthAt(t.ring, r1)
    ensures Leads(s, longer, At(t, i, CReadingBody(w1, r1, seen, LengthAt(t.ring, r1), map[])))
  {
    longer := Read(s, run, t, i, CHaveBoth(w1, r1, seen), PopCheck);
    var got;
    longer, got := ReadFour(s, longer, t, i, w1, r1, seen);
    assert Gathered(got, 4) == Window(t.ring.buf, r1, 4);
    longer := Read(s, longer, t, i, CReadingLen(w1, r1, seen, got), PopLength);
  }

  lemma ReadBody(s: Shared, run: seq<Turn>, t: Shared, i: nat, w1: nat, r1: nat, seen: nat, len: nat)
      returns (longer: seq<Turn>, got: map<nat, byte>)
    requires i < |t.pops| && Leads(s, run, At(t, i, CReadingBody(w1, r1, seen, len, map[])))
    requires t.ring.consumer == CIdle && |t.ring.buf| > 0
    ensures Leads(s, longer, At(t, i, CReadingBody(w1, r1, seen, len, got))) && Copied(got, len, t.ring.buf, r1 + 4)
  {
    longer, got := run, map[];
    for k := 0 to len
      invariant Leads(s, longer, At(t, i, CReadingBody(w1, r1, seen, len, got))) && Copied(got, k, t.ring.buf, r1 + 4)
    {
      longer := Read(s, longer, t, i, CReadingBody(w1, r1, seen, len, got), ReadBodyByte(k));
      got := got[k := t.ring.buf[(r1 + 4 + k) % |t.ring.buf|]];
    }
  }

  /** A pop that has loaded its offsets reads whatever length and bytes lie at its read offset, if the span allows. */
  lemma ReadAll(s: Shared, run: seq<Turn>, t: Shared, i: nat, w1: nat, r1: nat, seen: nat)
      returns (longer: seq<Turn>, c: Consumer)
    requires i < |t.pops| && Leads(s, run, At(t, i, CHaveBoth(w1, r1, seen))) && t.ring.consumer == CIdle && |t.ring.buf| > 0
    requires Span(w1, r1) >= 4 + LengthAt(t.ring, r1)
    ensures Leads(s, longer, At(t, i, c)) && Holds(c, t.ring, w1, r1)
  {
    var len, got := LengthAt(t.ring, r1), map[];
    longer := ReadLength(s, run, t, i, w1, r1, seen);
    longer, got := ReadBody(s, longer, t, i, w1, r1, seen, len);
    c := CReadingBody(w1, r1, seen, len, got);
  }

  /** The pop has read the length and the bytes at `r1` in full. */
  ghost predicate Holds(c: Consumer, ring: State, w1: nat, r1: nat)
    requires |ring.buf| > 0
  {
    && c.CReadingBody? && c.w1 == w1 && c.r1 == r1 && c.len == LengthAt(ring, r1)
    && Complete(c.got, c.len) && Gathered(c.got, c.len) == Window(ring.buf, r1 + 4, c.len)
  }

  /** The length and the bytes at the ring's read offset are those of the next record. */
  lemma NextAtRead(s: State)
    requires Inv(s) && |s.committed| < |s.accepted|
    ensures
      var rec := s.accepted[|s.committed|];
      LengthAt(s, s.r) == |rec| && Window(s.buf, s.r + 4, |rec|) == rec && Span(s.w, s.r) >= 4 + |rec|
  {
    PendingHead(s);
  }

  /** An idle consumer of a ring with an unread record brings it in hand; nothing else changes. */
  lemma PopInHand(s: Shared, run: seq<Turn>, t: Shared, i: nat) returns (longer: seq<Turn>, c: Consumer)
    requires Leads(s, run, t) && i < |t.pops| && t.pops[i] == CIdle && t.ring.consumer == CIdle
    requires Inv(t.ring) && |t.ring.committed| < |t.ring.accepted|
    ensures Leads(s, longer, At(t, i, c))
    ensures c.CReadingBody? && TakesNext(t.ring, c) && c.r1 == t.ring.r && c.len == |t.ring.accepted[|t.ring.committed|]|
  {
    assert t == At(t, i, CIdle);
    var w1, seen := t.ring.w, |t.ring.accepted|;
    NextAtRead(t.ring);
    longer := Read(s, run, t, i, CIdle, PopLoadWrite);
    longer := Read(s, longer, t, i, CHaveWrite(w1, seen), PopLoadRead);
    longer, c := ReadAll(s, longer, t, i, w1, t.ring.r, seen);
  }

  // ── A stale commit ──────────────────────────────────────────────────────────

  /** Both consumers have the next record in hand; both commit it. */
  lemma CommitTwice(s: Shared, i: nat, j: nat, c: Consumer, d: Consumer)
    requires |s.ring.buf| > 0 && s.ring.consumer == CIdle && i < |s.pops| && j < |s.pops| && i != j
    requires s.pops[i] == c && s.pops[j] == d && TakesNext(s.ring, c) && TakesNext(s.ring, d)
    requires c.r1 == d.r1 == s.ring.r && c.len == d.len
    ensures
      var rec := s.ring.accepted[|s.ring.committed|];
      Turns(s, [Pop(i, Commit), Pop(j, Commit)]).ring ==
        s.ring.(r := s.ring.r + 4 + |rec|, committed := s.ring.committed + [rec, rec])
  {
    var rec := s.ring.accepted[|s.ring.committed|];
    var t := TakeTurn(s, Pop(i, Commit));
    CommitTurn(s, Pop(i, Commit));
    CommitTurn(t, Pop(j, Commit));
    OneTurn(t, Pop(j, Commit));
    assert [Pop(i, Commit), Pop(j, Commit)][1..] == [Pop(j, Commit)];
    assert s.ring.committed + [rec] + [rec] == s.ring.committed + [rec, rec];
  }

  /**
   From every sound state with an unread record and two idle consumers there is a run that delivers that record
   twice and moves the read offset by its length once.
   */
  lemma DeliveredTwice(s: Shared, i: nat, j: nat) returns (run: seq<Turn>)
    requires Sound(s) && i < |s.pops| && j < |s.pops| && i != j && s.pops[i] == s.pops[j] == CIdle
    requires |s.ring.committed| < |s.ring.accepted|
    ensures
      var rec := s.ring.accepted[|s.ring.committed|];
      Turns(s, run).ring == s.ring.(r := s.ring.r + 4 + |rec|, committed := s.ring.committed + [rec, rec])
  {
    var c, d;
    run, c := PopInHand(s, [], s, i);
    run, d := PopInHand(s, run, At(s, i, c), j);
    var t := At(At(s, i, c), j, d);
    CommitTwice(t, i, j, c, d);
    LeadsOn(s, run, t, [Pop(i, Commit), Pop(j, Commit)], Turns(t, [Pop(i, Commit), Pop(j, Commit)]));
    run := run + [Pop(i, Commit), Pop(j, Commit)];
  }

  /** For every record that fits: pushed once, delivered twice. */
  lemma OverlappingPopsDuplicate(buf: seq<byte>, rec: Record) returns (schedule: seq<Turn>)
    requires 4 + |rec| <= |buf| < U32_SIZE
    ensures
      var s := Turns(Start(buf, 2), schedule).ring;
      s.accepted == [rec] && s.committed == [rec, rec]
  {
    var s := Start(buf, 2);
    StartIsSound(buf, 2);
    var run, t := PushRecord(s, rec);
    var more := DeliveredTwice(t, 0, 1);
    LeadsOn(s, run, t, more, Turns(t, more));
    schedule := run + more;
  }

  // ── A pop that loads ahead ──────────────────────────────────────────────────

  /** The next record taken by an idle consumer, alone. */
  lemma PopRecord(s: Shared, run: seq<Turn>, t: Shared, i: nat) returns (longer: seq<Turn>, t': Shared)
    requires Leads(s, run, t) && i < |t.pops| && t.pops[i] == CIdle && Sound(t)
    requires |t.ring.committed| < |t.ring.accepted|
    ensures Leads(s, longer, t') && t'.pops == t.pops
    ensures
      var rec := t.ring.accepted[|t.ring.committed|];
      t'.ring == t.ring.(r := t.ring.r + 4 + |rec|, committed := t.ring.committed + [rec])
  {
    var c;
    longer, c := PopInHand(s, run, t, i);
    CommitTurn(At(t, i, c), Pop(i, Commit));
    longer := Go(s, longer, At(t, i, c), Pop(i, Commit));
    t' := TakeTurn(At(t, i, c), Pop(i, Commit));
    assert t'.pops == t.pops;
  }

  /** A consumer that loaded the write offset of an empty ring; a record comes and is taken by another consumer. */
  lemma Overtaken(buf: seq<byte>, rec: Record) returns (run: seq<Turn>, t: Shared)
    requires 4 + |rec| <= |buf| < U32_SIZE
    ensures Leads(Start(buf, 2), run, t) && t.pops == [CIdle, CHaveWrite(0, 0)]
    ensures |t.ring.buf| == |buf| && t.ring.consumer == CIdle
    ensures t.ring.r == t.ring.w == 4 + |rec| && t.ring.accepted == t.ring.committed == [rec]
  {
    var s := Start(buf, 2);
    StartIsSound(buf, 2);
    run := Go(s, [], s, Pop(1, PopLoadWrite));
    ReadKeepsSound(s, 1, PopLoadWrite);
    t := TakeTurn(s, Pop(1, PopLoadWrite));
    assert t.pops == [CIdle, CHaveWrite(0, 0)];
    var more, t1 := PushRecord(t, rec);
    LeadsOn(s, run, t, more, t1);
    run, t := PopRecord(s, run + more, t1, 0);
  }

  /** With the read offset ahead by at most 2^32 the wrapped span covers any length. */
  lemma WrappedSpan(w1: nat, r1: nat)
    requires w1 < r1 <= w1 + U32_SIZE
    ensures Span(w1, r1) >= 4 + U32_SIZE
  {
    assert (w1 - r1) % U64_SIZE == w1 - r1 + U64_SIZE;
  }

  /** It loads the read offset, now ahead, and reads what lies there. */
  lemma ReadAhead(s: Shared, run: seq<Turn>, t: Shared, i: nat, w1: nat, seen: nat) returns (longer: seq<Turn>, c: Consumer)
    requires Leads(s, run, t) && i < |t.pops| && t.pops[i] == CHaveWrite(w1, seen) && t.ring.consumer == CIdle
    requires |t.ring.buf| > 0 && w1 < t.ring.r <= w1 + U32_SIZE
    ensures Leads(s, longer, At(t, i, c)) && Holds(c, t.ring, w1, t.ring.r)
  {
    assert t == At(t, i, CHaveWrite(w1, seen));
    WrappedSpan(w1, t.ring.r);
    longer := Read(s, run, t, i, CHaveWrite(w1, seen), PopLoadRead);
    longer, c := ReadAll(s, longer, t, i, w1, t.ring.r, seen);
  }

  /**
   For every buffer and every record that fits there is a run with no stale commit in which a pop finds the read
   offset ahead of its write offset, takes whatever length lies there, and leaves the read offset past the write
   offset by that length and its prefix: up to 4 GiB, whatever the capacity.
   */
  lemma AheadPassesWriter(buf: seq<byte>, rec: Record) returns (schedule: seq<Turn>)
    requires 4 + |rec| <= |buf| < U32_SIZE
    ensures
      var s := Turns(Start(buf, 2), schedule).ring;
      && NoStaleCommit(Start(buf, 2), schedule)
      && s.accepted == [rec] && |s.committed| == 2
      && s.r == s.w + 4 + LengthAt(s, s.w) && |s.committed[1]| == LengthAt(s, s.w)
  {
    var s := Start(buf, 2);
    var run, t := Overtaken(buf, rec);
    var c;
    run, c := ReadAhead(s, run, t, 1, 0, 0);
    CommitTurn(At(t, 1, c), Pop(1, Commit));
    schedule := Go(s, run, At(t, 1, c), Pop(1, Commit));
  }
}
