/**
 One signal lane of the exporter: a bounded drop-oldest retry queue, filled by fresh sends that
 fail, drained once per tick in age order, and flushed on shutdown. A send is whatever the
 transport answers: a verdict, a transport error or a missed deadline.

 - The steps, as functions on the lane; conservation, age order and the depth bound over every run.
 - What a pass leaves and counts, what a flush credits, and the lane's deferral across a pass.
 - The lane as code: a class whose methods are proved equal to the steps, with the queue a field that
   they reassign.

 Every record offered is delivered, refused, credited as dropped, lost in hand or still queued.
 */
module RetryLane {
  import opened Bytes
  import opened Backoff

  /** An encoded batch of `n` records; `age` is its arrival number. */
  datatype Batch = Batch(age: nat, bytes: seq<byte>, n: nat)

  datatype SendResult =
    | Verdict(outcome: Outcome)
    | TransportError(httpStatus: Option<nat>)
    | DeadlineExceeded

  predicate IsPermanentRejection(r: SendResult) {
    r.TransportError? && r.httpStatus.Some? && 400 <= r.httpStatus.value < 500
  }

  datatype Lane = Lane(
    queue: seq<Batch>,
    failures: nat,    // the lane's send-failure counter
    dropped: nat,     // credited to DROPPED_RECORDS
    // bookkeeping of the records that went through the lane
    offered: nat, released: nat, rejected: nat, uncounted: nat, nextAge: nat)

  function Records(q: seq<Batch>): nat {
    if q == [] then 0 else Records(q[..|q| - 1]) + q[|q| - 1].n
  }

  // ── The steps ───────────────────────────────────────────────────────────────

  /** Appends; a queue already at depth loses its oldest batch, whose records are credited as dropped. */
  function Enqueue(l: Lane, b: Batch, depth: nat): Lane {
    if |l.queue| >= depth && l.queue != [] then
      l.(queue := l.queue[1..] + [b], dropped := l.dropped + l.queue[0].n)
    else l.(queue := l.queue + [b])
  }

  function Settle(l: Lane, b: Batch, outcome: Outcome, depth: nat): Lane {
    match DispositionOf(outcome)
    case Release => l.(released := l.released + b.n)
    case Requeue => Enqueue(l.(failures := l.failures + 1), b, depth)
    case Drop => l.(rejected := l.rejected + b.n)
  }

  /** The answer to a fresh batch in hand. Any transport error, even a 4xx, queues it. */
  function Answer(l: Lane, b: Batch, r: SendResult, depth: nat): Lane {
    if r.Verdict? then Settle(l, b, r.outcome, depth)
    else Enqueue(l.(failures := l.failures + 1), b, depth)
  }

  /** A freshly collected batch of `n` records; an empty one is not sent. */
  function Fresh(l: Lane, bytes: seq<byte>, n: nat, r: SendResult, depth: nat): Lane {
    if n == 0 then l
    else Answer(l.(offered := l.offered + n, nextAge := l.nextAge + 1), Batch(l.nextAge, bytes, n), r, depth)
  }

  /** Whatever was decided about the batch, by a verdict, lets the pass go on. */
  predicate Continues(r: SendResult) {
    r.Verdict? && (Delivered(r.outcome) || Refused(r.outcome))
  }

  /** One queued batch tried again. */
  function Retry(l: Lane, b: Batch, r: SendResult, depth: nat): Lane {
    if r.Verdict? then Settle(l, b, r.outcome, depth)
    else if IsPermanentRejection(r) then l.(failures := l.failures + 1, rejected := l.rejected + b.n)
    else Enqueue(l.(failures := l.failures + 1), b, depth)
  }

  /** The pass over the snapshot from its `i`-th batch on; once stopped, the rest goes back unsent. */
  function PassFrom(l: Lane, snapshot: seq<Batch>, i: nat, stopped: bool, send: nat -> SendResult, depth: nat): Lane
    requires i <= |snapshot|
    decreases |snapshot| - i
  {
    if i == |snapshot| then l
    else if stopped then PassFrom(Enqueue(l, snapshot[i], depth), snapshot, i + 1, true, send, depth)
    else PassFrom(Retry(l, snapshot[i], send(i), depth), snapshot, i + 1, !Continues(send(i)), send, depth)
  }

  function Pass(l: Lane, send: nat -> SendResult, depth: nat): Lane {
    PassFrom(l.(queue := []), l.queue, 0, false, send, depth)
  }

  /**
   The shutdown flush: any verdict counts as delivered; the first error or missed deadline credits
   everything behind the failing batch as dropped and empties the queue. The failing batch itself
   is credited nowhere.
   */
  function Flush(l: Lane, send: nat -> SendResult, i: nat): Lane
    decreases |l.queue|
  {
    if l.queue == [] then l
    else
      var b, rest := l.queue[0], l.queue[1..];
      if send(i).Verdict? then Flush(l.(queue := rest, released := l.released + b.n), send, i + 1)
      else l.(queue := [], dropped := l.dropped + Records(rest), uncounted := l.uncounted + b.n)
  }

  datatype Op =
    | FreshBatch(bytes: seq<byte>, n: nat, result: SendResult)
    | RetryPass(send: nat -> SendResult)
    | Shutdown(send: nat -> SendResult)

  ghost function Apply(l: Lane, op: Op, depth: nat): Lane {
    match op
    case FreshBatch(bytes, n, r) => Fresh(l, bytes, n, r, depth)
    case RetryPass(send) => Pass(l, send, depth)
    case Shutdown(send) => Flush(l, send, 0)
  }

  ghost function Run(l: Lane, ops: seq<Op>, depth: nat): Lane
    decreases |ops|
  {
    if ops == [] then l else Run(Apply(l, ops[0], depth), ops[1..], depth)
  }

  // ── What is promised of one batch ───────────────────────────────────────────

  /** The last `k` batches, or all of them. */
  function LastOf(q: seq<Batch>, k: nat): (r: seq<Batch>)
    ensures |r| <= k && |r| <= |q|
  {
    if |q| < k then q else q[|q| - k..]
  }

  /** The batch is the last of the queue; the queue lost its oldest if it was at depth, and that one's records are credited. */
  ghost predicate PutBack(l: Lane, l': Lane, b: Batch, depth: nat) {
    var evicted := if |l.queue| >= depth && |l.queue| > 0 then 1 else 0;
    && |l'.queue| > 0 && l'.queue[|l'.queue| - 1] == b
    && l'.queue[..|l'.queue| - 1] == l.queue[evicted..]
    && l' == l.(queue := l'.queue, dropped := l.dropped + Records(l.queue[..evicted]))
  }

  /** A verdict on a batch in hand: taken, refused, or put back with a failure counted. */
  ghost predicate AsPromised(l: Lane, l': Lane, b: Batch, o: Outcome, depth: nat) {
    match o
    case Accepted => l' == l.(released := l.released + b.n)
    case PartialReject(_) => l' == l.(released := l.released + b.n)
    case Retryable(_) => PutBack(l.(failures := l.failures + 1), l', b, depth)
    case Permanent => l' == l.(rejected := l.rejected + b.n)
    case Unauthorized => l' == l.(rejected := l.rejected + b.n)
  }

  /** Any answer to a fresh batch: an error of whatever status, or none in time, puts it back. */
  ghost predicate FreshPromised(l: Lane, l': Lane, b: Batch, r: SendResult, depth: nat) {
    match r
    case Verdict(o) => AsPromised(l, l', b, o, depth)
    case TransportError(_) => PutBack(l.(failures := l.failures + 1), l', b, depth)
    case DeadlineExceeded => PutBack(l.(failures := l.failures + 1), l', b, depth)
  }

  /** A fresh batch is counted as offered and given the next number, then answered. */
  ghost predicate SentAsPromised(l: Lane, l': Lane, bytes: seq<byte>, n: nat, r: SendResult, depth: nat) {
    FreshPromised(l.(offered := l.offered + n, nextAge := l.nextAge + 1), l', Batch(l.nextAge, bytes, n), r, depth)
  }

  /** Any answer to a queued batch: an error with a status from 400 to 499 refuses it, any other puts it back. */
  ghost predicate RetryPromised(l: Lane, l': Lane, b: Batch, r: SendResult, depth: nat) {
    match r
    case Verdict(o) => AsPromised(l, l', b, o, depth)
    case TransportError(status) =>
      if status.Some? && 400 <= status.value <= 499 then l' == l.(failures := l.failures + 1, rejected := l.rejected + b.n)
      else PutBack(l.(failures := l.failures + 1), l', b, depth)
    case DeadlineExceeded => PutBack(l.(failures := l.failures + 1), l', b, depth)
  }

  lemma EnqueuePutsBack(l: Lane, b: Batch, depth: nat)
    ensures PutBack(l, Enqueue(l, b, depth), b, depth)
  {
    if |l.queue| >= depth && l.queue != [] {
      assert l.queue[..1] == [l.queue[0]] && [l.queue[0]][..0] == [];
      assert Records(l.queue[..1]) == l.queue[0].n;
    } else {
      assert l.queue[..0] == [];
    }
  }

  lemma SettlePromised(l: Lane, b: Batch, o: Outcome, depth: nat)
    ensures AsPromised(l, Settle(l, b, o, depth), b, o, depth)
  {
    EnqueuePutsBack(l.(failures := l.failures + 1), b, depth);
  }

  lemma AnswerPromised(l: Lane, b: Batch, r: SendResult, depth: nat, l': Lane)
    requires l' == Answer(l, b, r, depth)
    ensures FreshPromised(l, l', b, r, depth)
  {
    if r.Verdict? { SettlePromised(l, b, r.outcome, depth); }
    EnqueuePutsBack(l.(failures := l.failures + 1), b, depth);
  }

  lemma RetryIsPromised(l: Lane, b: Batch, r: SendResult, depth: nat, l': Lane)
    requires l' == Retry(l, b, r, depth)
    ensures RetryPromised(l, l', b, r, depth)
  {
    if r.Verdict? { SettlePromised(l, b, r.outcome, depth); }
    EnqueuePutsBack(l.(failures := l.failures + 1), b, depth);
  }

  lemma Promise(l: Lane, l1: Lane, b: Batch, l': Lane, bytes: seq<byte>, n: nat, r: SendResult, depth: nat)
    requires n > 0 && b == Batch(l.nextAge, bytes, n) && l1 == l.(offered := l.offered + n, nextAge := l.nextAge + 1)
    requires l' == Answer(l1, b, r, depth) && FreshPromised(l1, l', b, r, depth)
    ensures l' == Fresh(l, bytes, n, r, depth) && SentAsPromised(l, l', bytes, n, r, depth)
  {
  }

  // ── Conservation, order, bound ──────────────────────────────────────────────

  /** Ages strictly increase along the queue and stay below `next`. */
  ghost predicate Ordered(q: seq<Batch>, next: nat) {
    q != [] ==> q[|q| - 1].age < next && Ordered(q[..|q| - 1], q[|q| - 1].age)
  }

  lemma {:induction false} OrderedMeans(q: seq<Batch>, next: nat)
    requires Ordered(q, next)
    ensures forall i | 0 <= i < |q| :: q[i].age < next
    ensures forall i, j | 0 <= i < j < |q| :: q[i].age < q[j].age
  {
    if q != [] { OrderedMeans(q[..|q| - 1], q[|q| - 1].age); }
  }

  function Limit(depth: nat): nat { if depth == 0 then 1 else depth }

  /** The batches in hand and queued, `q`, are in age order and hold every record not otherwise accounted for. */
  ghost predicate Holding(l: Lane, q: seq<Batch>) {
    && l.offered == l.released + l.rejected + l.dropped + l.uncounted + Records(q)
    && Ordered(q, l.nextAge)
  }

  /** Every record offered is delivered, refused, credited as dropped, lost in hand, or queued in order within the depth. */
  ghost predicate Sound(l: Lane, depth: nat) {
    Holding(l, l.queue) && |l.queue| <= Limit(depth)
  }

  lemma RecordsAppend(q: seq<Batch>, b: Batch)
    ensures Records(q + [b]) == Records(q) + b.n
  {
    assert (q + [b])[..|q|] == q;
  }

  lemma OrderedAppend(q: seq<Batch>, b: Batch)
    requires Ordered(q, b.age)
    ensures Ordered(q + [b], b.age + 1)
  {
    assert (q + [b])[..|q|] == q;
  }

  lemma OrderedWeaken(q: seq<Batch>, m: nat, n: nat)
    requires Ordered(q, m) && m <= n
    ensures Ordered(q, n)
  {
  }

  lemma {:induction false} RecordsConcat(a: seq<Batch>, b: seq<Batch>)
    ensures Records(a + b) == Records(a) + Records(b)
    decreases |b|
  {
    if b == [] {
      assert a + b == a;
    } else {
      assert (a + b)[..|a + b| - 1] == a + b[..|b| - 1];
      RecordsConcat(a, b[..|b| - 1]);
    }
  }

  lemma RemoveRecords(a: seq<Batch>, b: Batch, c: seq<Batch>)
    ensures Records(a + [b] + c) == Records(a + c) + b.n
  {
    RecordsAppend(a, b);
    RecordsConcat(a + [b], c);
    RecordsConcat(a, c);
  }

  lemma {:induction false} RemoveOrdered(a: seq<Batch>, b: Batch, c: seq<Batch>, next: nat)
    requires Ordered(a + [b] + c, next)
    ensures Ordered(a + c, next)
    decreases |c|
  {
    var whole := a + [b] + c;
    if c == [] {
      assert whole == a + [b] && a + c == a && whole[..|a|] == a;
      OrderedWeaken(a, b.age, next);
    } else {
      var k := |c| - 1;
      assert whole[..|whole| - 1] == a + [b] + c[..k] && (a + c)[..|a + c| - 1] == a + c[..k];
      RemoveOrdered(a, b, c[..k], c[k].age);
    }
  }

  /** Taking one batch out, anywhere, leaves the rest in order and takes its records along. */
  lemma Remove(a: seq<Batch>, b: Batch, c: seq<Batch>, next: nat)
    requires Ordered(a + [b] + c, next)
    ensures Ordered(a + c, next) && Records(a + [b] + c) == Records(a + c) + b.n
  {
    RemoveRecords(a, b, c);
    RemoveOrdered(a, b, c, next);
  }

  /** The head of the queue goes: to the drop counter, or into the hand. */
  lemma RemoveHead(q: seq<Batch>, next: nat)
    requires q != [] && Ordered(q, next)
    ensures Ordered(q[1..], next) && Records(q) == q[0].n + Records(q[1..])
  {
    assert q == [] + [q[0]] + q[1..] && [] + q[1..] == q[1..];
    Remove([], q[0], q[1..], next);
  }

  lemma RecordsOfHead(q: seq<Batch>)
    requires q != []
    ensures Records(q) == q[0].n + Records(q[1..])
  {
    assert q == [q[0]] + q[1..];
    assert [q[0]][..0] == [];
    assert Records([q[0]]) == q[0].n;
    RecordsConcat([q[0]], q[1..]);
  }

  /** Enqueueing a batch in hand, with `rest` still to come, loses no record and no order. */
  lemma EnqueueHolds(l: Lane, b: Batch, rest: seq<Batch>, depth: nat)
    requires Holding(l, l.queue + [b] + rest) && |l.queue| <= Limit(depth)
    ensures
      var l' := Enqueue(l, b, depth);
      Holding(l', l'.queue + rest) && |l'.queue| <= Limit(depth)
  {
    if |l.queue| >= depth && l.queue != [] {
      var q := l.queue + [b] + rest;
      assert q[1..] == l.queue[1..] + [b] + rest && q[0] == l.queue[0];
      RemoveHead(q, l.nextAge);
    }
  }

  lemma FreshSound(l: Lane, bytes: seq<byte>, n: nat, r: SendResult, depth: nat, l': Lane)
    requires Sound(l, depth) && l' == Fresh(l, bytes, n, r, depth)
    ensures Sound(l', depth)
  {
    if n > 0 {
      SentSound(l, Batch(l.nextAge, bytes, n), r, depth, l');
    }
  }

  lemma SentSound(l: Lane, b: Batch, r: SendResult, depth: nat, l': Lane)
    requires Sound(l, depth) && b.age == l.nextAge
    requires l' == Answer(l.(offered := l.offered + b.n, nextAge := l.nextAge + 1), b, r, depth)
    ensures Sound(l', depth)
  {
    var l1 := l.(offered := l.offered + b.n, nextAge := l.nextAge + 1);
    InHand(l, l1, b);
    AnswerSound(l1, b, r, depth, l');
  }

  /** A collected batch in hand, younger than everything queued. */
  lemma InHand(l: Lane, l1: Lane, b: Batch)
    requires Holding(l, l.queue) && b.age == l.nextAge
    requires l1 == l.(offered := l.offered + b.n, nextAge := l.nextAge + 1)
    ensures Holding(l1, l1.queue + [b])
  {
    RecordsAppend(l.queue, b);
    OrderedAppend(l.queue, b);
  }

  lemma AnswerSound(l: Lane, b: Batch, r: SendResult, depth: nat, l': Lane)
    requires Holding(l, l.queue + [b]) && |l.queue| <= Limit(depth) && l' == Answer(l, b, r, depth)
    ensures Sound(l', depth)
  {
    if Continues(r) {
      assert l.queue + [b] + [] == l.queue + [b] && l.queue + [] == l.queue;
      Remove(l.queue, b, [], l.nextAge);
    } else {
      QueuedSound(l.(failures := l.failures + 1), b, depth, l');
    }
  }

  lemma QueuedSound(l: Lane, b: Batch, depth: nat, l': Lane)
    requires Holding(l, l.queue + [b]) && |l.queue| <= Limit(depth) && l' == Enqueue(l, b, depth)
    ensures Sound(l', depth)
  {
    assert l.queue + [b] + [] == l.queue + [b];
    EnqueueHolds(l, b, [], depth);
    assert l'.queue + [] == l'.queue;
  }

  /** A batch of the snapshot tried again, the rest of the snapshot still to come. */
  lemma RetryHolds(l: Lane, b: Batch, rest: seq<Batch>, r: SendResult, depth: nat, l': Lane)
    requires Holding(l, l.queue + [b] + rest) && |l.queue| <= Limit(depth) && l' == Retry(l, b, r, depth)
    ensures Holding(l', l'.queue + rest) && |l'.queue| <= Limit(depth)
  {
    if Continues(r) || IsPermanentRejection(r) {
      Remove(l.queue, b, rest, l.nextAge);
    } else {
      EnqueueHolds(l.(failures := l.failures + 1), b, rest, depth);
    }
  }

  lemma {:induction false} PassFromSound(l: Lane, snapshot: seq<Batch>, i: nat, stopped: bool, send: nat -> SendResult, depth: nat)
    requires i <= |snapshot| && Holding(l, l.queue + snapshot[i..]) && |l.queue| <= Limit(depth)
    ensures Sound(PassFrom(l, snapshot, i, stopped, send, depth), depth)
    decreases |snapshot| - i
  {
    if i == |snapshot| {
      assert l.queue + snapshot[i..] == l.queue;
    } else {
      var b, rest := snapshot[i], snapshot[i + 1..];
      assert l.queue + snapshot[i..] == l.queue + [b] + rest;
      if stopped {
        EnqueueHolds(l, b, rest, depth);
        PassFromSound(Enqueue(l, b, depth), snapshot, i + 1, true, send, depth);
      } else {
        var l' := Retry(l, b, send(i), depth);
        RetryHolds(l, b, rest, send(i), depth, l');
        PassFromSound(l', snapshot, i + 1, !Continues(send(i)), send, depth);
      }
    }
  }

  lemma {:induction false} FlushSound(l: Lane, send: nat -> SendResult, i: nat, depth: nat)
    requires Sound(l, depth)
    ensures Sound(Flush(l, send, i), depth) && Flush(l, send, i).queue == []
    decreases |l.queue|
  {
    if l.queue != [] {
      var b, rest := l.queue[0], l.queue[1..];
      RemoveHead(l.queue, l.nextAge);
      if send(i).Verdict? {
        FlushSound(l.(queue := rest, released := l.released + b.n), send, i + 1, depth);
      }
    }
  }

  lemma FlushedSound(l: Lane, send: nat -> SendResult, depth: nat, l': Lane)
    requires Sound(l, depth) && l' == Flush(l, send, 0)
    ensures Sound(l', depth) && l'.queue == []
  {
    FlushSound(l, send, 0, depth);
  }

  lemma ApplySound(l: Lane, op: Op, depth: nat)
    requires Sound(l, depth)
    ensures Sound(Apply(l, op, depth), depth)
  {
    match op
    case FreshBatch(bytes, n, r) => FreshSound(l, bytes, n, r, depth, Fresh(l, bytes, n, r, depth));
    case RetryPass(send) =>
      assert [] + l.queue[0..] == l.queue;
      PassFromSound(l.(queue := []), l.queue, 0, false, send, depth);
    case Shutdown(send) => FlushSound(l, send, 0, depth);
  }

  lemma PassSound(l: Lane, send: nat -> SendResult, depth: nat, l': Lane)
    requires Sound(l, depth) && l' == Pass(l, send, depth)
    ensures Sound(l', depth)
  {
    ApplySound(l, RetryPass(send), depth);
  }

  /**
   Over any sequence of fresh sends, retry passes and shutdown flushes, whatever the transport
   answers: records are conserved, the queue stays in age order and within its depth.
   */
  lemma {:induction false} LaneAlwaysSound(l: Lane, ops: seq<Op>, depth: nat)
    requires Sound(l, depth)
    ensures Sound(Run(l, ops, depth), depth)
    ensures
      var end := Run(l, ops, depth);
      && end.offered == end.released + end.rejected + end.dropped + end.uncounted + Records(end.queue)
      && (forall i, j | 0 <= i < j < |end.queue| :: end.queue[i].age < end.queue[j].age)
      && |end.queue| <= if depth == 0 then 1 else depth
    decreases |ops|
  {
    if ops == [] {
      OrderedMeans(l.queue, l.nextAge);
    } else {
      ApplySound(l, ops[0], depth);
      LaneAlwaysSound(Apply(l, ops[0], depth), ops[1..], depth);
    }
  }

  // ── What a pass leaves ──────────────────────────────────────────────────────

  /** The first batch from `i` on whose send stops the pass, or the length of the queue. */
  function FirstStop(send: nat -> SendResult, i: nat, n: nat): (k: nat)
    requires i <= n
    ensures i <= k <= n
    ensures forall j | i <= j < k :: Continues(send(j))
    ensures k < n ==> !Continues(send(k))
    decreases n - i
  {
    if i == n || !Continues(send(i)) then i else FirstStop(send, i + 1, n)
  }

  /** Where the queue resumes when the pass stands at its `i`-th batch. */
  function ResumeFrom(send: nat -> SendResult, i: nat, n: nat): (k: nat)
    requires i <= n
    ensures k <= n
  {
    var k := FirstStop(send, i, n);
    if k < n && IsPermanentRejection(send(k)) then k + 1 else k
  }

  /** Where the queue resumes: at a transient failure, past a permanent transport rejection. */
  function Resume(send: nat -> SendResult, n: nat): (k: nat)
    ensures k <= n
  {
    ResumeFrom(send, 0, n)
  }

  /** Batches put back one after the other. */
  function EnqueueAll(l: Lane, q: seq<Batch>, depth: nat): Lane
    decreases |q|
  {
    if q == [] then l else EnqueueAll(Enqueue(l, q[0], depth), q[1..], depth)
  }

  lemma EnqueueFrame(l: Lane, b: Batch, depth: nat)
    ensures
      var l' := Enqueue(l, b, depth);
      l' == l.(queue := l'.queue, dropped := l'.dropped) && (|l.queue| <= Limit(depth) ==> |l'.queue| <= Limit(depth))
  {
  }

  lemma EnqueueKeepsLast(q: seq<Batch>, b: Batch, l: Lane, depth: nat)
    requires l.queue == LastOf(q, Limit(depth))
    ensures Enqueue(l, b, depth).queue == LastOf(q + [b], Limit(depth))
  {
  }

  /** Of the batches queued before and put back, the youngest stay, up to the depth. */
  lemma {:induction false} EnqueueAllKeepsLast(l: Lane, before: seq<Batch>, q: seq<Batch>, depth: nat)
    requires l.queue == LastOf(before, Limit(depth))
    ensures EnqueueAll(l, q, depth).queue == LastOf(before + q, Limit(depth))
    decreases |q|
  {
    if q == [] {
      assert before + q == before;
    } else {
      EnqueueKeepsLast(before, q[0], l, depth);
      EnqueueAllKeepsLast(Enqueue(l, q[0], depth), before + [q[0]], q[1..], depth);
      assert before + [q[0]] + q[1..] == before + q;
    }
  }

  lemma EnqueueDrops(l: Lane, b: Batch, depth: nat)
    ensures
      var l' := Enqueue(l, b, depth);
      l'.dropped + Records(l'.queue) == l.dropped + Records(l.queue) + b.n
  {
    RecordsAppend(l.queue, b);
    if |l.queue| >= depth && l.queue != [] {
      RecordsOfHead(l.queue);
      RecordsAppend(l.queue[1..], b);
    }
  }

  /** What is dropped is what is missing, and nothing else is counted. */
  lemma {:induction false} EnqueueAllDrops(l: Lane, q: seq<Batch>, depth: nat)
    ensures
      var end := EnqueueAll(l, q, depth);
      && end.dropped + Records(end.queue) == l.dropped + Records(l.queue) + Records(q)
      && end == l.(queue := end.queue, dropped := end.dropped)
    decreases |q|
  {
    if q != [] {
      EnqueueDrops(l, q[0], depth);
      EnqueueFrame(l, q[0], depth);
      RecordsOfHead(q);
      EnqueueAllDrops(Enqueue(l, q[0], depth), q[1..], depth);
    }
  }

  /** A stopped pass puts everything back. */
  lemma {:induction false} RequeueRest(l: Lane, snapshot: seq<Batch>, i: nat, send: nat -> SendResult, depth: nat)
    requires i <= |snapshot|
    ensures PassFrom(l, snapshot, i, true, send, depth) == EnqueueAll(l, snapshot[i..], depth)
    decreases |snapshot| - i
  {
    if i < |snapshot| {
      RequeueRest(Enqueue(l, snapshot[i], depth), snapshot, i + 1, send, depth);
      assert snapshot[i..][1..] == snapshot[i + 1..];
    }
  }

  /** From the batch a pass stops on: it goes back unless it was refused, and everything behind it does. */
  lemma StopLeaves(l: Lane, snapshot: seq<Batch>, i: nat, send: nat -> SendResult, depth: nat) returns (l': Lane)
    requires i < |snapshot| && !Continues(send(i))
    ensures l'.queue == l.queue && l'.dropped == l.dropped
    ensures
      var resume := if IsPermanentRejection(send(i)) then i + 1 else i;
      PassFrom(l, snapshot, i, false, send, depth) == EnqueueAll(l', snapshot[resume..], depth)
  {
    RequeueRest(Retry(l, snapshot[i], send(i), depth), snapshot, i + 1, send, depth);
    l' := l.(failures := l.failures + 1);
    if IsPermanentRejection(send(i)) {
      l' := l'.(rejected := l.rejected + snapshot[i].n);
    } else {
      assert snapshot[i..][1..] == snapshot[i + 1..] && snapshot[i..][0] == snapshot[i];
    }
  }

  lemma DecidedLeaves(l: Lane, snapshot: seq<Batch>, i: nat, send: nat -> SendResult, depth: nat) returns (l': Lane)
    requires i < |snapshot| && Continues(send(i))
    ensures l'.queue == l.queue && l'.dropped == l.dropped
    ensures PassFrom(l, snapshot, i, false, send, depth) == PassFrom(l', snapshot, i + 1, false, send, depth)
  {
    l' := Retry(l, snapshot[i], send(i), depth);
  }

  /** What a pass does to the queue is to put back the batches it did not settle. */
  lemma {:induction false} PassPutsBack(l: Lane, snapshot: seq<Batch>, i: nat, send: nat -> SendResult, depth: nat) returns (l': Lane)
    requires i <= |snapshot|
    ensures l'.queue == l.queue && l'.dropped == l.dropped
    ensures PassFrom(l, snapshot, i, false, send, depth) == EnqueueAll(l', snapshot[ResumeFrom(send, i, |snapshot|)..], depth)
    decreases |snapshot| - i
  {
    if i == |snapshot| {
      l' := l;
    } else if Continues(send(i)) {
      l' := DecidedLeaves(l, snapshot, i, send, depth);
      l' := PassPutsBack(l', snapshot, i + 1, send, depth);
    } else {
      l' := StopLeaves(l, snapshot, i, send, depth);
    }
  }

  /**
   At every depth a pass leaves the youngest of the batches it did not settle, up to the depth: those from the
   first transient failure on, or past the first permanent transport rejection, or none when no send stopped
   it. What it drops is the records of the others. Within the depth it drops nothing.
   */
  lemma PassLeavesSuffix(l: Lane, send: nat -> SendResult, depth: nat)
    ensures
      var unsettled := l.queue[Resume(send, |l.queue|)..];
      var end := Pass(l, send, depth);
      && end.queue == LastOf(unsettled, Limit(depth))
      && end.dropped + Records(end.queue) == l.dropped + Records(unsettled)
      && (|l.queue| <= depth ==> end.queue == unsettled && end.dropped == l.dropped)
  {
    var unsettled := l.queue[Resume(send, |l.queue|)..];
    var l' := PassPutsBack(l.(queue := []), l.queue, 0, send, depth);
    EnqueueAllKeepsLast(l', [], unsettled, depth);
    EnqueueAllDrops(l', unsettled, depth);
    assert [] + unsettled == unsettled;
  }

  // ── What failing sends leave ────────────────────────────────────────────────

  /** The send failed, or asked for another try. */
  predicate Fails(r: SendResult) { r.TransportError? || r.DeadlineExceeded? || r.outcome.Retryable? }

  /** A fresh batch that goes out and comes back. */
  predicate ComesBack(op: Op) { op.FreshBatch? && op.n > 0 && Fails(op.result) }

  /** The batches offered, numbered from `age` on. */
  function Offered(ops: seq<Op>, age: nat): (q: seq<Batch>)
    requires forall i | 0 <= i < |ops| :: ops[i].FreshBatch?
    ensures |q| == |ops|
    ensures forall i | 0 <= i < |ops| :: q[i] == Batch(age + i, ops[i].bytes, ops[i].n)
  {
    seq(|ops|, i requires 0 <= i < |ops| => Batch(age + i, ops[i].bytes, ops[i].n))
  }

  lemma OfferFails(l: Lane, op: Op, depth: nat)
    requires ComesBack(op)
    ensures Apply(l, op, depth) ==
      Enqueue(l.(offered := l.offered + op.n, nextAge := l.nextAge + 1, failures := l.failures + 1), Batch(l.nextAge, op.bytes, op.n), depth)
  {
  }

  lemma OfferedTail(ops: seq<Op>, age: nat)
    requires ops != [] && forall i | 0 <= i < |ops| :: ops[i].FreshBatch?
    ensures Offered(ops, age)[0] == Batch(age, ops[0].bytes, ops[0].n) && Offered(ops, age)[1..] == Offered(ops[1..], age + 1)
  {
  }

  /** Counting does not look at the queue. */
  lemma {:induction false} EnqueueAllCounts(l: Lane, q: seq<Batch>, depth: nat, offered: nat, age: nat, failures: nat)
    ensures EnqueueAll(l.(offered := offered, nextAge := age, failures := failures), q, depth) ==
            EnqueueAll(l, q, depth).(offered := offered, nextAge := age, failures := failures)
    decreases |q|
  {
    if q != [] { EnqueueAllCounts(Enqueue(l, q[0], depth), q[1..], depth, offered, age, failures); }
  }

  /** Sends that fail put back what they offered. */
  lemma {:induction false} FailedSendsPutBack(l: Lane, ops: seq<Op>, depth: nat) returns (offered: nat)
    requires forall i | 0 <= i < |ops| :: ops[i].FreshBatch? && ComesBack(ops[i])
    ensures Run(l, ops, depth) ==
      EnqueueAll(l, Offered(ops, l.nextAge), depth).(offered := offered, nextAge := l.nextAge + |ops|, failures := l.failures + |ops|)
    decreases |ops|
  {
    if ops == [] {
      offered := l.offered;
    } else {
      var l1 := l.(offered := l.offered + ops[0].n, nextAge := l.nextAge + 1, failures := l.failures + 1);
      var b := Batch(l.nextAge, ops[0].bytes, ops[0].n);
      OfferFails(l, ops[0], depth);
      EnqueueFrame(l1, b, depth);
      offered := FailedSendsPutBack(Enqueue(l1, b, depth), ops[1..], depth);
      OfferedTail(ops, l.nextAge);
      EnqueueAllCounts(Enqueue(l, b, depth), Offered(ops[1..], l.nextAge + 1), depth, l1.offered, l1.nextAge, l1.failures);
      assert Enqueue(l1, b, depth) == Enqueue(l, b, depth).(offered := l1.offered, nextAge := l1.nextAge, failures := l1.failures);
    }
  }

  /**
   After any sequence of sends that all fail, the queue is exactly the youngest of the batches queued before
   and offered since, up to the depth; the others are credited as dropped, nothing is delivered or refused.
   */
  lemma FailedSendsKeepLast(l: Lane, ops: seq<Op>, depth: nat)
    requires |l.queue| <= Limit(depth) && (forall i | 0 <= i < |ops| :: ops[i].FreshBatch? && ComesBack(ops[i]))
    ensures
      var end, all := Run(l, ops, depth), l.queue + Offered(ops, l.nextAge);
      && end.queue == LastOf(all, Limit(depth))
      && end.dropped + Records(end.queue) == l.dropped + Records(all)
      && end.released == l.released && end.rejected == l.rejected && end.failures == l.failures + |ops|
  {
    var offered := FailedSendsPutBack(l, ops, depth);
    EnqueueAllKeepsLast(l, l.queue, Offered(ops, l.nextAge), depth);
    EnqueueAllDrops(l, Offered(ops, l.nextAge), depth);
    RecordsConcat(l.queue, Offered(ops, l.nextAge));
  }

  /** Records of the batches from `i` up to `k` that were taken, or that were refused. */
  function RecordsWith(q: seq<Batch>, send: nat -> SendResult, i: nat, k: nat, taken: bool): nat
    requires i <= k <= |q| && forall j | i <= j < k :: send(j).Verdict?
    decreases k - i
  {
    if i == k then 0
    else
      var o := send(i).outcome;
      (if (if taken then Delivered(o) else Refused(o)) then q[i].n else 0) + RecordsWith(q, send, i + 1, k, taken)
  }

  lemma {:induction false} RequeueCountsNothing(l: Lane, snapshot: seq<Batch>, i: nat, send: nat -> SendResult, depth: nat)
    requires i <= |snapshot|
    ensures
      var end := PassFrom(l, snapshot, i, true, send, depth);
      end.released == l.released && end.rejected == l.rejected && end.failures == l.failures
    decreases |snapshot| - i
  {
    if i < |snapshot| { RequeueCountsNothing(Enqueue(l, snapshot[i], depth), snapshot, i + 1, send, depth); }
  }

  lemma {:induction false} PassCounts(l: Lane, snapshot: seq<Batch>, i: nat, send: nat -> SendResult, depth: nat)
    requires i <= |snapshot|
    ensures
      var k := FirstStop(send, i, |snapshot|);
      var end := PassFrom(l, snapshot, i, false, send, depth);
      && end.released == l.released + RecordsWith(snapshot, send, i, k, true)
      && end.rejected == l.rejected + RecordsWith(snapshot, send, i, k, false)
           + (if k < |snapshot| && IsPermanentRejection(send(k)) then snapshot[k].n else 0)
      && end.failures == l.failures + (if k < |snapshot| then 1 else 0)
    decreases |snapshot| - i
  {
    if i < |snapshot| {
      var l' := Retry(l, snapshot[i], send(i), depth);
      if Continues(send(i)) {
        PassCounts(l', snapshot, i + 1, send, depth);
      } else {
        RequeueCountsNothing(l', snapshot, i + 1, send, depth);
      }
    }
  }

  /**
   What a pass counts, whatever the depth: as delivered exactly the records of the batches accepted
   before it stopped, as refused those with a permanent verdict before it stopped and the batch a
   permanent transport rejection stopped it on, and one failure if it stopped.
   */
  lemma PassAccounts(l: Lane, send: nat -> SendResult, depth: nat)
    ensures
      var k := FirstStop(send, 0, |l.queue|);
      var end := Pass(l, send, depth);
      && end.released == l.released + RecordsWith(l.queue, send, 0, k, true)
      && end.rejected == l.rejected + RecordsWith(l.queue, send, 0, k, false)
           + (if k < |l.queue| && IsPermanentRejection(send(k)) then l.queue[k].n else 0)
      && end.failures == l.failures + (if k < |l.queue| then 1 else 0)
  {
    PassCounts(l.(queue := []), l.queue, 0, send, depth);
  }

  // ── What a flush credits ────────────────────────────────────────────────────

  /** How many of the next `n` sends are answered before the first error or missed deadline. */
  function Answered(send: nat -> SendResult, i: nat, n: nat): (k: nat)
    ensures k <= n
    ensures forall j | i <= j < i + k :: send(j).Verdict?
    ensures k < n ==> !send(i + k).Verdict?
    decreases n
  {
    if n == 0 || !send(i).Verdict? then 0 else 1 + Answered(send, i + 1, n - 1)
  }

  ghost predicate FlushedAt(l: Lane, end: Lane, k: nat)
    requires k <= |l.queue|
  {
    && end.queue == []
    && end.released == l.released + Records(l.queue[..k])
    && end.uncounted == l.uncounted + (if k < |l.queue| then l.queue[k].n else 0)
    && end.dropped == l.dropped + (if k < |l.queue| then Records(l.queue[k + 1..]) else 0)
  }

  lemma FlushedOneMore(l: Lane, l1: Lane, end: Lane, k: nat)
    requires l.queue != [] && l1 == l.(queue := l.queue[1..], released := l.released + l.queue[0].n)
    requires k <= |l1.queue| && FlushedAt(l1, end, k)
    ensures FlushedAt(l, end, k + 1)
  {
    RecordsOfHead(l.queue[..k + 1]);
    assert l.queue[..k + 1][1..] == l1.queue[..k];
    if k < |l1.queue| { assert l1.queue[k + 1..] == l.queue[k + 2..]; }
  }

  lemma FlushedNone(l: Lane, end: Lane)
    requires
      if l.queue == [] then end == l
      else end == l.(queue := [], dropped := l.dropped + Records(l.queue[1..]), uncounted := l.uncounted + l.queue[0].n)
    ensures FlushedAt(l, end, 0)
  {
    assert l.queue[..0] == [];
  }

  /** One batch answered, and the flush goes on. */
  lemma FlushOn(l: Lane, send: nat -> SendResult, i: nat) returns (l1: Lane, k: nat)
    requires l.queue != [] && send(i).Verdict?
    ensures l1 == l.(queue := l.queue[1..], released := l.released + l.queue[0].n) && k == Answered(send, i + 1, |l1.queue|)
    ensures Flush(l, send, i) == Flush(l1, send, i + 1) && Answered(send, i, |l.queue|) == k + 1
  {
    l1 := l.(queue := l.queue[1..], released := l.released + l.queue[0].n);
    k := Answered(send, i + 1, |l1.queue|);
  }

  lemma {:induction false} FlushFrom(l: Lane, send: nat -> SendResult, i: nat, end: Lane)
    requires end == Flush(l, send, i)
    ensures FlushedAt(l, end, Answered(send, i, |l.queue|))
    decreases |l.queue|
  {
    if l.queue != [] && send(i).Verdict? {
      var l1, k := FlushOn(l, send, i);
      FlushFrom(l1, send, i + 1, end);
      FlushedOneMore(l, l1, end, k);
    } else {
      FlushedNone(l, end);
    }
  }

  /**
   A flush that is aborted empties the queue, credits as dropped exactly the batches behind the failing
   one, and leaves the failing one out of every counter.
   */
  lemma FlushCreditsBehind(l: Lane, send: nat -> SendResult)
    ensures
      var n := |l.queue|;
      var k := Answered(send, 0, n);
      var end := Flush(l, send, 0);
      && end.queue == []
      && end.released == l.released + Records(l.queue[..k])
      && end.uncounted == l.uncounted + (if k < n then l.queue[k].n else 0)
      && end.dropped == l.dropped + (if k < n then Records(l.queue[k + 1..]) else 0)
  {
    FlushFrom(l, send, 0, Flush(l, send, 0));
  }

  // ── The lane's deferral across a pass ───────────────────────────────────────

  /** The verdicts of a pass, up to and including the one that stops it. */
  function Verdicts(send: nat -> SendResult, i: nat, n: nat, now: u64): seq<Event>
    requires i <= n
    decreases n - i
  {
    if i == n || !send(i).Verdict? then []
    else [Event(send(i).outcome, now)] + if Continues(send(i)) then Verdicts(send, i + 1, n, now) else []
  }

  function BackoffAfter(b: SignalBackoff, result: SendResult, now: u64): SignalBackoff {
    if result.Verdict? then AfterOutcome(b, result.outcome, now) else b
  }

  function Heard(result: SendResult, now: u64): seq<Event> {
    if result.Verdict? then [Event(result.outcome, now)] else []
  }

  lemma HeardOne(b: SignalBackoff, done: seq<Event>, result: SendResult, now: u64)
    ensures RunEvents(b, done + Heard(result, now)) == BackoffAfter(RunEvents(b, done), result, now)
  {
    if result.Verdict? {
      assert (done + Heard(result, now))[..|done|] == done;
    } else {
      assert done + [] == done;
    }
  }

  /** The verdicts of the whole pass, seen from its `i`-th batch. */
  function StillToCome(done: seq<Event>, send: nat -> SendResult, i: nat, n: nat, failed: bool, now: u64): seq<Event>
    requires i <= n
  {
    if failed then done else done + Verdicts(send, i, n, now)
  }

  lemma VerdictsStep(done: seq<Event>, send: nat -> SendResult, i: nat, n: nat, now: u64)
    requires i < n
    ensures
      var done' := done + Heard(send(i), now);
      done + Verdicts(send, i, n, now) == if Continues(send(i)) then done' + Verdicts(send, i + 1, n, now) else done'
  {
  }

  // ── The lane as code ────────────────────────────────────────────────────────

  class SignalLane {
    const depth: nat
    var queue: seq<Batch>
    var backoff: SignalBackoff
    var failures: nat
    var dropped: nat
    ghost var offered: nat
    ghost var released: nat
    ghost var rejected: nat
    ghost var uncounted: nat
    var nextAge: nat

    ghost function Abs(): Lane
      reads this
    {
      Lane(queue, failures, dropped, offered, released, rejected, uncounted, nextAge)
    }

    ghost predicate Valid()
      reads this
    {
      Sound(Abs(), depth)
    }

    constructor (depth: nat)
      ensures this.depth == depth && Abs() == Lane([], 0, 0, 0, 0, 0, 0, 0) && backoff == SignalBackoff(0, 0)
      ensures Valid()
    {
      this.depth := depth;
      queue, backoff, failures, dropped, nextAge := [], SignalBackoff(0, 0), 0, 0, 0;
      offered, released, rejected, uncounted := 0, 0, 0, 0;
    }

    method EnqueueWithEviction(b: Batch) returns (lost: nat)
      modifies this`queue, this`dropped
      ensures Abs() == Enqueue(old(Abs()), b, depth)
      ensures |queue| > 0 && queue[|queue| - 1] == b
      ensures |old(queue)| < depth || |old(queue)| == 0 ==> queue[..|queue| - 1] == old(queue) && lost == 0
      ensures |old(queue)| >= depth && |old(queue)| > 0 ==> queue[..|queue| - 1] == old(queue)[1..] && lost == old(queue)[0].n
      ensures dropped == old(dropped) + lost
    {
      if |queue| >= depth {
        if queue != [] {
          lost := queue[0].n;
          queue, dropped := queue[1..], dropped + lost;
          queue := queue + [b];
          return;
        }
      }
      queue := queue + [b];
      return 0;
    }

    method ApplyDeliveryOutcome(outcome: Outcome, now: u64) returns (action: Disposition)
      modifies this`backoff
      ensures backoff == AfterOutcome(old(backoff), outcome, now)
      ensures action == DispositionOf(outcome)
      ensures action == match outcome { case Retryable(_) => Requeue case Permanent => Drop case Unauthorized => Drop case _ => Release }
      ensures outcome.Accepted? || outcome.PartialReject? ==> backoff == SignalBackoff(0, 0)
      ensures outcome.Permanent? || outcome.Unauthorized? ==> backoff == old(backoff)
      ensures outcome.Retryable? ==> forall t: u64 :: IsDeferred(backoff, t) <==>
        t < Min(now + AskedMs(Min(old(backoff).consecutive + 1, U32_MAX), outcome.retryAfterMs), U64_MAX)
    {
      forall t: u64 | true ensures outcome.Retryable? ==> (IsDeferred(AfterOutcome(old(backoff), outcome, now), t) <==>
        t < Min(now + AskedMs(Min(old(backoff).consecutive + 1, U32_MAX), outcome.retryAfterMs), U64_MAX))
      {
        PolicyOf(backoff, outcome, now, t);
      }
      match outcome {
        case Accepted =>
          backoff := SignalBackoff(0, 0);
          return Release;
        case PartialReject(_) =>
          backoff := SignalBackoff(0, 0);
          return Release;
        case Retryable(hint) =>
          var n := SaturatingIncrement(backoff.consecutive);
          var at := SaturatingAdd(now, DeferMs(n, hint));
          backoff := SignalBackoff(if at == 0 then 1 else at, n);
          return Requeue;
        case Permanent =>
          return Drop;
        case Unauthorized =>
          return Drop;
      }
    }

    /** The outcome policy on a batch in hand. */
    method ApplySendOutcome(b: Batch, outcome: Outcome, now: u64) returns (action: Disposition)
      modifies this
      ensures Abs() == Settle(old(Abs()), b, outcome, depth)
      ensures AsPromised(old(Abs()), Abs(), b, outcome, depth)
      ensures backoff == AfterOutcome(old(backoff), outcome, now)
      ensures action == DispositionOf(outcome)
    {
      SettlePromised(Abs(), b, outcome, depth);
      action := ApplyDeliveryOutcome(outcome, now);
      if action == Release {
        released := released + b.n;
      } else if action == Requeue {
        var _ := EnqueueWithEviction(b);
        failures := failures + 1;
      } else {
        rejected := rejected + b.n;
      }
    }

    /** Sends one encoded batch of at least one record. */
    method SendBatch(b: Batch, result: SendResult, now: u64)
      modifies this
      ensures Abs() == Answer(old(Abs()), b, result, depth) && FreshPromised(old(Abs()), Abs(), b, result, depth)
      ensures backoff == BackoffAfter(old(backoff), result, now)
    {
      if result.Verdict? {
        var _ := ApplySendOutcome(b, result.outcome, now);
      } else {
        var _ := EnqueueWithEviction(b);
        failures := failures + 1;
      }
      AnswerPromised(old(Abs()), b, result, depth, Abs());
    }

    /** Numbers a batch of at least one record and sends it. */
    method OfferBatch(bytes: seq<byte>, n: nat, result: SendResult, now: u64)
      requires n > 0
      modifies this
      ensures Abs() == Fresh(old(Abs()), bytes, n, result, depth) && SentAsPromised(old(Abs()), Abs(), bytes, n, result, depth)
      ensures backoff == BackoffAfter(old(backoff), result, now)
    {
      var b := Batch(nextAge, bytes, n);
      offered, nextAge := offered + n, nextAge + 1;
      ghost var numbered := Abs();
      assert numbered == old(Abs()).(offered := old(offered) + n, nextAge := old(nextAge) + 1);
      SendBatch(b, result, now);
      Promise(old(Abs()), numbered, b, Abs(), bytes, n, result, depth);
    }

    method SendFreshBatch(bytes: seq<byte>, n: nat, result: SendResult, now: u64)
      requires Valid()
      modifies this
      ensures Valid() && Abs() == Fresh(old(Abs()), bytes, n, result, depth)
      ensures n == 0 ==> Abs() == old(Abs())
      ensures n > 0 ==> SentAsPromised(old(Abs()), Abs(), bytes, n, result, depth)
      ensures backoff == if n == 0 then old(backoff) else BackoffAfter(old(backoff), result, now)
    {
      if n > 0 {
        OfferBatch(bytes, n, result, now);
      }
      FreshSound(old(Abs()), bytes, n, result, depth, Abs());
    }

    /** Tries one queued batch; answers whether the pass must stop. */
    method RetryBatch(b: Batch, result: SendResult, now: u64) returns (failed: bool)
      modifies this
      ensures Abs() == Retry(old(Abs()), b, result, depth) && RetryPromised(old(Abs()), Abs(), b, result, depth)
      ensures backoff == BackoffAfter(old(backoff), result, now)
      ensures failed == !Continues(result)
      ensures failed == match result { case Verdict(o) => o.Retryable? case _ => true }
    {
      match result {
        case Verdict(outcome) =>
          var action := ApplySendOutcome(b, outcome, now);
          failed := action == Requeue;
        case TransportError(_) =>
          failures := failures + 1;
          failed := true;
          if IsPermanentRejection(result) {
            rejected := rejected + b.n;
          } else {
            var _ := EnqueueWithEviction(b);
          }
        case DeadlineExceeded =>
          failures := failures + 1;
          failed := true;
          var _ := EnqueueWithEviction(b);
      }
      RetryIsPromised(old(Abs()), b, result, depth, Abs());
    }

    /** `RetryBatch`, with the verdicts heard so far in the pass. */
    method RetryNext(b: Batch, result: SendResult, now: u64, ghost start: SignalBackoff, ghost done: seq<Event>)
      returns (failed: bool, ghost heard: seq<Event>)
      requires backoff == RunEvents(start, done)
      modifies this
      ensures Abs() == Retry(old(Abs()), b, result, depth) && failed == !Continues(result)
      ensures heard == done + Heard(result, now) && backoff == RunEvents(start, heard)
    {
      HeardOne(start, done, result, now);
      failed := RetryBatch(b, result, now);
      heard := done + Heard(result, now);
    }

    /** One turn of the pass: a batch tried, or put back once the pass has failed. */
    method PassStep(snapshot: seq<Batch>, i: nat, drainFailed: bool, send: nat -> SendResult, now: u64,
                    ghost start: SignalBackoff, ghost done: seq<Event>)
      returns (failed: bool, ghost heard: seq<Event>)
      requires i < |snapshot| && backoff == RunEvents(start, done)
      modifies this
      ensures Abs() == if drainFailed then Enqueue(old(Abs()), snapshot[i], depth) else Retry(old(Abs()), snapshot[i], send(i), depth)
      ensures failed == (drainFailed || !Continues(send(i))) && backoff == RunEvents(start, heard)
      ensures StillToCome(heard, send, i + 1, |snapshot|, failed, now) == StillToCome(done, send, i, |snapshot|, drainFailed, now)
    {
      if drainFailed {
        var _ := EnqueueWithEviction(snapshot[i]);
        failed, heard := true, done;
      } else {
        VerdictsStep(done, send, i, |snapshot|, now);
        failed, heard := RetryNext(snapshot[i], send(i), now, start, done);
      }
    }

    /** Takes the queue, tries each batch in age order, and puts back what the pass did not settle. */
    method DrainWithTimer(send: nat -> SendResult, now: u64)
      modifies this
      ensures Abs() == Pass(old(Abs()), send, depth)
      ensures backoff == RunEvents(old(backoff), Verdicts(send, 0, |old(queue)|, now))
    {
      ghost var all, done := Verdicts(send, 0, |queue|, now), [];
      assert [] + all == all;
      ghost var end := Pass(Abs(), send, depth);
      var snapshot := queue;
      queue := [];
      var drainFailed := false;
      var i := 0;
      while i < |snapshot|
        invariant 0 <= i <= |snapshot|
        invariant PassFrom(Abs(), snapshot, i, drainFailed, send, depth) == end
        invariant backoff == RunEvents(old(backoff), done)
        invariant all == StillToCome(done, send, i, |snapshot|, drainFailed, now)
      {
        drainFailed, done := PassStep(snapshot, i, drainFailed, send, now, old(backoff), done);
        i := i + 1;
      }
      assert all == done by { assert done + [] == done; }
    }

    method DrainRetryQueueOnce(send: nat -> SendResult, now: u64)
      requires Valid()
      modifies this
      ensures Valid() && Abs() == Pass(old(Abs()), send, depth)
      ensures backoff == RunEvents(old(backoff), Verdicts(send, 0, |old(queue)|, now))
      ensures queue == LastOf(old(queue)[Resume(send, |old(queue)|)..], Limit(depth))
      ensures |old(queue)| <= depth ==>
        queue == old(queue)[Resume(send, |old(queue)|)..] && dropped == old(dropped)
    {
      PassLeavesSuffix(Abs(), send, depth);
      DrainWithTimer(send, now);
      PassSound(old(Abs()), send, depth, Abs());
    }

    method AccountDropsAndClear()
      modifies this`queue, this`dropped
      ensures queue == [] && dropped == old(dropped) + Records(old(queue))
    {
      var remaining := 0;
      for k := 0 to |queue|
        invariant remaining == Records(queue[..k])
        invariant queue == old(queue) && dropped == old(dropped)
      {
        assert queue[..k + 1][..k] == queue[..k];
        remaining := remaining + queue[k].n;
      }
      assert queue[..|queue|] == queue;
      if remaining > 0 {
        dropped := dropped + remaining;
      }
      queue := [];
    }

    /** The lane's part of a graceful drain. */
    method FlushQueue(send: nat -> SendResult)
      requires Valid()
      modifies this
      ensures Valid() && Abs() == Flush(old(Abs()), send, 0) && queue == [] && backoff == old(backoff)
    {
      ghost var end := Flush(Abs(), send, 0);
      var i := 0;
      while queue != []
        invariant i >= 0 && Flush(Abs(), send, i) == end && backoff == old(backoff)
        decreases |queue|
      {
        var b := queue[0];
        queue := queue[1..];
        if !send(i).Verdict? {
          uncounted := uncounted + b.n;
          AccountDropsAndClear();
          break;
        }
        released := released + b.n;
        i := i + 1;
      }
      FlushedSound(old(Abs()), send, depth, Abs());
    }
  }
}
