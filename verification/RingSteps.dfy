/**
 The ring as two processes share it. Every load, every byte copied and every store is a step of its
 own, and `Exec` runs an arbitrary schedule of such steps: an action that is not enabled leaves
 the state alone, so schedules range over every interleaving. Either side may be replaced at any
 step boundary (a worker respawned, an exporter killed or handed over): its private state is lost
 and the shared header and payload stay.
 */
module RingSteps {
  import opened Bytes
  import opened RingBytes

  datatype Producer =
    | PIdle
    | PHaveWrite(rec: Record, w0: nat)
    | PHaveBoth(rec: Record, w0: nat, r0: nat)
    | PCopying(rec: Record, w0: nat, done: set<nat>)  // frame bytes laid down

  // `seen` is the number of records accepted when the write offset was loaded; it guides no step.
  datatype Consumer =
    | CIdle
    | CHaveWrite(w1: nat, seen: nat)
    | CHaveBoth(w1: nat, r1: nat, seen: nat)
    | CReadingLen(w1: nat, r1: nat, seen: nat, got: map<nat, byte>)
    | CReadingBody(w1: nat, r1: nat, seen: nat, len: nat, got: map<nat, byte>)

  datatype State = State(
    buf: seq<byte>, w: nat, r: nat, dropped: nat,
    producer: Producer, consumer: Consumer,
    // history: records published, records whose pop was committed, pushes begun, pushes cut short
    accepted: seq<Record>, committed: seq<Record>, attempts: nat, abandoned: nat)

  datatype Action =
    | LoadWrite(rec: Record) | LoadRead | Decide | CopyByte(k: nat) | Publish | ReplaceProducer
    | PopLoadWrite | PopLoadRead | PopCheck | ReadLenByte(k: nat) | PopLength | ReadBodyByte(k: nat) | Commit
    | ReplaceConsumer

  function Initial(buf: seq<byte>): State {
    State(buf, 0, 0, 0, PIdle, CIdle, [], [], 0, 0)
  }

  const SLICE_LIMIT: nat := U64_SIZE / 2   // no slice is this long

  /** The 64-bit subtraction of offsets, which wraps. */
  function Span(w: nat, r: nat): (n: nat)
    ensures n < U64_SIZE
    ensures 0 <= w - r < U64_SIZE ==> n == w - r
  {
    (w - r) % U64_SIZE
  }

  /** The test of `push`: the bytes in use and the record exceed the capacity, in 64-bit arithmetic. */
  predicate Refuses(w0: nat, r0: nat, rec: Record, cap: nat) {
    (Span(w0, r0) + 4 + |rec|) % U64_SIZE > cap
  }

  /** The next step of `push`. Length bytes are laid down before payload bytes, in any order within each. */
  function ProducerStep(s: State, a: Action): State
    requires |s.buf| > 0
  {
    match (a, s.producer)
    case (LoadWrite(rec), PIdle) =>
      if |rec| < SLICE_LIMIT then s.(producer := PHaveWrite(rec, s.w), attempts := s.attempts + 1) else s
    case (LoadRead, PHaveWrite(rec, w0)) => s.(producer := PHaveBoth(rec, w0, s.r))
    case (Decide, PHaveBoth(rec, w0, r0)) =>
      if Refuses(w0, r0, rec, |s.buf|) then s.(producer := PIdle, dropped := s.dropped + 1)
      else s.(producer := PCopying(rec, w0, {}))
    case (CopyByte(k), PCopying(rec, w0, done)) =>
      if k < 4 + |rec| && (k < 4 || AllDone(done, 4)) then
        s.(buf := s.buf[(w0 + k) % |s.buf| := Frame(rec)[k]], producer := PCopying(rec, w0, done + {k}))
      else s
    case (Publish, PCopying(rec, w0, done)) =>
      if AllDone(done, 4 + |rec|) then s.(w := w0 + 4 + |rec|, producer := PIdle, accepted := s.accepted + [rec]) else s
    case (ReplaceProducer, PIdle) => s
    case (ReplaceProducer, _) => s.(producer := PIdle, abandoned := s.abandoned + 1)
    case _ => s
  }

  /** The next step of `pop_into`. */
  function ConsumerStep(s: State, a: Action): State
    requires |s.buf| > 0
  {
    match (a, s.consumer)
    case (PopLoadWrite, CIdle) => s.(consumer := CHaveWrite(s.w, |s.accepted|))
    case (PopLoadRead, CHaveWrite(w1, seen)) => s.(consumer := CHaveBoth(w1, s.r, seen))
    case (PopCheck, CHaveBoth(w1, r1, seen)) =>
      if Span(w1, r1) < 4 then s.(consumer := CIdle) else s.(consumer := CReadingLen(w1, r1, seen, map[]))
    case (ReadLenByte(k), CReadingLen(w1, r1, seen, got)) =>
      if k < 4 then s.(consumer := CReadingLen(w1, r1, seen, got[k := s.buf[(r1 + k) % |s.buf|]])) else s
    case (PopLength, CReadingLen(w1, r1, seen, got)) =>
      if Complete(got, 4) then
        var len := FromBigEndian(Gathered(got, 4));
        if Span(w1, r1) < 4 + len then s.(consumer := CIdle) else s.(consumer := CReadingBody(w1, r1, seen, len, map[]))
      else s
    case (ReadBodyByte(k), CReadingBody(w1, r1, seen, len, got)) =>
      if k < len then
        s.(consumer := CReadingBody(w1, r1, seen, len, got[k := s.buf[(r1 + 4 + k) % |s.buf|]]))
      else s
    case (Commit, CReadingBody(w1, r1, seen, len, got)) =>
      if Complete(got, len) then
        s.(r := r1 + 4 + len, consumer := CIdle, committed := s.committed + [Gathered(got, len)])
      else s
    case (ReplaceConsumer, _) => s.(consumer := CIdle)
    case _ => s
  }

  predicate AllDone(done: set<nat>, n: nat) {
    forall k: nat | k < n :: k in done
  }

  predicate Complete(got: map<nat, byte>, n: nat) {
    forall k: nat | k < n :: k in got
  }

  function Gathered(got: map<nat, byte>, n: nat): (s: seq<byte>)
    requires Complete(got, n)
    ensures |s| == n
  {
    seq(n, k requires 0 <= k < n => got[k])
  }

  function Step(s: State, a: Action): State
    requires |s.buf| > 0
  {
    ConsumerStep(ProducerStep(s, a), a)
  }

  function Exec(s: State, schedule: seq<Action>): State
    requires |s.buf| > 0
    decreases |schedule|
  {
    if schedule == [] then s else Exec(Step(s, schedule[0]), schedule[1..])
  }

  // ── The invariant ───────────────────────────────────────────────────────────

  ghost predicate SharedOk(s: State) {
    && 0 < |s.buf| < U32_SIZE
    && s.r <= s.w <= s.r + |s.buf|
    && s.committed <= s.accepted
    && (forall i | 0 <= i < |s.accepted| :: |s.accepted[i]| < U32_SIZE)
    && Window(s.buf, s.r, s.w - s.r) == Wire(s.accepted[|s.committed|..])
    && s.attempts == |s.accepted| + s.dropped + s.abandoned + (if s.producer.PIdle? then 0 else 1)
  }

  ghost predicate Laid(buf: seq<byte>, w: nat, f: seq<byte>, done: set<nat>)
    requires |buf| > 0
  {
    forall k: nat | k in done :: k < |f| && buf[(w + k) % |buf|] == f[k]
  }

  ghost predicate ProducerOk(s: State)
    requires |s.buf| > 0
  {
    match s.producer
    case PIdle => true
    case PHaveWrite(rec, w0) => w0 == s.w && |rec| < SLICE_LIMIT
    case PHaveBoth(rec, w0, r0) => w0 == s.w && r0 <= s.r && w0 <= r0 + |s.buf| && |rec| < SLICE_LIMIT
    case PCopying(rec, w0, done) =>
      && w0 == s.w
      && s.w + 4 + |rec| <= s.r + |s.buf|
      && Laid(s.buf, s.w, Frame(rec), done)
  }

  /** The loaded write offset lies at the end of the `seen`-th accepted record. */
  ghost predicate AtBoundary(s: State, w1: nat, seen: nat) {
    && |s.committed| <= seen <= |s.accepted|
    && w1 == s.r + |Wire(s.accepted[|s.committed|..seen])|
  }

  ghost predicate Matches(got: map<nat, byte>, d: seq<byte>) {
    forall k: nat | k in got :: k < |d| && got[k] == d[k]
  }

  ghost predicate ConsumerOk(s: State) {
    match s.consumer
    case CIdle => true
    case CHaveWrite(w1, seen) => AtBoundary(s, w1, seen)
    case CHaveBoth(w1, r1, seen) => AtBoundary(s, w1, seen) && r1 == s.r
    case CReadingLen(w1, r1, seen, got) =>
      && AtBoundary(s, w1, seen) && r1 == s.r
      && |s.committed| < seen
      && Matches(got, Frame(s.accepted[|s.committed|])[..4])
    case CReadingBody(w1, r1, seen, len, got) =>
      && AtBoundary(s, w1, seen) && r1 == s.r
      && |s.committed| < seen
      && len == |s.accepted[|s.committed|]|
      && Matches(got, s.accepted[|s.committed|])
  }

  ghost predicate Inv(s: State) {
    SharedOk(s) && ProducerOk(s) && ConsumerOk(s)
  }

  // ── Each step keeps it ──────────────────────────────────────────────────────

  lemma SlotsDiffer(x: nat, y: nat, cap: nat)
    requires x < y < x + cap
    ensures x % cap != y % cap
  {
    DistanceOfOffset(x, x, cap);
    DistanceOfOffset(y, x, cap);
  }

  /** A byte laid down for a record being pushed misses every byte of every unread record. */
  lemma CopyMissesUnread(s: State, rec: Record, k: nat, i: nat)
    requires Inv(s) && s.producer.PCopying? && s.producer.rec == rec
    requires k < 4 + |rec| && i < s.w - s.r
    ensures (s.producer.w0 + k) % |s.buf| != (s.r + i) % |s.buf|
  {
    SlotsDiffer(s.r + i, s.w + k, |s.buf|);
  }

  lemma WindowAfterCopy(s: State, k: nat)
    requires Inv(s) && s.producer.PCopying? && k < 4 + |s.producer.rec|
    ensures
      var buf := s.buf[(s.w + k) % |s.buf| := Frame(s.producer.rec)[k]];
      Window(buf, s.r, s.w - s.r) == Window(s.buf, s.r, s.w - s.r)
  {
    var buf := s.buf[(s.w + k) % |s.buf| := Frame(s.producer.rec)[k]];
    var a, b := Window(buf, s.r, s.w - s.r), Window(s.buf, s.r, s.w - s.r);
    forall i | 0 <= i < |a| ensures a[i] == b[i] {
      CopyMissesUnread(s, s.producer.rec, k, i);
    }
  }

  lemma LaidAfterCopy(s: State, k: nat)
    requires Inv(s) && s.producer.PCopying? && k < 4 + |s.producer.rec|
    ensures
      var f := Frame(s.producer.rec);
      Laid(s.buf[(s.w + k) % |s.buf| := f[k]], s.w, f, s.producer.done + {k})
  {
    var f := Frame(s.producer.rec);
    var buf := s.buf[(s.w + k) % |s.buf| := f[k]];
    forall j: nat | j in s.producer.done + {k} ensures j < |f| && buf[(s.w + j) % |buf|] == f[j] {
      if j < k {
        SlotsDiffer(s.w + j, s.w + k, |s.buf|);
      } else if k < j {
        SlotsDiffer(s.w + k, s.w + j, |s.buf|);
      }
    }
  }

  lemma CopyKeepsInv(s: State, k: nat)
    requires Inv(s) && s.producer.PCopying?
    ensures Inv(ProducerStep(s, CopyByte(k)))
  {
    if k < 4 + |s.producer.rec| {
      WindowAfterCopy(s, k);
      LaidAfterCopy(s, k);
    }
  }

  lemma PublishKeepsInv(s: State)
    requires Inv(s) && s.producer.PCopying?
    ensures Inv(ProducerStep(s, Publish))
  {
    if AllDone(s.producer.done, 4 + |s.producer.rec|) {
      var rec, n := s.producer.rec, s.w - s.r;
      var s', pending := ProducerStep(s, Publish), s.accepted[|s.committed|..];
      assert Window(s.buf, s.r + n, |Frame(rec)|) == Frame(rec);
      WindowSplit(s.buf, s.r, n, |Frame(rec)|);
      assert Wire(s'.accepted[|s.committed|..]) == Wire(pending) + Frame(rec) by {
        WireAppend(pending, rec);
        assert s'.accepted[|s.committed|..] == pending + [rec];
      }
      AcceptedGrows(s, s');
    }
  }

  /** A longer history leaves a pop in progress as it was. */
  lemma AcceptedGrows(s: State, s': State)
    requires ConsumerOk(s) && s.consumer == s'.consumer && s.r == s'.r && s.committed == s'.committed
    requires s.accepted <= s'.accepted
    ensures ConsumerOk(s')
  {
    if !s.consumer.CIdle? {
      var c, seen := |s.committed|, s.consumer.seen;
      assert s'.accepted[c..seen] == s.accepted[c..seen];
    }
  }

  lemma ProducerKeepsInv(s: State, a: Action)
    requires Inv(s)
    ensures Inv(ProducerStep(s, a))
  {
    if a.CopyByte? && s.producer.PCopying? {
      CopyKeepsInv(s, a.k);
    } else if a.Publish? && s.producer.PCopying? {
      PublishKeepsInv(s);
    } else {
      AcceptedGrows(s, ProducerStep(s, a));
    }
  }

  /** A write offset loaded now stands at the end of everything accepted. */
  lemma LoadedAtBoundary(s: State)
    requires SharedOk(s)
    ensures AtBoundary(s, s.w, |s.accepted|)
  {
    assert s.accepted[|s.committed|..|s.accepted|] == s.accepted[|s.committed|..];
  }

  lemma LoadedBehind(s: State, w1: nat, seen: nat)
    requires SharedOk(s) && AtBoundary(s, w1, seen)
    ensures w1 <= s.w
  {
    WireConcat(s.accepted[|s.committed|..seen], s.accepted[seen..]);
    assert s.accepted[|s.committed|..seen] + s.accepted[seen..] == s.accepted[|s.committed|..];
  }

  /** At a record boundary, four available bytes mean at least one whole record is available. */
  lemma WholeRecordAvailable(s: State, w1: nat, seen: nat)
    requires SharedOk(s) && AtBoundary(s, w1, seen) && w1 > s.r
    ensures |s.committed| < seen
    ensures w1 - s.r >= 4 + |s.accepted[|s.committed|]|
    ensures w1 <= s.w
  {
    var visible := s.accepted[|s.committed|..seen];
    assert visible != [] by { assert |Wire(visible)| > 0; }
    LoadedBehind(s, w1, seen);
  }

  lemma PendingHead(s: State)
    requires SharedOk(s) && |s.committed| < |s.accepted|
    ensures
      var rec := s.accepted[|s.committed|];
      && Window(s.buf, s.r, 4) == Frame(rec)[..4]
      && FromBigEndian(Frame(rec)[..4]) == |rec|
      && Window(s.buf, s.r + 4, |rec|) == rec
      && s.r + 4 + |rec| <= s.w
      && Window(s.buf, s.r + 4 + |rec|, s.w - (s.r + 4 + |rec|)) == Wire(s.accepted[|s.committed| + 1..])
  {
    var pending := s.accepted[|s.committed|..];
    var rec := pending[0];
    HeadOfWindow(s.buf, s.r, s.w - s.r, pending);
    assert pending[1..] == s.accepted[|s.committed| + 1..];
    FrameLength(rec);
    EncodeDecode(Window(s.buf, s.r, 4));
    EncodeDecode(Frame(rec)[..4]);
  }

  lemma LenByteIsTrue(s: State, k: nat)
    requires SharedOk(s) && |s.committed| < |s.accepted| && k < 4
    ensures s.buf[(s.r + k) % |s.buf|] == Frame(s.accepted[|s.committed|])[..4][k]
  {
    PendingHead(s);
    assert s.buf[(s.r + k) % |s.buf|] == Window(s.buf, s.r, 4)[k];
  }

  lemma BodyByteIsTrue(s: State, k: nat)
    requires SharedOk(s) && |s.committed| < |s.accepted| && k < |s.accepted[|s.committed|]|
    ensures s.buf[(s.r + 4 + k) % |s.buf|] == s.accepted[|s.committed|][k]
  {
    PendingHead(s);
    assert s.buf[(s.r + 4 + k) % |s.buf|] == Window(s.buf, s.r + 4, |s.accepted[|s.committed|]|)[k];
  }

  lemma CompleteMatch(got: map<nat, byte>, d: seq<byte>)
    requires Matches(got, d) && Complete(got, |d|)
    ensures Gathered(got, |d|) == d
  {
  }

  /** A completely read length is the length of the oldest unread record, and that record is there in full. */
  lemma LengthIsTrue(s: State)
    requires Inv(s) && s.consumer.CReadingLen? && Complete(s.consumer.got, 4)
    ensures FromBigEndian(Gathered(s.consumer.got, 4)) == |s.accepted[|s.committed|]|
    ensures Span(s.consumer.w1, s.consumer.r1) >= 4 + |s.accepted[|s.committed|]|
  {
    var c := s.consumer;
    assert s.accepted[|s.committed|..c.seen] != [];
    WireLength(s.accepted[|s.committed|..c.seen]);
    WholeRecordAvailable(s, c.w1, c.seen);
    PendingHead(s);
    CompleteMatch(c.got, Frame(s.accepted[|s.committed|])[..4]);
  }

  lemma CommitKeepsInv(s: State)
    requires Inv(s) && s.consumer.CReadingBody?
    ensures Inv(ConsumerStep(s, Commit))
  {
    if Complete(s.consumer.got, s.consumer.len) {
      var s', rec := ConsumerStep(s, Commit), s.accepted[|s.committed|];
      PendingHead(s);
      CompleteMatch(s.consumer.got, rec);
      assert s'.committed == s.accepted[..|s.committed| + 1];
    }
  }

  lemma LoadKeepsInv(s: State, a: Action)
    requires Inv(s) && (a.PopLoadWrite? || a.PopLoadRead? || a.PopCheck?)
    ensures Inv(ConsumerStep(s, a))
  {
    match (a, s.consumer)
    case (PopLoadWrite, CIdle) => LoadedAtBoundary(s);
    case (PopCheck, CHaveBoth(w1, r1, seen)) => if w1 > r1 { WholeRecordAvailable(s, w1, seen); }
    case _ =>
  }

  lemma ReadLenKeepsInv(s: State, k: nat)
    requires Inv(s) && s.consumer.CReadingLen? && k < 4
    ensures Inv(ConsumerStep(s, ReadLenByte(k)))
  {
    LenByteIsTrue(s, k);
  }

  lemma ReadBodyKeepsInv(s: State, k: nat)
    requires Inv(s) && s.consumer.CReadingBody? && k < s.consumer.len
    ensures Inv(ConsumerStep(s, ReadBodyByte(k)))
  {
    BodyByteIsTrue(s, k);
  }

  lemma LengthKeepsInv(s: State)
    requires Inv(s) && s.consumer.CReadingLen? && Complete(s.consumer.got, 4)
    ensures Inv(ConsumerStep(s, PopLength))
  {
    LengthIsTrue(s);
  }

  lemma ConsumerKeepsInv(s: State, a: Action)
    requires Inv(s)
    ensures Inv(ConsumerStep(s, a))
  {
    var s' := ConsumerStep(s, a);
    if a.PopLoadWrite? || a.PopLoadRead? || a.PopCheck? {
      LoadKeepsInv(s, a);
    } else if a.ReadLenByte? && s.consumer.CReadingLen? && a.k < 4 {
      ReadLenKeepsInv(s, a.k);
    } else if a.ReadBodyByte? && s.consumer.CReadingBody? && a.k < s.consumer.len {
      ReadBodyKeepsInv(s, a.k);
    } else if a.PopLength? && s.consumer.CReadingLen? && Complete(s.consumer.got, 4) {
      LengthKeepsInv(s);
    } else if a.Commit? && s.consumer.CReadingBody? {
      CommitKeepsInv(s);
    } else {
      assert s' == s || s' == s.(consumer := CIdle);
    }
  }

  // ── Every interleaving ──────────────────────────────────────────────────────

  lemma {:induction false} InvAlways(s: State, schedule: seq<Action>)
    requires Inv(s)
    ensures Inv(Exec(s, schedule))
    decreases |schedule|
  {
    if schedule != [] {
      ProducerKeepsInv(s, schedule[0]);
      ConsumerKeepsInv(ProducerStep(s, schedule[0]), schedule[0]);
      InvAlways(Step(s, schedule[0]), schedule[1..]);
    }
  }

  /**
   In every interleaving of one producer and one consumer, with either replaced at any step: the
   offsets stay within one lap, committed pops are a prefix of published pushes, what lies between
   the offsets is exactly the records still to come, and every push begun is accounted for.
   */
  lemma EveryInterleavingIsFifo(buf: seq<byte>, schedule: seq<Action>)
    requires 0 < |buf| < U32_SIZE
    ensures
      var s := Exec(Initial(buf), schedule);
      && |s.buf| > 0
      && s.r <= s.w <= s.r + |s.buf|
      && s.committed <= s.accepted
      && Window(s.buf, s.r, s.w - s.r) == Wire(s.accepted[|s.committed|..])
      && s.attempts == |s.accepted| + s.dropped + s.abandoned + (if s.producer.PIdle? then 0 else 1)
  {
    InvAlways(Initial(buf), schedule);
  }

  /** In every interleaving, no step of the producer changes a byte of an unread record. */
  lemma ProducerNeverTouchesUnread(buf: seq<byte>, schedule: seq<Action>, a: Action)
    requires 0 < |buf| < U32_SIZE
    ensures
      var s := Exec(Initial(buf), schedule);
      && |s.buf| > 0 && s.r <= s.w
      && |ProducerStep(s, a).buf| > 0
      && Window(ProducerStep(s, a).buf, s.r, s.w - s.r) == Window(s.buf, s.r, s.w - s.r)
  {
    InvAlways(Initial(buf), schedule);
    WindowUntouched(Exec(Initial(buf), schedule), a);
  }

  lemma WindowUntouched(s: State, a: Action)
    requires Inv(s)
    ensures
      && |ProducerStep(s, a).buf| > 0
      && Window(ProducerStep(s, a).buf, s.r, s.w - s.r) == Window(s.buf, s.r, s.w - s.r)
  {
    if a.CopyByte? && s.producer.PCopying? && a.k < 4 + |s.producer.rec| {
      WindowAfterCopy(s, a.k);
    }
  }

  /**
   In every interleaving, a pop that has read its length never finds the record incomplete: the
   second availability test in `pop_into` never refuses.
   */
  lemma LengthCheckNeverRefuses(buf: seq<byte>, schedule: seq<Action>)
    requires 0 < |buf| < U32_SIZE
    ensures
      var s := Exec(Initial(buf), schedule);
      |s.buf| > 0 &&
      (s.consumer.CReadingLen? && Complete(s.consumer.got, 4) ==>
         ConsumerStep(s, PopLength).consumer.CReadingBody?)
  {
    InvAlways(Initial(buf), schedule);
    var s := Exec(Initial(buf), schedule);
    if s.consumer.CReadingLen? && Complete(s.consumer.got, 4) {
      LengthIsTrue(s);
    }
  }
}
