/**
 Two messages that collide. The hash is 64 bits wide, so such pairs exist; this one is named and evaluated
 round by round, and with it every pair of lines whose messages are these two with one common text behind.

 - The exclusive or of the model, by halving, is the machine's on bytes, and a byte changes only the low
   byte of a larger number (`XorIsBitwise`, `XorLow`). So one round can be evaluated on the high part and
   the low byte of the running hash.
 - A run lists the running hash and the byte about to be mixed in, point by point; a run that spells a text
   gives its hash (`FnvOfRun`, `HashOfRun`).
 - The pair: the two runs meet (`RunsMeet`), whatever follows (`ShareHash`), so lines with these messages
   collide and break the conservation law.
 */
module CollidingLines {
  import opened Bytes
  import opened StableCore
  import opened Ring
  import opened CoalesceTable
  import opened DrainAccounting
  import opened Collisions

  // ── Exclusive or on machine bytes ───────────────────────────────────────────

  lemma Halves(a: bv8)
    ensures a as nat / 2 == (a >> 1) as nat && a as nat % 2 == (a & 1) as nat
  {
  }

  lemma XorOfHalves(a: bv8, b: bv8)
    ensures (a ^ b) >> 1 == (a >> 1) ^ (b >> 1) && (a ^ b) & 1 == (a & 1) ^ (b & 1)
  {
  }

  lemma XorOfBits(a: bv8, b: bv8)
    ensures ((a & 1) ^ (b & 1)) as nat == if (a & 1) as nat == (b & 1) as nat then 0 else 1
  {
  }

  lemma XorHalved(a: bv8, b: bv8)
    ensures (a ^ b) as nat == 2 * ((a >> 1) ^ (b >> 1)) as nat + if a as nat % 2 == b as nat % 2 then 0 else 1
  {
    Halves(a);
    Halves(b);
    Halves(a ^ b);
    XorOfHalves(a, b);
    XorOfBits(a, b);
  }

  /** One bit off two bytes and their exclusive or. */
  lemma Split(a: bv8, b: bv8) returns (a': bv8, b': bv8, x: nat)
    ensures a' as nat == a as nat / 2 && b' as nat == b as nat / 2 && x == (a' ^ b') as nat
    ensures (a ^ b) as nat == 2 * x + if a as nat % 2 == b as nat % 2 then 0 else 1
  {
    Halves(a);
    Halves(b);
    XorHalved(a, b);
    a', b', x := a >> 1, b >> 1, ((a >> 1) ^ (b >> 1)) as nat;
  }

  lemma ZeroByte(a: bv8)
    requires a as nat == 0
    ensures a == 0
  {
  }

  lemma XorFromHalves(n: nat, m: nat, half: nat, x: nat)
    requires Xor(n / 2, m / 2) == half && x == 2 * half + if n % 2 == m % 2 then 0 else 1
    ensures Xor(n, m) == x
  {
    XorHalves(n, m);
  }

  /** The arithmetic exclusive or is the machine's on bytes. */
  lemma {:induction false} XorIsBitwise(a: bv8, b: bv8, n: nat, m: nat, k: nat)
    requires n == a as nat && m == b as nat && n < Pow2(k) && m < Pow2(k)
    ensures Xor(n, m) == (a ^ b) as nat
    decreases k
  {
    if k == 0 {
      ZeroByte(a);
      ZeroByte(b);
    } else {
      var a', b', x := Split(a, b);
      XorIsBitwise(a', b', n / 2, m / 2, k - 1);
      XorFromHalves(n, m, x, (a ^ b) as nat);
    }
  }

  /** The number shifted left by `k` bits. */
  function Shift(q: nat, k: nat): nat { if k == 0 then q else 2 * Shift(q, k - 1) }

  lemma XorOneUp(high: nat, low: nat, b: nat)
    requires Xor(high + low / 2, b / 2) == high + Xor(low / 2, b / 2)
    ensures Xor(2 * high + low, b) == 2 * high + Xor(low, b)
  {
    XorHalves(low, b);
    assert (2 * high + low) / 2 == high + low / 2 && (2 * high + low) % 2 == low % 2;
    XorHalves(2 * high + low, b);
  }

  /** A small operand changes the low bits only. */
  lemma {:induction false} XorLow(q: nat, low: nat, b: nat, k: nat)
    requires low < Pow2(k) && b < Pow2(k)
    ensures Xor(Shift(q, k) + low, b) == Shift(q, k) + Xor(low, b)
    decreases k
  {
    if k > 0 {
      XorLow(q, low / 2, b / 2, k - 1);
      XorOneUp(Shift(q, k - 1), low, b);
    }
  }

  lemma ByteShift(q: nat)
    ensures Pow2(8) == 256 && Shift(q, 8) == q * 256
  {
    assert Pow2(1) == 2 && Shift(q, 1) == q * 2;
    assert Pow2(2) == 4 && Shift(q, 2) == q * 4;
    assert Pow2(4) == 16 && Shift(q, 4) == q * 16;
    assert Pow2(6) == 64 && Shift(q, 6) == q * 64;
  }

  // ── Evaluating the hash ─────────────────────────────────────────────────────

  /** A running hash, as its high part and its low byte, and the byte about to be mixed in. */
  datatype Point = Point(high: nat, low: bv8, next: bv8)

  function Hash(p: Point): nat { p.high * 256 + p.low as nat }

  /** One round, in machine arithmetic. */
  predicate Step(p: Point, q: Point) {
    Hash(q) == (p.high * 256 + (p.low ^ p.next) as nat) * PRIME % U64_SIZE
  }

  ghost predicate Runs(run: seq<Point>, n: nat) {
    |run| == n + 1 && forall i | 0 <= i < n :: Step(run[i], run[i + 1])
  }

  ghost predicate Spells(run: seq<Point>, s: Line) {
    |run| == |s| + 1 && forall i | 0 <= i < |s| :: run[i].next as nat == s[i] as nat
  }

  lemma RoundWith(high: nat, low: nat, b: byte, x: nat)
    requires low < 256 && Xor(low, b as nat) == x
    ensures Round(high * 256 + low, b) == (high * 256 + x) * PRIME % U64_SIZE
  {
    ByteShift(high);
    XorLow(high, low, b as nat, 8);
  }

  lemma XorOfBytes(a: bv8, b: bv8)
    ensures Xor(a as nat, b as nat) == (a ^ b) as nat
  {
    ByteShift(0);
    XorIsBitwise(a, b, a as nat, b as nat, 8);
  }

  lemma StepIsRound(p: Point, q: Point, b: byte)
    requires Step(p, q) && p.next as nat == b as nat
    ensures Round(Hash(p), b) == Hash(q)
  {
    XorOfBytes(p.low, p.next);
    RoundWith(p.high, p.low as nat, b, (p.low ^ p.next) as nat);
  }

  lemma {:induction false} FnvOfHashes(s: Line, hs: seq<nat>)
    requires |hs| == |s| + 1 && forall i | 0 <= i < |s| :: Round(hs[i], s[i]) == hs[i + 1]
    ensures Fnv(hs[0], s) == hs[|s|]
    decreases |s|
  {
    if s != [] { FnvOfHashes(s[1..], hs[1..]); }
  }

  lemma FnvOfRun(run: seq<Point>, s: Line)
    requires Runs(run, |s|) && Spells(run, s)
    ensures Fnv(Hash(run[0]), s) == Hash(run[|s|])
  {
    var hs := seq(|run|, i requires 0 <= i < |run| => Hash(run[i]));
    forall i | 0 <= i < |s| ensures Round(hs[i], s[i]) == hs[i + 1] {
      StepIsRound(run[i], run[i + 1], s[i]);
    }
    FnvOfHashes(s, hs);
  }

  lemma {:induction false} FnvConcat(h: nat, s: Line, t: Line)
    ensures Fnv(h, s + t) == Fnv(Fnv(h, s), t)
    decreases |s|
  {
    if s == [] {
      assert s + t == t;
    } else {
      assert (s + t)[1..] == s[1..] + t;
      FnvConcat(Round(h, s[0]), s[1..], t);
    }
  }

  // ── The pair ────────────────────────────────────────────────────────────────

  const ERROR_LEVEL: byte := 4
  const WARN_LEVEL: byte := 5

  /** "vksAAswrkswcn" */
  const FIRST: Line := [118, 107, 115, 65, 65, 115, 119, 114, 107, 115, 119, 99, 110]

  /** "BhalFioqzfgaa" */
  const SECOND: Line := [66, 104, 97, 108, 70, 105, 111, 113, 122, 102, 103, 97, 97]

  function FirstPoint(i: nat): Point {
    match i
    case 0 => Point(57406175934947875, 37, 4)
    case 1 => Point(49367768428315057, 19, 118)
    case 2 => Point(2292765341048942, 159, 107)
    case 3 => Point(51718995859561608, 156, 115)
    case 4 => Point(41840117011725486, 29, 65)
    case 5 => Point(59017411305610310, 84, 65)
    case 6 => Point(28028795794295573, 175, 115)
    case 7 => Point(17913037489559076, 212, 119)
    case 8 => Point(70227079376330816, 249, 114)
    case 9 => Point(59481017150279084, 49, 107)
    case 10 => Point(9414877999545308, 238, 115)
    case 11 => Point(5038660134221790, 199, 119)
    case 12 => Point(9786511444373349, 16, 99)
    case 13 => Point(37089697075186018, 105, 110)
    case _ => Point(13772618714231185, 229, 0)
  }

  function FirstRun(): seq<Point> { seq(15, i requires 0 <= i < 15 => FirstPoint(i)) }

  lemma FirstEarly(i: nat)
    requires i < 7
    ensures Step(FirstPoint(i), FirstPoint(i + 1))
  {
  }

  lemma FirstLate(i: nat)
    requires 7 <= i < 14
    ensures Step(FirstPoint(i), FirstPoint(i + 1))
  {
  }

  lemma FirstRuns()
    ensures Runs(FirstRun(), 14)
  {
    forall i | 0 <= i < 14 ensures Step(FirstRun()[i], FirstRun()[i + 1]) {
      if i < 7 { FirstEarly(i); } else { FirstLate(i); }
    }
  }

  lemma FirstSpells()
    ensures Spells(FirstRun(), [ERROR_LEVEL] + FIRST) && Hash(FirstRun()[0]) == OFFSET_BASIS
  {
  }

  function SecondPoint(i: nat): Point {
    match i
    case 0 => Point(57406175934947875, 37, 5)
    case 1 => Point(49367764133347759, 96, 66)
    case 2 => Point(2288410244209814, 198, 104)
    case 3 => Point(48742308645098505, 170, 97)
    case 4 => Point(5597481974779043, 241, 108)
    case 5 => Point(6518454674536963, 199, 70)
    case 6 => Point(41611017179272180, 51, 105)
    case 7 => Point(55981858424186932, 238, 111)
    case 8 => Point(25972755935007031, 51, 113)
    case 9 => Point(62009993022750949, 38, 122)
    case 10 => Point(43073376520848827, 84, 102)
    case 11 => Point(21571933523770645, 246, 103)
    case 12 => Point(51511942512872357, 99, 97)
    case 13 => Point(37089697075186018, 102, 97)
    case _ => Point(13772618714231185, 229, 0)
  }

  function SecondRun(): seq<Point> { seq(15, i requires 0 <= i < 15 => SecondPoint(i)) }

  lemma SecondEarly(i: nat)
    requires i < 7
    ensures Step(SecondPoint(i), SecondPoint(i + 1))
  {
  }

  lemma SecondLate(i: nat)
    requires 7 <= i < 14
    ensures Step(SecondPoint(i), SecondPoint(i + 1))
  {
  }

  lemma SecondRuns()
    ensures Runs(SecondRun(), 14)
  {
    forall i | 0 <= i < 14 ensures Step(SecondRun()[i], SecondRun()[i + 1]) {
      if i < 7 { SecondEarly(i); } else { SecondLate(i); }
    }
  }

  lemma SecondSpells()
    ensures Spells(SecondRun(), [WARN_LEVEL] + SECOND) && Hash(SecondRun()[0]) == OFFSET_BASIS
  {
  }

  lemma RunsMeet()
    ensures Hash(FirstRun()[14]) == Hash(SecondRun()[14])
  {
  }

  /** A run that spells severity and text gives the hash of the text with anything behind it. */
  lemma HashOfRun(run: seq<Point>, severity: byte, text: Line, tail: Line)
    requires Runs(run, |text| + 1) && Spells(run, [severity] + text) && Hash(run[0]) == OFFSET_BASIS
    ensures RawHash(severity, text + tail) == Fnv(Hash(run[|text| + 1]), tail)
  {
    FnvOfRun(run, [severity] + text);
    assert ([severity] + text)[1..] == text;
    FnvConcat(Round(OFFSET_BASIS, severity), text, tail);
  }

  /** With any common text behind, the two messages share a hash at these two levels. */
  lemma ShareHash(tail: Line)
    ensures RawHash(ERROR_LEVEL, FIRST + tail) == RawHash(WARN_LEVEL, SECOND + tail)
  {
    FirstRuns();
    FirstSpells();
    SecondRuns();
    SecondSpells();
    RunsMeet();
    HashOfRun(FirstRun(), ERROR_LEVEL, FIRST, tail);
    HashOfRun(SecondRun(), WARN_LEVEL, SECOND, tail);
  }

  /** Any two lines with these messages, whatever their time, process, connection and client, collide. */
  lemma LinesCollide(p1: Parts, p2: Parts, tail: Line, ts1: u64, ts2: u64)
    requires WellShaped(p1) && WellShaped(p2) && p1.core == FIRST + tail && p2.core == SECOND + tail
    ensures Collide(Message(ERROR_LEVEL, Join(p1), ts1), Message(WARN_LEVEL, Join(p2), ts2), true)
  {
    CoreOfWellShaped(p1);
    CoreOfWellShaped(p2);
    ShareHash(tail);
  }

  /** Logged once and twice into an empty table and a ring with room, they break the conservation law. */
  lemma LinesBreakConservation(st: LogState, p1: Parts, p2: Parts, tail: Line, ts1: u64, ts2: u64) returns (vec: seq<Swept>)
    requires WellShaped(p1) && WellShaped(p2) && p1.core == FIRST + tail && p2.core == SECOND + tail
    requires st.table == map[] && st.ring.records == []
    requires Cost(Message(ERROR_LEVEL, Join(p1), ts1)) + Cost(Message(WARN_LEVEL, Join(p2), ts2)) <= st.ring.cap
    ensures
      var m1, m2 := Message(ERROR_LEVEL, Join(p1), ts1), Message(WARN_LEVEL, Join(p2), ts2);
      Drains(st, [m1, m2, m2], true, vec, 2) && !Conserves(st, [m1, m2, m2], true, vec, 2)
  {
    LinesCollide(p1, p2, tail, ts1, ts2);
    vec := CollisionBreaks(st, Message(ERROR_LEVEL, Join(p1), ts1), Message(WARN_LEVEL, Join(p2), ts2), true);
  }
}
