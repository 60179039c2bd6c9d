/**
 Durations, sizes and decimal integers of configuration directives.

 A directive value is digits followed by a unit. The parsers accept exactly the strings whose unbounded
 meaning fits in 64 bits, and return that meaning:

 - `Value` is the number a digit string denotes; `ParseU64Ascii` accumulates it digit by digit with an
   overflow check at every step, and no prefix overflows when the whole does not.
 - `SplitUnique` and `MeaningUnique`: number and unit split in one way, whatever the units, although one
   unit can be the end of another.
 - `ParseDurationMs` tries its suffixes in the order of the source; `ParseSizeBytes` ignores case.
 */
module ConfigParse {
  import opened Bytes

  predicate IsDigit(b: byte) { 48 <= b <= 57 }

  ghost predicate AllDigits(s: seq<byte>) { forall i | 0 <= i < |s| :: IsDigit(s[i]) }

  /** The number a digit string denotes, unbounded. */
  ghost function Value(s: seq<byte>): nat
    requires AllDigits(s)
  {
    if s == [] then 0 else Value(s[..|s| - 1]) * 10 + (s[|s| - 1] - 48)
  }

  /** A number printed in decimal. */
  function Printed(n: nat): seq<byte> {
    (if n < 10 then [] else Printed(n / 10)) + [(48 + n % 10) as byte]
  }

  /** Reading undoes printing. */
  lemma {:induction false} ValueOfPrinted(n: nat)
    ensures Printed(n) != [] && AllDigits(Printed(n)) && Value(Printed(n)) == n
  {
    if n >= 10 { ValueOfPrinted(n / 10); }
    var s := Printed(n);
    assert s[..|s| - 1] == if n < 10 then [] else Printed(n / 10);
  }

  /** And printing undoes reading, for every digit string without a leading zero: nothing else is read as a number. */
  lemma {:induction false} PrintedOfValue(s: seq<byte>)
    requires s != [] && AllDigits(s) && (s[0] != 48 || |s| == 1)
    ensures Printed(Value(s)) == s && (Value(s) == 0 ==> s == [48])
  {
    var prefix, d := s[..|s| - 1], s[|s| - 1];
    assert s == prefix + [d];
    if prefix == [] {
      assert Value(s) == d - 48;
    } else {
      PrintedOfValue(prefix);
      assert Value(s) / 10 == Value(prefix) && Value(s) % 10 == d - 48;
      assert Value(prefix) > 0;
    }
  }

  lemma {:induction false} PrefixIsSmaller(s: seq<byte>, n: nat)
    requires AllDigits(s) && n <= |s|
    ensures Value(s[..n]) <= Value(s)
    decreases |s| - n
  {
    if n == |s| {
      assert s[..n] == s;
    } else {
      PrefixIsSmaller(s, n + 1);
      assert s[..n + 1][..n] == s[..n];
    }
  }

  function CheckedMul(a: u64, b: u64): Option<u64> { if a * b < U64_SIZE then Some(a * b) else None }

  function CheckedAdd(a: u64, b: u64): Option<u64> { if a + b < U64_SIZE then Some(a + b) else None }

  ghost predicate IsNumber(s: seq<byte>, v: u64) { s != [] && AllDigits(s) && Value(s) == v }

  ghost predicate IsNoNumber(s: seq<byte>) { s == [] || !AllDigits(s) || Value(s) >= U64_SIZE }

  /** Exactly the non-empty digit strings whose number fits in 64 bits; the checked steps never refuse early. */
  method ParseU64Ascii(s: seq<byte>) returns (r: Option<u64>)
    ensures r.Some? ==> IsNumber(s, r.value)
    ensures r.None? ==> IsNoNumber(s)
  {
    if s == [] {
      return None;
    }
    var v: u64 := 0;
    for i := 0 to |s|
      invariant AllDigits(s[..i]) && Value(s[..i]) == v
    {
      if !IsDigit(s[i]) {
        return None;
      }
      assert s[..i + 1][..i] == s[..i];
      var tens := CheckedMul(v, 10);
      var next := if tens.None? then None else CheckedAdd(tens.value, s[i] - 48);
      if next.None? {
        if AllDigits(s) { PrefixIsSmaller(s, i + 1); }
        return None;
      }
      v := next.value;
    }
    assert s[..|s|] == s;
    return Some(v);
  }

  // ── Units ───────────────────────────────────────────────────────────────────

  datatype Kind = Duration | Size

  const S: byte := 115
  const M: byte := 109
  const H: byte := 104
  const D: byte := 100
  const K: byte := 107
  const G: byte := 103

  function Lower(c: byte): byte { if 65 <= c <= 90 then c + 32 else c }

  predicate IsAlphabetic(c: byte) { 97 <= Lower(c) <= 122 }

  /** The multiplier a suffix stands for: milliseconds for a duration, bytes for a size. */
  function Unit(kind: Kind, suffix: seq<byte>): Option<nat> {
    match kind
    case Duration =>
      if suffix == [M, S] then Some(1)
      else if suffix == [] || suffix == [S] then Some(1_000)
      else if suffix == [M] then Some(60_000)
      else if suffix == [H] then Some(3_600_000)
      else if suffix == [D] then Some(86_400_000)
      else None
    case Size =>
      if suffix == [] then Some(1)
      else if |suffix| != 1 then None
      else if Lower(suffix[0]) == K then Some(1024)
      else if Lower(suffix[0]) == M then Some(1024 * 1024)
      else if Lower(suffix[0]) == G then Some(1024 * 1024 * 1024)
      else None
  }

  /** `s` is a digit string followed by a unit, and denotes `v` without overflow. */
  ghost predicate Denotes(kind: Kind, s: seq<byte>, digits: seq<byte>, suffix: seq<byte>, v: nat) {
    && s == digits + suffix && digits != [] && AllDigits(digits)
    && Unit(kind, suffix).Some? && v == Value(digits) * Unit(kind, suffix).value
  }

  ghost predicate Means(kind: Kind, s: seq<byte>, v: u64) {
    exists digits, suffix :: Denotes(kind, s, digits, suffix, v)
  }

  ghost predicate MeansNothing(kind: Kind, s: seq<byte>) {
    forall digits, suffix, v: nat :: Denotes(kind, s, digits, suffix, v) ==> v >= U64_SIZE
  }

  lemma UnitHasNoDigit(kind: Kind, suffix: seq<byte>)
    requires Unit(kind, suffix).Some?
    ensures |suffix| <= 2 && forall i | 0 <= i < |suffix| :: !IsDigit(suffix[i])
  {
  }

  /** The digits of a reading are the string's leading run of digits. */
  lemma LeadingRun(kind: Kind, s: seq<byte>, d: seq<byte>, u: seq<byte>, v: nat)
    requires Denotes(kind, s, d, u, v)
    ensures |d| <= |s| && d == s[..|d|] && u == s[|d|..]
    ensures forall i | 0 <= i < |d| :: IsDigit(s[i])
    ensures |d| < |s| ==> !IsDigit(s[|d|])
  {
    UnitHasNoDigit(kind, u);
    assert |d| < |s| ==> s[|d|] == u[0];
  }

  /** A string splits into number and unit in one way only. */
  lemma SplitUnique(kind: Kind, s: seq<byte>, d: seq<byte>, u: seq<byte>, v: nat, d': seq<byte>, u': seq<byte>, v': nat)
    requires Denotes(kind, s, d, u, v) && Denotes(kind, s, d', u', v')
    ensures d == d' && u == u' && v == v'
  {
    LeadingRun(kind, s, d, u, v);
    LeadingRun(kind, s, d', u', v');
  }

  /** The value read is the only one. */
  lemma MeaningUnique(kind: Kind, s: seq<byte>, v: u64, v': u64)
    requires Means(kind, s, v) && Means(kind, s, v')
    ensures v == v'
  {
    var d, u :| Denotes(kind, s, d, u, v);
    var d', u' :| Denotes(kind, s, d', u', v');
    SplitUnique(kind, s, d, u, v, d', u', v');
  }

  /** The meanings of a number with a unit are multiples of one another: `n` of the first unit are `n * k` of the second. */
  ghost predicate Worth(kind: Kind, u: seq<byte>, k: nat, w: seq<byte>) {
    forall d: seq<byte>, v: nat | AllDigits(d) && d != [] :: Denotes(kind, d + u, d, u, k * v) <==> Denotes(kind, d + w, d, w, v)
  }

  lemma WorthUnits(kind: Kind, u: seq<byte>, k: nat, w: seq<byte>)
    requires k > 0 && Unit(kind, u).Some? && Unit(kind, w).Some? && Unit(kind, u).value == k * Unit(kind, w).value
    ensures Worth(kind, u, k, w)
  {
    forall d: seq<byte>, v: nat | AllDigits(d) && d != []
      ensures Denotes(kind, d + u, d, u, k * v) <==> Denotes(kind, d + w, d, w, v)
    {
      Multiples(Value(d), k, Unit(kind, w).value, v);
    }
  }

  lemma Multiples(n: nat, k: nat, w: nat, v: nat)
    requires k > 0
    ensures k * v == n * (k * w) <==> v == n * w
  {
    assert n * (k * w) == k * (n * w);
  }

  /** A number of milliseconds means itself; a second is a thousand of them, a minute sixty seconds, an hour sixty minutes, a day 24 hours. */
  lemma DurationUnits(n: nat)
    ensures Denotes(Duration, Printed(n) + [109, 115], Printed(n), [109, 115], n)
    ensures Worth(Duration, [115], 1000, [109, 115]) && Worth(Duration, [], 1, [115])
    ensures Worth(Duration, [109], 60, [115]) && Worth(Duration, [104], 60, [109]) && Worth(Duration, [100], 24, [104])
  {
    ValueOfPrinted(n);
    WorthUnits(Duration, [115], 1000, [109, 115]);
    WorthUnits(Duration, [], 1, [115]);
    WorthUnits(Duration, [109], 60, [115]);
    WorthUnits(Duration, [104], 60, [109]);
    WorthUnits(Duration, [100], 24, [104]);
  }

  /** A bare number of bytes means itself; each unit, in either case, is 1024 of the one before. */
  lemma SizeUnits(n: nat)
    ensures Denotes(Size, Printed(n), Printed(n), [], n)
    ensures Worth(Size, [107], 1024, []) && Worth(Size, [109], 1024, [107]) && Worth(Size, [103], 1024, [109])
    ensures Worth(Size, [75], 1, [107]) && Worth(Size, [77], 1, [109]) && Worth(Size, [71], 1, [103])
  {
    ValueOfPrinted(n);
    assert Printed(n) + [] == Printed(n);
    WorthUnits(Size, [107], 1024, []);
    WorthUnits(Size, [109], 1024, [107]);
    WorthUnits(Size, [103], 1024, [109]);
    WorthUnits(Size, [75], 1, [107]);
    WorthUnits(Size, [77], 1, [109]);
    WorthUnits(Size, [71], 1, [103]);
  }

  /** These are all the units there are. */
  lemma UnitTexts(u: seq<byte>)
    ensures Unit(Duration, u).Some? <==> u == [] || u == Ascii("ms") || (|u| == 1 && u[0] in Ascii("smhd"))
    ensures Unit(Size, u).Some? <==> u == [] || (|u| == 1 && u[0] in Ascii("kmgKMG"))
  {
    assert Ascii("ms") == [109, 115];
    assert Ascii("smhd") == [115, 109, 104, 100];
    assert Ascii("kmgKMG") == [107, 109, 103, 75, 77, 71];
  }

  /** Splitting at a place that leaves a unit behind decides the reading. */
  lemma Decides(kind: Kind, s: seq<byte>, digits: seq<byte>, suffix: seq<byte>, n: Option<u64>, r: Option<u64>)
    requires s == digits + suffix && Unit(kind, suffix).Some?
    requires n.Some? ==> IsNumber(digits, n.value)
    requires n.None? ==> IsNoNumber(digits)
    requires 0 < Unit(kind, suffix).value < U64_SIZE
    requires r == if n.None? then None else CheckedMul(n.value, Unit(kind, suffix).value)
    requires suffix == [] ==> s == [] || Unit(kind, [s[|s| - 1]]).None?
    requires |suffix| == 1 && |s| >= 2 ==> Unit(kind, s[|s| - 2..]).None?
    ensures r.Some? ==> Means(kind, s, r.value)
    ensures r.None? ==> MeansNothing(kind, s)
  {
    if r.Some? {
      assert Denotes(kind, s, digits, suffix, r.value);
    } else {
      forall d, u, v: nat | Denotes(kind, s, d, u, v) ensures v >= U64_SIZE {
        SameSplit(kind, s, digits, suffix, d, u, v);
        Scaled(Value(d), Unit(kind, u).value);
      }
    }
  }

  lemma Scaled(n: nat, m: nat)
    requires m > 0
    ensures n * m >= n
  {
  }

  /** No other unit fits the end of the string. */
  lemma SameSplit(kind: Kind, s: seq<byte>, digits: seq<byte>, suffix: seq<byte>, d: seq<byte>, u: seq<byte>, v: nat)
    requires s == digits + suffix && Unit(kind, suffix).Some? && Denotes(kind, s, d, u, v)
    requires suffix == [] ==> s == [] || Unit(kind, [s[|s| - 1]]).None?
    requires |suffix| == 1 && |s| >= 2 ==> Unit(kind, s[|s| - 2..]).None?
    ensures d == digits && u == suffix
  {
    UnitHasNoDigit(kind, u);
    UnitHasNoDigit(kind, suffix);
    assert u == s[|s| - |u|..];
    assert d == s[..|d|] && digits == s[..|digits|] && suffix == s[|digits|..];
  }

  /** The number before the suffix, times its unit. */
  method Scale(ghost kind: Kind, ghost s: seq<byte>, digits: seq<byte>, ghost suffix: seq<byte>, unit: u64) returns (r: Option<u64>)
    requires s == digits + suffix && Unit(kind, suffix) == Some(unit) && unit > 0
    requires suffix == [] ==> s == [] || Unit(kind, [s[|s| - 1]]).None?
    requires |suffix| == 1 && |s| >= 2 ==> Unit(kind, s[|s| - 2..]).None?
    ensures r.Some? ==> Means(kind, s, r.value)
    ensures r.None? ==> MeansNothing(kind, s)
  {
    var n := ParseU64Ascii(digits);
    r := if n.None? then None else CheckedMul(n.value, unit);
    Decides(kind, s, digits, suffix, n, r);
  }

  // ── The parsers ─────────────────────────────────────────────────────────────

  /** A duration in milliseconds: the reading of the string when it has one in range, nothing otherwise. */
  method ParseDurationMs(s: seq<byte>) returns (r: Option<u64>)
    ensures r.Some? ==> Means(Duration, s, r.value)
    ensures r.None? ==> MeansNothing(Duration, s)
  {
    if s == [] {
      return None;
    }
    var digits, suffix, unit := s, [], 1_000;
    var last := s[|s| - 1];
    if |s| >= 2 && s[|s| - 2..] == [M, S] {
      digits, suffix, unit := s[..|s| - 2], [M, S], 1;
    } else if last == S {
      digits, suffix, unit := s[..|s| - 1], [S], 1_000;
    } else if last == M {
      digits, suffix, unit := s[..|s| - 1], [M], 60_000;
    } else if last == H {
      digits, suffix, unit := s[..|s| - 1], [H], 3_600_000;
    } else if last == D {
      digits, suffix, unit := s[..|s| - 1], [D], 86_400_000;
    }
    r := Scale(Duration, s, digits, suffix, unit);
  }

  /** A size in bytes, with a 64-bit `usize`. */
  method ParseSizeBytes(s: seq<byte>) returns (r: Option<u64>)
    ensures r.Some? ==> Means(Size, s, r.value)
    ensures r.None? ==> MeansNothing(Size, s)
  {
    if s == [] {
      return None;
    }
    var digits, suffix, unit := s, [], 1;
    var last := s[|s| - 1];
    if IsAlphabetic(last) {
      digits, suffix := s[..|s| - 1], [last];
      var c := Lower(last);
      if c == K {
        unit := 1024;
      } else if c == M {
        unit := 1024 * 1024;
      } else if c == G {
        unit := 1024 * 1024 * 1024;
      } else {
        NoUnit(s);
        return None;
      }
    }
    r := Scale(Size, s, digits, suffix, unit);
  }

  lemma NoUnit(s: seq<byte>)
    requires s != [] && IsAlphabetic(s[|s| - 1]) && Unit(Size, [s[|s| - 1]]).None?
    ensures MeansNothing(Size, s)
  {
    forall d, u, v: nat ensures !Denotes(Size, s, d, u, v) {
      if Denotes(Size, s, d, u, v) { EndsInUnit(s, d, u, v); }
    }
  }

  lemma EndsInUnit(s: seq<byte>, d: seq<byte>, u: seq<byte>, v: nat)
    requires Denotes(Size, s, d, u, v)
    ensures s != [] && (IsDigit(s[|s| - 1]) || Unit(Size, [s[|s| - 1]]).Some?)
  {
    assert u == [] ==> s[|s| - 1] == d[|d| - 1];
    assert |u| == 1 ==> u == [s[|s| - 1]];
  }
}
