/** Numeric timestamps: a string of ten to nineteen digits is read as seconds, milliseconds, microseconds or
    nanoseconds since the epoch, whichever its size suggests. */
module Epoch {
  import opened Wrappers
  import opened Ascii
  import Int64

  datatype Unit = Seconds | Milliseconds | Microseconds | Nanoseconds

  const G := 1_000_000_000

  /** How many nanoseconds make one. */
  function Scale(u: Unit): nat {
    match u
    case Seconds => G
    case Milliseconds => 1_000_000
    case Microseconds => 1_000
    case Nanoseconds => 1
  }

  /** A number is read in this unit when it exceeds the unit's threshold and none higher. */
  function Threshold(u: Unit): nat {
    match u
    case Seconds => G
    case Milliseconds => 1_000 * G
    case Microseconds => 1_000_000 * G
    case Nanoseconds => G * G
  }

  predicate AllDigits(s: string) {
    forall i :: 0 <= i < |s| ==> IsDigit(s[i])
  }

  function Digit(c: char): int { c as int - '0' as int }

  /** The number that a digit string spells. */
  function Value(s: string): int {
    if s == "" then 0 else 10 * Value(s[..|s| - 1]) + Digit(s[|s| - 1])
  }

  function Decimal(n: nat): (s: string)
    ensures s != "" && AllDigits(s)
  {
    if n < 10 then [('0' as int + n) as char] else Decimal(n / 10) + [('0' as int + n % 10) as char]
  }

  lemma {:induction false} ValueOfDecimal(n: nat)
    ensures Value(Decimal(n)) == n
  {
    if n >= 10 {
      ValueOfDecimal(n / 10);
      var s := Decimal(n);
      assert s[..|s| - 1] == Decimal(n / 10);
    } else {
      assert Decimal(n)[..0] == "";
    }
  }

  function Pow10(k: nat): nat {
    if k == 0 then 1 else 10 * Pow10(k - 1)
  }

  lemma {:induction false} LengthOfDecimal(n: nat, k: nat)
    requires k >= 1
    ensures |Decimal(n)| <= k <==> n < Pow10(k)
  {
    if n >= 10 {
      if k == 1 {
        assert Pow10(1) == 10 * Pow10(0);
      } else {
        LengthOfDecimal(n / 10, k - 1);
      }
    } else {
      PowAtLeastTen(k);
    }
  }

  lemma {:induction false} PowAtLeastTen(k: nat)
    requires k >= 1
    ensures Pow10(k) >= 10
  {
    if k > 1 {
      PowAtLeastTen(k - 1);
    }
  }

  // ------------------------------------------------------------------ the digit loop

  /** Wrapping after every operation is wrapping once at the end. */
  lemma WrapStep(v: int, d: int)
    ensures Int64.Wrap(Int64.Wrap(Int64.Wrap(v) * 10) + d) == Int64.Wrap(v * 10 + d)
  {
    var k := Int64.WrapIsCongruent(v);
    Int64.WrapOfSum(d, Int64.Wrap(v) * 10);
    Int64.WrapShift(v * 10 + d, 10 * k);
  }

  /** Refuses anything but digits, and otherwise wraps silently where the number does not fit. */
  method ParseInt(s: string) returns (r: Option<int>)
    ensures r == if AllDigits(s) then Some(Int64.Wrap(Value(s))) else None
  {
    var n := 0;
    assert s[..0] == "";
    for i := 0 to |s|
      invariant AllDigits(s[..i]) && n == Int64.Wrap(Value(s[..i]))
    {
      var c := s[i];
      if c < '0' || c > '9' {
        return None;
      }
      assert s[..i + 1][..i] == s[..i];
      WrapStep(Value(s[..i]), Digit(c));
      n := Int64.Wrap(Int64.Wrap(n * 10) + Digit(c));
    }
    assert s[..|s|] == s;
    r := Some(n);
  }

  // ------------------------------------------------------------------ unit detection

  /** The instant, in nanoseconds since the epoch, that an integer is taken for. */
  function Instant(n: int): Option<int> {
    if n > Threshold(Nanoseconds) then Some(n)
    else if n > Threshold(Microseconds) then Some(Int64.Wrap(n * 1_000))
    else if n > Threshold(Milliseconds) then Some(Int64.Wrap(n * 1_000_000))
    else if n > Threshold(Seconds) then Some(n * G)
    else None
  }

  function Numeric(v: string): Option<int> {
    if 10 <= |v| <= 19 && AllDigits(v) then Instant(Int64.Wrap(Value(v))) else None
  }

  method ParseNumeric(v: string) returns (t: Option<int>)
    ensures t == Numeric(v)
  {
    t := None;
    if |v| >= 10 && |v| <= 19 {
      var n := ParseInt(v);
      if n.Some? {
        t := Instant(n.value);
      }
    }
  }

  /** A number that is not negative and fits is read without overflow. */
  lemma NumericOfDecimal(n: nat)
    requires n <= Int64.MAX
    ensures Numeric(Decimal(n)) == Instant(n)
  {
    ValueOfDecimal(n);
    LengthOfDecimal(n, 9);
    LengthOfDecimal(n, 19);
    assert Pow10(9) == G && Pow10(19) == 10 * G * G by {
      Powers();
    }
    assert Int64.Wrap(n) == n;
  }

  lemma Powers()
    ensures Pow10(9) == G && Pow10(18) == G * G && Pow10(19) == 10 * G * G
  {
  }

  /** In figures: a number above 10^18 is taken for nanoseconds, above 10^15 for microseconds, above 10^12 for
      milliseconds, above 10^9 for seconds; the products wrap in int64. */
  lemma NumbersRead(n: nat)
    requires n <= Int64.MAX
    ensures Numeric(Decimal(n)) ==
              if n > 1_000_000_000_000_000_000 then Some(n)
              else if n > 1_000_000_000_000_000 then Some(Int64.Wrap(n * 1_000))
              else if n > 1_000_000_000_000 then Some(Int64.Wrap(n * 1_000_000))
              else if n > 1_000_000_000 then Some(n * 1_000_000_000)
              else None
  {
    NumericOfDecimal(n);
  }

  /** A string is refused if and only if it has fewer than ten or more than nineteen characters, or one that is no
      digit, or spells, wrapped to int64, at most 10^9. */
  lemma RefusedExactly(v: string)
    ensures Numeric(v).None? <==>
              || |v| < 10 || |v| > 19 || (exists i :: 0 <= i < |v| && !('0' <= v[i] <= '9'))
              || Int64.Wrap(Value(v)) <= 1_000_000_000
  {
  }

  /** Leading zeros count as characters, not for the number. */
  lemma {:induction false} LeadingZero(v: string)
    ensures Value("0" + v) == Value(v)
  {
    if v != "" {
      assert ("0" + v)[..|v|] == "0" + v[..|v| - 1];
      LeadingZero(v[..|v| - 1]);
    } else {
      assert ("0" + v)[..0] == "";
    }
  }

  /** Multiplying by a number that has an inverse modulo the modulus makes no new multiples of it. */
  lemma NoNewMultiples(n: int, factor: int, inverse: int, q: int, modulus: int)
    requires modulus > 0 && factor * inverse == 1 + modulus * q
    ensures (n * factor) % modulus == 0 ==> n % modulus == 0
  {
    if (n * factor) % modulus == 0 {
      var k := n * factor / modulus;
      calc {
        n;
        n * (1 + modulus * q) - n * (modulus * q);
        n * (factor * inverse) - n * (modulus * q);
        (n * factor) * inverse - n * (modulus * q);
        (modulus * k) * inverse - n * (modulus * q);
        modulus * (k * inverse - n * q);
      }
      MultipleHasNoRest(modulus, k * inverse - n * q);
    }
  }

  lemma MultipleHasNoRest(modulus: int, j: int)
    requires modulus > 0
    ensures (modulus * j) % modulus == 0
  {
    var r, d := (modulus * j) % modulus, modulus * j / modulus;
    assert r == modulus * (j - d);
    assert j - d >= 1 ==> modulus * (j - d) >= modulus;
    assert j - d <= -1 ==> modulus * (j - d) <= -modulus;
  }

  /** Scaling a number too small for its unit never lands on the right instant by wrapping around. */
  lemma WrongScaleShows(n: int, wrong: int, right: int)
    requires 0 < n <= G * G
    requires (wrong, right) in {(1_000_000, 1_000), (1_000, 1), (1_000_000, 1)}
    requires wrong == 1_000_000 && right == 1_000 ==> n <= 1_000_000 * G
    ensures Int64.Wrap(n * wrong) != n * right
  {
    hide Int64.Wrap;
    Unwrapped(n * wrong, n * right);
    if right == 1_000 {
      NoNewMultiples(n, 124_875, 1_622_390_218_022_290_915, 87_862, Int64.MODULUS / 8);
      EighthOfMultiple(n * 124_875);
      assert n * 1_000_000 - n * 1_000 == 8 * (n * 124_875);
    } else if wrong == 1_000 {
      NoNewMultiples(n, 999, 13_719_650_497_263_460_311, 743, Int64.MODULUS);
      assert n * 1_000 - n * 1 == n * 999;
    } else {
      NoNewMultiples(n, 999_999, 1_672_254_362_768_354_751, 90_653, Int64.MODULUS);
      assert n * 1_000_000 - n * 1 == n * 999_999;
    }
  }

  lemma Unwrapped(x: int, y: int)
    ensures Int64.Wrap(x) == y ==> (x - y) % Int64.MODULUS == 0
  {
  }

  lemma EighthOfMultiple(a: int)
    ensures (8 * a) % Int64.MODULUS == 0 ==> a % (Int64.MODULUS / 8) == 0
  {
  }

  /** What an integer spelling `t` in a unit is taken for, when it is too small for that unit. */
  lemma TooSmallMisread(n: nat, u: Unit)
    requires n <= Threshold(u)
    ensures Instant(n) != Some(n * Scale(u))
  {
    if n > Threshold(Microseconds) {
      WrongScaleShows(n, 1_000, 1);
    } else if n > Threshold(Milliseconds) {
      WrongScaleShows(n, 1_000_000, Scale(u));
    }
  }

  /** Spelling an instant in a unit and reading it back gives the instant up to the unit's truncation exactly
      when the spelled number exceeds the unit's threshold. */
  lemma SpellingReadBackExactly(t: nat, u: Unit)
    requires t <= Int64.MAX
    ensures var n := t / Scale(u);
            Numeric(Decimal(n)) == Some(n * Scale(u)) <==> n > Threshold(u)
  {
    hide Numeric, Decimal;
    var n := t / Scale(u);
    Truncated(t, u);
    NumericOfDecimal(n);
    if n <= Threshold(u) {
      TooSmallMisread(n, u);
    }
  }

  lemma Truncated(t: nat, u: Unit)
    ensures var n := t / Scale(u); n * Scale(u) <= t < n * Scale(u) + Scale(u) && n <= t
  {
  }

  /** All four spellings of any instant from the second after 10^9 seconds on give that instant, each within
      its unit. */
  lemma SpellingsAgree(t: nat, u: Unit)
    requires (G + 1) * G <= t <= Int64.MAX
    ensures var r := Numeric(Decimal(t / Scale(u))); r.Some? && r.value <= t < r.value + Scale(u)
  {
    SpellingReadBackExactly(t, u);
    Truncated(t, u);
  }

  /** The thresholds are strict: the ten digits of 10^9 seconds are not taken for seconds. */
  lemma BillionthSecondRefused()
    ensures |Decimal(G)| == 10 && Numeric(Decimal(G)) == None
  {
    NumericOfDecimal(G);
    LengthOfDecimal(G, 9);
    LengthOfDecimal(G, 10);
    Powers();
    assert Pow10(10) == 10 * Pow10(9);
  }
}
