/**
 * Go's 64-bit `int` and the parts of `strconv.Atoi` the handlers rely on.
 * Dafny integers are unbounded, so the wrap-around of Go arithmetic and the
 * clamping of out-of-range decimal strings are written out here.
 */
module GoInt {

  const MinInt64: int := -0x8000_0000_0000_0000
  const MaxInt64: int := 0x7FFF_FFFF_FFFF_FFFF
  const Modulus64: int := 0x1_0000_0000_0000_0000

  /** A value of Go's `int` on a 64-bit platform. */
  type Int64 = x: int | MinInt64 <= x <= MaxInt64

  /** Two's-complement wrap-around, as Go's `+`, `-` and `*` on `int` do. */
  function Wrap64(x: int): (r: Int64)
    ensures MinInt64 <= x <= MaxInt64 ==> r == x
    ensures (x - r) % Modulus64 == 0
  {
    (x - MinInt64) % Modulus64 + MinInt64
  }

  /** Multiplying two values congruent modulo 2^64 by the same factor keeps them congruent. */
  lemma CongruentTimes(a: int, b: int, c: int)
    requires (a - b) % Modulus64 == 0
    ensures (a * c - b * c) % Modulus64 == 0
  {
    var k := (a - b) / Modulus64;
    assert a - b == Modulus64 * k;
    assert a * c - b * c == Modulus64 * (k * c);
  }

  lemma CongruentTrans(a: int, b: int, c: int)
    requires (a - b) % Modulus64 == 0 && (b - c) % Modulus64 == 0
    ensures (a - c) % Modulus64 == 0
  {
    var k, l := (a - b) / Modulus64, (b - c) / Modulus64;
    assert a - c == Modulus64 * (k + l);
  }

  /** Two `int` values congruent modulo 2^64 are equal. */
  lemma CongruentInRange(a: Int64, b: Int64)
    requires (a - b) % Modulus64 == 0
    ensures a == b
  {
  }

  /** The value `strconv.ParseInt` settles on when a decimal string is out of range. */
  function Clamp64(x: int): (r: Int64)
    ensures MinInt64 <= x <= MaxInt64 ==> r == x
    ensures x > MaxInt64 ==> r == MaxInt64
    ensures x < MinInt64 ==> r == MinInt64
  {
    if x > MaxInt64 then MaxInt64 else if x < MinInt64 then MinInt64 else x
  }

  predicate IsDigit(c: char) {
    '0' <= c <= '9'
  }

  predicate AllDigits(s: string) {
    forall i :: 0 <= i < |s| ==> IsDigit(s[i])
  }

  function DigitValue(c: char): (d: nat)
    requires IsDigit(c)
    ensures d < 10
  {
    (c as int) - ('0' as int)
  }

  function DigitChar(d: nat): (c: char)
    requires d < 10
    ensures IsDigit(c) && DigitValue(c) == d
  {
    ('0' as int + d) as char
  }

  /** The number a string of decimal digits denotes, read most significant digit first. */
  function DigitsValue(s: string): nat
    requires AllDigits(s)
    decreases |s|
  {
    if s == [] then 0 else DigitsValue(s[..|s| - 1]) * 10 + DigitValue(s[|s| - 1])
  }

  predicate HasSign(s: string) {
    |s| > 0 && (s[0] == '+' || s[0] == '-')
  }

  /** The digits of a decimal string, after its optional sign. */
  function Magnitude(s: string): (m: string)
    ensures |m| <= |s|
  {
    if HasSign(s) then s[1..] else s
  }

  /** An optional `+` or `-` followed by at least one ASCII digit, and nothing else. */
  predicate WellFormedDecimal(s: string) {
    |Magnitude(s)| > 0 && AllDigits(Magnitude(s))
  }

  const MaxUint64: int := 0xFFFF_FFFF_FFFF_FFFF

  /** The longest prefix of `s` made of decimal digits. */
  function LeadingDigits(s: string): (p: string)
    ensures p <= s && AllDigits(p)
    ensures |p| < |s| ==> !IsDigit(s[|p|])
    ensures AllDigits(s) ==> p == s
  {
    if s == [] || !IsDigit(s[0]) then []
    else
      var rest := LeadingDigits(s[1..]);
      assert s == [s[0]] + s[1..];
      [s[0]] + rest
  }

  /**
   * The digits before the first non-digit already exceed the unsigned 64-bit
   * range, so the digit scan stops there with a range error and never reaches
   * whatever follows.
   */
  predicate OverflowsRange(s: string) {
    DigitsValue(LeadingDigits(Magnitude(s))) > MaxUint64
  }

  /**
   * `strconv.Atoi` with its error discarded: a string whose leading digits
   * overflow gives the 64-bit bound of its sign, whatever follows them; any
   * other malformed string gives 0; a well-formed one its value, clamped to
   * the 64-bit range.
   */
  function Atoi(s: string): (r: Int64)
    ensures OverflowsRange(s) ==> |s| > 0 && r == if s[0] == '-' then MinInt64 else MaxInt64
    ensures !WellFormedDecimal(s) && !OverflowsRange(s) ==> r == 0
    ensures WellFormedDecimal(s) ==> r == Clamp64(if s[0] == '-' then -(DigitsValue(Magnitude(s)) as int) else DigitsValue(Magnitude(s)))
    ensures s == "" ==> r == 0
  {
    if OverflowsRange(s) then
      if s[0] == '-' then MinInt64 else MaxInt64
    else if !WellFormedDecimal(s) then 0
    else
      var n: int := DigitsValue(Magnitude(s));
      Clamp64(if s[0] == '-' then -n else n)
  }

  // ---------------------------------------------------------------------------
  // The library's own algorithm, step by step, as an independent reference.

  /** How `strconv.ParseUint` ends: a value, a syntax error or a range error. */
  datatype UintScan = Value(n: nat) | SyntaxError | RangeError

  /**
   * The digit loop of `ParseUint` in base 10, from the value `n` of the digits
   * read so far: a non-digit is a syntax error; a digit that takes the value
   * past 2^64 - 1 is a range error, reported at once.
   */
  function ScanDigits(s: string, n: nat): UintScan
    requires n <= MaxUint64
    decreases |s|
  {
    if s == [] then Value(n)
    else if !IsDigit(s[0]) then SyntaxError
    else if n * 10 + DigitValue(s[0]) > MaxUint64 then RangeError
    else ScanDigits(s[1..], n * 10 + DigitValue(s[0]))
  }

  function ParseUint(s: string): UintScan {
    if s == [] then SyntaxError else ScanDigits(s, 0)
  }

  /**
   * `strconv.ParseInt(s, 10, 64)` with its error discarded: one sign, then
   * `ParseUint` on the rest; a syntax error gives 0, a range error or an
   * unsigned value beyond the signed range the bound of the sign.
   */
  function ParseInt(s: string): Int64 {
    if s == [] then 0
    else
      var neg := s[0] == '-';
      match ParseUint(Magnitude(s))
      case SyntaxError => 0
      case RangeError => if neg then MinInt64 else MaxInt64
      case Value(un) =>
        if !neg && un > MaxInt64 then MaxInt64
        else if neg && un > -MinInt64 then MinInt64
        else if neg then -(un as int) else un
  }

  /**
   * `strconv.Atoi` on a 64-bit platform: strings of 1 to 18 characters take a
   * direct digit loop, which cannot overflow; all others go through `ParseInt`.
   * (The library counts bytes, not characters; the two paths agree wherever
   * both apply, so the difference does not change the value.)
   */
  function StrconvAtoi(s: string): int {
    if 0 < |s| < 19 then
      var m := Magnitude(s);
      if m == [] || !AllDigits(m) then 0
      else if s[0] == '-' then -(DigitsValue(m) as int) else DigitsValue(m)
    else ParseInt(s)
  }

  function Pow10(k: nat): (p: nat)
    ensures p >= 1
  {
    if k == 0 then 1 else 10 * Pow10(k - 1)
  }

  lemma {:induction false} DigitsValueBelow(s: string)
    requires AllDigits(s)
    ensures DigitsValue(s) < Pow10(|s|)
    decreases |s|
  {
    if s != [] {
      DigitsValueBelow(s[..|s| - 1]);
    }
  }

  /** Extending a string of digits never lowers its value. */
  lemma {:induction false} DigitsValuePrefix(s: string, j: nat)
    requires AllDigits(s) && j <= |s|
    ensures AllDigits(s[..j]) && DigitsValue(s[..j]) <= DigitsValue(s)
    decreases |s| - j
  {
    if j < |s| {
      var t := s[..|s| - 1];
      DigitsValuePrefix(t, j);
      assert t[..j] == s[..j];
    } else {
      assert s[..j] == s;
    }
  }

  lemma DigitsValueSnoc(s: string, k: nat)
    requires k < |s| && AllDigits(s[..k + 1])
    ensures AllDigits(s[..k]) && IsDigit(s[k])
    ensures DigitsValue(s[..k + 1]) == DigitsValue(s[..k]) * 10 + DigitValue(s[k])
  {
    assert s[..k + 1][..k] == s[..k];
    assert s[..k + 1][k] == s[k];
  }

  /** The leading run ends at the first non-digit. */
  lemma LeadingDigitsAt(s: string, k: nat)
    requires k <= |s| && AllDigits(s[..k])
    ensures |LeadingDigits(s)| >= k && LeadingDigits(s)[..k] == s[..k]
    ensures k < |s| && !IsDigit(s[k]) ==> LeadingDigits(s) == s[..k]
    ensures k == |s| ==> LeadingDigits(s) == s
  {
    var p := LeadingDigits(s);
  }

  /** Where the digit loop ends on `m`, in closed form. */
  function ScanResult(m: string): UintScan {
    if DigitsValue(LeadingDigits(m)) > MaxUint64 then RangeError
    else if !AllDigits(m) then SyntaxError
    else Value(DigitsValue(m))
  }

  /** The digit loop, started after `k` digits, ends as the closed form says. */
  lemma {:induction false} ScanFrom(m: string, k: nat)
    requires k <= |m| && AllDigits(m[..k]) && DigitsValue(m[..k]) <= MaxUint64
    ensures ScanDigits(m[k..], DigitsValue(m[..k])) == ScanResult(m)
    decreases |m| - k
  {
    if k == |m| {
      assert m[..k] == m;
    } else if !IsDigit(m[k]) {
      ScanStopsAtJunk(m, k);
    } else if DigitsValue(m[..k]) * 10 + DigitValue(m[k]) > MaxUint64 {
      ScanOverflows(m, k);
    } else {
      ScanStep(m, k);
      ScanFrom(m, k + 1);
    }
  }

  lemma ScanStopsAtJunk(m: string, k: nat)
    requires k < |m| && AllDigits(m[..k]) && DigitsValue(m[..k]) <= MaxUint64 && !IsDigit(m[k])
    ensures ScanDigits(m[k..], DigitsValue(m[..k])) == ScanResult(m) == SyntaxError
  {
    LeadingDigitsAt(m, k);
    assert m[k..][0] == m[k];
  }

  lemma DigitsExtend(m: string, k: nat)
    requires k < |m| && AllDigits(m[..k]) && IsDigit(m[k])
    ensures AllDigits(m[..k + 1])
    ensures DigitsValue(m[..k + 1]) == DigitsValue(m[..k]) * 10 + DigitValue(m[k])
  {
    var t := m[..k + 1];
    forall i | 0 <= i < k + 1 ensures IsDigit(t[i]) {
      if i < k { assert t[i] == m[..k][i]; }
    }
    DigitsValueSnoc(m, k);
  }

  lemma ScanOverflows(m: string, k: nat)
    requires k < |m| && AllDigits(m[..k]) && DigitsValue(m[..k]) <= MaxUint64 && IsDigit(m[k])
    requires DigitsValue(m[..k]) * 10 + DigitValue(m[k]) > MaxUint64
    ensures ScanDigits(m[k..], DigitsValue(m[..k])) == ScanResult(m) == RangeError
  {
    assert m[k..][0] == m[k];
    DigitsExtend(m, k);
    LeadingDigitsAt(m, k + 1);
    DigitsValuePrefix(LeadingDigits(m), k + 1);
  }

  lemma ScanStep(m: string, k: nat)
    requires k < |m| && AllDigits(m[..k]) && DigitsValue(m[..k]) <= MaxUint64 && IsDigit(m[k])
    requires DigitsValue(m[..k]) * 10 + DigitValue(m[k]) <= MaxUint64
    ensures AllDigits(m[..k + 1]) && DigitsValue(m[..k + 1]) <= MaxUint64
    ensures ScanDigits(m[k..], DigitsValue(m[..k])) == ScanDigits(m[k + 1..], DigitsValue(m[..k + 1]))
  {
    assert m[k..][0] == m[k];
    assert m[k..][1..] == m[k + 1..];
    DigitsExtend(m, k);
  }

  /** Atoi's closed form is what the library's `ParseInt` computes, on every string. */
  lemma AtoiIsParseInt(s: string)
    ensures Atoi(s) == ParseInt(s)
  {
    if s != [] {
      var m := Magnitude(s);
      if m != [] {
        assert m[..0] == [];
        ScanFrom(m, 0);
        assert m[0..] == m;
      }
    }
  }

  /** Atoi's closed form is what the library's fast path computes on a short string. */
  lemma AtoiFastPath(s: string)
    requires 0 < |s| < 19
    ensures Atoi(s) == StrconvAtoi(s)
  {
    var m := Magnitude(s);
    var p := LeadingDigits(m);
    DigitsValueBelow(p);
    Pow10Eighteen();
    PowMono(|p|, 18);
    if AllDigits(m) {
      DigitsValueBelow(m);
      PowMono(|m|, 18);
    }
  }

  lemma Pow10Eighteen()
    ensures Pow10(18) == 1_000_000_000_000_000_000
  {
    assert Pow10(3) == 1_000;
    assert Pow10(6) == 1_000_000;
    assert Pow10(9) == 1_000_000_000;
    assert Pow10(12) == 1_000_000_000_000;
    assert Pow10(15) == 1_000_000_000_000_000;
  }

  lemma {:induction false} PowMono(a: nat, b: nat)
    requires a <= b
    ensures Pow10(a) <= Pow10(b)
    decreases b
  {
    if a < b {
      PowMono(a, b - 1);
    }
  }

  /** So Atoi is `strconv.Atoi` with its error discarded, on every string. */
  lemma AtoiIsStrconv(s: string)
    ensures Atoi(s) == StrconvAtoi(s)
  {
    if 0 < |s| < 19 {
      AtoiFastPath(s);
    } else {
      AtoiIsParseInt(s);
    }
  }

  /** Junk after digits that already overflow is never looked at: the value is the largest `int`. */
  lemma OverflowBeforeJunk(n: nat, junk: string)
    requires n > MaxUint64 && junk != [] && !IsDigit(junk[0])
    ensures Atoi(Decimal(n) + junk) == MaxInt64
  {
    var s := Decimal(n) + junk;
    DecimalDenotes(n);
    assert s[0] == Decimal(n)[0];
    assert Magnitude(s) == s;
    assert s[..|Decimal(n)|] == Decimal(n);
    LeadingDigitsAt(s, |Decimal(n)|);
  }

  /** The shortest decimal spelling of a natural number. */
  function Decimal(n: nat): (s: string)
    decreases n
  {
    if n < 10 then [DigitChar(n)] else Decimal(n / 10) + [DigitChar(n % 10)]
  }

  lemma {:induction false} DecimalDenotes(n: nat)
    ensures |Decimal(n)| > 0 && AllDigits(Decimal(n))
    ensures DigitsValue(Decimal(n)) == n
    decreases n
  {
    if n >= 10 {
      DecimalDenotes(n / 10);
      var s := Decimal(n);
      assert s[..|s| - 1] == Decimal(n / 10);
    }
  }

  /** Atoi reads back every non-negative `int` written in decimal. */
  lemma AtoiDecimal(n: nat)
    requires n <= MaxInt64
    ensures Atoi(Decimal(n)) == n
  {
    DecimalDenotes(n);
    assert Magnitude(Decimal(n)) == Decimal(n);
  }

  /** ... and every negative one written with a leading minus sign. */
  lemma AtoiNegativeDecimal(n: nat)
    requires 0 < n <= -MinInt64
    ensures Atoi("-" + Decimal(n)) == -(n as int)
  {
    DecimalDenotes(n);
    assert Magnitude("-" + Decimal(n)) == Decimal(n);
  }

  /** A decimal string too large for 64 bits reads as the largest `int`. */
  lemma AtoiSaturates(n: nat)
    requires n > MaxInt64
    ensures Atoi(Decimal(n)) == MaxInt64
  {
    DecimalDenotes(n);
    assert Magnitude(Decimal(n)) == Decimal(n);
  }
}
