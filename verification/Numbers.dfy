/** Machine integers and their decimal text. */
module Numbers {
  import opened Wrappers

  const I32_MIN: int := -0x8000_0000
  const I32_MAX: int := 0x7fff_ffff
  const I64_MIN: int := -0x8000_0000_0000_0000
  const I64_MAX: int := 0x7fff_ffff_ffff_ffff
  const TWO_TO_64: int := 0x1_0000_0000_0000_0000

  /** Two's-complement wrap-around, what i64 arithmetic does in a release build. */
  function WrapI64(x: int): (r: int)
    ensures I64_MIN <= r <= I64_MAX
    ensures I64_MIN <= x <= I64_MAX <==> r == x
  {
    (x - I64_MIN) % TWO_TO_64 + I64_MIN
  }

  function Digit(d: nat): char
    requires d < 10
  {
    '0' + d as char
  }

  predicate IsDigit(c: char) {
    '0' <= c <= '9'
  }

  /** The shortest decimal text of a number. */
  function Decimal(n: nat): (s: string)
    ensures |s| > 0
    ensures forall i | 0 <= i < |s| :: IsDigit(s[i])
  {
    if n < 10 then [Digit(n)] else Decimal(n / 10) + [Digit(n % 10)]
  }

  function DigitsValue(s: string): (r: int)
    requires forall i | 0 <= i < |s| :: IsDigit(s[i])
    ensures r >= 0
  {
    if s == [] then 0
    else
      assert IsDigit(s[|s| - 1]);
      10 * DigitsValue(s[..|s| - 1]) + (s[|s| - 1] as int - '0' as int)
  }

  lemma {:induction false} DecimalRoundTrip(n: nat)
    ensures DigitsValue(Decimal(n)) == n
  {
    if n >= 10 {
      DecimalRoundTrip(n / 10);
      assert Decimal(n)[..|Decimal(n)| - 1] == Decimal(n / 10);
    }
  }

  lemma {:induction false} DecimalInjective(m: nat, n: nat)
    requires Decimal(m) == Decimal(n)
    ensures m == n
  {
    DecimalRoundTrip(m);
    DecimalRoundTrip(n);
  }

  function Unsigned(s: string): string {
    if s != [] && (s[0] == '-' || s[0] == '+') then s[1..] else s
  }

  /** Rust's integer parsing: an optional sign, then digits, within the type's range. */
  function ParseInt(s: string, lo: int, hi: int): (r: Option<int>)
    ensures r.Some? ==> lo <= r.value <= hi
  {
    var negative := s != [] && s[0] == '-';
    var digits := Unsigned(s);
    if digits == [] || exists i | 0 <= i < |digits| :: !IsDigit(digits[i]) then None
    else
      var value := if negative then -DigitsValue(digits) else DigitsValue(digits);
      if lo <= value <= hi then Some(value) else None
  }

  function ParseI32(s: string): Option<int> {
    ParseInt(s, I32_MIN, I32_MAX)
  }

  function ParseI64(s: string): Option<int> {
    ParseInt(s, I64_MIN, I64_MAX)
  }

  function Zeros(k: nat): (s: string)
    ensures |s| == k && forall i | 0 <= i < k :: IsDigit(s[i])
  {
    if k == 0 then "" else Zeros(k - 1) + "0"
  }

  lemma {:induction false} ZerosAreZero(k: nat)
    ensures DigitsValue(Zeros(k)) == 0
  {
    if k > 0 {
      ZerosAreZero(k - 1);
      assert Zeros(k)[..k - 1] == Zeros(k - 1);
    }
  }

  /** The text of a number after k zeros. */
  function Padded(k: nat, n: nat): (s: string)
    ensures s != [] && forall i | 0 <= i < |s| :: IsDigit(s[i])
  {
    Zeros(k) + Decimal(n)
  }

  lemma {:induction false} PaddedValue(k: nat, n: nat)
    ensures DigitsValue(Padded(k, n)) == n
  {
    var s := Padded(k, n);
    if n >= 10 {
      PaddedValue(k, n / 10);
      assert s[..|s| - 1] == Padded(k, n / 10);
    } else {
      assert s[..|s| - 1] == Zeros(k);
      ZerosAreZero(k);
    }
  }

  /** Digits are the shortest text of their value after some zeros. */
  lemma {:induction false} DigitsArePrinted(s: string) returns (k: nat)
    requires s != [] && forall i | 0 <= i < |s| :: IsDigit(s[i])
    ensures s == Padded(k, DigitsValue(s))
  {
    var before, last := s[..|s| - 1], s[|s| - 1];
    assert s == before + [last] && IsDigit(last);
    var d := last as int - '0' as int;
    assert Decimal(d) == [last];
    if before == [] {
      k := 0;
    } else {
      k := DigitsArePrinted(before);
      if DigitsValue(before) == 0 {
        assert Decimal(0) == "0";
        k := k + 1;
      } else {
        assert DigitsValue(s) / 10 == DigitsValue(before) && DigitsValue(s) % 10 == d;
      }
    }
  }

  /** These digits, after no sign, a plus or a minus, are the text of v. */
  predicate Signed(s: string, digits: string, v: int)
    requires forall i | 0 <= i < |digits| :: IsDigit(digits[i])
  {
    || (v == DigitsValue(digits) && (s == digits || s == "+" + digits))
    || (v == -DigitsValue(digits) && s == "-" + digits)
  }

  lemma {:induction false} ParseSigned(s: string, digits: string, v: int, lo: int, hi: int)
    requires digits != [] && forall i | 0 <= i < |digits| :: IsDigit(digits[i])
    requires Signed(s, digits, v)
    ensures ParseInt(s, lo, hi) == if lo <= v <= hi then Some(v) else None
  {
    assert IsDigit(digits[0]);
    assert ("+" + digits)[1..] == digits && ("-" + digits)[1..] == digits;
  }

  lemma {:induction false} ParsedDigits(s: string, lo: int, hi: int) returns (digits: string)
    requires ParseInt(s, lo, hi).Some?
    ensures digits != [] && forall i | 0 <= i < |digits| :: IsDigit(digits[i])
    ensures Signed(s, digits, ParseInt(s, lo, hi).value)
  {
    digits := Unsigned(s);
    assert s == [s[0]] + s[1..];
  }

  /** A text is read as a number exactly if it is an optional sign, any zeros and the shortest text of the
      absolute value, and the number is in range. */
  lemma {:induction false} ParseIntIff(s: string, lo: int, hi: int, v: int)
    ensures ParseInt(s, lo, hi) == Some(v)
            <==> lo <= v <= hi
                 && exists k: nat, n: nat ::
                      (v == n && (s == Padded(k, n) || s == "+" + Padded(k, n))) || (-v == n && s == "-" + Padded(k, n))
  {
    if ParseInt(s, lo, hi) == Some(v) {
      var digits := ParsedDigits(s, lo, hi);
      var k := DigitsArePrinted(digits);
      assert digits == Padded(k, DigitsValue(digits));
    }
    forall k: nat, n: nat
      | (v == n && (s == Padded(k, n) || s == "+" + Padded(k, n))) || (-v == n && s == "-" + Padded(k, n))
      ensures ParseInt(s, lo, hi) == if lo <= v <= hi then Some(v) else None
    {
      PaddedValue(k, n);
      ParseSigned(s, Padded(k, n), v, lo, hi);
    }
  }

  /** A printed number parses if it is in range, and only then. */
  lemma {:induction false} ParsePrinted(n: nat, lo: int, hi: int)
    ensures ParseInt(Decimal(n), lo, hi) == if lo <= n <= hi then Some(n) else None
  {
    DecimalRoundTrip(n);
    assert IsDigit(Decimal(n)[0]);
  }

  /** Parsing inverts printing on the whole range. */
  lemma {:induction false} ParseIntRoundTrip(n: int, lo: int, hi: int)
    requires lo <= n <= hi
    ensures ParseInt(if n < 0 then "-" + Decimal(-n) else Decimal(n), lo, hi) == Some(n)
  {
    DecimalRoundTrip(if n < 0 then -n else n);
    if n < 0 {
      assert ("-" + Decimal(-n))[1..] == Decimal(-n);
    } else {
      assert IsDigit(Decimal(n)[0]);
    }
  }
}
