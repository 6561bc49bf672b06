/**
 * Machine-width unsigned integers and their decimal text form: Rust's
 * `usize`, its `Display` rendering and its `from_str_radix(_, 10)` parser.
 */
module Numerals {
  import opened Results

  /** Largest value of `usize` on a 64-bit target. */
  const USIZE_MAX: nat := 0xFFFF_FFFF_FFFF_FFFF

  /** Rust's `usize`. */
  type usize = x: nat | x <= USIZE_MAX

  predicate IsDigit(c: char) {
    '0' <= c <= '9'
  }

  predicate AllDigits(s: string) {
    forall i :: 0 <= i < |s| ==> IsDigit(s[i])
  }

  function DigitValue(c: char): (d: nat)
    requires IsDigit(c)
    ensures d < 10
  {
    c as int - '0' as int
  }

  function DigitChar(d: nat): (c: char)
    requires d < 10
    ensures IsDigit(c) && DigitValue(c) == d
  {
    ('0' as int + d) as char
  }

  /** The number a string of decimal digits denotes, most significant first. */
  function Value(s: string): nat
    requires AllDigits(s)
    decreases |s|
  {
    if |s| == 0 then 0 else Value(s[..|s| - 1]) * 10 + DigitValue(s[|s| - 1])
  }

  /** A numeral as `Display` writes it: digits only, no sign, no leading zero. */
  predicate Canonical(s: string) {
    |s| > 0 && AllDigits(s) && (s[0] == '0' ==> |s| == 1)
  }

  /** Decimal rendering of a number (`format!("{}", n)`). */
  function Decimal(n: nat): (r: string)
    ensures Canonical(r)
    ensures Value(r) == n
    decreases n
  {
    if n < 10 then [DigitChar(n)]
    else
      var prefix := Decimal(n / 10);
      var r := prefix + [DigitChar(n % 10)];
      assert r[..|r| - 1] == prefix;
      r
  }

  /** A rendered number holds no character other than digits, in particular no `.`. */
  lemma DecimalHasNoDot(n: nat)
    ensures '.' !in Decimal(n)
  {
  }

  /**
   * `usize::from_str_radix(s, 10)`: an optional `+` sign followed by at
   * least one decimal digit, leading zeros allowed, and a value that fits
   * in `usize`; anything else is an error.
   */
  function ParseUsize(s: string): (r: Option<usize>)
    ensures s == "" || s == "+" ==> r == None
    ensures (exists i :: 0 < i < |s| && !IsDigit(s[i])) ==> r == None
    ensures |s| > 0 && !IsDigit(s[0]) && s[0] != '+' ==> r == None
    ensures |s| > 0 && AllDigits(s) ==>
      r == if Value(s) <= USIZE_MAX then Some(Value(s)) else None
    ensures |s| > 1 && s[0] == '+' && AllDigits(s[1..]) ==>
      r == if Value(s[1..]) <= USIZE_MAX then Some(Value(s[1..])) else None
  {
    var digits := if |s| > 0 && s[0] == '+' then s[1..] else s;
    if |digits| > 0 && AllDigits(digits) && Value(digits) <= USIZE_MAX
    then Some(Value(digits))
    else None
  }

  lemma {:induction false} ValueZeroDigits(s: string)
    requires AllDigits(s)
    requires |s| > 0 && s[0] != '0'
    ensures Value(s) > 0
    decreases |s|
  {
    if |s| > 1 {
      ValueZeroDigits(s[..|s| - 1]);
    }
  }

  /** Parsing the rendering of any `usize` gives that number back. */
  lemma ParseDecimal(n: usize)
    ensures ParseUsize(Decimal(n)) == Some(n)
  {
    var r := Decimal(n);
    assert r[0] != '+';
  }

  /** Rendering the value of a canonical numeral gives the numeral back. */
  lemma {:induction false} DecimalOfCanonical(s: string)
    requires Canonical(s)
    ensures Decimal(Value(s)) == s
    decreases |s|
  {
    if |s| > 1 {
      var prefix := s[..|s| - 1];
      assert Canonical(prefix);
      ValueZeroDigits(prefix);
      DecimalOfCanonical(prefix);
      var n := Value(s);
      assert n / 10 == Value(prefix);
      assert n % 10 == DigitValue(s[|s| - 1]);
      assert s == prefix + [s[|s| - 1]];
    }
  }

  /**
   * Every canonical numeral whose value fits in `usize` parses to that
   * value, and the parsed number renders back to the same text.
   */
  lemma ParseCanonical(s: string)
    requires Canonical(s) && Value(s) <= USIZE_MAX
    ensures ParseUsize(s) == Some(Value(s))
    ensures Decimal(ParseUsize(s).value) == s
  {
    DecimalOfCanonical(s);
  }
}
