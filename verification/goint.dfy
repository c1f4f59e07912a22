/** Go's 64-bit `int`, decimal formatting (`%d`) and `strconv.Atoi`. */
module GoInt {
  import opened Wrappers

  const MaxInt: int := 0x7fff_ffff_ffff_ffff
  const MinInt: int := -0x8000_0000_0000_0000

  /** A value of Go's `int` on a 64-bit platform. */
  type Int64 = x: int | -0x8000_0000_0000_0000 <= x <= 0x7fff_ffff_ffff_ffff

  /** Go's `x++`, which wraps around at the top of the range. */
  function Inc(x: Int64): (r: Int64)
    ensures x < MaxInt ==> r == x + 1
    ensures x == MaxInt ==> r == MinInt
  {
    if x == MaxInt then MinInt else x + 1
  }

  predicate IsDigit(c: char) { '0' <= c <= '9' }

  predicate AllDigits(s: string) {
    forall i :: 0 <= i < |s| ==> IsDigit(s[i])
  }

  /** A non-empty digit string without a leading zero, or exactly "0":
      the shape `0|[1-9]\d*`. */
  predicate Canonical(s: string) {
    |s| > 0 && AllDigits(s) && (s[0] != '0' || |s| == 1)
  }

  function DigitValue(c: char): nat
    requires IsDigit(c)
  {
    c as int - '0' as int
  }

  function DigitChar(d: nat): (c: char)
    requires d < 10
    ensures IsDigit(c) && DigitValue(c) == d
  {
    ('0' as int + d) as char
  }

  /** The number a digit string denotes. */
  function Value(s: string): nat
    requires AllDigits(s)
  {
    if s == [] then 0 else Value(s[..|s| - 1]) * 10 + DigitValue(s[|s| - 1])
  }

  /** Decimal rendering of a natural number. */
  function Digits(n: nat): (s: string)
    ensures |s| > 0 && AllDigits(s)
  {
    if n < 10 then [DigitChar(n)] else Digits(n / 10) + [DigitChar(n % 10)]
  }

  /** `fmt.Sprintf("%d", n)`. */
  function Itoa(n: int): string {
    if n < 0 then "-" + Digits(-n) else Digits(n)
  }

  /** `strconv.Atoi`: an optional sign and a non-empty run of ASCII digits
      whose value fits in 64 bits; anything else is a syntax or range error. */
  function Atoi(s: string): (r: Option<Int64>)
    ensures r.Some? ==> |s| > 0
    ensures r.Some? && AllDigits(s) ==> r.value == Value(s)
    ensures r.Some? && !AllDigits(s) ==>
              |s| > 1 && (s[0] == '+' || s[0] == '-') && AllDigits(s[1..])
    ensures |s| > 0 && AllDigits(s) && Value(s) <= MaxInt ==> r.Some?
  {
    if |s| > 0 && (s[0] == '+' || s[0] == '-') then
      var d := s[1..];
      if |d| > 0 && AllDigits(d) then
        var n: int := if s[0] == '-' then -(Value(d) as int) else Value(d);
        if MinInt <= n <= MaxInt then Some(n) else None
      else None
    else if |s| > 0 && AllDigits(s) && Value(s) <= MaxInt then Some(Value(s))
    else None
  }

  lemma {:induction false} DigitsCanonical(n: nat)
    ensures Canonical(Digits(n))
    ensures Value(Digits(n)) == n
  {
    if n >= 10 {
      DigitsCanonical(n / 10);
      var s := Digits(n);
      assert s[..|s| - 1] == Digits(n / 10);
    }
  }

  lemma {:induction false} ValueAtLeastOne(s: string)
    requires AllDigits(s) && |s| > 0 && s[0] != '0'
    ensures Value(s) >= 1
  {
    if |s| > 1 {
      var p := s[..|s| - 1];
      assert p[0] == s[0];
      ValueAtLeastOne(p);
    }
  }

  /** Formatting a canonical digit string's value gives the string back. */
  lemma {:induction false} DigitsOfValue(s: string)
    requires Canonical(s)
    ensures Digits(Value(s)) == s
  {
    if |s| > 1 {
      var p := s[..|s| - 1];
      assert p[0] == s[0];
      ValueAtLeastOne(p);
      DigitsOfValue(p);
      var n := Value(s);
      assert n / 10 == Value(p) && n % 10 == DigitValue(s[|s| - 1]);
      assert s == p + [s[|s| - 1]];
    }
  }

  /** `strconv.Atoi` inverts `%d` on every 64-bit value. */
  lemma AtoiItoa(n: Int64)
    ensures Atoi(Itoa(n)) == Some(n)
  {
    if n < 0 {
      var m: nat := -(n as int);
      DigitsCanonical(m);
      assert Itoa(n)[1..] == Digits(m);
    } else {
      DigitsCanonical(n);
    }
  }
}
