/** Decimal numerals, 64-bit integers written in decimal, and the checked 64-bit arithmetic. */
module Decimal {
  import opened Basics

  const MIN64: int := -0x8000_0000_0000_0000
  const MAX64: int := 0x7FFF_FFFF_FFFF_FFFF

  predicate Int64(x: int) {
    MIN64 <= x <= MAX64
  }

  function Pow10(n: nat): (p: nat)
    ensures p >= 1
  {
    if n == 0 then 1 else 10 * Pow10(n - 1)
  }

  /* ---------- numerals ---------- */

  function Digit(d: nat): char
    requires d < 10
  {
    '0' + d as char
  }

  predicate IsDigit(c: char) {
    '0' <= c <= '9'
  }

  function DigitValue(c: char): nat
    requires IsDigit(c)
  {
    c as int - '0' as int
  }

  predicate AllDigits(s: string) {
    forall i | 0 <= i < |s| :: IsDigit(s[i])
  }

  /** The shortest numeral of n. */
  function Digits(n: nat): (s: string)
    ensures s != ""
  {
    if n < 10 then [Digit(n)] else Digits(n / 10) + [Digit(n % 10)]
  }

  function Value(s: string): nat
    requires AllDigits(s)
  {
    if s == "" then 0
    else
      var n := |s| - 1;
      10 * Value(s[..n]) + DigitValue(s[n])
  }

  /** A numeral with an optional sign, refused outside the 64-bit range. */
  function ParseInt64(s: string): Option<int> {
    if s == "" then None
    else
      var signed := s[0] == '-' || s[0] == '+';
      var body := if signed then s[1..] else s;
      if body == "" || !AllDigits(body) then None
      else
        var v := if s[0] == '-' then 0 - Value(body) else Value(body);
        if Int64(v) then Some(v) else None
  }

  lemma {:induction false} DigitsRead(n: nat)
    ensures Digits(n) != "" && AllDigits(Digits(n)) && Value(Digits(n)) == n
  {
    if n >= 10 {
      DigitsRead(n / 10);
      assert Digits(n)[..|Digits(n)| - 1] == Digits(n / 10);
    } else {
      assert [Digit(n)][..0] == "";
    }
  }

  /** x followed by n zeros. */
  function Tens(x: nat, n: nat): nat {
    x * Pow10(n)
  }

  lemma {:induction false} TensStep(x: nat, n: nat)
    ensures Tens(x, n + 1) == 10 * Tens(x, n)
  {
    var p := Pow10(n);
    assert Pow10(n + 1) == 10 * p;
    hide Pow10;
    assert x * (10 * p) == 10 * (x * p);
  }

  lemma {:induction false} ValueConcat(s: string, t: string)
    requires AllDigits(s) && AllDigits(t)
    ensures AllDigits(s + t) && Value(s + t) == Tens(Value(s), |t|) + Value(t)
  {
    hide Value, Tens, Pow10;
    if t == "" {
      assert s + t == s;
      NoDigits(Value(s));
    } else {
      var n := |t| - 1;
      var u, c := t[..n], t[n];
      ValueConcat(s, u);
      AppendDigit(s + u, c);
      AppendDigit(u, c);
      assert s + t == s + u + [c] && t == u + [c];
      TensStep(Value(s), n);
    }
  }

  lemma {:induction false} NoDigits(x: nat)
    ensures Tens(x, 0) == x && Value("") == 0
  {
    assert Pow10(0) == 1;
  }

  lemma {:induction false} AppendDigit(s: string, c: char)
    requires AllDigits(s) && IsDigit(c)
    ensures AllDigits(s + [c]) && Value(s + [c]) == 10 * Value(s) + DigitValue(c)
  {
    assert (s + [c])[..|s|] == s;
  }

  lemma {:induction false} ValueBelow(s: string)
    requires AllDigits(s)
    ensures Value(s) < Pow10(|s|)
  {
    if s != "" {
      ValueBelow(s[..|s| - 1]);
    }
  }

  /** A number that starts with a one before d digits. */
  lemma {:induction false} OneAndDigits(n: nat, d: nat)
    requires Pow10(d) <= n < 2 * Pow10(d)
    ensures |Digits(n)| == d + 1 && Digits(n)[0] == '1'
  {
    if d > 0 {
      OneAndDigits(n / 10, d - 1);
    }
  }

  /** Writing 10^d + f and dropping the first digit writes f with exactly d digits. */
  lemma {:induction false} Padded(f: nat, d: nat)
    requires f < Pow10(d)
    ensures var s := Digits(Pow10(d) + f);
            |s| == d + 1 && AllDigits(s[1..]) && Value(s[1..]) == f
  {
    var s := Digits(Pow10(d) + f);
    OneAndDigits(Pow10(d) + f, d);
    DigitsRead(Pow10(d) + f);
    hide Pow10, Digits, Value;
    assert s == "1" + s[1..];
    ValueConcat("1", s[1..]);
    AppendDigit("", '1');
    NoDigits(0);
    assert "" + ['1'] == "1";
  }

  lemma {:induction false} ParseDigits(s: string)
    requires s != "" && AllDigits(s)
    ensures ParseInt64(s) == if Value(s) <= MAX64 then Some(Value(s)) else None
    ensures ParseInt64("-" + s) == if 0 - Value(s) >= MIN64 then Some(0 - Value(s)) else None
  {
    assert IsDigit(s[0]);
    assert ("-" + s)[1..] == s;
  }

  /* ---------- checked arithmetic ---------- */

  /** Division that truncates towards zero. */
  function Quotient(a: int, b: int): int
    requires b != 0
  {
    if a >= 0 then (if b > 0 then a / b else -(a / -b))
    else if b > 0 then -(-a / b) else -a / -b
  }

  function SafeMul(a: int, b: int): Option<int> {
    var overflow :=
      if a > 0 then
        if b > 0 then a > Quotient(MAX64, b) else b < Quotient(MIN64, a)
      else
        if b > 0 then a < Quotient(MIN64, b) else a != 0 && b < Quotient(MAX64, a);
    if overflow then None else Some(a * b)
  }

  function SafeAdd(a: int, b: int): Option<int> {
    if b > 0 && a > MAX64 - b then None
    else if b < 0 && a < MIN64 - b then None
    else Some(a + b)
  }

  /** x is above the quotient of m by d exactly when x * d is above m. */
  lemma {:induction false} QuotientBound(x: int, m: nat, d: nat)
    requires d > 0
    ensures x > m / d <==> x * d > m
  {
    var q, r := m / d, m % d;
    assert m == q * d + r;
    if x > q {
      Times(q, x, d);
    } else if x < q {
      Times(x, q, d);
    }
  }

  lemma {:induction false} Times(x: int, y: int, d: nat)
    requires x < y
    ensures x * d + d <= y * d
  {
    assert (y - x) * d == d + (y - x - 1) * d;
    assert (y - x) * d == y * d - x * d;
  }

  lemma {:induction false} ProductSign(a: nat, b: nat)
    ensures a * b >= 0
  {
  }

  lemma {:induction false} Negations(a: int, b: int)
    ensures (-a) * b == -(a * b) == a * (-b) && (-a) * (-b) == a * b && a * b == b * a
  {
  }

  /** The four overflow tests of a product catch exactly the products out of range. */
  lemma {:induction false} SafeMulExact(a: int, b: int)
    requires Int64(a) && Int64(b)
    ensures SafeMul(a, b) == if Int64(a * b) then Some(a * b) else None
  {
    Negations(a, b);
    Negations(b, a);
    if a > 0 && b > 0 {
      ProductSign(a, b);
      QuotientBound(a, MAX64, b);
    } else if a > 0 {
      ProductSign(-b, a);
      QuotientBound(-b, -MIN64, a);
    } else if b > 0 {
      ProductSign(-a, b);
      QuotientBound(-a, -MIN64, b);
    } else if a < 0 {
      ProductSign(-b, -a);
      QuotientBound(-b, MAX64, -a);
    }
  }
}
