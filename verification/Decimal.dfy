/** Decimal integers as strconv.Atoi reads them: an optional sign, then digits, within 64 bits. */
module Decimal {
  import opened Records

  predicate InInt64(n: int) {
    -TWO_63 <= n < TWO_63
  }

  predicate IsDigit(c: char) {
    '0' <= c <= '9'
  }

  function DigitValue(c: char): nat
    requires IsDigit(c)
  {
    (c - '0') as nat
  }

  function Digit(d: nat): (c: char)
    requires d < 10
    ensures IsDigit(c) && DigitValue(c) == d
  {
    '0' + d as char
  }

  predicate AllDigits(s: string) {
    forall i :: 0 <= i < |s| ==> IsDigit(s[i])
  }

  function Value(s: string): nat
    requires AllDigits(s)
  {
    if s == "" then 0 else 10 * Value(s[..|s| - 1]) + DigitValue(s[|s| - 1])
  }

  function Atoi(s: string): (r: Option<int>)
    ensures r.Some? ==> InInt64(r.value)
  {
    var negative := s != "" && s[0] == '-';
    var digits := if s != "" && (s[0] == '-' || s[0] == '+') then s[1..] else s;
    if digits == "" || !AllDigits(digits) then None
    else
      var n := if negative then -(Value(digits) as int) else Value(digits);
      if InInt64(n) then Some(n) else None
  }

  function Digits(n: nat): (s: string)
    ensures s != "" && AllDigits(s)
    ensures Value(s) == n
  {
    if n < 10 then
      assert [Digit(n)][..0] == "";
      [Digit(n)]
    else
      var front := Digits(n / 10);
      var s := front + [Digit(n % 10)];
      assert s[..|s| - 1] == front;
      s
  }

  function Itoa(n: int): (s: string)
    ensures s != "" && forall i :: 0 <= i < |s| ==> IsDigit(s[i]) || s[i] == '-'
  {
    if n < 0 then "-" + Digits(-n) else Digits(n)
  }

  /** Reading back a printed integer gives it again, exactly for the integers that fit. */
  lemma AtoiItoa(n: int)
    ensures Atoi(Itoa(n)) == if InInt64(n) then Some(n) else None
  {
  }

  // ---- what a numeral stands for, told digit by digit from the left ----

  function Pow10(n: nat): nat {
    if n == 0 then 1 else 10 * Pow10(n - 1)
  }

  function Positional(s: string): nat
    requires AllDigits(s)
  {
    if s == "" then 0 else DigitValue(s[0]) * Pow10(|s| - 1) + Positional(s[1..])
  }

  lemma {:induction false} PositionalSnoc(s: string, c: char)
    requires AllDigits(s) && IsDigit(c)
    ensures AllDigits(s + [c]) && Positional(s + [c]) == 10 * Positional(s) + DigitValue(c)
    decreases |s|
  {
    var t := s + [c];
    if s == "" {
      assert t[1..] == "" && t[0] == c;
      assert Pow10(0) == 1;
    } else {
      assert t[1..] == s[1..] + [c] && t[0] == s[0];
      PositionalSnoc(s[1..], c);
      var d, p := DigitValue(s[0]), Pow10(|s| - 1);
      assert Pow10(|s|) == 10 * p;
      assert d * (10 * p) == 10 * (d * p);
    }
  }

  lemma {:induction false} ValueIsPositional(s: string)
    requires AllDigits(s)
    ensures Value(s) == Positional(s)
    decreases |s|
  {
    if s != "" {
      var front, c := s[..|s| - 1], s[|s| - 1];
      ValueIsPositional(front);
      PositionalSnoc(front, c);
      assert s == front + [c];
    }
  }

  predicate Signed(s: string) {
    s != "" && (s[0] == '-' || s[0] == '+')
  }

  function Unsigned(s: string): string {
    if Signed(s) then s[1..] else s
  }

  /** The text is an optional sign and at least one digit, and stands for n. */
  ghost predicate Numeral(s: string, n: int) {
    && Unsigned(s) != "" && (forall i :: 0 <= i < |Unsigned(s)| ==> '0' <= Unsigned(s)[i] <= '9')
    && n == if s[0] == '-' then -(Positional(Unsigned(s)) as int) else Positional(Unsigned(s)) as int
  }

  /** A text is read as an integer exactly when it is a numeral for it and the integer fits 64 bits. */
  lemma AtoiExactly(s: string, n: int)
    ensures Atoi(s) == Some(n) <==> Numeral(s, n) && -0x8000_0000_0000_0000 <= n <= 0x7fff_ffff_ffff_ffff
  {
    if AllDigits(Unsigned(s)) { ValueIsPositional(Unsigned(s)); }
  }
}
