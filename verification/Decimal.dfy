/** Printing with "%d" and reading back with atoi, on the numbers that the programs print. */
module Decimal {

  predicate IsDigit(c: char) { '0' <= c <= '9' }

  predicate IsSpace(c: char) { c == ' ' || '\t' <= c <= '\r' }

  function Digit(d: nat): char
    requires d < 10
  {
    '0' + d as char
  }

  function Itoa(n: nat): string {
    if n < 10 then [Digit(n)] else Itoa(n / 10) + [Digit(n % 10)]
  }

  function DigitsValue(s: string, acc: nat): nat {
    if s == "" || !IsDigit(s[0]) then acc
    else DigitsValue(s[1..], 10 * acc + (s[0] - '0') as nat)
  }

  /** Blanks, an optional sign, digits; anything after them is ignored. */
  function Atoi(s: string): int {
    if s == "" then 0
    else if IsSpace(s[0]) then Atoi(s[1..])
    else if s[0] == '-' then -(DigitsValue(s[1..], 0) as int)
    else if s[0] == '+' then DigitsValue(s[1..], 0)
    else DigitsValue(s, 0)
  }

  lemma {:induction false} ItoaDigits(n: nat)
    ensures |Itoa(n)| > 0 && forall c <- Itoa(n) :: IsDigit(c)
  {
    if n >= 10 { ItoaDigits(n / 10); }
  }

  lemma {:induction false} DigitsValueConcat(a: string, b: string, acc: nat)
    requires forall c <- a :: IsDigit(c)
    ensures DigitsValue(a + b, acc) == DigitsValue(b, DigitsValue(a, acc))
  {
    if a == "" {
      assert a + b == b;
    } else {
      assert IsDigit(a[0]);
      assert (a + b)[1..] == a[1..] + b;
      DigitsValueConcat(a[1..], b, 10 * acc + (a[0] - '0') as nat);
    }
  }

  lemma {:induction false} ItoaValue(n: nat)
    ensures DigitsValue(Itoa(n), 0) == n
  {
    if n >= 10 {
      ItoaDigits(n / 10);
      ItoaValue(n / 10);
      DigitsValueConcat(Itoa(n / 10), [Digit(n % 10)], 0);
    }
  }

  /** atoi undoes "%d", whatever follows the number. */
  lemma AtoiItoa(n: nat, rest: string)
    requires rest == "" || !IsDigit(rest[0])
    ensures Atoi(Itoa(n) + rest) == n
  {
    ItoaDigits(n);
    ItoaValue(n);
    DigitsValueConcat(Itoa(n), rest, 0);
    assert (Itoa(n) + rest)[0] == Itoa(n)[0];
  }

  lemma ItoaInjective(a: nat, b: nat)
    ensures Itoa(a) == Itoa(b) <==> a == b
  {
    ItoaValue(a);
    ItoaValue(b);
  }

  function Pow10(k: nat): nat { if k == 0 then 1 else 10 * Pow10(k - 1) }

  lemma {:induction false} PowPositive(k: nat)
    ensures Pow10(k) >= 1 && (k >= 1 ==> Pow10(k) >= 10)
  {
    if k >= 1 { PowPositive(k - 1); }
  }

  lemma {:induction false} ItoaLength(n: nat, k: nat)
    requires k >= 1
    ensures |Itoa(n)| <= k <==> n < Pow10(k)
  {
    if k == 1 {
      if n >= 10 { ItoaDigits(n / 10); }
    } else {
      PowPositive(k - 1);
      if n >= 10 { ItoaLength(n / 10, k - 1); }
    }
  }

  /** The programs print into char buf[8]: a number fits with its terminator exactly up to 9999999. */
  lemma FitsEightBytes(n: nat)
    ensures |Itoa(n)| + 1 <= 8 <==> n <= 9999999
  {
    ItoaLength(n, 7);
    assert Pow10(7) == 10000000 by {
      assert Pow10(3) == 1000;
      assert Pow10(5) == 100000;
    }
  }

  // ----- the characters, one by one -----

  lemma CharClasses(c: char)
    ensures IsDigit(c) <==> c in "0123456789"
    ensures IsSpace(c) <==> c in " \t\n\r" || c as int == 11 || c as int == 12
  {
    var digits := "0123456789";
    if IsDigit(c) { assert digits[(c - '0') as int] == c; }
  }

  /** Numbers are printed digit by digit, the most significant first and without leading zeros. */
  lemma ItoaIs(n: nat, d: nat)
    requires d < 10
    ensures Itoa(d) == ["0123456789"[d]]
    ensures n > 0 ==> Itoa(10 * n + d) == Itoa(n) + Itoa(d)
  {
    if n > 0 { assert (10 * n + d) / 10 == n && (10 * n + d) % 10 == d; }
  }

  lemma {:induction false} BlanksSkipped(blanks: string, s: string)
    requires forall c <- blanks :: IsSpace(c)
    ensures Atoi(blanks + s) == Atoi(s)
  {
    if blanks == "" {
      assert blanks + s == s;
    } else {
      assert blanks[0] in blanks && (blanks + s)[1..] == blanks[1..] + s;
      BlanksSkipped(blanks[1..], s);
    }
  }

  lemma AtoiSigned(n: nat, rest: string)
    requires rest == "" || !IsDigit(rest[0])
    ensures Atoi("-" + (Itoa(n) + rest)) == 0 - n && Atoi("+" + (Itoa(n) + rest)) == n
  {
    var number := Itoa(n) + rest;
    ItoaValue(n);
    ItoaDigits(n);
    DigitsValueConcat(Itoa(n), rest, 0);
    assert ("-" + number)[1..] == number && ("+" + number)[1..] == number;
  }

  /** atoi skips blanks, takes one sign, and stops where the digits end; without digits it gives 0. */
  lemma AtoiIs(blanks: string, n: nat, rest: string)
    requires forall c <- blanks :: IsSpace(c)
    requires rest == "" || !IsDigit(rest[0])
    ensures Atoi(blanks + (Itoa(n) + rest)) == n
    ensures Atoi(blanks + ("-" + (Itoa(n) + rest))) == 0 - n
    ensures Atoi(blanks + ("+" + (Itoa(n) + rest))) == n
    ensures rest != "" && !IsSpace(rest[0]) && rest[0] != '-' && rest[0] != '+' ==> Atoi(blanks + rest) == 0
  {
    BlanksSkipped(blanks, Itoa(n) + rest);
    BlanksSkipped(blanks, "-" + (Itoa(n) + rest));
    BlanksSkipped(blanks, "+" + (Itoa(n) + rest));
    BlanksSkipped(blanks, rest);
    AtoiItoa(n, rest);
    AtoiSigned(n, rest);
  }
}
