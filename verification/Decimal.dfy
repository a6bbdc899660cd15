/** Strings of decimal digits, the numbers they stand for, and exact powers of ten. */
module Decimal {

  predicate IsDigit(c: char) { '0' <= c <= '9' }

  predicate AllDigits(s: string) { forall i :: 0 <= i < |s| ==> IsDigit(s[i]) }

  function Pow10(n: nat): (p: nat)
    ensures p >= 1
  {
    if n == 0 then 1 else 10 * Pow10(n - 1)
  }

  function NatOf(s: string): nat
    requires AllDigits(s)
  {
    if s == "" then 0 else 10 * NatOf(s[..|s| - 1]) + (s[|s| - 1] - '0') as nat
  }

  /** The shortest decimal spelling of a number. */
  function Spelled(n: nat): (s: string)
    ensures AllDigits(s) && s != ""
    ensures NatOf(s) == n
    ensures n > 0 ==> s[0] != '0'
  {
    if n < 10 then [n as char + '0'] else
      var front := Spelled(n / 10);
      var s := front + [(n % 10) as char + '0'];
      assert s[..|s| - 1] == front;
      s
  }

  function ZeroDigits(n: nat): (s: string)
    ensures |s| == n && AllDigits(s) && forall i :: 0 <= i < n ==> s[i] == '0'
  {
    seq(n, i => '0')
  }

  lemma {:induction false} PowAdd(a: nat, b: nat)
    ensures Pow10(a + b) == Pow10(a) * Pow10(b)
  {
    if a > 0 {
      PowAdd(a - 1, b);
      assert Pow10(a + b) == 10 * (Pow10(a - 1) * Pow10(b));
    }
  }

  lemma PowGrows(a: nat, b: nat)
    requires a < b
    ensures 10 * Pow10(a) <= Pow10(b)
  {
    PowAdd(a + 1, b - a - 1);
    assert Pow10(a + 1) * Pow10(b - a - 1) >= Pow10(a + 1) * 1;
  }

  lemma TenTimes(a: int, p: int)
    ensures a * (10 * p) == 10 * (a * p)
  {
  }

  lemma NatOfLast(s: string, c: char)
    requires AllDigits(s) && IsDigit(c)
    ensures NatOf(s + [c]) == 10 * NatOf(s) + (c - '0') as nat
  {
    assert (s + [c])[..|s|] == s;
  }

  lemma {:induction false} NatOfJoin(a: string, b: string)
    requires AllDigits(a) && AllDigits(b)
    ensures NatOf(a + b) == NatOf(a) * Pow10(|b|) + NatOf(b)
    decreases |b|
  {
    if b == "" {
      assert a + b == a;
    } else {
      hide NatOf;
      var front, c := b[..|b| - 1], b[|b| - 1];
      NatOfJoin(a, front);
      assert b == front + [c] && a + b == (a + front) + [c];
      NatOfLast(front, c);
      NatOfLast(a + front, c);
      TenTimes(NatOf(a), Pow10(|front|));
    }
  }

  lemma {:induction false} NatOfBound(s: string)
    requires AllDigits(s)
    ensures NatOf(s) < Pow10(|s|)
    ensures s != "" && s[0] != '0' ==> NatOf(s) >= Pow10(|s| - 1)
  {
    if s != "" {
      NatOfBound(s[..|s| - 1]);
    }
  }

  lemma {:induction false} NatOfZeroDigits(n: nat)
    ensures NatOf(ZeroDigits(n)) == 0
  {
    if n > 0 {
      NatOfZeroDigits(n - 1);
      assert ZeroDigits(n)[..n - 1] == ZeroDigits(n - 1);
    }
  }

  function TenTo(e: int): (r: real)
    ensures r > 0.0
    decreases if e >= 0 then e else -e
  {
    if e == 0 then 1.0 else if e > 0 then 10.0 * TenTo(e - 1) else TenTo(e + 1) / 10.0
  }

  lemma TenToStart()
    ensures TenTo(0) == 1.0
  {
  }

  lemma TenToNext(e: int)
    ensures TenTo(e + 1) == 10.0 * TenTo(e)
  {
  }

  lemma {:induction false} TenToIsPow(n: nat)
    ensures TenTo(n) == Pow10(n) as real
  {
    if n > 0 {
      TenToIsPow(n - 1);
    }
  }

  lemma Rotate(a: real, b: real, c: real)
    ensures a * (b * c) == b * (a * c) == (a * c) * b
  {
  }

  lemma {:induction false} TenToAdd(a: int, n: nat)
    ensures TenTo(a + n) == TenTo(a) * TenTo(n)
  {
    hide TenTo;
    TenToStart();
    if n > 0 {
      TenToAdd(a, n - 1);
      TenToNext(a + n - 1);
      TenToNext(n - 1);
      Rotate(TenTo(a), 10.0, TenTo(n - 1));
    }
  }

  /** `m` times a power of ten, shifted: the digits move into the mantissa. */
  lemma Shift(m: nat, e: int, n: nat)
    ensures m as real * TenTo(e + n) == (m * Pow10(n)) as real * TenTo(e)
  {
    hide TenTo, Pow10;
    TenToAdd(e, n);
    TenToIsPow(n);
    Rotate(m as real, TenTo(e), Pow10(n) as real);
    assert (m * Pow10(n)) as real == m as real * Pow10(n) as real;
  }
}
