/**
 * What the token parser is for: the parsed pair is exactly the number the string denotes, equal pairs
 * mean equal numbers, the comparison is the order of the numbers, and printing then parsing loses
 * nothing. The numbers are exact reals, defined without reference to the parser.
 */
module TokenExact {
  import opened Arithmetic
  import opened Decimal
  import opened Wrappers
  import opened TokenValue

  /** The number a parsed value stands for. */
  function Amount(v: Value): real {
    v.mant as real * TenTo(v.exp)
  }

  /** The number a decimal string denotes, read group by group as written. */
  function Denoted(g: Groups): real
    requires WellFormed(g)
  {
    var m := NatOf(g.whole) as real + NatOf(g.frac) as real / Pow10(|g.frac|) as real;
    match g.exponent
    case None => m
    case Some(e) =>
      if e.sign == "-" then m / Pow10(NatOf(e.digits)) as real else m * Pow10(NatOf(e.digits)) as real
  }

  /** The least mantissa: parsed values are all of this form. */
  predicate Canonical(v: Value) {
    v.mant % 10 != 0
  }

  /** The ledger's normal form: a sixteen-digit mantissa and an exponent between the two limits. */
  predicate Normal(v: Value) {
    Pow10(15) <= v.mant < Pow10(16) && EXP_MIN <= v.exp <= EXP_MAX
  }

  ghost predicate Holdable(x: real) {
    exists v :: Normal(v) && Amount(v) == x
  }

  lemma ScaleOrder(x: int, y: int, t: real)
    requires t > 0.0
    ensures x as real * t == y as real * t <==> x == y
    ensures x as real * t < y as real * t <==> x < y
  {
    if x < y {
      assert (y as real - x as real) * t > 0.0;
    } else if x > y {
      assert (x as real - y as real) * t > 0.0;
    }
  }

  /** Two amounts compare as their mantissas do at the lower exponent. */
  lemma Align(a: Value, b: Value)
    requires a.exp <= b.exp
    ensures Amount(a) == Amount(b) <==> a.mant == b.mant * Pow10(b.exp - a.exp)
    ensures Amount(a) < Amount(b) <==> a.mant < b.mant * Pow10(b.exp - a.exp)
  {
    hide TenTo, Pow10;
    var k := b.exp - a.exp;
    Shift(b.mant, a.exp, k);
    ScaleOrder(a.mant, b.mant * Pow10(k), TenTo(a.exp));
  }

  lemma TenDivides(m: nat, n: nat)
    requires n > 0
    ensures (m * Pow10(n)) % 10 == 0
  {
    assert m * Pow10(n) == 10 * (m * Pow10(n - 1));
  }

  lemma PowZero()
    ensures Pow10(0) == 1
  {
  }

  lemma AlignedCanonical(a: Value, b: Value)
    requires a.exp <= b.exp && Canonical(a) && Amount(a) == Amount(b)
    ensures a == b
  {
    hide TenTo, Pow10, Amount;
    Align(a, b);
    PowZero();
    if a.exp < b.exp {
      TenDivides(b.mant, b.exp - a.exp);
    }
  }

  /** Canonical values stand for the same number only when they are the same. */
  lemma CanonicalUnique(a: Value, b: Value)
    requires Canonical(a) && Canonical(b) && Amount(a) == Amount(b)
    ensures a == b
  {
    hide Amount;
    if a.exp <= b.exp {
      AlignedCanonical(a, b);
    } else {
      AlignedCanonical(b, a);
    }
  }

  /** `cmpTokenValue` is the order of the numbers, for any two values. */
  lemma CompareIsOrder(a: Value, b: Value)
    ensures Compare(a, b) == 0 <==> Amount(a) == Amount(b)
    ensures Compare(a, b) == 1 <==> Amount(a) > Amount(b)
    ensures Compare(a, b) == -1 <==> Amount(a) < Amount(b)
  {
    hide Amount, Pow10;
    PowZero();
    if a.exp <= b.exp {
      Align(a, b);
    } else {
      Align(b, a);
    }
  }

  lemma FracIsShift(w: nat, f: nat, k: nat)
    ensures w as real + f as real * TenTo(0 - k) == (w * Pow10(k) + f) as real * TenTo(0 - k)
  {
    hide TenTo, Pow10;
    Shift(w, 0 - k, k);
    TenToStart();
    var a, b, t := (w * Pow10(k)) as real, f as real, TenTo(0 - k);
    assert a * t + b * t == (a + b) * t;
  }

  lemma TenToSum(m: real, k: nat, e: int)
    ensures (m * TenTo(0 - k)) * TenTo(e) == m * TenTo(e - k)
  {
    hide TenTo;
    if e >= 0 {
      TenToAdd(0 - k, e);
    } else {
      TenToAdd(e - k, -e);
      TenToAdd(e - k, k);
      TenToAdd(e, -e);
      TenToAdd(0 - k, k);
      TenToStart();
      Cancel(TenTo(0 - k), TenTo(e), TenTo(e - k), TenTo(-e), TenTo(k));
    }
    Rotate(m, TenTo(0 - k), TenTo(e));
  }

  lemma Cancel(x: real, y: real, z: real, p: real, q: real)
    requires p > 0.0 && q > 0.0
    requires x == z * p && y == z * q && y * p == 1.0 && x * q == 1.0
    ensures x * y == z
  {
    assert (z * p) * y == z * (y * p);
  }

  lemma Down(x: real, n: nat)
    ensures x / Pow10(n) as real == x * TenTo(0 - n)
  {
    hide TenTo, Pow10;
    TenToIsPow(n);
    TenToAdd(0 - n, n);
    TenToStart();
    Unscale(x, TenTo(0 - n), TenTo(n));
  }

  lemma Unscale(x: real, a: real, b: real)
    requires b > 0.0 && (a * b == 1.0 || b * a == 1.0)
    ensures x / b == x * a
  {
    assert x * (a * b) == (x * a) * b;
  }

  /** Multiplying or dividing by as many tens as the exponent says. */
  lemma ScaledBy(m: real, x: Option<Exponent>)
    requires x.Some? ==> WellFormedExponent(x.value)
    ensures m * TenTo(ExponentOf(x)) ==
            match x
            case None => m
            case Some(e) =>
              if e.sign == "-" then m / Pow10(NatOf(e.digits)) as real else m * Pow10(NatOf(e.digits)) as real
  {
    hide TenTo, Pow10, NatOf;
    match x
    case None => TenToStart();
    case Some(e) =>
      TenToIsPow(NatOf(e.digits));
      Down(m, NatOf(e.digits));
  }

  /** Joining the digits and lowering the exponent does not change the number. */
  lemma DenotedByDigits(g: Groups)
    requires WellFormed(g)
    ensures Denoted(g) == NatOf(g.whole + g.frac) as real * TenTo(ExponentOf(g.exponent) - |g.frac|)
  {
    hide TenTo, Pow10, NatOf, WellFormedExponent;
    var k := |g.frac|;
    var m := NatOf(g.whole) as real + NatOf(g.frac) as real * TenTo(0 - k);
    Down(NatOf(g.frac) as real, k);
    ScaledBy(m, g.exponent);
    NatOfJoin(g.whole, g.frac);
    FracIsShift(NatOf(g.whole), NatOf(g.frac), k);
    TenToSum(NatOf(g.whole + g.frac) as real, k, ExponentOf(g.exponent));
  }

  lemma {:induction false} TrailingZerosSplit(s: string)
    requires AllDigits(s) && s != "" && s[0] != '0'
    ensures var kept := s[..|s| - TrailingZeros(s)];
            kept != "" && kept[0] != '0' && kept[|kept| - 1] != '0' &&
            NatOf(s) == NatOf(kept) * Pow10(TrailingZeros(s))
  {
    hide NatOf, Pow10;
    var n := TrailingZeros(s);
    PowStep(if n > 0 then n - 1 else 0);
    if n > 0 {
      var front := s[..|s| - 1];
      TrailingZerosSplit(front);
      var kept := front[..|front| - (n - 1)];
      assert s[..|s| - n] == kept;
      assert s == front + ['0'];
      NatOfLast(front, '0');
      TenTimes(NatOf(kept), Pow10(n - 1));
    } else {
      assert s[..|s|] == s;
    }
  }

  lemma PowStep(n: nat)
    ensures Pow10(0) == 1 && Pow10(n + 1) == 10 * Pow10(n)
  {
  }

  lemma LastDigit(s: string)
    requires AllDigits(s) && s != "" && s[|s| - 1] != '0'
    ensures NatOf(s) % 10 != 0
  {
    var n, d := NatOf(s[..|s| - 1]), (s[|s| - 1] - '0') as nat;
    assert NatOf(s) == 10 * n + d && 0 < d < 10;
  }

  /** What the parser keeps of a digit string, whatever it then decides: the canonical value. */
  function Kept(digits: string, exp: int): Value
    requires AllDigits(digits) && digits != ""
  {
    var n := TrailingZeros(digits);
    Value(NatOf(digits[..|digits| - n]), exp + n)
  }

  function KeptLength(digits: string): nat
    requires digits != ""
  {
    |digits| - TrailingZeros(digits)
  }

  lemma ShiftTo(m: nat, e: int, n: nat, x: nat)
    requires x == m * Pow10(n)
    ensures Amount(Value(m, e + n)) == x as real * TenTo(e)
  {
    hide TenTo, Pow10;
    Shift(m, e, n);
  }

  lemma KeptAmount(digits: string, exp: int)
    requires AllDigits(digits) && digits != "" && digits[0] != '0'
    ensures Amount(Kept(digits, exp)) == NatOf(digits) as real * TenTo(exp)
  {
    hide TenTo, Pow10, NatOf, TrailingZeros, Amount;
    TrailingZerosSplit(digits);
    var n := TrailingZeros(digits);
    ShiftTo(NatOf(digits[..|digits| - n]), exp, n, NatOf(digits));
  }

  lemma KeptIsExact(digits: string, exp: int)
    requires AllDigits(digits) && digits != "" && digits[0] != '0'
    ensures Canonical(Kept(digits, exp)) && Amount(Kept(digits, exp)) == NatOf(digits) as real * TenTo(exp)
    ensures KeptLength(digits) > 0
    ensures Pow10(KeptLength(digits) - 1) <= Kept(digits, exp).mant < Pow10(KeptLength(digits))
  {
    hide TenTo, Pow10, NatOf, TrailingZeros, Amount;
    KeptAmount(digits, exp);
    TrailingZerosSplit(digits);
    var kept := digits[..|digits| - TrailingZeros(digits)];
    LastDigit(kept);
    NatOfBound(kept);
  }

  lemma ScaleBounds(lo: nat, m: nat, hi: nat, p: nat)
    requires lo <= m < hi && p >= 1
    ensures lo * p <= m * p < hi * p
  {
    MulLe(lo, m, p);
    MulLe(m + 1, hi, p);
    OneMore(m, p);
  }

  /** A `d`-digit mantissa moved up by `k` places has `d + k` digits. */
  lemma ShiftedLength(m: nat, d: nat, k: nat)
    requires d > 0 && Pow10(d - 1) <= m < Pow10(d)
    ensures Pow10(d + k - 1) <= m * Pow10(k) < Pow10(d + k)
  {
    hide Pow10;
    PowAdd(d - 1, k);
    PowAdd(d, k);
    ScaleBounds(Pow10(d - 1), m, Pow10(d), Pow10(k));
  }

  lemma NormalForm(v: Value, d: nat)
    requires 0 < d <= 16 && Pow10(d - 1) <= v.mant < Pow10(d)
    requires EXP_MIN <= v.exp + d - 16 <= EXP_MAX
    ensures Holdable(Amount(v))
  {
    hide TenTo, Pow10, Amount;
    var k := 16 - d;
    ShiftedLength(v.mant, d, k);
    var w := Value(v.mant * Pow10(k), v.exp - k);
    Align(w, v);
    assert Normal(w);
  }

  lemma NormalDetermines(v: Value, d: nat, w: Value)
    requires d > 0 && Canonical(v) && Pow10(d - 1) <= v.mant < Pow10(d)
    requires Normal(w) && Amount(w) == Amount(v)
    ensures d <= 16 && w.exp == v.exp + d - 16
  {
    hide TenTo, Pow10, Amount;
    if v.exp <= w.exp {
      AlignedCanonical(v, w);
    }
    Align(w, v);
    var k := v.exp - w.exp;
    ShiftedLength(v.mant, d, k);
    SameLength(w.mant, 16, d + k);
  }

  lemma SameLength(m: nat, a: nat, b: nat)
    requires a > 0 && b > 0
    requires Pow10(a - 1) <= m < Pow10(a) && Pow10(b - 1) <= m < Pow10(b)
    ensures a == b
  {
    hide Pow10;
    if a < b {
      PowMonotone(a, b - 1);
    } else if b < a {
      PowMonotone(b, a - 1);
    }
  }

  lemma PowMonotone(a: nat, b: nat)
    requires a <= b
    ensures Pow10(a) <= Pow10(b)
  {
    hide Pow10;
    if a < b {
      PowGrows(a, b);
    }
  }

  /** A canonical value with `d` digits can be held on the ledger exactly when the parser's two checks pass. */
  lemma HoldableIff(v: Value, d: nat)
    requires d > 0 && Canonical(v) && Pow10(d - 1) <= v.mant < Pow10(d)
    ensures Holdable(Amount(v)) <==> d <= 16 && EXP_MIN <= v.exp + d - 16 <= EXP_MAX
  {
    hide TenTo, Pow10, Amount;
    if d <= 16 && EXP_MIN <= v.exp + d - 16 <= EXP_MAX {
      NormalForm(v, d);
    }
    if Holdable(Amount(v)) {
      var w :| Normal(w) && Amount(w) == Amount(v);
      NormalDetermines(v, d, w);
    }
  }

  lemma ZeroIsNotHoldable()
    ensures !Holdable(0.0)
  {
    hide TenTo, Pow10;
    forall v | Normal(v) ensures Amount(v) != 0.0 {
      ScaleOrder(v.mant, 0, TenTo(v.exp));
    }
  }

  lemma FromDigitsExact(digits: string, exp: int)
    requires AllDigits(digits) && (digits != "" ==> digits[0] != '0')
    ensures var x := NatOf(digits) as real * TenTo(exp);
            var r := FromDigits(digits, exp);
            && (r.Some? <==> Holdable(x))
            && (r.Some? ==> Canonical(r.value) && Amount(r.value) == x)
  {
    hide TenTo, Pow10, Holdable, Amount, Canonical;
    if digits == "" {
      ZeroIsNotHoldable();
      assert NatOf("") == 0;
    } else {
      KeptIsExact(digits, exp);
      HoldableIff(Kept(digits, exp), KeptLength(digits));
    }
  }

  lemma FromGroupsExact(g: Groups)
    requires WellFormed(g)
    ensures FromGroups(g).Some? <==> Holdable(Denoted(g))
    ensures FromGroups(g).Some? ==> Canonical(FromGroups(g).value) && Amount(FromGroups(g).value) == Denoted(g)
  {
    hide TenTo, Holdable, Amount, Canonical, FromDigits, Denoted, DropLeadingZeros, NatOf, ExponentOf,
         WellFormedExponent;
    DenotedByDigits(g);
    FromDigitsExact(DropLeadingZeros(g.whole + g.frac), ExponentOf(g.exponent) - |g.frac|);
  }

  /**
   * For every string of the grammar: it is accepted exactly when the number it denotes can be held on
   * the ledger, and then the parsed value is that number, in canonical form.
   */
  lemma ParseIsExact(s: string)
    ensures Match(s).None? ==> Parse(s).None?
    ensures Match(s).Some? ==>
              var x := (MatchSound(s); Denoted(Match(s).value));
              && (Parse(s).Some? <==> Holdable(x))
              && (Parse(s).Some? ==> Canonical(Parse(s).value) && Amount(Parse(s).value) == x)
  {
    hide Holdable, Amount, Canonical, Match, Spell, FromGroups, Denoted, WellFormed;
    MatchSound(s);
    if Match(s).Some? {
      FromGroupsExact(Match(s).value);
    }
  }

  /** Two accepted strings parse alike exactly when they denote the same number. */
  lemma SameValueIffSameNumber(s: string, t: string)
    requires Parse(s).Some? && Parse(t).Some?
    ensures Match(s).Some? && Match(t).Some?
    ensures (Parse(s) == Parse(t)) <==>
              (MatchSound(s); MatchSound(t); Denoted(Match(s).value) == Denoted(Match(t).value))
  {
    hide TenTo, Holdable, Amount, Canonical, Match, Spell, Parse, Denoted;
    ParseIsExact(s);
    ParseIsExact(t);
    MatchSound(s);
    MatchSound(t);
    if Denoted(Match(s).value) == Denoted(Match(t).value) {
      CanonicalUnique(Parse(s).value, Parse(t).value);
    }
  }

  /** The groups a printed value is spelled from. */
  function PrintedGroups(v: Value): (g: Groups)
    ensures WellFormed(g)
  {
    var digits := Spelled(v.mant);
    if v.exp >= 0 then Groups(digits + ZeroDigits(v.exp), "", None) else
      var neg := -v.exp;
      if neg < |digits| then Groups(digits[..|digits| - neg], digits[|digits| - neg..], None)
      else Groups("0", ZeroDigits(neg - |digits|) + digits, None)
  }

  lemma PrintedIsSpelled(v: Value)
    ensures Printed(v) == Spell(PrintedGroups(v))
  {
    hide NatOf;
    var g := PrintedGroups(v);
    if g.frac != "" {
      assert Spell(g) == g.whole + "." + g.frac;
      if g.whole == "0" && -v.exp >= |Spelled(v.mant)| {
        assert "0" + "." + g.frac == "0." + ZeroDigits(-v.exp - |Spelled(v.mant)|) + Spelled(v.mant);
      }
    } else {
      assert Spell(g) == g.whole;
    }
  }

  lemma PrintedDenotes(v: Value)
    ensures Denoted(PrintedGroups(v)) == Amount(v)
  {
    hide TenTo, Pow10, NatOf, Denoted, Spelled, ExponentOf;
    var g := PrintedGroups(v);
    var digits := Spelled(v.mant);
    NoExponent();
    DenotedByDigits(g);
    if v.exp >= 0 {
      NatOfJoin(digits, ZeroDigits(v.exp));
      NatOfZeroDigits(v.exp);
      assert g.whole + "" == g.whole;
      Shift(v.mant, 0, v.exp);
    } else if -v.exp < |digits| {
      assert g.whole + g.frac == digits;
    } else {
      var z := ZeroDigits(-v.exp - |digits|);
      assert "0" == ZeroDigits(1);
      NatOfJoin("0", z + digits);
      NatOfJoin(z, digits);
      NatOfZeroDigits(1);
      NatOfZeroDigits(-v.exp - |digits|);
    }
  }

  lemma NoExponent()
    ensures ExponentOf(None) == 0
  {
  }

  /** A plain decimal: a whole part without superfluous zeros, and a fraction only if there is one. */
  predicate PlainDecimal(s: string, whole: string, frac: string) {
    && s == (if frac == "" then whole else whole + "." + frac) && whole != ""
    && AllDigits(whole) && AllDigits(frac) && (whole == "0" || whole[0] != '0')
  }

  /** A parsed value is printed without exponent, to as many places as it has and no trailing zero. */
  lemma PrintedForm(v: Value)
    requires Canonical(v)
    ensures exists whole, frac ::
              && PlainDecimal(Printed(v), whole, frac) && |frac| == (if v.exp < 0 then -v.exp else 0)
              && (frac != "" ==> frac[|frac| - 1] != '0')
  {
    hide Spelled;
    var digits := Spelled(v.mant);
    SpelledLast(v.mant);
    if v.exp >= 0 {
      assert PlainDecimal(Printed(v), digits + ZeroDigits(v.exp), "");
    } else if -v.exp < |digits| {
      SplitForm(digits, |digits| + v.exp);
      assert PlainDecimal(Printed(v), digits[..|digits| + v.exp], digits[|digits| + v.exp..]);
    } else {
      ZeroForm(ZeroDigits(-v.exp - |digits|), digits);
      assert PlainDecimal(Printed(v), "0", ZeroDigits(-v.exp - |digits|) + digits);
    }
  }

  lemma SplitForm(digits: string, k: nat)
    requires AllDigits(digits) && 0 < k < |digits| && digits[0] != '0'
    ensures PlainDecimal(digits[..k] + "." + digits[k..], digits[..k], digits[k..])
    ensures digits[k..] != "" && digits[k..][|digits| - k - 1] == digits[|digits| - 1]
  {
  }

  lemma ZeroForm(zeros: string, digits: string)
    requires AllDigits(zeros) && AllDigits(digits) && digits != ""
    ensures PlainDecimal("0." + zeros + digits, "0", zeros + digits)
  {
    assert "0" + "." + (zeros + digits) == "0." + zeros + digits;
  }

  lemma SpelledLast(n: nat)
    requires n % 10 != 0
    ensures var s := Spelled(n); s[|s| - 1] != '0' && s[0] != '0'
  {
  }

  /** Printing a parsed value and parsing the result gives the value back. */
  lemma PrintedReadsBack(s: string)
    requires Parse(s).Some?
    ensures Parse(Printed(Parse(s).value)) == Parse(s)
  {
    hide TenTo, Holdable, Amount, Canonical, Match, Spell, Parse, Denoted, Printed, PrintedGroups;
    var v := Parse(s).value;
    ParseIsExact(s);
    PrintedIsSpelled(v);
    PrintedDenotes(v);
    MatchComplete(PrintedGroups(v));
    ParseIsExact(Printed(v));
    CanonicalUnique(v, Parse(Printed(v)).value);
  }

  /**
   * `settle` compares against the amount `verifyExact` checked: it re-parses the printed amount, and
   * any delivered value compares with that as it does with the amount in the signed transaction.
   */
  lemma SettleUsesVerifiedAmount(paid: string, delivered: Value)
    requires Parse(paid).Some?
    ensures var required := Parse(Printed(Parse(paid).value));
            required.Some? && (Compare(delivered, required.value) >= 0 <==>
              (ParseIsExact(paid); MatchSound(paid); Amount(delivered) >= Denoted(Match(paid).value)))
  {
    hide TenTo, Holdable, Amount, Canonical, Match, Spell, Parse, Denoted, Printed, Compare;
    PrintedReadsBack(paid);
    ParseIsExact(paid);
    MatchSound(paid);
    CompareIsOrder(delivered, Parse(paid).value);
    CompareRange(delivered, Parse(paid).value);
  }

  lemma CompareRange(a: Value, b: Value)
    ensures Compare(a, b) == 0 || Compare(a, b) == 1 || Compare(a, b) == -1
  {
  }
}
