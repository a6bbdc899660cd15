/**
 * Decimal token amounts: the grammar `parseTokenValue` accepts, the parser with its stripping of
 * leading and trailing zeros, the exact comparison, and the printer.
 */
module TokenValue {
  import opened Wrappers
  import opened Decimal

  const MAX_MANT_DIGITS := 16
  const EXP_MIN := -96
  const EXP_MAX := 80

  /** The exponent group of the pattern: a mark, an optional sign, at least one digit. */
  datatype Exponent = Exponent(mark: char, sign: string, digits: string)

  /** The three groups of the pattern; an empty fraction stands for an absent one. */
  datatype Groups = Groups(whole: string, frac: string, exponent: Option<Exponent>)

  predicate WellFormedExponent(x: Exponent) {
    && (x.mark == 'e' || x.mark == 'E')
    && (x.sign == "" || x.sign == "+" || x.sign == "-")
    && x.digits != "" && AllDigits(x.digits)
  }

  predicate WellFormed(g: Groups) {
    && g.whole != "" && AllDigits(g.whole) && AllDigits(g.frac)
    && (g.exponent.Some? ==> WellFormedExponent(g.exponent.value))
  }

  function SpellExponent(x: Option<Exponent>): string {
    match x
    case None => ""
    case Some(e) => [e.mark] + (e.sign + e.digits)
  }

  function SpellFrac(f: string): string {
    if f == "" then "" else "." + f
  }

  function Spell(g: Groups): string {
    g.whole + (SpellFrac(g.frac) + SpellExponent(g.exponent))
  }

  /** How many digits a string starts with. */
  function Lead(s: string): (n: nat)
    ensures n <= |s| && AllDigits(s[..n]) && (n < |s| ==> !IsDigit(s[n]))
  {
    if s == "" || !IsDigit(s[0]) then 0 else
      var n := Lead(s[1..]);
      assert s[..n + 1] == [s[0]] + s[1..][..n];
      n + 1
  }

  function MatchExponent(s: string): Option<Option<Exponent>> {
    if s == "" then Some(None)
    else if s[0] != 'e' && s[0] != 'E' then None
    else
      var sign := if |s| > 1 && (s[1] == '+' || s[1] == '-') then [s[1]] else "";
      var digits := s[1 + |sign|..];
      if digits == "" || Lead(digits) < |digits| then None
      else Some(Some(Exponent(s[0], sign, digits)))
  }

  function WithExponent(whole: string, frac: string, rest: string): Option<Groups> {
    match MatchExponent(rest)
    case None => None
    case Some(x) => Some(Groups(whole, frac, x))
  }

  /** The anchored pattern: digits, an optional fraction, an optional exponent, nothing else. */
  function Match(s: string): Option<Groups> {
    var n := Lead(s);
    var rest := s[n..];
    if n == 0 then None
    else if rest != "" && rest[0] == '.' then
      var k := Lead(rest[1..]);
      if k == 0 then None else WithExponent(s[..n], rest[1..][..k], rest[1..][k..])
    else WithExponent(s[..n], "", rest)
  }

  function ExponentOf(x: Option<Exponent>): int
    requires x.Some? ==> WellFormedExponent(x.value)
  {
    match x
    case None => 0
    case Some(e) => var n: int := NatOf(e.digits); if e.sign == "-" then -n else n
  }

  function DropLeadingZeros(s: string): (r: string)
    requires AllDigits(s)
    ensures AllDigits(r) && NatOf(r) == NatOf(s)
    ensures r != "" ==> r[0] != '0'
    ensures |r| <= |s|
  {
    if s == "" || s[0] != '0' then s else
      NatOfJoin("0", s[1..]);
      assert s == "0" + s[1..] && NatOf("0") == 0;
      DropLeadingZeros(s[1..])
  }

  /** The trailing zeros, never counting the first digit. */
  function TrailingZeros(s: string): (n: nat)
    ensures s != "" ==> n < |s|
    ensures s == "" ==> n == 0
  {
    if |s| <= 1 || s[|s| - 1] != '0' then 0 else 1 + TrailingZeros(s[..|s| - 1])
  }

  datatype Value = Value(mant: nat, exp: int)

  function FromDigits(digits: string, exp: int): Option<Value>
    requires AllDigits(digits)
  {
    if digits == "" then None else
      var n := TrailingZeros(digits);
      var kept := digits[..|digits| - n];
      var norm := exp + n + (|kept| - MAX_MANT_DIGITS);
      if |kept| > MAX_MANT_DIGITS then None
      else if norm < EXP_MIN || norm > EXP_MAX then None
      else Some(Value(NatOf(kept), exp + n))
  }

  function FromGroups(g: Groups): Option<Value>
    requires WellFormed(g)
  {
    FromDigits(DropLeadingZeros(g.whole + g.frac), ExponentOf(g.exponent) - |g.frac|)
  }

  lemma ExponentMatches(s: string)
    ensures MatchExponent(s).Some? ==>
              var x := MatchExponent(s).value;
              s == SpellExponent(x) && (x.Some? ==> WellFormedExponent(x.value))
  {
    if MatchExponent(s).Some? && s != "" {
      var x := MatchExponent(s).value.value;
      assert x.digits[..Lead(x.digits)] == x.digits;
      assert s == [s[0]] + (x.sign + s[1 + |x.sign|..]);
    }
  }

  lemma WithExponentSound(whole: string, frac: string, rest: string)
    requires whole != "" && AllDigits(whole) && AllDigits(frac)
    ensures var g := WithExponent(whole, frac, rest);
            g.Some? ==> WellFormed(g.value) && Spell(g.value) == whole + (SpellFrac(frac) + rest)
  {
    hide MatchExponent, SpellExponent, SpellFrac, WellFormedExponent;
    ExponentMatches(rest);
  }

  lemma SplitAt(s: string, n: nat)
    requires n <= |s|
    ensures s == s[..n] + s[n..]
  {
  }

  /** Whatever matches is spelled by the groups it matched. */
  lemma MatchSound(s: string)
    ensures Match(s).Some? ==> WellFormed(Match(s).value) && s == Spell(Match(s).value)
  {
    hide WithExponent, Spell, WellFormed, Lead;
    var n := Lead(s);
    var rest := s[n..];
    SplitAt(s, n);
    if n > 0 {
      if rest != "" && rest[0] == '.' {
        var tail := rest[1..];
        var k := Lead(tail);
        if k > 0 {
          WithExponentSound(s[..n], tail[..k], tail[k..]);
          SplitAt(rest, 1);
          assert SpellFrac(tail[..k]) + tail[k..] == rest;
        }
      } else {
        WithExponentSound(s[..n], "", rest);
        assert SpellFrac("") + rest == rest;
      }
    }
  }

  function Parse(s: string): Option<Value> {
    match Match(s)
    case None => None
    case Some(g) => MatchSound(s); FromGroups(g)
  }

  lemma {:induction false} LeadOf(a: string, b: string)
    requires AllDigits(a) && (b == "" || !IsDigit(b[0]))
    ensures Lead(a + b) == |a|
  {
    if a == "" {
      assert a + b == b;
    } else {
      LeadOf(a[1..], b);
      assert (a + b)[1..] == a[1..] + b;
    }
  }

  lemma ExponentIsMatched(x: Option<Exponent>)
    requires x.Some? ==> WellFormedExponent(x.value)
    ensures MatchExponent(SpellExponent(x)) == Some(x)
    ensures SpellExponent(x) != "" ==> SpellExponent(x)[0] == 'e' || SpellExponent(x)[0] == 'E'
  {
    if x.Some? {
      var e := x.value;
      var s := SpellExponent(x);
      LeadOf(e.digits, "");
      assert e.digits + "" == e.digits;
      assert s[1..] == e.sign + e.digits;
      if e.sign == "" {
        assert s[1..] == e.digits;
      } else {
        assert s[1] == e.sign[0] && s[2..] == e.digits;
      }
    }
  }

  lemma JoinedParts(a: string, b: string)
    ensures (a + b)[..|a|] == a && (a + b)[|a|..] == b
  {
  }

  lemma MatchRest(whole: string, rest: string)
    requires AllDigits(whole) && whole != "" && (rest == "" || !IsDigit(rest[0]))
    ensures Match(whole + rest) ==
            if rest == "" || rest[0] != '.' then WithExponent(whole, "", rest)
            else if Lead(rest[1..]) == 0 then None
            else WithExponent(whole, rest[1..][..Lead(rest[1..])], rest[1..][Lead(rest[1..])..])
  {
    hide WithExponent, Lead;
    LeadOf(whole, rest);
    JoinedParts(whole, rest);
  }

  lemma DottedIsMatched(whole: string, frac: string, x: string)
    requires AllDigits(whole) && whole != "" && AllDigits(frac) && frac != "" && (x == "" || !IsDigit(x[0]))
    ensures Match(whole + ("." + (frac + x))) == WithExponent(whole, frac, x)
  {
    hide Match, WithExponent, Lead;
    var tail := frac + x;
    var rest := "." + tail;
    MatchRest(whole, rest);
    assert rest[1..] == tail;
    LeadOf(frac, x);
    JoinedParts(frac, x);
  }

  lemma FracIsMatched(whole: string, frac: string, x: string)
    requires AllDigits(whole) && whole != "" && AllDigits(frac) && (x == "" || x[0] == 'e' || x[0] == 'E')
    ensures Match(whole + (SpellFrac(frac) + x)) == WithExponent(whole, frac, x)
  {
    hide Match, WithExponent, Lead;
    if frac == "" {
      assert "" + x == x;
      MatchRest(whole, x);
    } else {
      assert ("." + frac) + x == "." + (frac + x);
      DottedIsMatched(whole, frac, x);
    }
  }

  /** Every spelling of well-formed groups matches, and as exactly those groups. */
  lemma MatchComplete(g: Groups)
    requires WellFormed(g)
    ensures Match(Spell(g)) == Some(g)
  {
    hide Match, MatchExponent, SpellExponent, SpellFrac, NatOf;
    ExponentIsMatched(g.exponent);
    FracIsMatched(g.whole, g.frac, SpellExponent(g.exponent));
  }

  /** `parseTokenValue`, with its loop over the trailing zeros. */
  method ParseTokenValue(s: string) returns (r: Option<Value>)
    ensures r == Parse(s)
  {
    hide Match, Spell, DropLeadingZeros, NatOf, ExponentOf;
    var m := Match(s);
    if m.None? {
      return None;
    }
    MatchSound(s);
    var exp := ExponentOf(m.value.exponent) - |m.value.frac|;
    var digits := DropLeadingZeros(m.value.whole + m.value.frac);
    if digits == "" {
      return None;
    }
    var trailing := 0;
    var i := |digits| - 1;
    assert digits[..i + 1] == digits;
    while i > 0 && digits[i] == '0'
      invariant 0 <= i < |digits| && trailing == |digits| - 1 - i
      invariant TrailingZeros(digits) == trailing + TrailingZeros(digits[..i + 1])
    {
      assert digits[..i + 1][..i] == digits[..i];
      trailing := trailing + 1;
      i := i - 1;
    }
    var kept := digits[..|digits| - trailing];
    exp := exp + trailing;
    if |kept| > MAX_MANT_DIGITS {
      return None;
    }
    var mant := NatOf(kept);
    var norm := exp + (|kept| - MAX_MANT_DIGITS);
    if norm < EXP_MIN || norm > EXP_MAX {
      return None;
    }
    return Some(Value(mant, exp));
  }

  /** `cmpTokenValue`: both mantissas are brought to the lower exponent, then compared as integers. */
  function Compare(a: Value, b: Value): int {
    var e := if a.exp < b.exp then a.exp else b.exp;
    var ma := a.mant * Pow10(a.exp - e);
    var mb := b.mant * Pow10(b.exp - e);
    if ma == mb then 0 else if ma > mb then 1 else -1
  }

  /** `tokenValueToString`: a plain decimal with no exponent. */
  function Printed(v: Value): string {
    var digits := Spelled(v.mant);
    if v.exp >= 0 then digits + ZeroDigits(v.exp) else
      var neg := -v.exp;
      if neg < |digits| then digits[..|digits| - neg] + "." + digits[|digits| - neg..]
      else "0." + ZeroDigits(neg - |digits|) + digits
  }
}
