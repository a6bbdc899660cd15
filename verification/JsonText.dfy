/**
 * Strings as sequences of UTF-16 code units, their JSON form, and the decimal form of integers.
 */
module JsonText {
  import opened Decimal

  type Unit = n: nat | n < 0x10000
  type Text = seq<Unit>

  const QUOTE: Unit := 34
  const COMMA: Unit := 44
  const MINUS: Unit := 45
  const COLON: Unit := 58
  const OPEN_BRACKET: Unit := 91
  const BACKSLASH: Unit := 92
  const CLOSE_BRACKET: Unit := 93
  const OPEN_BRACE: Unit := 123
  const CLOSE_BRACE: Unit := 125

  predicate IsAscii(s: string) { forall i :: 0 <= i < |s| ==> s[i] < 128 as char }

  function Ascii(s: string): (t: Text)
    requires IsAscii(s)
    ensures |t| == |s| && forall i :: 0 <= i < |s| ==> t[i] == s[i] as int
  {
    seq(|s|, i requires 0 <= i < |s| => s[i] as int)
  }

  predicate HighSurrogate(u: Unit) { 0xD800 <= u < 0xDC00 }

  predicate LowSurrogate(u: Unit) { 0xDC00 <= u < 0xE000 }

  /** A surrogate pair, which stands for one code point and is written as it is. */
  predicate StartsPair(s: Text) {
    |s| >= 2 && HighSurrogate(s[0]) && LowSurrogate(s[1])
  }

  function HexDigit(d: nat): Unit
    requires d < 16
  {
    if d < 10 then 48 + d else 87 + d
  }

  function UnicodeEscape(u: Unit): Text {
    [BACKSLASH, 117, HexDigit(u / 0x1000), HexDigit(u / 0x100 % 16), HexDigit(u / 0x10 % 16), HexDigit(u % 16)]
  }

  /** The letter of a two-unit escape; zero where there is none. */
  function ShortEscape(u: Unit): Unit {
    if u == 8 then 98 else if u == 9 then 116 else if u == 10 then 110 else if u == 12 then 102
    else if u == 13 then 114 else if u == QUOTE || u == BACKSLASH then u else 0
  }

  /** One code unit that is not part of a pair. */
  function EscapeUnit(u: Unit): Text {
    if ShortEscape(u) != 0 then [BACKSLASH, ShortEscape(u)]
    else if u < 0x20 || HighSurrogate(u) || LowSurrogate(u) then UnicodeEscape(u)
    else [u]
  }

  function Escape(s: Text): Text {
    if s == [] then []
    else if StartsPair(s) then s[..2] + Escape(s[2..])
    else EscapeUnit(s[0]) + Escape(s[1..])
  }

  /** `JSON.stringify` of a string. */
  function Quoted(s: Text): Text {
    [QUOTE] + Escape(s) + [QUOTE]
  }

  /** `JSON.stringify` of an integer. */
  function Number(n: int): Text {
    if n < 0 then [MINUS] + DigitUnits(-n) else DigitUnits(n)
  }

  function DigitUnits(n: nat): (t: Text)
    ensures |t| == |Spelled(n)|
    ensures forall i :: 0 <= i < |t| ==> t[i] == Spelled(n)[i] as int && 48 <= t[i] <= 57
  {
    seq(|Spelled(n)|, i requires 0 <= i < |Spelled(n)| => Spelled(n)[i] as int)
  }

  lemma Overlap(a: Text, b: Text, r: Text, q: Text)
    requires a + r == b + q
    ensures |a| < |b| ==> r != [] && r[0] == b[|a|]
    ensures |a| == |b| ==> a == b && r == q
  {
    if |a| < |b| {
      assert (a + r)[|a|] == r[0] && (b + q)[|a|] == b[|a|];
    } else if |a| == |b| {
      assert a == (a + r)[..|a|] && b == (b + q)[..|b|];
      assert r == (a + r)[|a|..] && q == (b + q)[|b|..];
    }
  }

  lemma HexInjective(a: nat, b: nat)
    requires a < 16 && b < 16 && HexDigit(a) == HexDigit(b)
    ensures a == b
  {
  }

  lemma SplitNibble(x: nat, lo: nat, hi: nat)
    requires lo == x % 16 && hi == x / 16
    ensures x == 16 * hi + lo
  {
  }

  lemma SixteenTwice(x: nat)
    ensures x / 0x100 == x / 0x10 / 16 && x / 0x1000 == x / 0x100 / 16
  {
  }

  lemma NibblesDetermine(u: Unit, v: Unit)
    requires u / 0x1000 == v / 0x1000 && u / 0x100 % 16 == v / 0x100 % 16
    requires u / 0x10 % 16 == v / 0x10 % 16 && u % 16 == v % 16
    ensures u == v
  {
    SixteenTwice(u);
    SixteenTwice(v);
    SplitNibble(u / 0x100, u / 0x100 % 16, u / 0x1000);
    SplitNibble(v / 0x100, v / 0x100 % 16, v / 0x1000);
    SplitNibble(u / 0x10, u / 0x10 % 16, u / 0x100);
    SplitNibble(v / 0x10, v / 0x10 % 16, v / 0x100);
  }

  lemma UnicodeEscapeInjective(u: Unit, v: Unit)
    requires UnicodeEscape(u) == UnicodeEscape(v)
    ensures u == v
  {
    hide HexDigit;
    var a, b := UnicodeEscape(u), UnicodeEscape(v);
    HexInjective(u / 0x1000, v / 0x1000) by { assert a[2] == b[2]; }
    HexInjective(u / 0x100 % 16, v / 0x100 % 16) by { assert a[3] == b[3]; }
    HexInjective(u / 0x10 % 16, v / 0x10 % 16) by { assert a[4] == b[4]; }
    HexInjective(u % 16, v % 16) by { assert a[5] == b[5]; }
    NibblesDetermine(u, v);
  }

  /** What a piece of escaped text looks like from its first two units. */
  lemma EscapeUnitShape(u: Unit)
    ensures var e := EscapeUnit(u);
            && e != [] && e[0] != QUOTE && !HighSurrogate(e[0])
            && (e[0] != BACKSLASH ==> e == [u])
            && (e[0] == BACKSLASH ==> |e| >= 2 && (|e| == 6 <==> e[1] == 117) && (|e| == 2 <==> e[1] != 117))
            && (|e| == 2 ==> e[1] == ShortEscape(u) && ShortEscape(u) != 0)
            && (|e| == 6 ==> e == UnicodeEscape(u))
  {
  }

  /** No unit's escaped form is the start of another's. */
  lemma EscapeUnitReadBack(u: Unit, v: Unit, r: Text, q: Text)
    requires EscapeUnit(u) + r == EscapeUnit(v) + q
    ensures u == v && r == q
  {
    hide EscapeUnit, UnicodeEscape;
    EscapeUnitShape(u);
    EscapeUnitShape(v);
    var a, b := EscapeUnit(u), EscapeUnit(v);
    assert (a + r)[0] == a[0] && (b + q)[0] == b[0];
    if a[0] == BACKSLASH {
      assert (a + r)[1] == a[1] && (b + q)[1] == b[1];
    }
    assert |a| == |b|;
    assert a == (a + r)[..|a|] && b == (b + q)[..|b|];
    assert r == (a + r)[|a|..] && q == (b + q)[|b|..];
    if |a| == 6 {
      UnicodeEscapeInjective(u, v);
    }
  }

  /** The first unit tells which of the three kinds of piece comes next. */
  lemma EscapeStart(s: Text, r: Text)
    ensures var x := Escape(s) + ([QUOTE] + r);
            && (s == [] <==> x[0] == QUOTE)
            && (StartsPair(s) <==> HighSurrogate(x[0]))
  {
    hide EscapeUnit;
    if s != [] && !StartsPair(s) {
      EscapeUnitShape(s[0]);
    }
  }

  lemma Assoc(a: Text, b: Text, c: Text)
    ensures (a + b) + c == a + (b + c)
  {
  }

  lemma EscapeNext(s: Text, r: Text)
    requires s != []
    ensures var x := Escape(s) + ([QUOTE] + r);
            if StartsPair(s) then x == s[..2] + (Escape(s[2..]) + ([QUOTE] + r))
            else x == EscapeUnit(s[0]) + (Escape(s[1..]) + ([QUOTE] + r))
  {
    hide EscapeUnit, HighSurrogate, LowSurrogate;
    if StartsPair(s) {
      Assoc(s[..2], Escape(s[2..]), [QUOTE] + r);
    } else {
      Assoc(EscapeUnit(s[0]), Escape(s[1..]), [QUOTE] + r);
    }
  }

  lemma PairReadBack(s: Text, t: Text, r: Text, q: Text)
    requires StartsPair(s) && StartsPair(t) && s[..2] + r == t[..2] + q
    ensures s[0] == t[0] && s[1] == t[1] && r == q
  {
    Overlap(s[..2], t[..2], r, q);
    assert s[..2][0] == s[0] && s[..2][1] == s[1];
  }

  /** An escaped string with its closing quote, and the text after it, can be read in one way only. */
  lemma {:induction false} EscapeReadBack(s: Text, t: Text, r: Text, q: Text)
    requires Escape(s) + ([QUOTE] + r) == Escape(t) + ([QUOTE] + q)
    ensures s == t && r == q
    decreases |s|
  {
    hide EscapeUnit, Escape, HighSurrogate;
    EscapeStart(s, r);
    EscapeStart(t, q);
    if s == [] {
      NothingEscaped(r);
      NothingEscaped(q);
      Overlap([QUOTE], [QUOTE], r, q);
    } else {
      EscapeNext(s, r);
      EscapeNext(t, q);
      if StartsPair(s) {
        PairReadBack(s, t, Escape(s[2..]) + ([QUOTE] + r), Escape(t[2..]) + ([QUOTE] + q));
        EscapeReadBack(s[2..], t[2..], r, q);
        assert s == [s[0], s[1]] + s[2..] && t == [t[0], t[1]] + t[2..];
      } else {
        EscapeUnitReadBack(s[0], t[0], Escape(s[1..]) + ([QUOTE] + r), Escape(t[1..]) + ([QUOTE] + q));
        EscapeReadBack(s[1..], t[1..], r, q);
        assert s == [s[0]] + s[1..] && t == [t[0]] + t[1..];
      }
    }
  }

  lemma NothingEscaped(r: Text)
    ensures Escape([]) + ([QUOTE] + r) == [QUOTE] + r
  {
  }

  lemma QuotedReadBack(s: Text, t: Text, r: Text, q: Text)
    requires Quoted(s) + r == Quoted(t) + q
    ensures s == t && r == q
  {
    hide Escape;
    var x, y := Quoted(s) + r, Quoted(t) + q;
    assert x[1..] == Escape(s) + ([QUOTE] + r) && y[1..] == Escape(t) + ([QUOTE] + q);
    EscapeReadBack(s, t, r, q);
  }

  /** Text that cannot carry a number further. */
  predicate Ends(r: Text) {
    r == [] || r[0] == COMMA || r[0] == CLOSE_BRACKET || r[0] == CLOSE_BRACE
  }

  lemma DigitsReadBack(n: nat, m: nat, r: Text, q: Text)
    requires DigitUnits(n) + r == DigitUnits(m) + q && Ends(r) && Ends(q)
    ensures n == m && r == q
  {
    hide NatOf, Spelled;
    var a, b := DigitUnits(n), DigitUnits(m);
    Overlap(a, b, r, q);
    Overlap(b, a, q, r);
    forall i | 0 <= i < |a| ensures Spelled(n)[i] == Spelled(m)[i] {
      assert a[i] == b[i];
    }
    assert Spelled(n) == Spelled(m);
  }

  lemma DropFirst(u: Unit, a: Text, r: Text)
    ensures ([u] + a + r)[1..] == a + r
  {
  }

  lemma NegativeReadBack(n: nat, m: nat, r: Text, q: Text)
    requires [MINUS] + DigitUnits(n) + r == [MINUS] + DigitUnits(m) + q && Ends(r) && Ends(q)
    ensures n == m && r == q
  {
    hide DigitUnits, Ends;
    DropFirst(MINUS, DigitUnits(n), r);
    DropFirst(MINUS, DigitUnits(m), q);
    DigitsReadBack(n, m, r, q);
  }

  lemma NumberIs(n: int)
    ensures n < 0 ==> Number(n) == [MINUS] + DigitUnits(-n)
    ensures n >= 0 ==> Number(n) == DigitUnits(n)
  {
  }

  lemma NumberReadBack(n: int, m: int, r: Text, q: Text)
    requires Number(n) + r == Number(m) + q && Ends(r) && Ends(q)
    ensures n == m && r == q
  {
    hide Number, DigitUnits, Ends, Spelled;
    NumberStart(n, r);
    NumberStart(m, q);
    NumberIs(n);
    NumberIs(m);
    if n < 0 {
      NegativeReadBack(-n, -m, r, q);
    } else {
      DigitsReadBack(n, m, r, q);
    }
  }

  lemma NumberStart(n: int, r: Text)
    ensures var x := Number(n) + r;
            x != [] && (n < 0 <==> x[0] == MINUS) && (n >= 0 <==> 48 <= x[0] <= 57)
  {
    assert DigitUnits(if n < 0 then -n else n) != [];
  }
}
