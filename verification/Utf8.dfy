/**
 * UTF-8 of a sequence of UTF-16 code units, as Node encodes it: a lone surrogate becomes the
 * replacement character, so that only text without lone surrogates keeps its identity.
 */
module Utf8 {
  import opened Bytes
  import opened JsonText

  predicate Surrogate(u: Unit) { HighSurrogate(u) || LowSurrogate(u) }

  /** No lone surrogate. */
  predicate Paired(s: Text) {
    if s == [] then true
    else if StartsPair(s) then Paired(s[2..])
    else !Surrogate(s[0]) && Paired(s[1..])
  }

  function CodePoint(h: Unit, l: Unit): nat
    requires HighSurrogate(h) && LowSurrogate(l)
  {
    0x10000 + (h - 0xD800) * 0x400 + (l - 0xDC00)
  }

  function FourBytes(c: nat): seq<byte>
    requires 0x10000 <= c < 0x110000
  {
    [0xF0 + c / 0x40000, 0x80 + c / 0x1000 % 64, 0x80 + c / 64 % 64, 0x80 + c % 64]
  }

  function UnitBytes(u: Unit): seq<byte> {
    if u < 0x80 then [u]
    else if u < 0x800 then [0xC0 + u / 64, 0x80 + u % 64]
    else if Surrogate(u) then [0xEF, 0xBF, 0xBD]
    else [0xE0 + u / 0x1000, 0x80 + u / 64 % 64, 0x80 + u % 64]
  }

  function Encode(s: Text): seq<byte> {
    if s == [] then []
    else if StartsPair(s) then FourBytes(CodePoint(s[0], s[1])) + Encode(s[2..])
    else UnitBytes(s[0]) + Encode(s[1..])
  }

  lemma Sixty4(x: nat, lo: nat, hi: nat)
    requires lo == x % 64 && hi == x / 64
    ensures x == 64 * hi + lo
  {
  }

  lemma SixFourTwice(x: nat)
    ensures x / 0x1000 == x / 64 / 64 && x / 0x40000 == x / 0x1000 / 64
  {
  }

  lemma SixBitsDetermine(x: nat, y: nat)
    requires x % 64 == y % 64 && x / 64 % 64 == y / 64 % 64 && x / 0x1000 == y / 0x1000
    ensures x == y
  {
    SixFourTwice(x);
    SixFourTwice(y);
    Sixty4(x / 64, x / 64 % 64, x / 0x1000);
    Sixty4(y / 64, y / 64 % 64, y / 0x1000);
  }

  lemma FourBytesInjective(c: nat, d: nat)
    requires 0x10000 <= c < 0x110000 && 0x10000 <= d < 0x110000 && FourBytes(c) == FourBytes(d)
    ensures c == d
  {
    var a, b := FourBytes(c), FourBytes(d);
    assert a[0] == b[0] && a[1] == b[1] && a[2] == b[2] && a[3] == b[3];
    SixFourTwice(c);
    SixFourTwice(d);
    Sixty4(c / 0x1000, c / 0x1000 % 64, c / 0x40000);
    Sixty4(d / 0x1000, d / 0x1000 % 64, d / 0x40000);
    SixBitsDetermine(c, d);
  }

  lemma CodePointInjective(h: Unit, l: Unit, h': Unit, l': Unit)
    requires HighSurrogate(h) && LowSurrogate(l) && HighSurrogate(h') && LowSurrogate(l')
    requires CodePoint(h, l) == CodePoint(h', l')
    ensures h == h' && l == l'
  {
  }

  lemma UnitBytesInjective(u: Unit, v: Unit)
    requires !Surrogate(u) && !Surrogate(v) && UnitBytes(u) == UnitBytes(v)
    ensures u == v
  {
    var a, b := UnitBytes(u), UnitBytes(v);
    if |a| == 1 {
      assert a[0] == b[0];
    } else if |a| == 2 {
      assert a[0] == b[0] && a[1] == b[1];
      Sixty4(u, u % 64, u / 64);
    } else {
      assert a[0] == b[0] && a[1] == b[1] && a[2] == b[2];
      SixBitsDetermine(u, v);
    }
  }

  /** The bytes of the first character, and how many units it takes. */
  function First(s: Text): seq<byte>
    requires s != []
  {
    if StartsPair(s) then FourBytes(CodePoint(s[0], s[1])) else UnitBytes(s[0])
  }

  function Taken(s: Text): nat
    requires s != []
  {
    if StartsPair(s) then 2 else 1
  }

  lemma FirstLength(s: Text)
    requires s != []
    ensures var a := First(s);
            && 1 <= |a| <= 4 && (|a| == 4 <==> StartsPair(s))
            && (|a| == 1 <==> a[0] < 0x80) && (|a| == 2 <==> 0xC0 <= a[0] < 0xE0)
            && (|a| == 3 <==> 0xE0 <= a[0] < 0xF0) && (|a| == 4 <==> 0xF0 <= a[0])
  {
  }

  lemma FirstInjective(s: Text, t: Text)
    requires Paired(s) && Paired(t) && s != [] && t != [] && First(s) == First(t)
    ensures Taken(s) == Taken(t) && s[..Taken(s)] == t[..Taken(t)]
  {
    hide FourBytes, UnitBytes, CodePoint;
    FirstLength(s);
    FirstLength(t);
    if StartsPair(s) {
      CodePointRange(s[0], s[1]);
      CodePointRange(t[0], t[1]);
      FourBytesInjective(CodePoint(s[0], s[1]), CodePoint(t[0], t[1]));
      CodePointInjective(s[0], s[1], t[0], t[1]);
    } else {
      UnitBytesInjective(s[0], t[0]);
    }
  }

  lemma CodePointRange(h: Unit, l: Unit)
    requires HighSurrogate(h) && LowSurrogate(l)
    ensures 0x10000 <= CodePoint(h, l) < 0x110000
  {
  }

  lemma EncodeNext(s: Text)
    requires s != []
    ensures Encode(s) == First(s) + Encode(s[Taken(s)..])
    ensures Paired(s) ==> Paired(s[Taken(s)..])
  {
  }

  lemma SameStart(a: seq<byte>, b: seq<byte>, r: seq<byte>, q: seq<byte>)
    requires a + r == b + q && a != [] && b != []
    ensures a[0] == b[0]
    ensures |a| == |b| ==> a == b && r == q
  {
    assert (a + r)[0] == a[0] && (b + q)[0] == b[0];
    if |a| == |b| {
      assert a == (a + r)[..|a|] && b == (b + q)[..|b|];
      assert r == (a + r)[|a|..] && q == (b + q)[|b|..];
    }
  }

  /** Text without lone surrogates is determined by its bytes. */
  lemma {:induction false} EncodeInjective(s: Text, t: Text)
    requires Paired(s) && Paired(t) && Encode(s) == Encode(t)
    ensures s == t
    decreases |s|
  {
    hide Encode, First, Paired;
    if s == [] || t == [] {
      EmptyIff(s);
      EmptyIff(t);
    } else {
      EncodeNext(s);
      EncodeNext(t);
      FirstLength(s);
      FirstLength(t);
      SameStart(First(s), First(t), Encode(s[Taken(s)..]), Encode(t[Taken(t)..]));
      FirstInjective(s, t);
      EncodeInjective(s[Taken(s)..], t[Taken(t)..]);
      assert s == s[..Taken(s)] + s[Taken(s)..] && t == t[..Taken(t)] + t[Taken(t)..];
    }
  }

  lemma EmptyIff(s: Text)
    ensures Encode(s) == [] <==> s == []
  {
    if s != [] {
      FirstLength(s);
      EncodeNext(s);
    }
  }

  lemma {:induction false} PairedJoin(a: Text, b: Text)
    requires Paired(a) && Paired(b)
    ensures Paired(a + b)
    decreases |a|
  {
    if a == [] {
      assert a + b == b;
    } else if StartsPair(a) {
      assert (a + b)[2..] == a[2..] + b;
      PairedJoin(a[2..], b);
    } else {
      assert (a + b)[1..] == a[1..] + b;
      PairedJoin(a[1..], b);
    }
  }

  lemma {:induction false} PlainIsPaired(a: Text)
    requires forall i :: 0 <= i < |a| ==> !Surrogate(a[i])
    ensures Paired(a)
    decreases |a|
  {
    if a != [] {
      PlainIsPaired(a[1..]);
    }
  }

  lemma EscapeUnitIsPlain(u: Unit)
    ensures Paired(EscapeUnit(u))
  {
    var e := EscapeUnit(u);
    forall i | 0 <= i < |e| ensures !Surrogate(e[i]) {
    }
    PlainIsPaired(e);
  }

  /** A quoted string never holds a lone surrogate, whatever the string holds. */
  lemma {:induction false} EscapeIsPaired(s: Text)
    ensures Paired(Escape(s))
    decreases |s|
  {
    hide EscapeUnit;
    if s != [] {
      if StartsPair(s) {
        EscapeIsPaired(s[2..]);
        var e := Escape(s);
        assert e[2..] == Escape(s[2..]) && StartsPair(e);
      } else {
        EscapeUnitIsPlain(s[0]);
        EscapeIsPaired(s[1..]);
        PairedJoin(EscapeUnit(s[0]), Escape(s[1..]));
      }
    }
  }

  lemma QuotedIsPaired(s: Text)
    ensures Paired(Quoted(s))
  {
    hide Escape;
    EscapeIsPaired(s);
    PlainIsPaired([QUOTE]);
    PairedJoin([QUOTE], Escape(s));
    PairedJoin([QUOTE] + Escape(s), [QUOTE]);
  }
}
