/**
 * A decoder of UTF-8 in the grammar of RFC 3629 (sections 3 and 4) into UTF-16 code units. It knows
 * nothing of the encoder; it reads back whatever the encoder writes, a lone surrogate as U+FFFD.
 */
module Utf8Reader {
  import opened Bytes
  import opened Wrappers
  import opened JsonText
  import opened Utf8

  predicate Tail(b: byte) { 0x80 <= b < 0xC0 }

  /** UTF-16 of a scalar value. */
  function Units(c: nat): (t: Text)
    requires c < 0x110000
    ensures 1 <= |t| <= 2
  {
    if c < 0x10000 then [c] else [0xD800 + (c - 0x10000) / 0x400, 0xDC00 + (c - 0x10000) % 0x400]
  }

  /** The first scalar value and how many bytes it takes; none for overlong forms, surrogates and bytes out of place. */
  function Scalar(b: seq<byte>): (r: Option<(nat, nat)>)
    ensures r.Some? ==> r.value.0 < 0x110000 && 1 <= r.value.1 <= |b|
  {
    if b == [] then None
    else if b[0] < 0x80 then Some((b[0], 1))
    else if b[0] < 0xC0 then None
    else if b[0] < 0xE0 then
      if |b| < 2 || !Tail(b[1]) then None else
      var c := (b[0] as int - 0xC0) * 64 + (b[1] as int - 0x80);
      if c < 0x80 then None else Some((c, 2))
    else if b[0] < 0xF0 then
      if |b| < 3 || !Tail(b[1]) || !Tail(b[2]) then None else
      var c := (b[0] as int - 0xE0) * 0x1000 + (b[1] as int - 0x80) * 64 + (b[2] as int - 0x80);
      if c < 0x800 || 0xD800 <= c < 0xE000 then None else Some((c, 3))
    else if b[0] < 0xF8 then
      if |b| < 4 || !Tail(b[1]) || !Tail(b[2]) || !Tail(b[3]) then None else
      var c := (b[0] as int - 0xF0) * 0x40000 + (b[1] as int - 0x80) * 0x1000
        + (b[2] as int - 0x80) * 64 + (b[3] as int - 0x80);
      if c < 0x10000 || c >= 0x110000 then None else Some((c, 4))
    else None
  }

  function Decode(b: seq<byte>): Option<Text>
    decreases |b|
  {
    if b == [] then Some([]) else
    var c := Scalar(b);
    if c.None? then None else
    var rest := Decode(b[c.value.1..]);
    if rest.None? then None else Some(Units(c.value.0) + rest.value)
  }

  /** The text with every lone surrogate replaced. */
  function Repaired(s: Text): Text {
    if s == [] then []
    else if StartsPair(s) then s[..2] + Repaired(s[2..])
    else [if Surrogate(s[0]) then 0xFFFD else s[0]] + Repaired(s[1..])
  }

  lemma {:induction false} PairedIsRepaired(s: Text)
    requires Paired(s)
    ensures Repaired(s) == s
    decreases |s|
  {
    if s != [] {
      PairedIsRepaired(s[Taken(s)..]);
    }
  }

  lemma SixBitGroups(c: nat)
    ensures c == c / 64 * 64 + c % 64
    ensures c == c / 0x1000 * 0x1000 + c / 64 % 64 * 64 + c % 64
    ensures c == c / 0x40000 * 0x40000 + c / 0x1000 % 64 * 0x1000 + c / 64 % 64 * 64 + c % 64
  {
    SixFourTwice(c);
    Sixty4(c, c % 64, c / 64);
    Sixty4(c / 64, c / 64 % 64, c / 0x1000);
    Sixty4(c / 0x1000, c / 0x1000 % 64, c / 0x40000);
  }

  lemma UnitScalar(u: Unit, r: seq<byte>)
    ensures Scalar(UnitBytes(u) + r) == Some((if Surrogate(u) then 0xFFFD else u, |UnitBytes(u)|))
  {
    SixBitGroups(u);
  }

  lemma PairScalar(h: Unit, l: Unit, r: seq<byte>)
    requires HighSurrogate(h) && LowSurrogate(l)
    ensures Scalar(FourBytes(CodePoint(h, l)) + r) == Some((CodePoint(h, l), 4))
    ensures Units(CodePoint(h, l)) == [h, l]
  {
    SixBitGroups(CodePoint(h, l));
  }

  lemma FirstScalar(s: Text, r: seq<byte>)
    requires s != []
    ensures var c := Scalar(First(s) + r);
            && c.Some? && c.value.1 == |First(s)|
            && Units(c.value.0) == if StartsPair(s) then s[..2] else [if Surrogate(s[0]) then 0xFFFD else s[0]]
  {
    hide Scalar, FourBytes, UnitBytes, CodePoint;
    if StartsPair(s) {
      CodePointRange(s[0], s[1]);
      PairScalar(s[0], s[1], r);
      FirstLength(s);
    } else {
      UnitScalar(s[0], r);
    }
  }

  /** What is encoded is UTF-8 and decodes to the same text, up to lone surrogates. */
  lemma {:induction false} DecodeAfterEncode(s: Text)
    ensures Decode(Encode(s)) == Some(Repaired(s))
    ensures Paired(s) ==> Decode(Encode(s)) == Some(s)
    decreases |s|
  {
    hide Scalar, First, Encode, Paired;
    if s == [] {
      EmptyIff(s);
    } else {
      var rest := Encode(s[Taken(s)..]);
      EncodeNext(s);
      FirstScalar(s, rest);
      FirstLength(s);
      assert (First(s) + rest)[|First(s)|..] == rest;
      DecodeAfterEncode(s[Taken(s)..]);
    }
    if Paired(s) {
      PairedIsRepaired(s);
    }
  }
}
