/**
 * A reader of JSON text in the grammar of RFC 8259, for the values a receipt uses (numbers without
 * fraction or exponent, no white space). It knows nothing of the printer; it reads whatever the
 * canonical printer writes back as the same value.
 */
module JsonReader {
  import opened CanonicalExact
  import opened CanonicalJson
  import opened Decimal
  import opened JsonText
  import opened Wrappers

  // ---- strings (section 7) ----

  function HexValue(c: Unit): Option<nat> {
    if 48 <= c <= 57 then Some(c - 48)
    else if 97 <= c <= 102 then Some(c - 87)
    else if 65 <= c <= 70 then Some(c - 55)
    else None
  }

  function Hex4(t: Text): (r: Option<Unit>)
    requires |t| >= 4
  {
    var a, b, c, d := HexValue(t[0]), HexValue(t[1]), HexValue(t[2]), HexValue(t[3]);
    if a.None? || b.None? || c.None? || d.None? || a.value >= 16 || b.value >= 16 || c.value >= 16 || d.value >= 16
    then None
    else Some(a.value * 0x1000 + b.value * 0x100 + c.value * 0x10 + d.value)
  }

  /** The unit a two-unit escape stands for. */
  function Meaning(c: Unit): Option<Unit> {
    if c == 34 || c == 47 || c == 92 then Some(c)
    else if c == 98 then Some(8)
    else if c == 102 then Some(12)
    else if c == 110 then Some(10)
    else if c == 114 then Some(13)
    else if c == 116 then Some(9)
    else None
  }

  function Cons(u: Unit, r: Option<(Text, Text)>): Option<(Text, Text)> {
    if r.None? then None else Some(([u] + r.value.0, r.value.1))
  }

  /** A string after its opening quote, and what follows its closing quote. */
  function ReadString(t: Text): (r: Option<(Text, Text)>)
    ensures r.Some? ==> |r.value.1| < |t|
    decreases |t|
  {
    if t == [] then None
    else if t[0] == QUOTE then Some(([], t[1..]))
    else if t[0] == BACKSLASH then
      if |t| < 2 then None
      else if t[1] == 117 then
        if |t| < 6 || Hex4(t[2..]).None? then None else Cons(Hex4(t[2..]).value, ReadString(t[6..]))
      else if Meaning(t[1]).None? then None
      else Cons(Meaning(t[1]).value, ReadString(t[2..]))
    else if t[0] < 0x20 then None
    else Cons(t[0], ReadString(t[1..]))
  }

  // ---- numbers (section 6, without fraction and exponent) ----

  function DigitSpan(t: Text): (n: nat)
    ensures n <= |t| && forall i :: 0 <= i < n ==> 48 <= t[i] <= 57
    ensures n < |t| ==> !(48 <= t[n] <= 57)
    decreases |t|
  {
    if t == [] || !(48 <= t[0] <= 57) then 0 else 1 + DigitSpan(t[1..])
  }

  function Digits(t: Text): (s: string)
    requires forall i :: 0 <= i < |t| ==> 48 <= t[i] <= 57
    ensures |s| == |t| && AllDigits(s) && forall i :: 0 <= i < |t| ==> s[i] as int == t[i]
  {
    seq(|t|, i requires 0 <= i < |t| => t[i] as char)
  }

  function ReadNat(t: Text): (r: Option<(nat, Text)>)
    ensures r.Some? ==> |r.value.1| < |t|
  {
    var n := DigitSpan(t);
    if n == 0 || (t[0] == 48 && n > 1) then None else Some((NatOf(Digits(t[..n])), t[n..]))
  }

  // ---- values (sections 2 to 5) ----

  predicate StartsWith(t: Text, word: Text) {
    |word| <= |t| && t[..|word|] == word
  }

  function ReadValue(t: Text): (r: Option<(Json, Text)>)
    ensures r.Some? ==> |r.value.1| < |t|
    decreases |t|, 1
  {
    if t == [] then None
    else if StartsWith(t, Ascii("null")) then Some((Null, t[4..]))
    else if StartsWith(t, Ascii("true")) then Some((Bool(true), t[4..]))
    else if StartsWith(t, Ascii("false")) then Some((Bool(false), t[5..]))
    else if t[0] == QUOTE then
      var s := ReadString(t[1..]);
      if s.None? then None else Some((Str(s.value.0), s.value.1))
    else if t[0] == MINUS then
      var n := ReadNat(t[1..]);
      if n.None? then None else Some((Num(-(n.value.0 as int)), n.value.1))
    else if 48 <= t[0] <= 57 then
      var n := ReadNat(t);
      if n.None? then None else Some((Num(n.value.0), n.value.1))
    else if t[0] == OPEN_BRACKET then
      if |t| > 1 && t[1] == CLOSE_BRACKET then Some((Arr([]), t[2..]))
      else
        var es := ReadElements(t[1..]);
        if es.None? then None else Some((Arr(es.value.0), es.value.1))
    else if t[0] == OPEN_BRACE then
      if |t| > 1 && t[1] == CLOSE_BRACE then Some((Obj([]), t[2..]))
      else
        var ms := ReadMembers(t[1..]);
        if ms.None? then None else Some((Obj(ms.value.0), ms.value.1))
    else None
  }

  /** One or more values with commas between them, up to the closing bracket. */
  function ReadElements(t: Text): (r: Option<(seq<Json>, Text)>)
    ensures r.Some? ==> |r.value.1| < |t|
    decreases |t|, 2
  {
    var v := ReadValue(t);
    if v.None? then None else
    var rest := v.value.1;
    if rest == [] then None
    else if rest[0] == CLOSE_BRACKET then Some(([v.value.0], rest[1..]))
    else if rest[0] != COMMA then None
    else
      var es := ReadElements(rest[1..]);
      if es.None? then None else Some(([v.value.0] + es.value.0, es.value.1))
  }

  /** One or more members with commas between them, up to the closing brace. */
  function ReadMembers(t: Text): (r: Option<(seq<Member>, Text)>)
    ensures r.Some? ==> |r.value.1| < |t|
    decreases |t|, 2
  {
    if t == [] || t[0] != QUOTE then None else
    var k := ReadString(t[1..]);
    if k.None? || k.value.1 == [] || k.value.1[0] != COLON then None else
    var v := ReadValue(k.value.1[1..]);
    if v.None? then None else
    var m, rest := Member(k.value.0, v.value.0), v.value.1;
    if rest == [] then None
    else if rest[0] == CLOSE_BRACE then Some(([m], rest[1..]))
    else if rest[0] != COMMA then None
    else
      var ms := ReadMembers(rest[1..]);
      if ms.None? then None else Some(([m] + ms.value.0, ms.value.1))
  }

  /** A text that is one value and nothing else. */
  function Read(t: Text): Option<Json> {
    var r := ReadValue(t);
    if r.None? || r.value.1 != [] then None else Some(r.value.0)
  }

  // ---- strings are read back ----

  lemma HexRead(d: nat)
    requires d < 16
    ensures HexValue(HexDigit(d)) == Some(d) && (HexDigit(d) <= 57 || HexDigit(d) >= 97)
  {
  }

  lemma HexRebuilds(u: Unit)
    ensures u == u / 0x1000 * 0x1000 + u / 0x100 % 16 * 0x100 + u / 0x10 % 16 * 0x10 + u % 16
  {
    SixteenTwice(u);
    SplitNibble(u / 0x100, u / 0x100 % 16, u / 0x1000);
    SplitNibble(u / 0x10, u / 0x10 % 16, u / 0x100);
    SplitNibble(u, u % 16, u / 0x10);
  }

  lemma UnicodeEscapeRead(u: Unit, r: Text)
    ensures |UnicodeEscape(u)| == 6 && Hex4((UnicodeEscape(u) + r)[2..]) == Some(u)
    ensures (UnicodeEscape(u) + r)[0] == BACKSLASH && (UnicodeEscape(u) + r)[1] == 117
    ensures (UnicodeEscape(u) + r)[6..] == r
  {
    hide HexDigit, HexValue;
    HexRead(u / 0x1000);
    HexRead(u / 0x100 % 16);
    HexRead(u / 0x10 % 16);
    HexRead(u % 16);
    HexRebuilds(u);
  }

  /**
   * The escapes in full: the seven with a letter; `\u` and four lower-case hexadecimal digits of its
   * own value for every other control unit and every lone surrogate; and all else as it is.
   */
  lemma EscapeTable(u: Unit)
    ensures EscapeUnit(0x22) == Ascii("\\\"") && EscapeUnit(0x5C) == Ascii("\\\\")
    ensures EscapeUnit(0x08) == Ascii("\\b") && EscapeUnit(0x09) == Ascii("\\t") && EscapeUnit(0x0A) == Ascii("\\n")
    ensures EscapeUnit(0x0C) == Ascii("\\f") && EscapeUnit(0x0D) == Ascii("\\r")
    ensures (u < 0x20 && u !in {8, 9, 10, 12, 13}) || 0xD800 <= u < 0xE000 ==>
              var e := EscapeUnit(u);
              && |e| == 6 && e[..2] == Ascii("\\u") && Hex4(e[2..]) == Some(u)
              && forall i :: 2 <= i < 6 ==> 48 <= e[i] <= 57 || 97 <= e[i] <= 102
    ensures u >= 0x20 && u != 0x22 && u != 0x5C && !(0xD800 <= u < 0xE000) ==> EscapeUnit(u) == [u]
  {
    UnicodeEscapeRead(u, []);
    assert UnicodeEscape(u) + [] == UnicodeEscape(u);
  }

  lemma UnitRead(u: Unit, r: Text)
    ensures ReadString(EscapeUnit(u) + r) == Cons(u, ReadString(r))
  {
    hide UnicodeEscape, Hex4;
    UnicodeEscapeRead(u, r);
    var t := EscapeUnit(u) + r;
    if ShortEscape(u) != 0 {
      assert t[0] == BACKSLASH && t[1] == ShortEscape(u) && t[2..] == r;
    } else if !(u < 0x20 || HighSurrogate(u) || LowSurrogate(u)) {
      assert t[0] == u && t[1..] == r;
    }
  }

  lemma RawRead(u: Unit, r: Text)
    requires u >= 0x20 && u != QUOTE && u != BACKSLASH
    ensures ReadString([u] + r) == Cons(u, ReadString(r))
  {
    assert ([u] + r)[1..] == r;
  }

  /** A quoted string is read back as itself, whatever follows. */
  lemma {:induction false} StringRead(s: Text, r: Text)
    ensures ReadString(Escape(s) + ([QUOTE] + r)) == Some((s, r))
    decreases |s|
  {
    hide EscapeUnit, ReadString, Escape;
    if s == [] {
      NothingEscaped(r);
      QuoteRead(r);
    } else {
      EscapeNext(s, r);
      if StartsPair(s) {
        var x := Escape(s[2..]) + ([QUOTE] + r);
        StringRead(s[2..], r);
        RawRead(s[1], x);
        RawRead(s[0], [s[1]] + x);
        assert s[..2] + x == [s[0]] + ([s[1]] + x);
        assert s == [s[0]] + ([s[1]] + s[2..]);
      } else {
        StringRead(s[1..], r);
        UnitRead(s[0], Escape(s[1..]) + ([QUOTE] + r));
        assert s == [s[0]] + s[1..];
      }
    }
  }

  lemma QuoteRead(r: Text)
    ensures ReadString([QUOTE] + r) == Some(([], r))
  {
    assert ([QUOTE] + r)[1..] == r;
  }

  // ---- numbers are read back ----

  lemma {:induction false} SpanOf(a: Text, r: Text)
    requires (forall i :: 0 <= i < |a| ==> 48 <= a[i] <= 57) && Ends(r)
    ensures DigitSpan(a + r) == |a|
    decreases |a|
  {
    if a == [] {
      assert a + r == r;
    } else {
      assert (a + r)[1..] == a[1..] + r;
      SpanOf(a[1..], r);
    }
  }

  lemma SpelledStart(n: nat)
    ensures |Spelled(n)| > 1 ==> Spelled(n)[0] != '0'
  {
  }

  lemma NatRead(n: nat, r: Text)
    requires Ends(r)
    ensures ReadNat(DigitUnits(n) + r) == Some((n, r))
  {
    hide NatOf, DigitSpan, Ends, Spelled;
    var a := DigitUnits(n);
    SpanOf(a, r);
    SpelledStart(n);
    assert (a + r)[..|a|] == a && (a + r)[|a|..] == r;
    assert Digits(a) == Spelled(n);
  }

  // ---- values are read back ----

  lemma WordRead(r: Text)
    ensures ReadValue(Ascii("null") + r) == Some((Null, r))
    ensures ReadValue(Ascii("true") + r) == Some((Bool(true), r))
    ensures ReadValue(Ascii("false") + r) == Some((Bool(false), r))
  {
    hide ReadElements, ReadMembers, ReadString, ReadNat;
    var a, b, c := Ascii("null") + r, Ascii("true") + r, Ascii("false") + r;
    assert a[..4] == Ascii("null") && a[4..] == r && a[0] == 110;
    assert b[..4] == Ascii("true") && b[4..] == r && b[0] == 116;
    assert c[..5] == Ascii("false") && c[5..] == r && c[0] == 102;
  }

  /** Which branch a text takes is decided by its first unit. */
  lemma ByFirst(t: Text)
    requires t != [] && t[0] != 110 && t[0] != 116 && t[0] != 102
    ensures !StartsWith(t, Ascii("null")) && !StartsWith(t, Ascii("true")) && !StartsWith(t, Ascii("false"))
  {
    assert forall w: Text :: StartsWith(t, w) && w != [] ==> w[0] == t[0] by {
      forall w: Text | StartsWith(t, w) && w != [] ensures w[0] == t[0] {
        assert t[..|w|][0] == t[0];
      }
    }
  }

  lemma NumberRead(n: int, r: Text)
    requires Ends(r)
    ensures ReadValue(Number(n) + r) == Some((Num(n), r))
  {
    hide DigitUnits, Ends, ReadNat, ReadElements, ReadMembers, ReadString, StartsWith;
    var t := Number(n) + r;
    NumberStart(n, r);
    ByFirst(t);
    if n < 0 {
      DropFirst(MINUS, DigitUnits(-n), r);
      NatRead(-n, r);
    } else {
      NatRead(n, r);
    }
  }

  lemma QuotedRead(s: Text, r: Text)
    ensures Quoted(s) + r != [] && (Quoted(s) + r)[0] == QUOTE && ReadString((Quoted(s) + r)[1..]) == Some((s, r))
  {
    hide Escape, ReadString;
    StringRead(s, r);
    assert (Quoted(s) + r)[1..] == Escape(s) + ([QUOTE] + r);
  }

  lemma StrRead(s: Text, r: Text)
    ensures ReadValue(Quoted(s) + r) == Some((Str(s), r))
  {
    hide Quoted, ReadString, ReadNat, ReadElements, ReadMembers, StartsWith;
    QuotedRead(s, r);
    ByFirst(Quoted(s) + r);
  }

  /** The text of a value, followed by anything that can follow one, is read as the same value. */
  lemma {:induction false} ValueRead(v: Json, r: Text)
    requires Canon(v).Some? && Ends(r)
    ensures var x := ReadValue(Canon(v).value + r);
            x.Some? && x.value.1 == r && Same(v, x.value.0) && x.value.0 != Undefined
    decreases v, 1, 0
  {
    hide ReadValue, CanonItems, CanonMembers, Escape, DigitUnits, Lookup, Number, Quoted, Ends, Ascii;
    match v
    case Null => WordRead(r);
    case Bool(b) => WordRead(r);
    case Num(n) => NumberRead(n, r);
    case Str(s) => StrRead(s, r);
    case Arr(_) => ArrayRead(v, r);
    case Obj(_) => ObjectRead(v, r);
  }

  /** What follows the opening bracket, from element `i` on. */
  function FromItem(v: Json, i: nat, r: Text): Text
    requires v.Arr? && i < |v.items| && CanonItems(v, i).Some?
  {
    Canon(v.items[i]).value + (CanonItems(v, i + 1).value + ([CLOSE_BRACKET] + r))
  }

  lemma {:induction false} ArrayRead(v: Json, r: Text)
    requires v.Arr? && Canon(v).Some?
    ensures var x := ReadValue(Canon(v).value + r);
            x.Some? && x.value.1 == r && Same(v, x.value.0) && x.value.0 != Undefined
    decreases v, 0, |v.items| + 1
  {
    hide Canon, CanonItems, ReadElements, ReadMembers, ReadString, ReadNat, StartsWith, Same, StartsAs;
    var t := Canon(v).value + r;
    BracketFirst(v, r);
    ArrText(v, r);
    ByFirst(t);
    ItemsNext(v, 0, r);
    ItemsEnd(v, 0, r);
    if v.items == [] {
      assert t[1..] == [CLOSE_BRACKET] + r;
      assert t[2..] == t[1..][1..] == r;
      EmptyArrays(v);
    } else {
      assert t[1] == t[1..][0];
      assert t[1..] == FromItem(v, 0, r);
      ItemsRead(v, 0, r);
      SameArrays(v, ReadElements(t[1..]).value.0);
    }
  }

  lemma BracketFirst(v: Json, r: Text)
    requires Canon(v).Some? && (v.Arr? || v.Obj?)
    ensures var t := Canon(v).value + r; t != [] && t[0] == if v.Arr? then OPEN_BRACKET else OPEN_BRACE
  {
    hide CanonItems, CanonMembers;
  }

  lemma EmptyArrays(v: Json)
    requires v.Arr? && v.items == []
    ensures Same(v, Arr([]))
  {
  }

  lemma SameArrays(v: Json, ws: seq<Json>)
    requires v.Arr? && |ws| == |v.items| && forall k :: 0 <= k < |ws| ==> Same(v.items[k], ws[k])
    ensures Same(v, Arr(ws))
  {
  }

  lemma {:induction false} ItemsRead(v: Json, i: nat, r: Text)
    requires v.Arr? && i < |v.items| && CanonItems(v, i).Some?
    ensures var x := ReadElements(FromItem(v, i, r));
            && x.Some? && x.value.1 == r && |x.value.0| == |v.items| - i
            && forall k :: i <= k < |v.items| ==> Same(v.items[k], x.value.0[k - i])
    decreases v, 0, |v.items| - i
  {
    hide Canon, CanonItems, ReadValue, ReadElements, Same, Ends, Separator;
    var t := FromItem(v, i, r);
    ItemsNext(v, i, r);
    var rest := CanonItems(v, i + 1).value + ([CLOSE_BRACKET] + r);
    ItemsEnd(v, i + 1, r);
    ValueRead(v.items[i], rest);
    ItemsNext(v, i + 1, r);
    ElementsStep(t);
    if i + 1 == |v.items| {
      assert rest[1..] == r;
    } else {
      AfterComma(i + 1, FromItem(v, i + 1, r));
      ItemsRead(v, i + 1, r);
    }
  }

  lemma AfterComma(i: nat, t: Text)
    requires i > 0
    ensures (Separator(i) + t)[0] == COMMA && (Separator(i) + t)[1..] == t
  {
  }

  lemma ElementsStep(t: Text)
    requires ReadValue(t).Some? && ReadValue(t).value.1 != []
    ensures var (w, rest) := ReadValue(t).value;
            ReadElements(t) ==
            if rest[0] == CLOSE_BRACKET then Some(([w], rest[1..]))
            else if rest[0] != COMMA || ReadElements(rest[1..]).None? then None
            else Some(([w] + ReadElements(rest[1..]).value.0, ReadElements(rest[1..]).value.1))
  {
    hide ReadValue;
  }

  // ---- objects ----

  lemma {:induction false} ObjectRead(v: Json, r: Text)
    requires v.Obj? && Canon(v).Some?
    ensures var x := ReadValue(Canon(v).value + r);
            x.Some? && x.value.1 == r && Same(v, x.value.0) && x.value.0 != Undefined
    decreases v, 0, |PrintedKeys(v.members)| + 1
  {
    hide Canon, CanonMembers, ReadElements, ReadMembers, ReadString, ReadNat, StartsWith, Same, StartsAs, PrintedKeys,
         Lookup, Quoted;
    var t, ks := Canon(v).value + r, PrintedKeys(v.members);
    BracketFirst(v, r);
    ObjText(v, r);
    ByFirst(t);
    MembersNext(v, ks, 0, r);
    MembersEnd(v, ks, 0, r);
    if ks == [] {
      assert t[1..] == [CLOSE_BRACE] + r;
      assert t[2..] == t[1..][1..] == r;
      SameObjects(v.members, []);
    } else {
      assert t[1] == t[1..][0];
      NoSeparator(Quoted(ks[0]) + AfterKey(v, ks, 0, r));
      assert t[1..] == Quoted(ks[0]) + AfterKey(v, ks, 0, r);
      MembersRead(v, ks, 0, r);
      SameObjects(v.members, ReadMembers(t[1..]).value.0);
    }
  }

  lemma NoSeparator(t: Text)
    ensures Separator(0) + t == t
  {
  }

  lemma NoMember(ws: seq<Member>, k: Text)
    requires forall i :: 0 <= i < |ws| ==> ws[i].key != k
    ensures Lookup(ws, k) == Undefined
  {
  }

  /** A list of members under the printed keys, with the same values, builds the same object. */
  lemma SameObjects(ms: seq<Member>, ws: seq<Member>)
    requires var ks := PrintedKeys(ms);
             |ws| == |ks| && forall i :: 0 <= i < |ks| ==>
               ws[i].key == ks[i] && ws[i].value != Undefined && Same(Lookup(ms, ks[i]), ws[i].value)
    ensures Same(Obj(ms), Obj(ws))
  {
    hide Lookup, PrintedKeys, Less;
    var ks := PrintedKeys(ms);
    KeysDistinct(ms);
    forall k
      ensures Lookup(ms, k) == Undefined <==> Lookup(ws, k) == Undefined
      ensures Lookup(ms, k) != Undefined ==> Same(Lookup(ms, k), Lookup(ws, k))
    {
      if k in ks {
        var i :| 0 <= i < |ks| && ks[i] == k;
        LookupAt(ws, i);
      } else {
        forall i | 0 <= i < |ws| ensures ws[i].key != k {
          assert ks[i] in ks;
        }
        NoMember(ws, k);
      }
    }
  }

  lemma KeysDistinct(ms: seq<Member>)
    ensures forall i, j :: 0 <= i < j < |PrintedKeys(ms)| ==> PrintedKeys(ms)[i] != PrintedKeys(ms)[j]
  {
    hide PrintedKeys, Less;
    var ks := PrintedKeys(ms);
    forall i, j | 0 <= i < j < |ks| ensures ks[i] != ks[j] {
      assert Less(ks[i], ks[j]);
      LessStrict(ks[i]);
    }
  }

  lemma {:induction false} MembersRead(v: Json, ks: seq<Text>, i: nat, r: Text)
    requires Prints(v, ks) && i < |ks| && CanonMembers(v, ks, i).Some?
    ensures var x := ReadMembers(Quoted(ks[i]) + AfterKey(v, ks, i, r));
            && x.Some? && x.value.1 == r && |x.value.0| == |ks| - i
            && forall k :: i <= k < |ks| ==>
                 && x.value.0[k - i].key == ks[k] && x.value.0[k - i].value != Undefined
                 && Same(Lookup(v.members, ks[k]), x.value.0[k - i].value)
    decreases v, 0, |ks| - i
  {
    hide Canon, CanonMembers, ReadValue, ReadMembers, ReadString, Same, Ends, Separator, Quoted, Lookup, AfterKey;
    var t := Quoted(ks[i]) + AfterKey(v, ks, i, r);
    MembersNext(v, ks, i, r);
    QuotedRead(ks[i], AfterKey(v, ks, i, r));
    AfterKeyTail(v, ks, i, r);
    var x := Lookup(v.members, ks[i]);
    var rest := CanonMembers(v, ks, i + 1).value + ([CLOSE_BRACE] + r);
    assert AfterKey(v, ks, i, r)[1..] == Canon(x).value + rest;
    MembersEnd(v, ks, i + 1, r);
    ValueRead(x, rest);
    MembersNext(v, ks, i + 1, r);
    MembersStep(t, ks[i], AfterKey(v, ks, i, r));
    if i + 1 == |ks| {
      assert rest[1..] == r;
    } else {
      AfterComma(i + 1, Quoted(ks[i + 1]) + AfterKey(v, ks, i + 1, r));
      MembersRead(v, ks, i + 1, r);
    }
  }

  lemma MembersStep(t: Text, k: Text, after: Text)
    requires t != [] && t[0] == QUOTE && ReadString(t[1..]) == Some((k, after)) && after != [] && after[0] == COLON
    requires ReadValue(after[1..]).Some? && ReadValue(after[1..]).value.1 != []
    ensures var (w, rest) := ReadValue(after[1..]).value;
            ReadMembers(t) ==
            if rest[0] == CLOSE_BRACE then Some(([Member(k, w)], rest[1..]))
            else if rest[0] != COMMA || ReadMembers(rest[1..]).None? then None
            else Some(([Member(k, w)] + ReadMembers(rest[1..]).value.0, ReadMembers(rest[1..]).value.1))
  {
    hide ReadValue, ReadString;
  }

  // ---- the main result ----

  /** Canonical text is JSON, and reads back as the value it was printed from; reprinting gives the same text. */
  lemma CanonReadsBack(v: Json)
    requires Canon(v).Some?
    ensures Read(Canon(v).value).Some? && Same(v, Read(Canon(v).value).value)
    ensures Canon(Read(Canon(v).value).value) == Canon(v)
  {
    hide Canon, ReadValue, Same;
    var t := Canon(v).value;
    ValueRead(v, []);
    assert t + [] == t;
    SamePrintsSame(v, Read(t).value);
  }
}
