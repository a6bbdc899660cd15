/**
 * What a receipt's signature covers: the UTF-8 bytes of the canonical text of a fixed projection of
 * the receipt.
 */
module SignedReceipt {
  import opened Bytes
  import opened CanonicalExact
  import opened CanonicalJson
  import opened JsonText
  import opened Utf8
  import opened Wrappers

  /** The fields a signer or a verifier reads; an absent one is `Undefined`. */
  datatype Receipt = Receipt(
    network: Json, txHash: Json, payer: Json, payTo: Json,
    asset: Json, delivered: Json, required: Json, ts: Json
  )

  /** `x ?? null` */
  function OrNull(x: Json): Json {
    if x == Undefined then Null else x
  }

  /** `receiptSignablePayload` */
  function Payload(r: Receipt): Json {
    Obj([
      Member(Ascii("v"), Num(1)),
      Member(Ascii("network"), OrNull(r.network)),
      Member(Ascii("txHash"), OrNull(r.txHash)),
      Member(Ascii("payer"), OrNull(r.payer)),
      Member(Ascii("payTo"), OrNull(r.payTo)),
      Member(Ascii("asset"), OrNull(r.asset)),
      Member(Ascii("delivered"), OrNull(r.delivered)),
      Member(Ascii("required"), OrNull(r.required)),
      Member(Ascii("ts"), OrNull(r.ts))
    ])
  }

  /** The bytes that are signed and verified; none where the source throws. */
  function SignedBytes(r: Receipt): Option<bytes> {
    match Canon(Payload(r))
    case None => None
    case Some(t) => Some(Encode(t))
  }

  lemma AsciiIsPaired(s: string)
    requires IsAscii(s)
    ensures Paired(Ascii(s))
  {
    PlainIsPaired(Ascii(s));
  }

  lemma WrapIsPaired(u: Unit, t: Text, c: Unit)
    requires Paired(t) && !Surrogate(u) && !Surrogate(c)
    ensures Paired([u] + t + [c])
  {
    PlainIsPaired([u]);
    PlainIsPaired([c]);
    PairedJoin([u], t);
    PairedJoin([u] + t, [c]);
  }

  lemma SeparatorIsPaired(i: nat)
    ensures Paired(Separator(i))
  {
    PlainIsPaired(Separator(i));
  }

  lemma NumberIsPaired(n: int)
    ensures Paired(Number(n))
  {
    var d := DigitUnits(if n < 0 then -n else n);
    PlainIsPaired(d);
    PlainIsPaired([MINUS]);
    PairedJoin([MINUS], d);
  }

  /** Canonical text holds no lone surrogate, even where the strings of the value do. */
  lemma {:induction false} CanonIsPaired(v: Json)
    requires Canon(v).Some?
    ensures Paired(Canon(v).value)
    decreases v, 1, 0
  {
    hide Paired, Surrogate, Ascii, Quoted, Number, CanonItems, CanonMembers;
    match v
    case Null => AsciiIsPaired("null");
    case Bool(b) => AsciiIsPaired("true"); AsciiIsPaired("false");
    case Num(n) => NumberIsPaired(n);
    case Str(s) => QuotedIsPaired(s);
    case Arr(items) =>
      ItemsArePaired(v, 0);
      PlainBrackets();
      WrapIsPaired(OPEN_BRACKET, CanonItems(v, 0).value, CLOSE_BRACKET);
    case Obj(ms) =>
      MembersArePaired(v, PrintedKeys(ms), 0);
      PlainBrackets();
      WrapIsPaired(OPEN_BRACE, CanonMembers(v, PrintedKeys(ms), 0).value, CLOSE_BRACE);
  }

  lemma PlainBrackets()
    ensures !Surrogate(OPEN_BRACKET) && !Surrogate(CLOSE_BRACKET) && !Surrogate(OPEN_BRACE) && !Surrogate(CLOSE_BRACE)
    ensures Paired([]) && Paired([COLON])
  {
    PlainIsPaired([COLON]);
  }

  lemma {:induction false} ItemsArePaired(v: Json, i: nat)
    requires v.Arr? && i <= |v.items| && CanonItems(v, i).Some?
    ensures Paired(CanonItems(v, i).value)
    decreases v, 0, |v.items| - i
  {
    hide Canon, Paired, Separator;
    PlainBrackets();
    if i < |v.items| {
      var t, rest := Canon(v.items[i]).value, CanonItems(v, i + 1).value;
      CanonIsPaired(v.items[i]);
      ItemsArePaired(v, i + 1);
      SeparatorIsPaired(i);
      PairedJoin(t, rest);
      PairedJoin(Separator(i), t + rest);
    }
  }

  lemma {:induction false} MembersArePaired(v: Json, ks: seq<Text>, i: nat)
    requires Prints(v, ks) && i <= |ks| && CanonMembers(v, ks, i).Some?
    ensures Paired(CanonMembers(v, ks, i).value)
    decreases v, 0, |ks| - i
  {
    hide Canon, Paired, Separator, Quoted, Lookup;
    PlainBrackets();
    if i < |ks| {
      var t, rest := Canon(Lookup(v.members, ks[i])).value, CanonMembers(v, ks, i + 1).value;
      CanonIsPaired(Lookup(v.members, ks[i]));
      MembersArePaired(v, ks, i + 1);
      SeparatorIsPaired(i);
      QuotedIsPaired(ks[i]);
      PairedJoin(t, rest);
      PairedJoin([COLON], t + rest);
      PairedJoin(Quoted(ks[i]), [COLON] + (t + rest));
      PairedJoin(Separator(i), Quoted(ks[i]) + ([COLON] + (t + rest)));
    }
  }

  /** Objects built with the same distinct keys in the same order are the same when their values are. */
  lemma SameByPosition(xs: seq<Member>, ys: seq<Member>)
    requires |xs| == |ys| && DistinctMembers(xs)
    requires forall i :: 0 <= i < |xs| ==>
               xs[i].key == ys[i].key && xs[i].value != Undefined && ys[i].value != Undefined
    ensures Same(Obj(xs), Obj(ys)) <==> forall i :: 0 <= i < |xs| ==> Same(xs[i].value, ys[i].value)
  {
    hide Lookup;
    forall i | 0 <= i < |xs|
      ensures Lookup(xs, xs[i].key) == xs[i].value && Lookup(ys, xs[i].key) == ys[i].value
    {
      LookupAt(xs, i);
      LookupAt(ys, i);
    }
    if forall i :: 0 <= i < |xs| ==> Same(xs[i].value, ys[i].value) {
      forall k
        ensures Lookup(xs, k) == Undefined <==> Lookup(ys, k) == Undefined
        ensures Lookup(xs, k) != Undefined ==> Same(Lookup(xs, k), Lookup(ys, k))
      {
        var u, w := Lookup(xs, k), Lookup(ys, k);
      }
    }
    if Same(Obj(xs), Obj(ys)) {
      forall i | 0 <= i < |xs| ensures Same(xs[i].value, ys[i].value) {
        assert Lookup(xs, xs[i].key) != Undefined;
      }
    }
  }

  lemma NamesAreDistinct(r: Receipt)
    ensures DistinctMembers(Payload(r).members)
  {
    var ms := Payload(r).members;
    assert ms[0].key[0] == 'v' as int && ms[1].key[0] == 'n' as int && ms[2].key[1] == 'x' as int;
    assert ms[3].key[3] == 'e' as int && ms[4].key[3] == 'T' as int && ms[5].key[0] == 'a' as int;
    assert ms[3].key[0] == 'p' as int && ms[4].key[0] == 'p' as int && ms[8].key[1] == 's' as int;
    assert |ms[0].key| == 1 && |ms[1].key| == 7 && |ms[2].key| == 6 && |ms[3].key| == 5 && |ms[4].key| == 5;
    assert |ms[5].key| == 5 && |ms[6].key| == 9 && |ms[7].key| == 8 && |ms[8].key| == 2;
  }

  /** A field that is missing or null. */
  predicate Absent(x: Json) { x == Undefined || x == Null }

  /** Both absent, or both there and the same. */
  ghost predicate SameField(x: Json, y: Json) {
    (Absent(x) && Absent(y)) || (!Absent(x) && !Absent(y) && Same(x, y))
  }

  lemma OrNullSame(x: Json, y: Json)
    ensures Same(OrNull(x), OrNull(y)) <==> SameField(x, y)
  {
  }

  /** Each signed field of the two receipts is the same, an absent field counting as null. */
  ghost predicate SameFields(a: Receipt, b: Receipt) {
    && SameField(a.network, b.network) && SameField(a.txHash, b.txHash)
    && SameField(a.payer, b.payer) && SameField(a.payTo, b.payTo)
    && SameField(a.asset, b.asset) && SameField(a.delivered, b.delivered)
    && SameField(a.required, b.required) && SameField(a.ts, b.ts)
  }

  lemma PayloadsSameIff(a: Receipt, b: Receipt)
    ensures Same(Payload(a), Payload(b)) <==> SameFields(a, b)
  {
    hide Same, Ascii, Lookup, DistinctMembers, OrNull, SameField;
    forall x, y ensures Same(OrNull(x), OrNull(y)) <==> SameField(x, y) {
      OrNullSame(x, y);
    }
    forall x ensures OrNull(x) != Undefined {
      OrNullIsThere(x);
    }
    var xs, ys := Payload(a).members, Payload(b).members;
    NamesAreDistinct(a);
    SameByPosition(xs, ys);
    OneIsOne();
    if SameFields(a, b) {
      forall i | 0 <= i < |xs| ensures Same(xs[i].value, ys[i].value) {
      }
    }
    if forall i :: 0 <= i < |xs| ==> Same(xs[i].value, ys[i].value) {
      assert Same(xs[1].value, ys[1].value) && Same(xs[2].value, ys[2].value) && Same(xs[3].value, ys[3].value);
      assert Same(xs[4].value, ys[4].value) && Same(xs[5].value, ys[5].value) && Same(xs[6].value, ys[6].value);
      assert Same(xs[7].value, ys[7].value) && Same(xs[8].value, ys[8].value);
    }
  }

  lemma OrNullIsThere(x: Json)
    ensures OrNull(x) != Undefined
  {
  }

  lemma OneIsOne()
    ensures Same(Num(1), Num(1))
  {
  }

  /**
   * A signature over one receipt's bytes is a signature over another's exactly when the receipts agree
   * in every signed field: changing any of them changes the bytes, and nothing else does.
   */
  lemma SignedBytesDetermineFields(a: Receipt, b: Receipt)
    requires SignedBytes(a).Some?
    ensures SignedBytes(a) == SignedBytes(b) <==> SameFields(a, b)
  {
    hide Canon, Encode, Paired, SameFields, Payload, Same;
    SameTextIffSame(Payload(a), Payload(b));
    PayloadsSameIff(a, b);
    CanonIsPaired(Payload(a));
    if SignedBytes(a) == SignedBytes(b) {
      CanonIsPaired(Payload(b));
      EncodeInjective(Canon(Payload(a)).value, Canon(Payload(b)).value);
    }
  }

  /** A value that is not a container is only ever the same as itself. */
  predicate Scalar(v: Json) { !v.Arr? && !v.Obj? }

  /** A scalar field of which the other receipt says something else. */
  predicate Changed(x: Json, y: Json) {
    Scalar(x) && x != y && !(Absent(x) && Absent(y))
  }

  /** So a changed network, hash, payer, payee, amount or time is always noticed. */
  lemma ChangedScalarChangesBytes(a: Receipt, b: Receipt)
    requires SignedBytes(a).Some?
    requires
      || Changed(a.network, b.network) || Changed(a.txHash, b.txHash)
      || Changed(a.payer, b.payer) || Changed(a.payTo, b.payTo)
      || Changed(a.asset, b.asset) || Changed(a.delivered, b.delivered)
      || Changed(a.required, b.required) || Changed(a.ts, b.ts)
    ensures SignedBytes(a) != SignedBytes(b)
  {
    hide Canon, Encode, Payload, SignedBytes;
    SignedBytesDetermineFields(a, b);
  }
}
