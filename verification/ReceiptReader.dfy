/**
 * The signed bytes of a receipt, read by someone who knows UTF-8 and JSON and nothing of the signer:
 * every field of the receipt stands under its own name, and nothing else does.
 */
module ReceiptReader {
  import opened CanonicalExact
  import opened CanonicalJson
  import opened JsonReader
  import opened JsonText
  import opened SignedReceipt
  import opened Utf8
  import opened Utf8Reader
  import opened Wrappers

  /** The name in code units, as in the text of the object. */
  predicate Spells(k: Text, name: string) {
    |k| == |name| && forall i :: 0 <= i < |k| ==> k[i] == name[i] as int
  }

  /** The object has the field's value under the name, and null for an absent field. */
  ghost predicate Says(o: Json, name: string, v: Json) {
    o.Obj? && exists k :: Spells(k, name) && Same(if Absent(v) then Null else v, Lookup(o.members, k))
  }

  predicate IsName(k: Text) {
    || Spells(k, "v") || Spells(k, "network") || Spells(k, "txHash") || Spells(k, "payer") || Spells(k, "payTo")
    || Spells(k, "asset") || Spells(k, "delivered") || Spells(k, "required") || Spells(k, "ts")
  }

  /** Under each name stands the field of that name, and there is no other name. */
  ghost predicate SaysReceipt(o: Json, r: Receipt) {
    && Says(o, "v", Num(1))
    && Says(o, "network", r.network) && Says(o, "txHash", r.txHash)
    && Says(o, "payer", r.payer) && Says(o, "payTo", r.payTo)
    && Says(o, "asset", r.asset) && Says(o, "delivered", r.delivered)
    && Says(o, "required", r.required) && Says(o, "ts", r.ts)
    && o.Obj? && forall k :: Lookup(o.members, k) != Undefined ==> IsName(k)
  }

  lemma MemberSaid(v: Json, o: Json, i: nat)
    requires v.Obj? && i < |v.members| && DistinctMembers(v.members) && v.members[i].value != Undefined && Same(v, o)
    ensures o.Obj? && Same(v.members[i].value, Lookup(o.members, v.members[i].key))
  {
    LookupAt(v.members, i);
  }

  lemma NoOtherName(v: Json, o: Json, k: Text) returns (i: nat)
    requires v.Obj? && Same(v, o) && Lookup(o.members, k) != Undefined
    ensures i < |v.members| && v.members[i].key == k
  {
    assert Lookup(v.members, k) != Undefined;
    i :| 0 <= i < |v.members| && v.members[i].key == k;
  }

  lemma FieldSaid(v: Json, o: Json, i: nat, name: string)
    requires v.Obj? && i < |v.members| && DistinctMembers(v.members) && v.members[i].value != Undefined && Same(v, o)
    requires Spells(v.members[i].key, name)
    ensures forall x :: v.members[i].value == (if Absent(x) then Null else x) ==> Says(o, name, x)
  {
    hide Same, Lookup, DistinctMembers, Spells;
    MemberSaid(v, o, i);
  }

  /** The key at each place of the projection. */
  lemma KeysSpelled(r: Receipt)
    ensures var ms := Payload(r).members;
            && |ms| == 9 && Spells(ms[0].key, "v") && Spells(ms[1].key, "network") && Spells(ms[2].key, "txHash")
            && Spells(ms[3].key, "payer") && Spells(ms[4].key, "payTo") && Spells(ms[5].key, "asset")
            && Spells(ms[6].key, "delivered") && Spells(ms[7].key, "required") && Spells(ms[8].key, "ts")
  {
  }

  lemma ProjectionSays(r: Receipt, o: Json)
    requires Same(Payload(r), o)
    ensures SaysReceipt(o, r)
  {
    hide Same, Lookup, Ascii, DistinctMembers, Spells, Says;
    var v := Payload(r);
    NamesAreDistinct(r);
    KeysSpelled(r);
    FieldSaid(v, o, 0, "v");
    FieldSaid(v, o, 1, "network");
    FieldSaid(v, o, 2, "txHash");
    FieldSaid(v, o, 3, "payer");
    FieldSaid(v, o, 4, "payTo");
    FieldSaid(v, o, 5, "asset");
    FieldSaid(v, o, 6, "delivered");
    FieldSaid(v, o, 7, "required");
    FieldSaid(v, o, 8, "ts");
    MemberSaid(v, o, 0);
    forall k | Lookup(o.members, k) != Undefined ensures IsName(k) {
      var i := NoOtherName(v, o, k);
    }
  }

  /** What is signed says exactly what the receipt says. */
  lemma SignedBytesReadBack(r: Receipt)
    requires SignedBytes(r).Some?
    ensures var t := Decode(SignedBytes(r).value);
            && t.Some? && Read(t.value).Some? && SaysReceipt(Read(t.value).value, r)
  {
    hide Canon, Payload, Same, Lookup, Decode, Read, SaysReceipt, Encode, Paired, Repaired;
    CanonReadsBack(Payload(r));
    CanonIsPaired(Payload(r));
    DecodeAfterEncode(Canon(Payload(r)).value);
    ProjectionSays(r, Read(Canon(Payload(r)).value).value);
  }

  ghost predicate CanSay(x: Json) {
    Absent(x) || Printable(x)
  }

  /** There is something to sign exactly when every field is absent or can be printed. */
  lemma SignsIff(r: Receipt)
    ensures SignedBytes(r).Some? <==>
            && CanSay(r.network) && CanSay(r.txHash) && CanSay(r.payer)
            && CanSay(r.payTo) && CanSay(r.asset) && CanSay(r.delivered)
            && CanSay(r.required) && CanSay(r.ts)
  {
    hide Canon, Encode, Ascii, Lookup, DistinctMembers, Spells;
    var v := Payload(r);
    PrintsIff(v);
    NamesAreDistinct(r);
    forall i | 0 <= i < 9 ensures Lookup(v.members, v.members[i].key) == v.members[i].value {
      LookupAt(v.members, i);
    }
    if forall i :: 0 <= i < 9 ==> Printable(v.members[i].value) {
      forall k | Lookup(v.members, k) != Undefined ensures Printable(Lookup(v.members, k)) {
        var i :| 0 <= i < |v.members| && v.members[i].key == k;
      }
    }
    FieldsPrintable(r);
  }

  lemma PrintableIs(x: Json)
    ensures Printable(OrNull(x)) <==> CanSay(x)
    ensures Printable(Num(1))
  {
  }

  lemma FieldsPrintable(r: Receipt)
    ensures var ms := Payload(r).members;
            |ms| == 9 && ((forall i :: 0 <= i < 9 ==> Printable(ms[i].value)) <==>
            && CanSay(r.network) && CanSay(r.txHash) && CanSay(r.payer)
            && CanSay(r.payTo) && CanSay(r.asset) && CanSay(r.delivered)
            && CanSay(r.required) && CanSay(r.ts))
  {
    hide Ascii, Printable, OrNull, CanSay;
    var ms := Payload(r).members;
    forall x ensures Printable(OrNull(x)) <==> CanSay(x) {
      PrintableIs(x);
    }
    PrintableIs(Null);
    assert Printable(ms[0].value);
    if forall i :: 0 <= i < 9 ==> Printable(ms[i].value) {
      assert Printable(ms[1].value) && Printable(ms[2].value) && Printable(ms[3].value) && Printable(ms[4].value);
      assert Printable(ms[5].value) && Printable(ms[6].value) && Printable(ms[7].value) && Printable(ms[8].value);
    }
  }
}
