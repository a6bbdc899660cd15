/**
 * What a slot holds: `slot_subfield` and `slot_subarray` on a slot whose bytes are a written list of
 * fields, at any place of its storage, answer the field or element asked for, with its code, its kind
 * and exactly its bytes.
 */
module SlotValues {
  import opened Bytes
  import opened Wrappers
  import opened ReturnCodes
  import opened FieldTree
  import opened FullWalker
  import opened StoApi
  import opened Slots
  import opened ApiRoutes

  /** The bytes of a field's value: a length prefix included, header and end marker left off. */
  function ValueBytes(f: Field): bytes
    requires Valid(f)
  {
    match f
    case Leaf(_, _, data) => data
    case Blob(_, _, payload) => Prefix(|payload|) + payload
    case PathSet(_, paths) => SerPaths(paths)
    case Container(_, _, children) => SerAll(children)
  }

  /** The slot is open on the field: nested fields can be asked of an object, elements of an array. */
  predicate HoldsField(e: SlotEntry, storage: bytes, f: Field)
    requires Valid(f)
  {
    && e.storage == storage && e.fcode == f.Ty() * 65536 + f.code
    && (e.kind == ObjectKind <==> f.Ty() == STI_OBJECT) && (e.kind == ArrayKind <==> f.Ty() == STI_ARRAY)
    && (e.kind.LeafKind? ==> e.kind.ty == f.Ty())
    && storage[e.start..e.end] == ValueBytes(f)
  }

  /** The slot's bytes are the written list. */
  ghost predicate HoldsList(p: SlotEntry, ts: seq<Field>)
    requires ValidAll(ts)
  {
    At(p.storage, p.start, SerAll(ts)) && p.end == p.start + |SerAll(ts)|
  }

  lemma ChildHolds(p: SlotEntry, f: Field, at: nat)
    requires Valid(f) && At(p.storage, at, Ser(f)) && p.start <= at && at + |Ser(f)| <= p.end
    ensures Extends(RefOf(f, at), p.start, p.end) && HoldsField(Child(p, RefOf(f, at)), p.storage, f)
  {
    hide Ser, SerAll, Header, ValueBytes, At;
    SerIs(f);
    ContentIsValue(p.storage, f, at);
  }

  lemma ContentIsValue(d: bytes, f: Field, at: nat)
    requires Valid(f) && At(d, at, Ser(f))
    ensures var (s, e) := RefOf(f, at).Content(); s <= e <= |d| && d[s..e] == ValueBytes(f)
  {
    hide Ser, SerAll, Header, At, Body, ValueBytes, Valid;
    SerIs(f);
    BodyIs(f);
    AtSplit(d, at, HeaderOf(f), Body(f));
    var body := at + |HeaderOf(f)|;
    if IsContainerType(f.Ty()) {
      AtSplit(d, body, ValueBytes(f), [EndMarker(f.Ty())]);
    }
    AtBound(d, body, ValueBytes(f));
  }

  /** A container's bytes are its value and its end marker, any other field's are its value. */
  lemma BodyIs(f: Field)
    requires Valid(f)
    ensures IsContainerType(f.Ty()) <==> f.Container?
    ensures Body(f) == if f.Container? then ValueBytes(f) + [EndMarker(f.Ty())] else ValueBytes(f)
  {
    hide SerAll;
  }

  lemma SerIs(f: Field)
    requires Valid(f)
    ensures Ser(f) == HeaderOf(f) + Body(f)
  {
  }

  /** Field `j` of the list, at its own place in the storage. */
  lemma FieldPlace(p: SlotEntry, ts: seq<Field>, j: nat)
    requires ValidAll(ts) && HoldsList(p, ts) && j < |ts|
    ensures Valid(ts[j]) && At(p.storage, Offset(ts, p.start, j), Ser(ts[j]))
    ensures p.start <= Offset(ts, p.start, j) && Offset(ts, p.start, j) + |Ser(ts[j])| <= p.end
  {
    hide SerAll, Ser, At, Offset;
    SerAllSplit(ts, j);
    OffsetIs(ts, p.start, j);
    AtSplit(p.storage, p.start, SerAll(ts[..j]) + Ser(ts[j]), SerAll(ts[j + 1..]));
    AtSplit(p.storage, p.start, SerAll(ts[..j]), Ser(ts[j]));
  }

  /** `slot_subfield` opens the first field with the code, and finds none exactly where there is none. */
  lemma SubfieldHolds(p: SlotEntry, ts: seq<Field>, fid: nat)
    requires ValidAll(ts) && HoldsList(p, ts) && p.kind == ObjectKind
    ensures forall j: nat :: j < |ts| && CodeOf(ts[j]) == fid && (forall k :: 0 <= k < j ==> CodeOf(ts[k]) != fid) ==>
              Valid(ts[j]) && SubfieldOf(p, fid).Ok? && HoldsField(SubfieldOf(p, fid).value, p.storage, ts[j])
    ensures (forall k :: 0 <= k < |ts| ==> CodeOf(ts[k]) != fid) <==> SubfieldOf(p, fid) == Err(Code(DOESNT_EXIST))
  {
    hide At, SerAll, Offset, HoldsField, CodeOf, Valid, FieldsIn, RefsOf, FirstWithCode, RefOf, Child, Ser;
    ListIsRead(p, ts);
    forall j: nat | j < |ts| && CodeOf(ts[j]) == fid && (forall k :: 0 <= k < j ==> CodeOf(ts[k]) != fid)
      ensures Valid(ts[j]) && SubfieldOf(p, fid).Ok? && HoldsField(SubfieldOf(p, fid).value, p.storage, ts[j])
    {
      FirstRef(ts, p.start, fid, j);
      FieldPlace(p, ts, j);
      ChildHolds(p, ts[j], Offset(ts, p.start, j));
    }
    if forall k :: 0 <= k < |ts| ==> CodeOf(ts[k]) != fid {
      NoRef(ts, p.start, fid);
    } else {
      var j := FirstIndex(ts, fid);
    }
  }

  lemma FirstIndex(ts: seq<Field>, fid: nat) returns (j: nat)
    requires exists k :: 0 <= k < |ts| && CodeOf(ts[k]) == fid
    ensures j < |ts| && CodeOf(ts[j]) == fid && forall k :: 0 <= k < j ==> CodeOf(ts[k]) != fid
  {
    j := 0;
    while CodeOf(ts[j]) != fid
      invariant j < |ts| && forall k :: 0 <= k < j ==> CodeOf(ts[k]) != fid
      decreases |ts| - j
    {
      j := j + 1;
    }
  }

  lemma ListIsRead(p: SlotEntry, ts: seq<Field>)
    requires ValidAll(ts) && HoldsList(p, ts)
    ensures Fields(p) == Some(RefsOf(ts, p.start))
  {
    hide At, SerAll, FieldsIn, RefsOf;
    ParseAllAfterPrint(ts, p.storage, p.start);
  }

  lemma {:induction false} NoRef(ts: seq<Field>, at: nat, fid: nat)
    requires ValidAll(ts) && forall k :: 0 <= k < |ts| ==> CodeOf(ts[k]) != fid
    ensures FirstWithCode(RefsOf(ts, at), fid) == None
  {
    hide Valid, Ser, RefOf, CodeOf;
    if ts != [] {
      RefCode(ts[0], at);
      assert CodeOf(ts[0]) != fid;
      forall k | 0 <= k < |ts[1..]| ensures CodeOf(ts[1..][k]) != fid {
        assert ts[1..][k] == ts[k + 1];
      }
      NoRef(ts[1..], at + |Ser(ts[0])|, fid);
    }
  }

  /** `slot_subarray` opens element `i`, whatever kind of field it is, and finds none from the length on. */
  lemma ElementHolds(p: SlotEntry, ts: seq<Field>, i: nat)
    requires ValidAll(ts) && HoldsList(p, ts) && p.kind == ArrayKind
    ensures i < |ts| ==> Valid(ts[i]) && ElementOf(p, i).Ok? && HoldsField(ElementOf(p, i).value, p.storage, ts[i])
    ensures i >= |ts| <==> ElementOf(p, i) == Err(Code(DOESNT_EXIST))
  {
    hide At, SerAll, Offset, HoldsField, Valid, FieldsIn, RefsOf, RefOf, Child, Ser;
    ListIsRead(p, ts);
    if i < |ts| {
      RefAt(ts, p.start, i);
      FieldPlace(p, ts, i);
      ChildHolds(p, ts[i], Offset(ts, p.start, i));
    }
  }

  /** Asked of the wrong kind of slot, both say so. */
  lemma WrongKind(p: SlotEntry, fid: nat, i: nat)
    ensures SubfieldOf(p, fid) == Err(Code(NOT_AN_OBJECT)) <==> p.kind != ObjectKind
    ensures ElementOf(p, i) == Err(Code(NOT_AN_ARRAY)) <==> p.kind != ArrayKind
  {
    hide Fields, FirstWithCode;
  }

  /** `slot_count` answers the length of the list that an array slot holds. */
  lemma CountHolds(t: Table, n: nat, ts: seq<Field>)
    ensures n !in t.map_ <==> CountOf(t, n) == Code(DOESNT_EXIST)
    ensures n in t.map_ && t.map_[n].kind != ArrayKind <==> CountOf(t, n) == Code(NOT_AN_ARRAY)
    ensures n in t.map_ && t.map_[n].kind == ArrayKind && ValidAll(ts) && HoldsList(t.map_[n], ts) ==>
              CountOf(t, n) == Number(|ts|)
  {
    hide At, SerAll, Fields, HoldsList;
    if n in t.map_ && ValidAll(ts) && HoldsList(t.map_[n], ts) {
      ListIsRead(t.map_[n], ts);
    }
  }

  /** So lookups compose: the slot of a container holds its children, and can be asked again. */
  lemma NestedHolds(e: SlotEntry, storage: bytes, f: Field)
    requires Valid(f) && f.Container? && HoldsField(e, storage, f)
    ensures ValidAll(f.children) && HoldsList(e, f.children)
    ensures e.kind == ObjectKind || e.kind == ArrayKind
  {
    hide SerAll;
    AtSlice(storage, e.start, SerAll(f.children));
    assert |storage[e.start..e.end]| == |SerAll(f.children)|;
  }
}
