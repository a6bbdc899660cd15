/**
 * The two ways a hook reaches an array element: `sto_subfield` then `sto_subarray` over bytes, and
 * `slot_subfield` then `slot_subarray` over slots. One runs on the light walker, the other on the
 * full walker; on a written object they reach the same bytes and fail from the same index on.
 */
module ApiRoutes {
  import opened Bytes
  import opened Wrappers
  import opened ReturnCodes
  import opened FieldTree
  import opened FullWalker
  import opened LightWalker
  import opened WalkerAgreement
  import opened StoApi
  import opened Slots

  /** Where the fields of a written list start, in the full walker's terms. */
  lemma RefAt(fs: seq<Field>, at: nat, k: nat)
    requires ValidAll(fs) && k < |fs|
    ensures Valid(fs[k]) && RefsOf(fs, at)[k] == RefOf(fs[k], Offset(fs, at, k))
  {
    RefsOfIndex(fs, at, k);
    OffsetIs(fs, at, k);
  }

  lemma RefCode(f: Field, at: nat)
    requires Valid(f)
    ensures RefOf(f, at).Code() == CodeOf(f)
  {
  }

  lemma {:induction false} FirstRef(fs: seq<Field>, at: nat, fid: nat, j: nat)
    requires ValidAll(fs) && j < |fs| && CodeOf(fs[j]) == fid && forall k :: 0 <= k < j ==> CodeOf(fs[k]) != fid
    ensures Valid(fs[j]) && FirstWithCode(RefsOf(fs, at), fid) == Some(RefOf(fs[j], Offset(fs, at, j)))
  {
    hide Valid, Ser, HeaderOf, Header, RefOf, CodeOf;
    RefCode(fs[0], at);
    if j > 0 {
      assert CodeOf(fs[0]) != fid;
      forall k | 0 <= k < j - 1 ensures CodeOf(fs[1..][k]) != fid {
        assert fs[1..][k] == fs[k + 1];
      }
      FirstRef(fs[1..], at + |Ser(fs[0])|, fid, j - 1);
    }
  }

  /** The slot that `slot_subfield` opens on an array field: the array's elements, end marker left off. */
  function ArraySlot(data: bytes, f: Field, off: nat): View
    requires Valid(f)
  {
    View(data, ArrayKind, CodeOf(f), off + |HeaderOf(f)|, off + |Ser(f)| - 1)
  }

  predicate ArrayOfObjects(f: Field) {
    f.Container? && f.ty == STI_ARRAY && forall c :: c in f.children ==> c.Container? && c.ty == STI_OBJECT
  }

  predicate Readable(f: Field, ser240: bool)
    requires Valid(f)
  {
    LightShape(f, ser240) && Height(f) <= MAX_DEPTH
  }

  lemma AtIndexOf(ts: seq<Field>, ser240: bool, j: nat)
    requires Walkers(ts, ser240) && j < |ts|
    ensures ValidAll(ts) && Valid(ts[j]) && Readable(ts[j], ser240)
  {
    ValidAllIndex(ts, j);
    LightShapeAllIndex(ts, ser240, j);
  }

  /** Both subfield calls open the same array: its whole bytes, and a slot on its elements. */
  lemma SubfieldRoutes(ts: seq<Field>, j: nat, rules: Rules, fcode: nat)
    requires Walkers(ts, rules.ser240) && |ts| <= MAX_FIELDS && j < |ts| && ArrayOfObjects(ts[j])
    requires forall k :: 0 <= k < j ==> CodeOf(ts[k]) != CodeOf(ts[j])
    ensures Valid(ts[j]) && Readable(ts[j], rules.ser240)
    ensures var data, off := SerAll(ts), Offset(ts, 0, j);
            && At(data, off, Ser(ts[j]))
            && Subfield(data, CodeOf(ts[j]), rules) == Ok((off, |Ser(ts[j])|))
            && SubfieldOf(Top(data, fcode), CodeOf(ts[j])) == Ok(ArraySlot(data, ts[j], off))
  {
    hide LightAt, FieldAt, Walked, Find, Walkers, Readable, SerAll, RefsOf, At, FieldsIn, Valid, Offset, FirstWithCode;
    AtIndexOf(ts, rules.ser240, j);
    var data, fid := SerAll(ts), CodeOf(ts[j]);
    WholeAt(ts, j);
    ListWalked(ts, data, 0, |data|, rules.ser240, MAX_FIELDS);
    ListFind(ts, data, 0, |data|, rules.ser240, fid, MAX_FIELDS, j);
    ParseAllAfterPrint(ts, data, 0);
    FirstRef(ts, 0, fid, j);
  }

  lemma Alone(f: Field, ser240: bool)
    requires Valid(f) && Readable(f, ser240) && !EmptyBlob(f)
    ensures Walkers([f], ser240) && SerAll([f]) == Ser(f)
  {
    assert [f][1..] == [];
    assert SerAll([f]) == Ser(f) + SerAll([]);
  }

  lemma WholeAt(ts: seq<Field>, j: nat)
    requires ValidAll(ts) && j < |ts|
    ensures Valid(ts[j]) && Offset(ts, 0, j) + |Ser(ts[j])| <= |SerAll(ts)|
    ensures At(SerAll(ts), 0, SerAll(ts)) && At(SerAll(ts), Offset(ts, 0, j), Ser(ts[j]))
  {
    SerAllSplit(ts, j);
    OffsetIs(ts, 0, j);
    AtSplit(SerAll(ts), 0, SerAll(ts[..j]) + Ser(ts[j]), SerAll(ts[j + 1..]));
    AtSplit(SerAll(ts), 0, SerAll(ts[..j]), Ser(ts[j]));
  }

  lemma ElementsWalk(f: Field, ser240: bool)
    requires Valid(f) && ArrayOfObjects(f) && Readable(f, ser240)
    ensures f.children != [] && |f.children| <= MAX_FIELDS && Walkers(f.children, ser240)
  {
    assert f.children[|f.children| - 1] in f.children;
  }

  lemma ArrayBytes(f: Field)
    requires Valid(f) && ArrayOfObjects(f)
    ensures var s, hl := Ser(f), |HeaderOf(f)|;
            && s[0] >= 0xF0 && s[|s| - 1] == ARRAY_END && |s| == hl + |SerAll(f.children)| + 1
            && (s[0] == 0xF0 <==> hl == 2) && hl <= 2 && (hl == 1 <==> 0 < f.code < 16)
            && At(s, hl, SerAll(f.children))
    ensures ValidAll(f.children)
  {
    hide SerAll, Valid, Ser, HeaderOf;
    ArrayHeader(f);
    var header, inner := HeaderOf(f), SerAll(f.children);
    AtSplit(Ser(f), 0, header, inner + [ARRAY_END]);
    AtSplit(Ser(f), |header|, inner, [ARRAY_END]);
    AtIndex(Ser(f), 0, header, 0);
  }

  lemma ArrayHeader(f: Field)
    requires Valid(f) && ArrayOfObjects(f)
    ensures ValidAll(f.children) && Ser(f) == HeaderOf(f) + (SerAll(f.children) + [ARRAY_END])
    ensures var h := HeaderOf(f);
            1 <= |h| <= 2 && h[0] >= 0xF0 && (h[0] == 0xF0 <==> |h| == 2) && (|h| == 1 <==> 0 < f.code < 16)
  {
    hide SerAll;
  }

  /** `sto_subarray` skips the whole header: before fixHookAPI20251128 it skips one byte, whatever follows. */
  predicate HeaderSkipped(f: Field, rules: Rules)
    requires Valid(f)
  {
    rules.fixHookApi20251128 || |HeaderOf(f)| == 1
  }

  /** What `sto_subarray` should answer for index `i` of a written array. */
  predicate StoFinds(f: Field, i: nat, rules: Rules)
    requires Valid(f) && ArrayOfObjects(f)
  {
    Subarray(Ser(f), i, rules) ==
    if i < |f.children| then (ChildIsValid(f, i); Ok((Offset(f.children, |HeaderOf(f)|, i), |Ser(f.children[i])|)))
    else Err(DOESNT_EXIST)
  }

  lemma ChildIsValid(f: Field, i: nat)
    requires Valid(f) && f.Container? && i < |f.children|
    ensures ValidAll(f.children) && Valid(f.children[i])
  {
    ValidAllIndex(f.children, i);
  }

  lemma ArrayValidates(f: Field, rules: Rules)
    requires Valid(f) && ArrayOfObjects(f) && Readable(f, rules.ser240)
    ensures |Ser(f)| >= 2 && Ser(f)[|Ser(f)| - 1] == ARRAY_END && Validated(Ser(f), rules.ser240)
  {
    hide LightAt, Walked, Walkers, SerAll, Readable, LightShape, Valid;
    Alone(f, rules.ser240);
    ListWalked([f], Ser(f), 0, |Ser(f)|, rules.ser240, MAX_FIELDS);
    ArrayBytes(f);
  }

  lemma SkippedElement(f: Field, i: nat, rules: Rules)
    requires Valid(f) && ArrayOfObjects(f) && Readable(f, rules.ser240) && HeaderSkipped(f, rules)
    ensures StoFinds(f, i, rules)
  {
    hide LightAt, Walked, Nth, Walkers, Offset, SerAll, Readable, LightShape, Valid, Validated;
    var s, hl := Ser(f), |HeaderOf(f)|;
    ArrayValidates(f, rules);
    ArrayBytes(f);
    ElementsWalk(f, rules.ser240);
    NoField(f.children, rules.ser240);
    ListNth(f.children, s, hl, |s| - 1, rules.ser240, i, MAX_FIELDS);
  }

  /** With a header byte left over, element 0 is never found where it is: if any is, it starts too early. */
  lemma MisreadElement(f: Field, rules: Rules)
    requires Valid(f) && ArrayOfObjects(f) && Readable(f, rules.ser240) && !HeaderSkipped(f, rules)
    ensures |HeaderOf(f)| == 2 && f.children != []
    ensures var r := Subarray(Ser(f), 0, rules); r.Ok? ==> r.value.0 == 1
    ensures !StoFinds(f, 0, rules)
  {
    hide LightAt, Walked, SerAll, Readable, LightShape, Valid, Validated, Ser;
    ArrayValidates(f, rules);
    ArrayBytes(f);
    ElementsWalk(f, rules.ser240);
    ChildIsValid(f, 0);
  }

  /** The byte route finds every element at its offset exactly when it skips the whole header. */
  lemma StoElement(f: Field, rules: Rules)
    requires Valid(f) && ArrayOfObjects(f) && Readable(f, rules.ser240)
    ensures (forall i: nat :: StoFinds(f, i, rules)) <==> HeaderSkipped(f, rules)
  {
    hide StoFinds, HeaderSkipped, Valid, Readable;
    if HeaderSkipped(f, rules) {
      forall i: nat ensures StoFinds(f, i, rules) {
        SkippedElement(f, i, rules);
      }
    } else {
      MisreadElement(f, rules);
    }
  }

  /** The code of HookParameters, (15, 19): the byte 0x13 left over reads as a field of type 1 with two bytes. */
  lemma HookParametersMisread(f: Field, rules: Rules)
    requires Valid(f) && ArrayOfObjects(f) && Readable(f, rules.ser240)
    requires f.code == 19 && !rules.fixHookApi20251128
    ensures Subarray(Ser(f), 0, rules) == Ok((1, 3))
  {
    hide LightAt, Walked, SerAll, Readable, LightShape, Valid, Validated, LightChildren;
    ArrayValidates(f, rules);
    ArrayBytes(f);
    ElementsWalk(f, rules.ser240);
    ChildIsValid(f, 0);
    var s := Ser(f);
    AtSplit(s, 0, HeaderOf(f), Body(f));
    assert s[0] == 0xF0 && s[1] == 0x13;
    assert f.children[0] in f.children;
    FirstElementSize(f.children);
    LeafStep(s, 1, |s| - 1, rules.ser240, 0, Head(1, 3, 1));
  }

  const MISREAD := Container(STI_ARRAY, 19, [Container(STI_OBJECT, 23, [Leaf(1, 1, [0, 0])])])
  const MISREAD_BYTES: bytes := [0xF0, 0x13, 0xE0, 0x17, 0x11, 0x00, 0x00, 0xE1, 0xF1]

  lemma MisreadIsArray(ser240: bool)
    ensures Valid(MISREAD) && ArrayOfObjects(MISREAD) && Readable(MISREAD, ser240) && Ser(MISREAD) == MISREAD_BYTES
    ensures |HeaderOf(MISREAD)| == 2 && |Ser(MISREAD.children[0])| == 6
  {
    var leaf := Leaf(1, 1, [0, 0]);
    var el := MISREAD.children[0];
    assert Ser(leaf) == [0x11, 0x00, 0x00];
    assert [leaf][1..] == [] && SerAll([leaf]) == Ser(leaf) + SerAll([]);
    assert ValidAll([leaf]) && LightShapeAll([leaf], ser240) && HeightAll([leaf]) == 0;
    assert Ser(el) == [0xE0, 0x17] + (SerAll([leaf]) + [0xE1]);
    assert [el][1..] == [] && SerAll([el]) == Ser(el) + SerAll([]);
    assert Valid(el) && LightShape(el, ser240) && Height(el) == 1;
    assert ValidAll([el]) && LightShapeAll([el], ser240) && HeightAll([el]) == 1;
    assert Ser(MISREAD) == [0xF0, 0x13] + (SerAll([el]) + [0xF1]);
  }

  /** One such array: with the amendment element 0 stands at 2 and takes 6 bytes, without it the answer is (1, 3). */
  lemma MisreadSample(ser240: bool, fix20261005: bool)
    ensures Subarray(MISREAD_BYTES, 0, Rules(ser240, true, fix20261005)) == Ok((2, 6))
    ensures Subarray(MISREAD_BYTES, 0, Rules(ser240, false, fix20261005)) == Ok((1, 3))
  {
    hide LightAt, Walked, Subarray, Valid, Readable, Ser, HeaderOf;
    MisreadIsArray(ser240);
    SkippedElement(MISREAD, 0, Rules(ser240, true, fix20261005));
    HookParametersMisread(MISREAD, Rules(ser240, false, fix20261005));
  }

  lemma FirstElementSize(fs: seq<Field>)
    requires ValidAll(fs) && fs != [] && fs[0].Container? && fs[0].ty == STI_OBJECT
    ensures |SerAll(fs)| >= 2
  {
  }

  /** The slot route finds element `i` at its offset inside the whole object, header and marker left off. */
  lemma SlotElement(f: Field, data: bytes, off: nat, i: nat)
    requires Valid(f) && ArrayOfObjects(f) && At(data, off, Ser(f))
    ensures ValidAll(f.children) && (i < |f.children| ==> Valid(f.children[i]))
    ensures off + |Ser(f)| <= |data| && 1 <= |HeaderOf(f)| < |Ser(f)|
    ensures ElementOf(ArraySlot(data, f, off), i) ==
            if i < |f.children| then
              var el, at := f.children[i], Offset(f.children, off + |HeaderOf(f)|, i);
              Ok(View(data, ObjectKind, CodeOf(el), at + |HeaderOf(el)|, at + |Ser(el)| - 1))
            else Err(Code(DOESNT_EXIST))
  {
    hide FieldAt, At, FieldsIn, RefsOf, Offset, SerAll, Header;
    AtSplit(data, off, HeaderOf(f), SerAll(f.children) + [ARRAY_END]);
    var body := off + |HeaderOf(f)|;
    AtSplit(data, body, SerAll(f.children), [ARRAY_END]);
    ParseAllAfterPrint(f.children, data, body);
    if i < |f.children| {
      RefAt(f.children, body, i);
      assert f.children[i] in f.children;
    }
  }

  /** An element's bytes in the array are its header, the slot's bytes, and the end marker. */
  lemma ElementBytes(f: Field, data: bytes, off: nat, i: nat)
    requires Valid(f) && ArrayOfObjects(f) && i < |f.children| && At(data, off, Ser(f))
    ensures ValidAll(f.children) && Valid(f.children[i]) && |Ser(f.children[i])| > |HeaderOf(f.children[i])|
    ensures var at, el := Offset(f.children, |HeaderOf(f)|, i), f.children[i];
            && Offset(f.children, off + |HeaderOf(f)|, i) == off + at
            && at + |Ser(el)| <= |Ser(f)| && off + |Ser(f)| <= |data|
            && Ser(f)[at..at + |Ser(el)|] ==
               HeaderOf(el) + data[off + at + |HeaderOf(el)|..off + at + |Ser(el)| - 1] + [OBJECT_END]
  {
    hide Valid, Offset, SerAll, Ser, At, HeaderOf;
    var el := f.children[i];
    var at := ElementPlace(f, data, off, i);
    ObjectBytes(el);
    AtSplit(data, off + at, HeaderOf(el), SerAll(el.children) + [OBJECT_END]);
    AtSplit(data, off + at + |HeaderOf(el)|, SerAll(el.children), [OBJECT_END]);
    AtBound(data, off, Ser(f));
    AtBound(Ser(f), at, Ser(el));
    AtBound(data, off + at + |HeaderOf(el)|, SerAll(el.children));
    Between(Ser(el), HeaderOf(el), SerAll(el.children));
  }

  lemma Between(s: bytes, header: bytes, inner: bytes)
    requires s == header + (inner + [OBJECT_END])
    ensures |s| == |header| + |inner| + 1 && s == header + inner + [OBJECT_END]
  {
  }

  /**
   * What the two routes answer for index `i` of the array `f`, of which `arr` are the bytes, found at
   * `off`. They fail together, with DOESNT_EXIST and exactly from the array's length on; otherwise the
   * bytes the byte route delimits are the slot's bytes between the element's header and its end
   * marker, at the same place in the object.
   */
  predicate SameElement(f: Field, data: bytes, off: nat, arr: bytes, i: nat,
                        sto: Result<(nat, nat), int>, el: Result<SlotEntry, Answer>)
    requires f.Container?
  {
    && (sto.Ok? <==> i < |f.children|) && (el.Ok? <==> i < |f.children|)
    && (sto.Err? ==> sto.error == DOESNT_EXIST && el == Err(Code(DOESNT_EXIST)))
    && (sto.Ok? ==>
          var (at, n) := sto.value;
          && at + n <= |arr| && el.value.storage == data && el.value.end == off + at + n - 1
          && Valid(f.children[i]) && el.value.start == off + at + |HeaderOf(f.children[i])|
          && arr[at..at + n] == HeaderOf(f.children[i]) + data[el.value.start..el.value.end] + [OBJECT_END])
  }

  lemma SkippedAgrees(f: Field, data: bytes, off: nat, i: nat, rules: Rules)
    requires Valid(f) && ArrayOfObjects(f) && Readable(f, rules.ser240) && HeaderSkipped(f, rules)
    requires At(data, off, Ser(f))
    ensures SameElement(f, data, off, Ser(f), i, Subarray(Ser(f), i, rules), ElementOf(ArraySlot(data, f, off), i))
  {
    hide LightAt, Subarray, ElementOf, ArraySlot, Valid, SerAll, Ser, Offset, Readable, At, HeaderOf, CodeOf;
    SkippedElement(f, i, rules);
    SlotElement(f, data, off, i);
    if i < |f.children| {
      ElementBytes(f, data, off, i);
    }
  }

  lemma MisreadDiffers(f: Field, data: bytes, off: nat, rules: Rules)
    requires Valid(f) && ArrayOfObjects(f) && Readable(f, rules.ser240) && !HeaderSkipped(f, rules)
    requires At(data, off, Ser(f))
    ensures !SameElement(f, data, off, Ser(f), 0, Subarray(Ser(f), 0, rules), ElementOf(ArraySlot(data, f, off), 0))
  {
    hide LightAt, Subarray, ElementOf, ArraySlot, Valid, SerAll, Ser, Readable, At, HeaderOf, CodeOf, StoFinds;
    MisreadElement(f, rules);
    SlotElement(f, data, off, 0);
  }

  /** On the bytes of one array the two routes agree at every index exactly when the whole header is skipped. */
  lemma ElementsAgree(f: Field, data: bytes, off: nat, rules: Rules)
    requires Valid(f) && ArrayOfObjects(f) && Readable(f, rules.ser240) && At(data, off, Ser(f))
    ensures (forall i: nat ::
               SameElement(f, data, off, Ser(f), i, Subarray(Ser(f), i, rules), ElementOf(ArraySlot(data, f, off), i)))
            <==> HeaderSkipped(f, rules)
  {
    hide Subarray, ElementOf, Valid, Ser, Readable, At, SameElement, HeaderSkipped;
    SlotElement(f, data, off, 0);
    if HeaderSkipped(f, rules) {
      forall i: nat
        ensures SameElement(f, data, off, Ser(f), i, Subarray(Ser(f), i, rules), ElementOf(ArraySlot(data, f, off), i))
      {
        SkippedAgrees(f, data, off, i, rules);
      }
    } else {
      MisreadDiffers(f, data, off, rules);
    }
  }

  /**
   * Both routes, from one object: `arr` is what `sto_subfield` returns and `slot` what
   * `slot_subfield` opens, always the same array. For every index they then reach the same element,
   * or none, exactly when `sto_subarray` skips the whole header; if it does not, index 0 differs.
   */
  lemma RoutesAgree(ts: seq<Field>, j: nat, rules: Rules, fcode: nat)
    requires Walkers(ts, rules.ser240) && |ts| <= MAX_FIELDS && j < |ts| && ArrayOfObjects(ts[j])
    requires forall k :: 0 <= k < j ==> CodeOf(ts[k]) != CodeOf(ts[j])
    ensures Valid(ts[j])
    ensures var data, fid := SerAll(ts), CodeOf(ts[j]);
            && Subfield(data, fid, rules).Ok? && SubfieldOf(Top(data, fcode), fid).Ok?
            && var (off, len) := Subfield(data, fid, rules).value;
               var slot := SubfieldOf(Top(data, fcode), fid).value;
            && off + len <= |data|
            && var arr := data[off..off + len];
            && ((forall i: nat :: SameElement(ts[j], data, off, arr, i, Subarray(arr, i, rules), ElementOf(slot, i)))
                <==> HeaderSkipped(ts[j], rules))
            && (!HeaderSkipped(ts[j], rules) ==>
                  !SameElement(ts[j], data, off, arr, 0, Subarray(arr, 0, rules), ElementOf(slot, 0)))
  {
    hide LightAt, FieldAt, Walked, Find, Nth, Subfield, Subarray, SubfieldOf, ElementOf, Walkers, Body, Valid,
         SerAll, Ser, Offset, Readable, SameElement, At, ArraySlot, CodeOf, HeaderSkipped;
    AtIndexOf(ts, rules.ser240, j);
    var data, off, f := SerAll(ts), Offset(ts, 0, j), ts[j];
    SubfieldRoutes(ts, j, rules, fcode);
    AtBound(data, off, Ser(f));
    ElementsAgree(f, data, off, rules);
    if !HeaderSkipped(f, rules) {
      MisreadDiffers(f, data, off, rules);
    }
  }

  lemma ElementPlace(f: Field, data: bytes, off: nat, i: nat) returns (at: nat)
    requires Valid(f) && ArrayOfObjects(f) && i < |f.children| && At(data, off, Ser(f))
    ensures ValidAll(f.children) && Valid(f.children[i]) && f.children[i].Container? && f.children[i].ty == STI_OBJECT
    ensures at == Offset(f.children, |HeaderOf(f)|, i) && Offset(f.children, off + |HeaderOf(f)|, i) == off + at
    ensures At(Ser(f), at, Ser(f.children[i])) && At(data, off + at, Ser(f.children[i]))
  {
    hide Valid, Offset, SerAll, Ser, At;
    ArrayBytes(f);
    var el, hl := f.children[i], |HeaderOf(f)|;
    WholeAt(f.children, i);
    OffsetIs(f.children, hl, i);
    OffsetIs(f.children, off + hl, i);
    OffsetIs(f.children, 0, i);
    at := Offset(f.children, hl, i);
    assert el in f.children;
    AtWithin(Ser(f), hl, SerAll(f.children), Offset(f.children, 0, i), Ser(el));
    AtWithin(data, off, Ser(f), at, Ser(el));
  }

  lemma ObjectBytes(el: Field)
    requires Valid(el) && el.Container? && el.ty == STI_OBJECT
    ensures ValidAll(el.children) && Ser(el) == HeaderOf(el) + (SerAll(el.children) + [OBJECT_END])
  {
    hide SerAll;
  }

  lemma AtBound(d: bytes, at: nat, s: bytes)
    requires At(d, at, s)
    ensures at + |s| <= |d| && d[at..at + |s|] == s
  {
    AtSlice(d, at, s);
  }
}
