/**
 * The slot route of ApiRoutes as the hook sees it: two host calls on the slot table, with their
 * numbers, their checks and their return codes, against the two calls on bytes.
 */
module ApiTables {
  import opened Bytes
  import opened Wrappers
  import opened ReturnCodes
  import opened FieldTree
  import opened StoApi
  import opened Slots
  import opened ApiRoutes
  import SlotRuns

  /** The checks of a slot number that both calls make before they look for the entry. */
  predicate HasRoom(t: Table, into: nat) {
    if into == 0 then !Full(t) else into <= MAX_SLOTS
  }

  function NoRoom(t: Table, into: nat): Answer {
    if into == 0 && Full(t) then Code(NO_FREE_SLOTS) else Code(INVALID_ARGUMENT)
  }

  /** A call put `e` into slot `a.n`, the one asked for unless it was 0, and kept the table's invariant. */
  ghost predicate Placed(t: Table, into: nat, a: Answer, t': Table, e: SlotEntry) {
    && a.Number? && 1 <= a.n <= MAX_SLOTS && (into != 0 ==> a.n == into)
    && a.n in t'.map_ && t'.map_[a.n] == e
    && (forall k :: k in t.map_ && k != a.n ==> k in t'.map_ && t'.map_[k] == t.map_[k])
    && SlotRuns.Inv(t')
  }

  lemma PlaceSucceeds(t: Table, into: nat, e: SlotEntry)
    requires SlotRuns.Inv(t) && HasRoom(t, into)
    ensures Placed(t, into, Place(t, into, e).0, Place(t, into, e).1, e)
  {
    SlotRuns.PlaceKeepsInv(t, into, e);
  }

  /**
   * `slot_subarray` on slot `n`, which holds the array `f`, against `sto_subarray` on its bytes `arr`:
   * both answer DOESNT_EXIST, or the entry stored is the element that the bytes delimit.
   */
  predicate SameAnswer(f: Field, data: bytes, off: nat, arr: bytes, i: nat, rules: Rules, t: Table, n: nat, into: nat)
    requires f.Container?
  {
    var (b, t') := SubarrayCall(t, n, i, into);
    var sto := Subarray(arr, i, rules);
    && (b == Code(DOESNT_EXIST) <==> sto == Err(DOESNT_EXIST))
    && (b.Number? ==> b.n in t'.map_ && SameElement(f, data, off, arr, i, sto, Ok(t'.map_[b.n])))
  }

  /** What `slot_subarray` on slot `n` answers by itself, for an array of `count` elements. */
  ghost predicate Answers(count: nat, i: nat, t: Table, n: nat, into: nat) {
    var (b, t') := SubarrayCall(t, n, i, into);
    if !HasRoom(t, into) then b == NoRoom(t, into) && t' == t
    else if i >= count then b == Code(DOESNT_EXIST) && t' == t
    else b.Number? && b.n in t'.map_ && Placed(t, into, b, t', t'.map_[b.n])
  }

  /**
   * `slot_subfield` on the slot `parent` that holds the object, then `slot_subarray` on the slot it
   * answers, beside `sto_subfield` then `sto_subarray` on the object's bytes. Every return code of the
   * slot calls is accounted for: no room, a bad number, an unknown field code, an index past the end.
   * Given room, the two routes agree at every index exactly when `sto_subarray` skips the whole header.
   */
  lemma TableRoutesAgree(ts: seq<Field>, j: nat, rules: Rules, fcode: nat,
                         t: Table, known: set<nat>, parent: nat, into: nat, into2: nat)
    requires Walkers(ts, rules.ser240) && |ts| <= MAX_FIELDS && j < |ts| && ArrayOfObjects(ts[j])
    requires forall k :: 0 <= k < j ==> CodeOf(ts[k]) != CodeOf(ts[j])
    requires SlotRuns.Inv(t) && (ValidAllOf(ts, rules); parent in t.map_ && t.map_[parent] == Top(SerAll(ts), fcode))
    ensures Valid(ts[j])
    ensures var data, fid := SerAll(ts), CodeOf(ts[j]);
            && Subfield(data, fid, rules).Ok? && SubfieldOf(Top(data, fcode), fid).Ok?
            && var (off, len) := Subfield(data, fid, rules).value;
            && off + len <= |data|
            && var arr := data[off..off + len];
               var (a, t1) := SubfieldCall(t, known, parent, fid, into);
            && (!HasRoom(t, into) ==> a == NoRoom(t, into) && t1 == t)
            && (HasRoom(t, into) && fid !in known ==> a == Code(INVALID_FIELD) && t1 == t)
            && (HasRoom(t, into) && fid in known ==>
                  && Placed(t, into, a, t1, SubfieldOf(Top(data, fcode), fid).value)
                  && (forall i: nat :: Answers(|ts[j].children|, i, t1, a.n, into2))
                  && (HasRoom(t1, into2) ==>
                        ((forall i: nat :: SameAnswer(ts[j], data, off, arr, i, rules, t1, a.n, into2))
                         <==> HeaderSkipped(ts[j], rules))))
  {
    hide Walkers, SerAll, Subfield, Subarray, SubfieldOf, ElementOf, SlotRuns.Inv, Valid, Ser, CodeOf, Place,
         HeaderSkipped, Offset, ArraySlot, SameElement, Answers, SameAnswer;
    AtIndexOf(ts, rules.ser240, j);
    var data, f := SerAll(ts), ts[j];
    var off := Offset(ts, 0, j);
    SubfieldRoutes(ts, j, rules, fcode);
    RoutesAgree(ts, j, rules, fcode);
    var slot := SubfieldOf(Top(data, fcode), CodeOf(f)).value;
    ArraySlotKind(data, f, off);
    if HasRoom(t, into) && CodeOf(f) in known {
      PlaceSucceeds(t, into, slot);
      var (a, t1) := SubfieldCall(t, known, parent, CodeOf(f), into);
      assert (a, t1) == Place(t, into, slot);
      WholeAt(ts, j);
      var arr := data[off..off + |Ser(f)|];
      forall i: nat
        ensures Answers(|f.children|, i, t1, a.n, into2)
        ensures HasRoom(t1, into2) ==>
                  (SameAnswer(f, data, off, arr, i, rules, t1, a.n, into2) <==>
                   SameElement(f, data, off, arr, i, Subarray(arr, i, rules), ElementOf(slot, i)))
      {
        SlotElement(f, data, off, i);
        OneIndex(f, data, off, arr, i, rules, t1, a.n, into2);
      }
      if HeaderSkipped(f, rules) {
        assert forall i: nat :: SameElement(f, data, off, arr, i, Subarray(arr, i, rules), ElementOf(slot, i));
      } else {
        assert !SameElement(f, data, off, arr, 0, Subarray(arr, 0, rules), ElementOf(slot, 0));
      }
    }
  }

  lemma ValidAllOf(ts: seq<Field>, rules: Rules)
    requires Walkers(ts, rules.ser240)
    ensures ValidAll(ts)
  {
  }

  /** One index: the call on the table is the look-up of the entry, and room for it. */
  lemma OneIndex(f: Field, data: bytes, off: nat, arr: bytes, i: nat, rules: Rules, t: Table, n: nat, into: nat)
    requires f.Container? && SlotRuns.Inv(t) && n in t.map_ && t.map_[n].kind == ArrayKind
    requires i < |f.children| ==> ElementOf(t.map_[n], i).Ok?
    requires i >= |f.children| ==> ElementOf(t.map_[n], i) == Err(Code(DOESNT_EXIST))
    ensures Answers(|f.children|, i, t, n, into)
    ensures HasRoom(t, into) ==>
              (SameAnswer(f, data, off, arr, i, rules, t, n, into) <==>
               SameElement(f, data, off, arr, i, Subarray(arr, i, rules), ElementOf(t.map_[n], i)))
  {
    hide Subarray, ElementOf, SlotRuns.Inv, Valid, HeaderOf, Place, Full;
    if HasRoom(t, into) && i < |f.children| {
      PlaceSucceeds(t, into, ElementOf(t.map_[n], i).value);
    }
  }

  lemma ArraySlotKind(data: bytes, f: Field, off: nat)
    requires Valid(f)
    ensures ArraySlot(data, f, off).kind == ArrayKind
  {
  }
}
