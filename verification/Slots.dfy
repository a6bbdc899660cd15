/**
 * The slot table of a hook run: an allocator with a FIFO list of cleared numbers and a counter
 * that skips occupied ones, and the host functions that fill it. `Table` is the table as a value;
 * class `Slots` is the table the source updates in place, each method proved to make exactly the
 * step that the function on `Table` describes.
 */
module Slots {
  import opened Bytes
  import opened Wrappers
  import opened ReturnCodes
  import opened FieldTree
  import opened FullWalker

  const MAX_SLOTS := 255

  datatype Kind = ObjectKind | ArrayKind | LeafKind(ty: byte)

  /** A view into a serialized object: the bytes `storage[start..end]`. */
  datatype View = View(storage: bytes, kind: Kind, fcode: nat, start: nat, end: nat)

  type SlotEntry = v: View | v.start <= v.end <= |v.storage| witness View([], ObjectKind, 0, 0, 0)

  function Child(p: SlotEntry, f: FieldRef): (e: SlotEntry)
    requires Extends(f, p.start, p.end)
  {
    var (s, e) := f.Content();
    var kind := if f.ty == STI_OBJECT then ObjectKind else if f.ty == STI_ARRAY then ArrayKind else LeafKind(f.ty);
    View(p.storage, kind, f.Code(), s, e)
  }

  function Top(storage: bytes, fcode: nat): SlotEntry {
    View(storage, ObjectKind, fcode, 0, |storage|)
  }

  /** What a host function answers: a slot number or count, a return code, or a run the sim gives up on. */
  datatype Answer = Number(n: nat) | Code(rc: int) | NotModeled

  datatype Table = Table(map_: map<nat, SlotEntry>, free: seq<nat>, counter: nat)

  const EMPTY_TABLE := Table(map[], [], 0)

  // ---- allocation ----

  predicate Full(t: Table) {
    |t.map_| >= MAX_SLOTS
  }

  /** The first number after `c` that is unoccupied or past the last slot. */
  function Advance(m: map<nat, SlotEntry>, c: nat): (s: nat)
    ensures s > c && (s in m ==> s > MAX_SLOTS)
    decreases if c > MAX_SLOTS then 0 else MAX_SLOTS + 1 - c
  {
    if c + 1 in m && c + 1 <= MAX_SLOTS then Advance(m, c + 1) else c + 1
  }

  /** Only occupied numbers are skipped. */
  lemma {:induction false} AdvanceSkips(m: map<nat, SlotEntry>, c: nat, k: nat)
    requires c < k < Advance(m, c)
    ensures k in m && k <= MAX_SLOTS
    decreases if c > MAX_SLOTS then 0 else MAX_SLOTS + 1 - c
  {
    if k > c + 1 {
      AdvanceSkips(m, c + 1, k);
    }
  }

  function TakeFree(t: Table): (Option<nat>, Table) {
    if t.free != [] then (Some(t.free[0]), t.(free := t.free[1..]))
    else
      var s := Advance(t.map_, t.counter);
      (if s > MAX_SLOTS then None else Some(s), t.(counter := s))
  }

  /** Store an entry at the number asked for, or at the next free one when asked for 0. */
  function Place(t: Table, into: nat, e: SlotEntry): (Answer, Table) {
    if into != 0 then (Number(into), t.(map_ := t.map_[into := e]))
    else
      var (s, t') := TakeFree(t);
      if s.None? then (Code(NO_FREE_SLOTS), t')
      else (Number(s.value), t'.(map_ := t'.map_[s.value := e]))
  }

  // ---- the host functions as steps on the table ----

  function Clear(t: Table, n: nat): (Answer, Table) {
    if n !in t.map_ then (Code(DOESNT_EXIST), t)
    else (Number(1), t.(map_ := t.map_ - {n}, free := t.free + [n]))
  }

  function Fields(e: SlotEntry): (r: Option<seq<FieldRef>>)
    ensures r.Some? ==> forall f :: f in r.value ==> Extends(f, e.start, e.end)
  {
    FieldsIn(e.storage, e.start, e.end)
  }

  /** The entry of the first field with the code, or why there is none. */
  function SubfieldOf(p: SlotEntry, fid: nat): Result<SlotEntry, Answer> {
    if p.kind != ObjectKind then Err(Code(NOT_AN_OBJECT))
    else
      var fs := Fields(p);
      if fs.None? then Err(NotModeled) else
      var f := FirstWithCode(fs.value, fid);
      if f.None? then Err(Code(DOESNT_EXIST)) else Ok(Child(p, f.value))
  }

  function FirstWithCode(fs: seq<FieldRef>, fid: nat): (r: Option<FieldRef>)
    ensures r.Some? ==> r.value in fs && r.value.Code() == fid
    ensures r.None? ==> forall f :: f in fs ==> f.Code() != fid
  {
    if fs == [] then None
    else if fs[0].Code() == fid then Some(fs[0])
    else FirstWithCode(fs[1..], fid)
  }

  /** The entry of element `i` of an array, or why there is none. */
  function ElementOf(p: SlotEntry, i: nat): Result<SlotEntry, Answer> {
    if p.kind != ArrayKind then Err(Code(NOT_AN_ARRAY))
    else
      var fs := Fields(p);
      if fs.None? then Err(NotModeled)
      else if i >= |fs.value| then Err(Code(DOESNT_EXIST))
      else Ok(Child(p, fs.value[i]))
  }

  /** `slot_set`: `found` is what the 32- or 34-byte key resolves to in the ledger or the transactions. */
  function SetCall(t: Table, keyLen: nat, into: nat, found: Result<SlotEntry, Answer>): (Answer, Table) {
    if (keyLen != 32 && keyLen != 34) || into > MAX_SLOTS then (Code(INVALID_ARGUMENT), t)
    else if into == 0 && Full(t) then (Code(NO_FREE_SLOTS), t)
    else if found.Err? then (found.error, t)
    else Place(t, into, found.value)
  }

  function SubarrayCall(t: Table, parent: nat, i: nat, into: nat): (Answer, Table) {
    if parent !in t.map_ then (Code(DOESNT_EXIST), t)
    else if t.map_[parent].kind != ArrayKind then (Code(NOT_AN_ARRAY), t)
    else if into == 0 && Full(t) then (Code(NO_FREE_SLOTS), t)
    else if into > MAX_SLOTS then (Code(INVALID_ARGUMENT), t)
    else
      var e := ElementOf(t.map_[parent], i);
      if e.Err? then (e.error, t) else Place(t, into, e.value)
  }

  /** `known`: the field codes SField registers. */
  function SubfieldCall(t: Table, known: set<nat>, parent: nat, fid: nat, into: nat): (Answer, Table) {
    if parent !in t.map_ then (Code(DOESNT_EXIST), t)
    else if into == 0 && Full(t) then (Code(NO_FREE_SLOTS), t)
    else if into > MAX_SLOTS then (Code(INVALID_ARGUMENT), t)
    else if fid !in known then (Code(INVALID_FIELD), t)
    else
      var e := SubfieldOf(t.map_[parent], fid);
      if e.Err? then (e.error, t) else Place(t, into, e.value)
  }

  function MetaCall(t: Table, callback: bool, into: nat, meta: SlotEntry): (Answer, Table) {
    if !callback then (Code(PREREQUISITE_NOT_MET), t)
    else if into > MAX_SLOTS then (Code(INVALID_ARGUMENT), t)
    else if into == 0 && Full(t) then (Code(NO_FREE_SLOTS), t)
    else Place(t, into, meta)
  }

  function CountOf(t: Table, n: nat): Answer {
    if n !in t.map_ then Code(DOESNT_EXIST)
    else if t.map_[n].kind != ArrayKind then Code(NOT_AN_ARRAY)
    else if Fields(t.map_[n]).None? then NotModeled
    else Number(|Fields(t.map_[n]).value|)
  }

  // ---- the table updated in place ----

  class Slots {
    var map_: map<nat, SlotEntry>
    var free: seq<nat>
    var counter: nat

    ghost function Contents(): Table
      reads this
    {
      Table(map_, free, counter)
    }

    constructor ()
      ensures Contents() == EMPTY_TABLE
    {
      map_, free, counter := map[], [], 0;
    }

    method NoFree() returns (b: bool)
      ensures b == Full(Contents())
    {
      b := |map_| >= MAX_SLOTS;
    }

    method GetFree() returns (r: Option<nat>)
      modifies this
      ensures (r, Contents()) == TakeFree(old(Contents()))
    {
      if free != [] {
        var s := free[0];
        free := free[1..];
        return Some(s);
      }
      var s;
      while true
        invariant map_ == old(map_) && free == old(free)
        invariant Advance(map_, counter) == Advance(old(map_), old(counter))
        decreases if counter > MAX_SLOTS then 0 else MAX_SLOTS + 1 - counter
      {
        counter := counter + 1;
        s := counter;
        if !(s in map_ && counter <= MAX_SLOTS) {
          break;
        }
      }
      if counter > MAX_SLOTS {
        return None;
      }
      return Some(s);
    }

    method Store(into: nat, e: SlotEntry) returns (r: Answer)
      modifies this
      ensures (r, Contents()) == Place(old(Contents()), into, e)
    {
      var slot := into;
      if slot == 0 {
        var s := GetFree();
        if s.None? {
          return Code(NO_FREE_SLOTS);
        }
        slot := s.value;
      }
      map_ := map_[slot := e];
      return Number(slot);
    }

    method SlotClear(n: nat) returns (r: Answer)
      modifies this
      ensures (r, Contents()) == Clear(old(Contents()), n)
    {
      if n !in map_ {
        return Code(DOESNT_EXIST);
      }
      map_ := map_ - {n};
      free := free + [n];
      return Number(1);
    }

    method SlotCount(n: nat) returns (r: Answer)
      ensures r == CountOf(Contents(), n)
    {
      if n !in map_ {
        return Code(DOESNT_EXIST);
      }
      var e := map_[n];
      if e.kind != ArrayKind {
        return Code(NOT_AN_ARRAY);
      }
      var fs := ReadFields(e);
      return if fs.None? then NotModeled else Number(|fs.value|);
    }

    method SlotSet(keyLen: nat, into: nat, found: Result<SlotEntry, Answer>) returns (r: Answer)
      modifies this
      ensures (r, Contents()) == SetCall(old(Contents()), keyLen, into, found)
    {
      if (keyLen != 32 && keyLen != 34) || into > MAX_SLOTS {
        return Code(INVALID_ARGUMENT);
      }
      var full := NoFree();
      if into == 0 && full {
        return Code(NO_FREE_SLOTS);
      }
      if found.Err? {
        return found.error;
      }
      r := Store(into, found.value);
    }

    method SlotSubarray(parent: nat, i: nat, into: nat) returns (r: Answer)
      modifies this
      ensures (r, Contents()) == SubarrayCall(old(Contents()), parent, i, into)
    {
      if parent !in map_ {
        return Code(DOESNT_EXIST);
      }
      var p := map_[parent];
      if p.kind != ArrayKind {
        return Code(NOT_AN_ARRAY);
      }
      var full := NoFree();
      if into == 0 && full {
        return Code(NO_FREE_SLOTS);
      }
      if into > MAX_SLOTS {
        return Code(INVALID_ARGUMENT);
      }
      var fs := ReadFields(p);
      if fs.None? {
        return NotModeled;
      }
      if i >= |fs.value| {
        return Code(DOESNT_EXIST);
      }
      r := Store(into, Child(p, fs.value[i]));
    }

    method SlotSubfield(known: set<nat>, parent: nat, fid: nat, into: nat) returns (r: Answer)
      modifies this
      ensures (r, Contents()) == SubfieldCall(old(Contents()), known, parent, fid, into)
    {
      if parent !in map_ {
        return Code(DOESNT_EXIST);
      }
      var p := map_[parent];
      var full := NoFree();
      if into == 0 && full {
        return Code(NO_FREE_SLOTS);
      }
      if into > MAX_SLOTS {
        return Code(INVALID_ARGUMENT);
      }
      if fid !in known {
        return Code(INVALID_FIELD);
      }
      if p.kind != ObjectKind {
        return Code(NOT_AN_OBJECT);
      }
      var fs := ReadFields(p);
      if fs.None? {
        return NotModeled;
      }
      var f := FirstWithCode(fs.value, fid);
      if f.None? {
        return Code(DOESNT_EXIST);
      }
      r := Store(into, Child(p, f.value));
    }

    method MetaSlot(callback: bool, into: nat, meta: SlotEntry) returns (r: Answer)
      modifies this
      ensures (r, Contents()) == MetaCall(old(Contents()), callback, into, meta)
    {
      if !callback {
        return Code(PREREQUISITE_NOT_MET);
      }
      if into > MAX_SLOTS {
        return Code(INVALID_ARGUMENT);
      }
      var full := NoFree();
      if into == 0 && full {
        return Code(NO_FREE_SLOTS);
      }
      r := Store(into, meta);
    }
  }

  method ReadFields(e: SlotEntry) returns (r: Option<seq<FieldRef>>)
    ensures r == Fields(e)
  {
    r := ParseFields(e.storage, e.start, e.end);
  }
}
