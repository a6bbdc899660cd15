/** What every run of slot calls keeps, when allocation cannot fail, and when it hands out a fresh number. */
module SlotRuns {
  import opened Arithmetic
  import opened Wrappers
  import opened ReturnCodes
  import opened Slots

  datatype Call =
    | Set(keyLen: nat, into: nat, found: Result<SlotEntry, Answer>)
    | ClearOne(n: nat)
    | Subarray(parent: nat, i: nat, into: nat)
    | Subfield(known: set<nat>, parent: nat, fid: nat, into: nat)
    | Meta(callback: bool, into: nat, meta: SlotEntry)

  function Step(t: Table, c: Call): (Answer, Table) {
    match c
    case Set(keyLen, into, found) => SetCall(t, keyLen, into, found)
    case ClearOne(n) => Clear(t, n)
    case Subarray(parent, i, into) => SubarrayCall(t, parent, i, into)
    case Subfield(known, parent, fid, into) => SubfieldCall(t, known, parent, fid, into)
    case Meta(callback, into, meta) => MetaCall(t, callback, into, meta)
  }

  function Run(t: Table, calls: seq<Call>): Table
    decreases |calls|
  {
    if calls == [] then t else Run(Step(t, calls[0]).1, calls[1..])
  }

  /** The number a call names as its destination; 0 asks for any. */
  function Into(c: Call): nat {
    if c.ClearOne? then 0 else c.into
  }

  /** A failed lookup does not pretend that the table is full. */
  predicate LookupErrors(c: Call) {
    c.Set? && c.found.Err? ==> c.found.error == NotModeled || (c.found.error.Code? && c.found.error.rc != NO_FREE_SLOTS)
  }

  ghost predicate Inv(t: Table) {
    && (forall k :: k in t.map_ ==> 1 <= k <= MAX_SLOTS)
    && (forall k :: k in t.free ==> 1 <= k <= MAX_SLOTS)
    && t.counter <= MAX_SLOTS
    && (forall k :: 1 <= k <= t.counter ==> k in t.map_ || k in t.free)
  }

  lemma {:induction false} Interval(n: nat) returns (s: set<nat>)
    ensures |s| == n && forall k :: k in s <==> 1 <= k <= n
  {
    if n == 0 {
      s := {};
    } else {
      var r := Interval(n - 1);
      s := r + {n};
    }
  }

  /** As long as the table is not full, a number is found, within the slots and without skipping. */
  lemma TakeFreeSucceeds(t: Table)
    requires Inv(t) && !Full(t)
    ensures TakeFree(t).0.Some? && 1 <= TakeFree(t).0.value <= MAX_SLOTS
  {
    if t.free == [] {
      var s := Advance(t.map_, t.counter);
      if s > MAX_SLOTS {
        var all := Interval(MAX_SLOTS);
        forall k | k in all ensures k in t.map_ {
          if k > t.counter { AdvanceSkips(t.map_, t.counter, k); }
        }
        assert all <= t.map_.Keys;
        SubsetSize(all, t.map_.Keys);
      }
    } else {
      assert t.free[0] in t.free;
    }
  }

  /**
   * Whatever the table, a number is found exactly when one was freed or some slot past the counter is
   * unoccupied; a store that finds none answers NO_FREE_SLOTS and stores nothing.
   */
  lemma TakeFreeIff(t: Table, e: SlotEntry)
    ensures TakeFree(t).0.Some? <==> t.free != [] || exists k :: t.counter < k <= MAX_SLOTS && k !in t.map_
    ensures TakeFree(t).0.None? ==> Place(t, 0, e).0 == Code(NO_FREE_SLOTS) && Place(t, 0, e).1.map_ == t.map_
    ensures TakeFree(t).0.Some? ==>
              && Place(t, 0, e).0 == Number(TakeFree(t).0.value)
              && Place(t, 0, e).1.map_ == t.map_[TakeFree(t).0.value := e]
  {
    var s := Advance(t.map_, t.counter);
    forall k | t.counter < k <= MAX_SLOTS && k < s ensures k in t.map_ {
      AdvanceSkips(t.map_, t.counter, k);
    }
  }

  lemma PlaceKeepsInv(t: Table, into: nat, e: SlotEntry)
    requires Inv(t) && into <= MAX_SLOTS && (into == 0 ==> !Full(t))
    ensures Inv(Place(t, into, e).1)
    ensures Place(t, into, e).0.Number? && 1 <= Place(t, into, e).0.n <= MAX_SLOTS
    ensures Place(t, into, e).0.n in Place(t, into, e).1.map_ && Place(t, into, e).1.map_[Place(t, into, e).0.n] == e
  {
    if into == 0 {
      TakeFreeSucceeds(t);
      var (s, t') := TakeFree(t);
      var t'' := Place(t, into, e).1;
      assert forall k :: k in t''.free ==> k in t.free;
      forall k | 1 <= k <= t''.counter ensures k in t''.map_ || k in t''.free {
        if t.free != [] && k in t.free && k != s.value {
          assert k in t.free[1..];
        }
        if t.free == [] && t.counter < k < s.value {
          AdvanceSkips(t.map_, t.counter, k);
        }
      }
    }
  }

  lemma StepKeepsInv(t: Table, c: Call)
    requires Inv(t)
    ensures Inv(Step(t, c).1)
    ensures Step(t, c).0 == Code(NO_FREE_SLOTS) && LookupErrors(c) ==> Into(c) == 0 && Full(t)
  {
    match c
    case ClearOne(n) =>
      if n in t.map_ {
        var t' := Step(t, c).1;
        assert t'.free[|t.free|] == n;
        forall k | 1 <= k <= t'.counter ensures k in t'.map_ || k in t'.free {
          if k in t.free { assert k in t'.free; }
        }
      }
    case Set(_, into, found) =>
      if found.Ok? && into <= MAX_SLOTS && (into == 0 ==> !Full(t)) { PlaceKeepsInv(t, into, found.value); }
    case Meta(_, into, meta) =>
      if into <= MAX_SLOTS && (into == 0 ==> !Full(t)) { PlaceKeepsInv(t, into, meta); }
    case Subarray(parent, i, into) =>
      if parent in t.map_ && into <= MAX_SLOTS && (into == 0 ==> !Full(t)) {
        var e := ElementOf(t.map_[parent], i);
        if e.Ok? { PlaceKeepsInv(t, into, e.value); }
      }
    case Subfield(_, parent, fid, into) =>
      if parent in t.map_ && into <= MAX_SLOTS && (into == 0 ==> !Full(t)) {
        var e := SubfieldOf(t.map_[parent], fid);
        if e.Ok? { PlaceKeepsInv(t, into, e.value); }
      }
  }

  /** The entry a call asks for, where everything but the destination is in order. */
  function Wanted(t: Table, c: Call): Option<SlotEntry> {
    match c
    case Set(keyLen, _, found) => if keyLen in {32, 34} && found.Ok? then Some(found.value) else None
    case ClearOne(_) => None
    case Subarray(parent, i, _) =>
      if parent in t.map_ && ElementOf(t.map_[parent], i).Ok? then Some(ElementOf(t.map_[parent], i).value) else None
    case Subfield(known, parent, fid, _) =>
      if parent in t.map_ && fid in known && SubfieldOf(t.map_[parent], fid).Ok?
      then Some(SubfieldOf(t.map_[parent], fid).value) else None
    case Meta(callback, _, meta) => if callback then Some(meta) else None
  }

  /**
   * A call stores something exactly when the entry it asks for is there and its destination is a slot
   * number, or 0 while some slot is free. It then answers the number and stores that entry there and
   * nothing else; a destination that was named is kept. Otherwise the table stays as it was.
   */
  lemma StoresIff(t: Table, c: Call)
    requires Inv(t) && !c.ClearOne? && LookupErrors(c)
    ensures var (a, t') := Step(t, c);
            && (a.Number? <==> Wanted(t, c).Some? && Into(c) <= MAX_SLOTS && (Into(c) == 0 ==> !Full(t)))
            && (a.Number? ==> t'.map_ == t.map_[a.n := Wanted(t, c).value] && 1 <= a.n <= MAX_SLOTS)
            && (a.Number? && Into(c) != 0 ==> a.n == Into(c) && t' == t.(map_ := t'.map_))
            && (!a.Number? ==> t' == t)
  {
    hide ElementOf, SubfieldOf;
    NoNumberOnError();
    if Wanted(t, c).Some? && Into(c) <= MAX_SLOTS && (Into(c) == 0 ==> !Full(t)) {
      PlaceKeepsInv(t, Into(c), Wanted(t, c).value);
      if c.Subarray? {
        WantedParent(t, c);
      }
    }
  }

  lemma NoNumberOnError()
    ensures forall p, i :: ElementOf(p, i).Err? ==> !ElementOf(p, i).error.Number?
    ensures forall p, fid :: SubfieldOf(p, fid).Err? ==> !SubfieldOf(p, fid).error.Number?
  {
  }

  lemma WantedParent(t: Table, c: Call)
    requires Wanted(t, c).Some? && c.Subarray?
    ensures t.map_[c.parent].kind == ArrayKind
  {
  }

  /** A slot is given back exactly when it is occupied; its number then waits behind all that were freed before. */
  lemma ClearsIff(t: Table, n: nat)
    ensures var (a, t') := Clear(t, n);
            && (a == Number(1) <==> n in t.map_) && (a == Code(DOESNT_EXIST) <==> n !in t.map_)
            && (n in t.map_ ==> t'.map_ == t.map_ - {n} && t'.free == t.free + [n] && t'.counter == t.counter)
            && (n !in t.map_ ==> t' == t)
  {
  }

  /**
   * Why a call is refused, where more than one thing may be wrong: `slot_set` looks at its arguments
   * before it looks for room; a callback's slot call at its number before that; the two that open a
   * slot on another look at the parent first, and at the number only after looking for room.
   */
  lemma Refusals(t: Table, c: Call)
    ensures c.Set? && (c.keyLen !in {32, 34} || c.into > MAX_SLOTS) ==> Step(t, c) == (Code(INVALID_ARGUMENT), t)
    ensures c.Set? && c.keyLen in {32, 34} && c.into == 0 && Full(t) ==> Step(t, c) == (Code(NO_FREE_SLOTS), t)
    ensures c.Set? && c.keyLen in {32, 34} && 1 <= c.into <= MAX_SLOTS && c.found.Err? ==>
              Step(t, c) == (c.found.error, t)
    ensures c.Meta? && !c.callback ==> Step(t, c) == (Code(PREREQUISITE_NOT_MET), t)
    ensures c.Meta? && c.callback && c.into > MAX_SLOTS ==> Step(t, c) == (Code(INVALID_ARGUMENT), t)
    ensures c.Meta? && c.callback && c.into == 0 && Full(t) ==> Step(t, c) == (Code(NO_FREE_SLOTS), t)
    ensures (c.Subarray? || c.Subfield?) && c.parent !in t.map_ ==> Step(t, c) == (Code(DOESNT_EXIST), t)
    ensures c.Subarray? && c.parent in t.map_ && t.map_[c.parent].kind != ArrayKind ==>
              Step(t, c) == (Code(NOT_AN_ARRAY), t)
    ensures c.Subarray? && c.parent in t.map_ && t.map_[c.parent].kind == ArrayKind && c.into == 0 && Full(t) ==>
              Step(t, c) == (Code(NO_FREE_SLOTS), t)
    ensures c.Subarray? && c.parent in t.map_ && t.map_[c.parent].kind == ArrayKind && c.into > MAX_SLOTS ==>
              Step(t, c) == (Code(INVALID_ARGUMENT), t)
    ensures c.Subfield? && c.parent in t.map_ && c.into == 0 && Full(t) ==> Step(t, c) == (Code(NO_FREE_SLOTS), t)
    ensures c.Subfield? && c.parent in t.map_ && c.into > MAX_SLOTS ==> Step(t, c) == (Code(INVALID_ARGUMENT), t)
    ensures c.Subfield? && c.parent in t.map_ && 1 <= c.into <= MAX_SLOTS && c.fid !in c.known ==>
              Step(t, c) == (Code(INVALID_FIELD), t)
    ensures c.Subfield? && c.parent in t.map_ && 1 <= c.into <= MAX_SLOTS && c.fid in c.known
            && t.map_[c.parent].kind != ObjectKind ==>
              Step(t, c) == (Code(NOT_AN_OBJECT), t)
  {
    hide ElementOf, Fields, FirstWithCode;
  }

  /** Over every run: numbers stay in 1..255 and every number up to the counter is occupied or free. */
  lemma {:induction false} RunKeepsInv(t: Table, calls: seq<Call>)
    requires Inv(t)
    ensures Inv(Run(t, calls))
    decreases |calls|
  {
    if calls != [] {
      StepKeepsInv(t, calls[0]);
      RunKeepsInv(Step(t, calls[0]).1, calls[1..]);
    }
  }

  /** In every run from the empty table, "no free slots" is answered only when all 255 are occupied. */
  lemma AllocationFailsOnlyWhenFull(calls: seq<Call>, c: Call)
    requires LookupErrors(c)
    ensures var t := Run(EMPTY_TABLE, calls);
            Step(t, c).0 == Code(NO_FREE_SLOTS) ==> forall k :: 1 <= k <= MAX_SLOTS ==> k in t.map_
  {
    RunKeepsInv(EMPTY_TABLE, calls);
    var t := Run(EMPTY_TABLE, calls);
    StepKeepsInv(t, c);
    if Step(t, c).0 == Code(NO_FREE_SLOTS) {
      var all := Interval(MAX_SLOTS);
      assert t.map_.Keys <= all;
      if k :| 1 <= k <= MAX_SLOTS && k !in t.map_ {
        assert k in all;
        SubsetSize(t.map_.Keys, all - {k});
      }
    }
  }

  // ---- freshness ----

  /** The number handed out is occupied exactly when the oldest freed number has been taken explicitly since. */
  lemma HandsOutOccupied(t: Table)
    requires Inv(t) && !Full(t)
    ensures TakeFree(t).0.Some?
    ensures TakeFree(t).0.value in t.map_ <==> t.free != [] && t.free[0] in t.map_
  {
    TakeFreeSucceeds(t);
  }

  ghost predicate Clean(t: Table) {
    && (forall k :: k in t.free ==> k !in t.map_)
    && (forall i, j :: 0 <= i < j < |t.free| ==> t.free[i] != t.free[j])
  }

  predicate NamesFreed(t: Table, c: Call) {
    Into(c) != 0 && Into(c) in t.free
  }

  ghost predicate NeverNamesFreed(t: Table, calls: seq<Call>)
    decreases |calls|
  {
    calls == [] || (!NamesFreed(t, calls[0]) && NeverNamesFreed(Step(t, calls[0]).1, calls[1..]))
  }

  lemma PlaceKeepsClean(t: Table, into: nat, e: SlotEntry)
    requires Inv(t) && Clean(t) && into !in t.free && (into == 0 ==> !Full(t))
    ensures Clean(Place(t, into, e).1)
    ensures into == 0 ==> Place(t, into, e).0.Number? && Place(t, into, e).0.n !in t.map_
  {
    if into == 0 {
      TakeFreeSucceeds(t);
      HandsOutOccupied(t);
      if t.free != [] {
        assert t.free[0] in t.free;
        forall k | k in t.free[1..] ensures k in t.free && k != t.free[0] {
          var i :| 0 <= i < |t.free[1..]| && t.free[1..][i] == k;
          assert t.free[i + 1] == k;
        }
      }
    }
  }

  lemma StepKeepsClean(t: Table, c: Call)
    requires Inv(t) && Clean(t) && !NamesFreed(t, c)
    ensures Clean(Step(t, c).1)
    ensures !c.ClearOne? && Into(c) == 0 && Step(t, c).0.Number? && (c.Set? ==> c.found.Ok?) ==>
              Step(t, c).0.n !in t.map_
  {
    if Into(c) == 0 {
      assert 0 !in t.free;
    }
    match c
    case ClearOne(n) =>
      if n in t.map_ { assert n !in t.free; }
    case Set(_, into, found) =>
      if found.Ok? && (into == 0 ==> !Full(t)) { PlaceKeepsClean(t, into, found.value); }
    case Meta(_, into, meta) =>
      if into == 0 ==> !Full(t) { PlaceKeepsClean(t, into, meta); }
    case Subarray(parent, i, into) =>
      if parent in t.map_ && (into == 0 ==> !Full(t)) {
        var e := ElementOf(t.map_[parent], i);
        if e.Ok? { PlaceKeepsClean(t, into, e.value); }
      }
    case Subfield(_, parent, fid, into) =>
      if parent in t.map_ && (into == 0 ==> !Full(t)) {
        var e := SubfieldOf(t.map_[parent], fid);
        if e.Ok? { PlaceKeepsClean(t, into, e.value); }
      }
  }

  lemma {:induction false} RunKeepsClean(t: Table, calls: seq<Call>)
    requires Inv(t) && Clean(t) && NeverNamesFreed(t, calls)
    ensures Clean(Run(t, calls))
    decreases |calls|
  {
    if calls != [] {
      StepKeepsInv(t, calls[0]);
      StepKeepsClean(t, calls[0]);
      RunKeepsClean(Step(t, calls[0]).1, calls[1..]);
    }
  }

  /** If no call so far named a freed number, an automatic slot never overwrites a live one. */
  lemma FreshUnlessFreedIsNamed(calls: seq<Call>, c: Call)
    requires NeverNamesFreed(EMPTY_TABLE, calls) && !c.ClearOne? && Into(c) == 0 && (c.Set? ==> c.found.Ok?)
    ensures var t := Run(EMPTY_TABLE, calls);
            Step(t, c).0.Number? ==> Step(t, c).0.n !in t.map_
  {
    RunKeepsInv(EMPTY_TABLE, calls);
    RunKeepsClean(EMPTY_TABLE, calls);
    StepKeepsClean(Run(EMPTY_TABLE, calls), c);
  }

  /** Clear slot 1, fill it by number, then ask for any slot: slot 1 is handed out while occupied. */
  lemma OverwritesAfterNamingFreed(e: SlotEntry)
    ensures var c := Meta(true, 0, e);
            var t := Run(EMPTY_TABLE, [c, ClearOne(1), Meta(true, 1, e)]);
            Step(t, c).0 == Number(1) && 1 in t.map_
  {
    var c := Meta(true, 0, e);
    var t1 := Step(EMPTY_TABLE, c).1;
    assert t1 == Table(map[1 := e], [], 1);
    var t2 := Step(t1, ClearOne(1)).1;
    assert t2 == Table(map[], [1], 1);
    var t3 := Step(t2, Meta(true, 1, e)).1;
    assert t3 == Table(map[1 := e], [1], 1);
    var calls := [c, ClearOne(1), Meta(true, 1, e)];
    assert calls[1..] == [ClearOne(1), Meta(true, 1, e)] && calls[1..][1..] == [Meta(true, 1, e)];
    assert Run(t3, []) == t3;
    assert Run(t2, [Meta(true, 1, e)]) == t3;
    assert Run(t1, calls[1..]) == t3;
  }
}
