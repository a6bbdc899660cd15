/**
 * What `sto_validate`, `sto_subfield` and `sto_subarray` answer on any bytes, said without their
 * loops: by offsets at which the light walker finds one field after the other.
 */
module StoExact {
  import opened Bytes
  import opened Wrappers
  import opened ReturnCodes
  import opened FieldTree
  import opened LightWalker
  import opened StoApi

  /** A field stands at each of the offsets but the last, before `end`, and the next offset is where it ends. */
  ghost predicate Chain(d: bytes, end: nat, ser240: bool, o: seq<nat>) {
    && end <= |d| && |o| >= 1
    && forall k :: 0 <= k < |o| - 1 ==>
         && o[k] < end && LightAt(d, o[k], end, ser240, 0).Some?
         && o[k + 1] == o[k] + LightAt(d, o[k], end, ser240, 0).value.len
  }

  /** At most 1024 fields lie end to end from `from` to `end`. */
  ghost predicate Tiles(d: bytes, from: nat, end: nat, ser240: bool, o: seq<nat>) {
    Chain(d, end, ser240, o) && o[0] == from && o[|o| - 1] == end && |o| - 1 <= MAX_FIELDS
  }

  function FieldAtOffset(d: bytes, end: nat, ser240: bool, o: seq<nat>, k: nat): Light
    requires Chain(d, end, ser240, o) && k < |o| - 1
  {
    LightAt(d, o[k], end, ser240, 0).value
  }

  lemma ChainTail(d: bytes, end: nat, ser240: bool, o: seq<nat>)
    requires Chain(d, end, ser240, o) && |o| > 1
    ensures Chain(d, end, ser240, o[1..]) && o[0] < end && o[1] > o[0]
    ensures LightAt(d, o[0], end, ser240, 0).Some? && o[1] == o[0] + LightAt(d, o[0], end, ser240, 0).value.len
  {
    hide LightAt;
    forall k | 0 <= k < |o[1..]| - 1
      ensures && o[1..][k] < end && LightAt(d, o[1..][k], end, ser240, 0).Some?
              && o[1..][k + 1] == o[1..][k] + LightAt(d, o[1..][k], end, ser240, 0).value.len
    {
      assert o[1..][k] == o[k + 1] && o[1..][k + 1] == o[k + 1 + 1];
    }
  }

  lemma ChainCons(d: bytes, end: nat, ser240: bool, at: nat, o: seq<nat>)
    requires Chain(d, end, ser240, o) && at < end && LightAt(d, at, end, ser240, 0).Some?
    requires o[0] == at + LightAt(d, at, end, ser240, 0).value.len
    ensures Chain(d, end, ser240, [at] + o)
  {
    hide LightAt;
    var q := [at] + o;
    forall k | 0 <= k < |q| - 1
      ensures && q[k] < end && LightAt(d, q[k], end, ser240, 0).Some?
              && q[k + 1] == q[k] + LightAt(d, q[k], end, ser240, 0).value.len
    {
      if k > 0 {
        assert q[k] == o[k - 1] && q[k + 1] == o[k - 1 + 1];
      }
    }
  }

  /** The fields lie end to end up to `end`, and there are no more than `i` of them. */
  ghost predicate EndsBy(d: bytes, from: nat, end: nat, ser240: bool, i: nat) {
    exists o: seq<nat> :: Tiles(d, from, end, ser240, o) && |o| - 1 <= i
  }

  lemma EndShift(d: bytes, from: nat, end: nat, ser240: bool, i: nat)
    requires 0 < i <= MAX_FIELDS && from < end <= |d| && LightAt(d, from, end, ser240, 0).Some?
    ensures var next := from + LightAt(d, from, end, ser240, 0).value.len;
            EndsBy(d, from, end, ser240, i) <==> EndsBy(d, next, end, ser240, i - 1)
  {
    hide LightAt;
    var next := from + LightAt(d, from, end, ser240, 0).value.len;
    if EndsBy(d, from, end, ser240, i) {
      var o: seq<nat> :| Tiles(d, from, end, ser240, o) && |o| - 1 <= i;
      ChainTail(d, end, ser240, o);
      assert Tiles(d, next, end, ser240, o[1..]);
    }
    if EndsBy(d, next, end, ser240, i - 1) {
      var o: seq<nat> :| Tiles(d, next, end, ser240, o) && |o| - 1 <= i - 1;
      ChainCons(d, end, ser240, from, o);
      assert Tiles(d, from, end, ser240, [from] + o);
    }
  }

  /** The whole walk: where it is refused there is no tiling, and where it is not there is one. */
  lemma {:induction false} WalkedIff(d: bytes, from: nat, end: nat, ser240: bool, n: nat)
    requires from <= end <= |d| && n <= MAX_FIELDS
    ensures Walked(d, from, end, ser240, n) == Some(end) <==> EndsBy(d, from, end, ser240, n)
    decreases n
  {
    hide LightAt;
    if from == end {
      assert Tiles(d, from, end, ser240, [from]);
    } else if n > 0 {
      var l := LightAt(d, from, end, ser240, 0);
      if l.None? {
        NoTiling(d, from, end, ser240);
      } else {
        WalkedIff(d, from + l.value.len, end, ser240, n - 1);
        EndShift(d, from, end, ser240, n);
      }
    }
  }

  lemma NoTiling(d: bytes, from: nat, end: nat, ser240: bool)
    requires from < end <= |d| && LightAt(d, from, end, ser240, 0).None?
    ensures forall i: nat :: !EndsBy(d, from, end, ser240, i)
  {
    hide LightAt;
  }

  /** An object is valid exactly when at most 1024 fields lie end to end over all of its bytes. */
  lemma ValidatedIff(d: bytes, ser240: bool)
    ensures Validated(d, ser240) <==> exists o: seq<nat> :: Tiles(d, 0, |d|, ser240, o)
  {
    hide Walked, Tiles;
    WalkedIff(d, 0, |d|, ser240, MAX_FIELDS);
    forall o: seq<nat> | Tiles(d, 0, |d|, ser240, o) ensures |o| - 1 <= MAX_FIELDS {
      LengthOf(d, 0, |d|, ser240, o);
    }
  }

  lemma LengthOf(d: bytes, from: nat, end: nat, ser240: bool, o: seq<nat>)
    requires Tiles(d, from, end, ser240, o)
    ensures 1 <= |o| <= MAX_FIELDS + 1
  {
  }

  // ---- the first field with a code ----

  /** The field at offset `j` carries the code and none before it does. */
  ghost predicate FirstOf(d: bytes, end: nat, ser240: bool, o: seq<nat>, fid: nat, j: nat) {
    && Chain(d, end, ser240, o) && j < |o| - 1
    && (var l := FieldAtOffset(d, end, ser240, o, j); l.ty * 65536 + l.field == fid)
    && forall k :: 0 <= k < j ==> var l := FieldAtOffset(d, end, ser240, o, k); l.ty * 65536 + l.field != fid
  }

  /** What a field answers: arrays whole, header and end marker included, everything else its payload. */
  function Answered(l: Light, at: nat): (nat, nat) {
    if l.ty == STI_ARRAY then (at, l.len) else (at + l.payloadStart, l.payloadLen)
  }

  lemma {:induction false} FindFirst(d: bytes, end: nat, ser240: bool, o: seq<nat>, fid: nat, j: nat, n: nat)
    requires FirstOf(d, end, ser240, o, fid, j) && j < n
    ensures Find(d, o[0], end, ser240, fid, n) == Ok(Answered(FieldAtOffset(d, end, ser240, o, j), o[j]))
    decreases j
  {
    hide LightAt;
    if j > 0 {
      ChainTail(d, end, ser240, o);
      forall k | 0 <= k < j - 1
        ensures var l := FieldAtOffset(d, end, ser240, o[1..], k); l.ty * 65536 + l.field != fid
      {
        assert FieldAtOffset(d, end, ser240, o[1..], k) == FieldAtOffset(d, end, ser240, o, k + 1);
      }
      assert FieldAtOffset(d, end, ser240, o, 0).ty * 65536 + FieldAtOffset(d, end, ser240, o, 0).field != fid;
      FindFirst(d, end, ser240, o[1..], fid, j - 1, n - 1);
    }
  }

  lemma {:induction false} FindNone(d: bytes, from: nat, end: nat, ser240: bool, o: seq<nat>, fid: nat, n: nat)
    requires Tiles(d, from, end, ser240, o) && |o| - 1 <= n
    requires forall k :: 0 <= k < |o| - 1 ==>
               var l := FieldAtOffset(d, end, ser240, o, k); l.ty * 65536 + l.field != fid
    ensures Find(d, from, end, ser240, fid, n) == Err(DOESNT_EXIST)
    decreases |o|
  {
    hide LightAt;
    if |o| > 1 {
      ChainTail(d, end, ser240, o);
      forall k | 0 <= k < |o[1..]| - 1
        ensures var l := FieldAtOffset(d, end, ser240, o[1..], k); l.ty * 65536 + l.field != fid
      {
        assert FieldAtOffset(d, end, ser240, o[1..], k) == FieldAtOffset(d, end, ser240, o, k + 1);
      }
      assert FieldAtOffset(d, end, ser240, o, 0).ty * 65536 + FieldAtOffset(d, end, ser240, o, 0).field != fid;
      FindNone(d, o[1], end, ser240, o[1..], fid, n - 1);
    }
  }

  /** The first place of a chain that carries the code, or its length. */
  lemma Search(d: bytes, end: nat, ser240: bool, o: seq<nat>, fid: nat, m: nat) returns (j: nat)
    requires Chain(d, end, ser240, o) && m < |o|
    ensures j <= m
    ensures j < m ==> FirstOf(d, end, ser240, o, fid, j)
    ensures j == m ==> forall k :: 0 <= k < m ==>
              var l := FieldAtOffset(d, end, ser240, o, k); l.ty * 65536 + l.field != fid
  {
    hide LightAt;
    j := 0;
    while j < m
      invariant j <= m
      invariant forall k :: 0 <= k < j ==>
                  var l := FieldAtOffset(d, end, ser240, o, k); l.ty * 65536 + l.field != fid
    {
      var l := FieldAtOffset(d, end, ser240, o, j);
      if l.ty * 65536 + l.field == fid {
        return;
      }
      j := j + 1;
    }
  }

  /** Some field of the object carries the code; the answer is that of the first one. */
  ghost predicate FoundIn(d: bytes, ser240: bool, fid: nat, e: (nat, nat)) {
    exists o: seq<nat>, j: nat :: Tiles(d, 0, |d|, ser240, o) && FirstOf(d, |d|, ser240, o, fid, j) &&
      e == Answered(FieldAtOffset(d, |d|, ser240, o, j), o[j])
  }

  /**
   * `sto_subfield` on any bytes. It answers an extent exactly when the bytes are an object one of whose
   * fields carries the code, and then that of the first such field; DOESNT_EXIST exactly on objects
   * without one, PARSE_ERROR on what is not an object, TOO_SMALL below two bytes.
   */
  lemma SubfieldIff(d: bytes, fid: nat, rules: Rules)
    ensures forall e :: Subfield(d, fid, rules) == Ok(e) <==> |d| >= 2 && FoundIn(d, rules.ser240, fid, e)
    ensures Subfield(d, fid, rules) == Err(TOO_SMALL) <==> |d| < 2
    ensures Subfield(d, fid, rules) == Err(PARSE_ERROR) <==>
            |d| >= 2 && !exists o: seq<nat> :: Tiles(d, 0, |d|, rules.ser240, o)
    ensures Subfield(d, fid, rules) == Err(DOESNT_EXIST) <==>
            |d| >= 2 && (exists o: seq<nat> :: Tiles(d, 0, |d|, rules.ser240, o))
            && !exists e :: FoundIn(d, rules.ser240, fid, e)
  {
    hide LightAt, Find, Validated, FirstOf, Tiles, Answered, FieldAtOffset;
    var ser240 := rules.ser240;
    ValidatedIff(d, ser240);
    if |d| >= 2 {
      forall o: seq<nat>, j: nat | Tiles(d, 0, |d|, ser240, o) && FirstOf(d, |d|, ser240, o, fid, j)
        ensures Chain(d, |d|, ser240, o) && j < |o| - 1
        ensures Subfield(d, fid, rules) == Ok(Answered(FieldAtOffset(d, |d|, ser240, o, j), o[j]))
      {
        Found(d, ser240, o, fid, j);
      }
      if o: seq<nat> :| Tiles(d, 0, |d|, ser240, o) {
        LengthOf(d, 0, |d|, ser240, o);
        TilesIsChain(d, ser240, o);
        var j := Search(d, |d|, ser240, o, fid, |o| - 1);
        if j < |o| - 1 {
          assert FoundIn(d, ser240, fid, Answered(FieldAtOffset(d, |d|, ser240, o, j), o[j]));
        } else {
          FindNone(d, 0, |d|, ser240, o, fid, MAX_FIELDS);
        }
      }
    }
  }

  lemma TilesIsChain(d: bytes, ser240: bool, o: seq<nat>)
    requires Tiles(d, 0, |d|, ser240, o)
    ensures Chain(d, |d|, ser240, o) && o[0] == 0
  {
  }

  lemma Found(d: bytes, ser240: bool, o: seq<nat>, fid: nat, j: nat)
    requires Tiles(d, 0, |d|, ser240, o) && FirstOf(d, |d|, ser240, o, fid, j)
    ensures Chain(d, |d|, ser240, o) && j < |o| - 1 <= MAX_FIELDS
    ensures Find(d, 0, |d|, ser240, fid, MAX_FIELDS) == Ok(Answered(FieldAtOffset(d, |d|, ser240, o, j), o[j]))
  {
    hide LightAt;
    FindFirst(d, |d|, ser240, o, fid, j, MAX_FIELDS);
  }

  // ---- an element by its index ----

  /** Element `i` of the fields from `from`: where it starts and how long it is. */
  ghost predicate ElementIn(d: bytes, from: nat, end: nat, ser240: bool, i: nat, e: (nat, nat)) {
    exists o: seq<nat> ::
      Chain(d, end, ser240, o) && o[0] == from && |o| == i + 2 && e.0 == o[i] && e.0 + e.1 == o[i + 1]
  }

  lemma {:induction false} NthIff(d: bytes, from: nat, end: nat, ser240: bool, i: nat, n: nat)
    requires from <= end <= |d| && n <= MAX_FIELDS
    ensures forall e :: Nth(d, from, end, ser240, i, n) == Ok(e) <==> i < n && ElementIn(d, from, end, ser240, i, e)
    ensures Nth(d, from, end, ser240, i, n) == Err(DOESNT_EXIST) <==>
            EndsBy(d, from, end, ser240, if i < n then i else n)
    decreases n
  {
    hide LightAt, ElementIn, EndsBy;
    var l := LightAt(d, from, end, ser240, 0);
    if n == 0 || from == end {
      NothingLeft(d, from, end, ser240);
    } else if l.None? {
      NoChain(d, from, end, ser240);
    } else if i == 0 {
      FirstElement(d, from, end, ser240);
    } else {
      NthIff(d, from + l.value.len, end, ser240, i - 1, n - 1);
      ElementShift(d, from, end, ser240, i);
      EndShift(d, from, end, ser240, if i < n then i else n);
    }
  }

  lemma NothingLeft(d: bytes, from: nat, end: nat, ser240: bool)
    requires from <= end <= |d|
    ensures EndsBy(d, from, end, ser240, 0) <==> from == end
    ensures from == end ==> forall i: nat :: EndsBy(d, from, end, ser240, i)
    ensures from == end ==> forall i: nat, e :: !ElementIn(d, from, end, ser240, i, e)
  {
    hide LightAt;
    if from == end {
      assert Tiles(d, from, end, ser240, [from]);
    }
  }

  lemma NoChain(d: bytes, from: nat, end: nat, ser240: bool)
    requires from < end <= |d| && LightAt(d, from, end, ser240, 0).None?
    ensures forall i: nat, e :: !ElementIn(d, from, end, ser240, i, e)
    ensures forall i: nat :: !EndsBy(d, from, end, ser240, i)
  {
    hide LightAt;
    NoTiling(d, from, end, ser240);
  }

  lemma FirstElement(d: bytes, from: nat, end: nat, ser240: bool)
    requires from < end <= |d| && LightAt(d, from, end, ser240, 0).Some?
    ensures forall e ::
              ElementIn(d, from, end, ser240, 0, e) <==> e == (from, LightAt(d, from, end, ser240, 0).value.len)
    ensures !EndsBy(d, from, end, ser240, 0)
  {
    hide LightAt;
    var len := LightAt(d, from, end, ser240, 0).value.len;
    assert Chain(d, end, ser240, [from, from + len]);
    forall e | ElementIn(d, from, end, ser240, 0, e) ensures e == (from, len) {
      var o: seq<nat> :| Chain(d, end, ser240, o) && o[0] == from && |o| == 2 && e.0 == o[0] && e.0 + e.1 == o[1];
      ChainTail(d, end, ser240, o);
    }
    assert [from, from + len][0] == from && [from, from + len][1] == from + len;
    assert ElementIn(d, from, end, ser240, 0, (from, len));
  }

  lemma ElementShift(d: bytes, from: nat, end: nat, ser240: bool, i: nat)
    requires i > 0 && from < end <= |d| && LightAt(d, from, end, ser240, 0).Some?
    ensures var next := from + LightAt(d, from, end, ser240, 0).value.len;
            forall e :: ElementIn(d, from, end, ser240, i, e) <==> ElementIn(d, next, end, ser240, i - 1, e)
  {
    hide LightAt, ElementIn;
    var next := from + LightAt(d, from, end, ser240, 0).value.len;
    forall e ensures ElementIn(d, from, end, ser240, i, e) <==> ElementIn(d, next, end, ser240, i - 1, e) {
      if ElementIn(d, from, end, ser240, i, e) {
        ElementInTail(d, from, end, ser240, i, e);
      }
      if ElementIn(d, next, end, ser240, i - 1, e) {
        ElementInCons(d, from, end, ser240, i, e);
      }
    }
  }

  lemma ElementInTail(d: bytes, from: nat, end: nat, ser240: bool, i: nat, e: (nat, nat))
    requires i > 0 && end <= |d| && ElementIn(d, from, end, ser240, i, e)
    ensures from < end && LightAt(d, from, end, ser240, 0).Some?
    ensures ElementIn(d, from + LightAt(d, from, end, ser240, 0).value.len, end, ser240, i - 1, e)
  {
    hide LightAt, Chain;
    var o: seq<nat> :| |o| == i + 2 && Chain(d, end, ser240, o) && o[0] == from && e.0 == o[i] && e.0 + e.1 == o[i + 1];
    ChainTail(d, end, ser240, o);
    assert o[1..][0] == o[1] && o[1..][i - 1] == o[i] && o[1..][i - 1 + 1] == o[i + 1] && |o[1..]| == i - 1 + 2;
  }

  lemma ElementInCons(d: bytes, from: nat, end: nat, ser240: bool, i: nat, e: (nat, nat))
    requires i > 0 && from < end <= |d| && LightAt(d, from, end, ser240, 0).Some?
    requires ElementIn(d, from + LightAt(d, from, end, ser240, 0).value.len, end, ser240, i - 1, e)
    ensures ElementIn(d, from, end, ser240, i, e)
  {
    hide LightAt, Chain;
    var next := from + LightAt(d, from, end, ser240, 0).value.len;
    var o: seq<nat> :|
      |o| == i - 1 + 2 && Chain(d, end, ser240, o) && o[0] == next && e.0 == o[i - 1] && e.0 + e.1 == o[i - 1 + 1];
    ChainCons(d, end, ser240, from, o);
    assert ([from] + o)[i] == o[i - 1] && ([from] + o)[i + 1] == o[i];
  }

  /** Where the elements begin: behind an array header of one byte, or of two if the amendment is on. */
  function ElementsFrom(first: byte, rules: Rules): nat {
    if first / 16 != 15 then 0 else if first == 0xF0 && rules.fixHookApi20251128 then 2 else 1
  }

  function ElementsEnd(d: bytes): nat
    requires d != []
  {
    if d[0] / 16 != 15 then |d| else |d| - 1
  }

  /** An object, closed by the array end marker where it starts as an array, with room for an element. */
  ghost predicate ArrayLike(d: bytes, rules: Rules) {
    && |d| >= 2 && (d[0] / 16 == 15 ==> d[|d| - 1] == 0xF1)
    && (exists o: seq<nat> :: Tiles(d, 0, |d|, rules.ser240, o))
    && ElementsFrom(d[0], rules) < ElementsEnd(d)
  }

  /**
   * `sto_subarray` on any bytes. It answers exactly the `i`-th of the fields behind the header, for
   * indices below 1024; DOESNT_EXIST exactly where at most 1024 fields lie end to end up to the end
   * and there is no `i`-th; TOO_SMALL below two bytes; PARSE_ERROR for everything else.
   */
  lemma SubarrayIff(d: bytes, i: nat, rules: Rules)
    ensures forall e :: Subarray(d, i, rules) == Ok(e) <==>
              && ArrayLike(d, rules) && i < MAX_FIELDS
              && ElementIn(d, ElementsFrom(d[0], rules), ElementsEnd(d), rules.ser240, i, e)
    ensures Subarray(d, i, rules) == Err(DOESNT_EXIST) <==>
            && ArrayLike(d, rules)
            && EndsBy(d, ElementsFrom(d[0], rules), ElementsEnd(d), rules.ser240, i)
    ensures Subarray(d, i, rules) == Err(TOO_SMALL) <==> |d| < 2
    ensures Subarray(d, i, rules).Ok? || Subarray(d, i, rules).error in {DOESNT_EXIST, TOO_SMALL, PARSE_ERROR}
  {
    hide Nth, Validated, Tiles, ElementIn, EndsBy;
    ValidatedIff(d, rules.ser240);
    if |d| >= 2 && ElementsFrom(d[0], rules) < ElementsEnd(d) {
      var from, end, ser240 := ElementsFrom(d[0], rules), ElementsEnd(d), rules.ser240;
      NthIff(d, from, end, ser240, i, MAX_FIELDS);
      EndsByLimit(d, from, end, ser240, i);
      NthAnswers(d, from, end, ser240, i, MAX_FIELDS);
    }
  }

  lemma EndsByLimit(d: bytes, from: nat, end: nat, ser240: bool, i: nat)
    ensures EndsBy(d, from, end, ser240, i) <==>
            EndsBy(d, from, end, ser240, if i < MAX_FIELDS then i else MAX_FIELDS)
  {
  }

  lemma {:induction false} NthAnswers(d: bytes, from: nat, end: nat, ser240: bool, i: nat, n: nat)
    requires end <= |d|
    ensures var r := Nth(d, from, end, ser240, i, n); r.Ok? || r.error == DOESNT_EXIST || r.error == PARSE_ERROR
    decreases n
  {
    hide LightAt;
    if n > 0 && from < end && LightAt(d, from, end, ser240, 0).Some? && i > 0 {
      NthAnswers(d, from + LightAt(d, from, end, ser240, 0).value.len, end, ser240, i - 1, n - 1);
    }
  }
}
