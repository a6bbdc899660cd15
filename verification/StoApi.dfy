/**
 * `sto_validate`, `sto_subfield` and `sto_subarray`: loops over the light walker. Each loop has a
 * function that says what it answers, and a lemma that says it on written lists of fields.
 */
module StoApi {
  import opened Bytes
  import opened Wrappers
  import opened ReturnCodes
  import opened FieldTree
  import opened LightWalker
  import opened WalkerAgreement

  /** Amendment switches that still vary; fix20260929 is on throughout. */
  datatype Rules = Rules(ser240: bool, fixHookApi20251128: bool, fix20261005: bool)

  const MAX_FIELDS := 1024

  /** Offset reached after at most `n` fields, or None when one of them cannot be read. */
  function Walked(d: bytes, upto: nat, end: nat, ser240: bool, n: nat): Option<nat>
    requires end <= |d|
    decreases n, end
  {
    if n == 0 || upto >= end then Some(upto) else
    var l := LightAt(d, upto, end, ser240, 0);
    if l.None? then None else Walked(d, upto + l.value.len, end, ser240, n - 1)
  }

  function Validated(d: bytes, ser240: bool): bool {
    Walked(d, 0, |d|, ser240, MAX_FIELDS) == Some(|d|)
  }

  function FieldCode(l: Light): nat {
    l.ty * 65536 + l.field
  }

  /** What a matching field answers: arrays whole, everything else its payload. */
  function Extent(l: Light, upto: nat): (nat, nat) {
    if l.ty == STI_ARRAY then (upto, l.len) else (upto + l.payloadStart, l.payloadLen)
  }

  function Exhausted(upto: nat, end: nat): int {
    if upto != end then PARSE_ERROR else DOESNT_EXIST
  }

  function Find(d: bytes, upto: nat, end: nat, ser240: bool, fid: nat, n: nat): Result<(nat, nat), int>
    requires end <= |d|
    decreases n, end
  {
    if n == 0 || upto >= end then Err(Exhausted(upto, end)) else
    var l := LightAt(d, upto, end, ser240, 0);
    if l.None? then Err(PARSE_ERROR)
    else if FieldCode(l.value) == fid then Ok(Extent(l.value, upto))
    else Find(d, upto + l.value.len, end, ser240, fid, n - 1)
  }

  /** Element `i` of the fields from `upto`, or the reason there is none. */
  function Nth(d: bytes, upto: nat, end: nat, ser240: bool, i: nat, n: nat): Result<(nat, nat), int>
    requires end <= |d|
    decreases n, end
  {
    if n == 0 || upto >= end then Err(Exhausted(upto, end)) else
    var l := LightAt(d, upto, end, ser240, 0);
    if l.None? then Err(PARSE_ERROR)
    else if i == 0 then Ok((upto, l.value.len))
    else Nth(d, upto + l.value.len, end, ser240, i - 1, n - 1)
  }

  function Subfield(d: bytes, fid: nat, rules: Rules): Result<(nat, nat), int> {
    if |d| < 2 then Err(TOO_SMALL)
    else if !Validated(d, rules.ser240) then Err(PARSE_ERROR)
    else Find(d, 0, |d|, rules.ser240, fid, MAX_FIELDS)
  }

  /** Bytes of a leading array header that are skipped. */
  function Unwrap(b: byte, rules: Rules): nat {
    if b < 0xF0 then 0 else if rules.fixHookApi20251128 && b == 0xF0 then 2 else 1
  }

  function Subarray(d: bytes, i: nat, rules: Rules): Result<(nat, nat), int> {
    if |d| < 2 then Err(TOO_SMALL)
    else if (d[0] >= 0xF0 && d[|d| - 1] != ARRAY_END) || !Validated(d, rules.ser240) then Err(PARSE_ERROR)
    else
      var upto := Unwrap(d[0], rules);
      var end := if upto > 0 then |d| - 1 else |d|;
      if upto >= end then Err(PARSE_ERROR) else Nth(d, upto, end, rules.ser240, i, MAX_FIELDS)
  }

  // ---- the host functions ----

  method StoValidate(d: bytes, rules: Rules) returns (r: Result<bool, int>)
    ensures r == if |d| >= 2 then Ok(Validated(d, rules.ser240))
                 else if rules.fix20261005 then Ok(false) else Err(TOO_SMALL)
  {
    hide LightAt;
    if |d| < 2 {
      return if rules.fix20261005 then Ok(false) else Err(TOO_SMALL);
    }
    var end, ser240 := |d|, rules.ser240;
    var upto: nat, i := 0, 0;
    ghost var walked := Walked(d, 0, end, ser240, MAX_FIELDS);
    while i < MAX_FIELDS && upto < end
      invariant i <= MAX_FIELDS && walked == Walked(d, upto, end, ser240, MAX_FIELDS - i)
    {
      var l := GetStobjectLength(d, upto, end, ser240, 0);
      if l.None? {
        return Ok(false);
      }
      upto := upto + l.value.len;
      i := i + 1;
    }
    return Ok(upto == end);
  }

  method StoSubfield(d: bytes, fid: nat, rules: Rules) returns (r: Result<(nat, nat), int>)
    ensures r == Subfield(d, fid, rules)
  {
    hide LightAt;
    if |d| < 2 {
      return Err(TOO_SMALL);
    }
    var v := StoValidate(d, rules);
    if v != Ok(true) {
      return Err(PARSE_ERROR);
    }
    var end, ser240 := |d|, rules.ser240;
    var upto: nat, i := 0, 0;
    ghost var found := Find(d, 0, end, ser240, fid, MAX_FIELDS);
    while i < MAX_FIELDS && upto < end
      invariant i <= MAX_FIELDS && found == Find(d, upto, end, ser240, fid, MAX_FIELDS - i)
    {
      var l := GetStobjectLength(d, upto, end, ser240, 0);
      if l.None? {
        return Err(PARSE_ERROR);
      }
      if FieldCode(l.value) == fid {
        if l.value.ty == STI_ARRAY {
          return Ok((upto, l.value.len));
        }
        return Ok((upto + l.value.payloadStart, l.value.payloadLen));
      }
      upto := upto + l.value.len;
      i := i + 1;
    }
    return Err(if upto != end then PARSE_ERROR else DOESNT_EXIST);
  }

  method StoSubarray(d: bytes, index: nat, rules: Rules) returns (r: Result<(nat, nat), int>)
    ensures r == Subarray(d, index, rules)
  {
    hide LightAt;
    if |d| < 2 {
      return Err(TOO_SMALL);
    }
    var upto: nat, end: nat := 0, |d|;
    if d[upto] >= 0xF0 && d[end - 1] != ARRAY_END {
      return Err(PARSE_ERROR);
    }
    var v := StoValidate(d, rules);
    if v != Ok(true) {
      return Err(PARSE_ERROR);
    }
    if d[upto] >= 0xF0 {
      upto := if rules.fixHookApi20251128 && d[upto] == 0xF0 then 2 else 1;
      end := end - 1;
    }
    if upto >= end {
      return Err(PARSE_ERROR);
    }
    var ser240 := rules.ser240;
    ghost var found := Nth(d, upto, end, ser240, index, MAX_FIELDS);
    var i := 0;
    while i < MAX_FIELDS && upto < end
      invariant i <= MAX_FIELDS && i <= index
      invariant found == Nth(d, upto, end, ser240, index - i, MAX_FIELDS - i)
    {
      var l := GetStobjectLength(d, upto, end, ser240, 0);
      if l.None? {
        return Err(PARSE_ERROR);
      }
      if i == index {
        return Ok((upto, l.value.len));
      }
      upto := upto + l.value.len;
      i := i + 1;
    }
    return Err(if upto != end then PARSE_ERROR else DOESNT_EXIST);
  }

  // ---- on written lists of fields ----

  /** Lists the light walker reads in step with the tree when nothing follows them. */
  predicate Walkers(fs: seq<Field>, ser240: bool) {
    && ValidAll(fs) && LightShapeAll(fs, ser240) && HeightAll(fs) <= MAX_DEPTH
    && (fs != [] ==> !EmptyBlob(fs[|fs| - 1]))
  }

  function CodeOf(f: Field): nat {
    f.Ty() * 65536 + f.code
  }

  lemma FirstField(fs: seq<Field>, d: bytes, at: nat, end: nat, ser240: bool)
    requires fs != [] && Walkers(fs, ser240) && At(d, at, SerAll(fs)) && end == at + |SerAll(fs)|
    ensures LightAt(d, at, end, ser240, 0) == Some(LightOf(fs[0]))
    ensures Walkers(fs[1..], ser240) && ValidAll(fs[1..]) && Valid(fs[0])
    ensures at < at + |Ser(fs[0])| && end == at + |Ser(fs[0])| + |SerAll(fs[1..])|
    ensures At(d, at + |Ser(fs[0])|, SerAll(fs[1..]))
  {
    hide LightAt;
    AtSplit(d, at, Ser(fs[0]), SerAll(fs[1..]));
    assert fs[1..] != [] ==> |SerAll(fs[1..])| > 0 && fs[1..][|fs[1..]| - 1] == fs[|fs| - 1];
    LightAfterPrint(fs[0], d, at, end, ser240, 0);
  }

  lemma NoField(fs: seq<Field>, ser240: bool)
    requires Walkers(fs, ser240)
    ensures ValidAll(fs) && (SerAll(fs) == [] <==> fs == [])
  {
    hide Valid;
  }

  lemma {:induction false} ListWalked(fs: seq<Field>, d: bytes, at: nat, end: nat, ser240: bool, n: nat)
    requires Walkers(fs, ser240) && At(d, at, SerAll(fs)) && |fs| <= n && end == at + |SerAll(fs)|
    ensures Walked(d, at, end, ser240, n) == Some(end)
    decreases |fs|
  {
    hide LightAt, Ser, SerAll, At, Valid, LightShape, Walkers;
    NoField(fs, ser240);
    if fs != [] {
      FirstField(fs, d, at, end, ser240);
      ListWalked(fs[1..], d, at + |Ser(fs[0])|, end, ser240, n - 1);
    }
  }

  /** Where element `k` of the list begins. */
  function Offset(fs: seq<Field>, at: nat, k: nat): (o: nat)
    requires ValidAll(fs) && k <= |fs|
  {
    if k == 0 then at else Offset(fs[1..], at + |Ser(fs[0])|, k - 1)
  }

  lemma {:induction false} OffsetIs(fs: seq<Field>, at: nat, k: nat)
    requires ValidAll(fs) && k <= |fs|
    ensures ValidAll(fs[..k]) && Offset(fs, at, k) == at + |SerAll(fs[..k])|
    ensures k < |fs| ==> Valid(fs[k])
  {
    if k == 0 {
      assert fs[..0] == [];
    } else {
      OffsetIs(fs[1..], at + |Ser(fs[0])|, k - 1);
      assert fs[..k][1..] == fs[1..][..k - 1] && fs[..k][0] == fs[0];
      SerAllCons(fs[..k]);
    }
  }

  /** The first field with the code is found, at its own offset; without one the answer is DOESNT_EXIST. */
  lemma {:induction false} ListFind(fs: seq<Field>, d: bytes, at: nat, end: nat, ser240: bool, fid: nat, n: nat, j: nat)
    requires Walkers(fs, ser240) && At(d, at, SerAll(fs)) && |fs| <= n && end == at + |SerAll(fs)|
    requires j <= |fs| && (forall k :: 0 <= k < j ==> CodeOf(fs[k]) != fid) && (j < |fs| ==> CodeOf(fs[j]) == fid)
    ensures j < |fs| ==> Valid(fs[j])
    ensures Find(d, at, end, ser240, fid, n) ==
            if j < |fs| then Ok(Extent(LightOf(fs[j]), Offset(fs, at, j))) else Err(DOESNT_EXIST)
    decreases |fs|
  {
    hide LightAt, Ser, SerAll, At, Valid, LightShape, Walkers;
    NoField(fs, ser240);
    if fs != [] {
      FirstField(fs, d, at, end, ser240);
      if j > 0 {
        forall k | 0 <= k < j - 1 ensures CodeOf(fs[1..][k]) != fid {
          assert fs[1..][k] == fs[k + 1];
        }
        ListFind(fs[1..], d, at + |Ser(fs[0])|, end, ser240, fid, n - 1, j - 1);
        assert CodeOf(fs[0]) != fid;
      }
    }
  }

  /** Element `i` is found at its own offset; from the length on the answer is DOESNT_EXIST. */
  lemma {:induction false} ListNth(fs: seq<Field>, d: bytes, at: nat, end: nat, ser240: bool, i: nat, n: nat)
    requires Walkers(fs, ser240) && At(d, at, SerAll(fs)) && |fs| <= n && end == at + |SerAll(fs)|
    ensures i < |fs| ==> Valid(fs[i])
    ensures Nth(d, at, end, ser240, i, n) ==
            if i < |fs| then Ok((Offset(fs, at, i), |Ser(fs[i])|)) else Err(DOESNT_EXIST)
    decreases |fs|
  {
    hide LightAt, Ser, SerAll, At, Valid, LightShape, Walkers;
    NoField(fs, ser240);
    if fs != [] {
      FirstField(fs, d, at, end, ser240);
      if i > 0 {
        ListNth(fs[1..], d, at + |Ser(fs[0])|, end, ser240, i - 1, n - 1);
      }
    }
  }
}
