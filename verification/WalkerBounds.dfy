/**
 * What the full walker's `end` is worth. It does read headers, lengths, issues and path sets past
 * `end` before it compares; but no byte from `end` on ever has a say in what it answers.
 */
module WalkerBounds {
  import opened Arithmetic
  import opened Bytes
  import opened Wrappers
  import opened FieldTree
  import opened FullWalker

  /** An offset, if it is found and lies within the end. */
  function UpTo(r: Option<nat>, end: nat): Option<nat> {
    if r.Some? && r.value <= end then r else None
  }

  lemma HeaderWithin(d: bytes, at: nat, end: nat)
    requires end <= |d|
    ensures var h, k := DecodeHeader(d, at), DecodeHeader(d[..end], at);
            && (k.Some? ==> k == h && at + k.value.len <= end)
            && (h.Some? && at + h.value.len <= end ==> k == h)
  {
  }

  lemma {:induction false} PathsWithin(d: bytes, p: nat, end: nat)
    requires end <= |d|
    ensures UpTo(PathsEnd(d, p), end) == PathsEnd(d[..end], p)
    decreases |d| - p
  {
    if p < end {
      if d[p] == 0xFF {
        PathsWithin(d, p + 1, end);
      } else if d[p] != 0x00 && StepBits(d[p]) {
        PathsWithin(d, p + 1 + StepSize(d[p]), end);
      }
    }
  }

  lemma StopWithin(d: bytes, ty: byte, body: nat, end: nat)
    requires end <= |d|
    ensures UpTo(SimpleStop(d, ty, body), end) == UpTo(SimpleStop(d[..end], ty, body), end)
  {
    hide StepBits, StepSize;
    PathsWithin(d, body, end);
    if ty == STI_ISSUE && body + 20 <= end {
      assert d[..end][body..body + 20] == d[body..body + 20];
    }
  }

  /** The field at an offset, or that there is none, is decided by the bytes before `end` alone. */
  lemma {:induction false} FieldWithin(d: bytes, at: nat, end: nat)
    requires at <= end <= |d|
    ensures FieldAt(d[..end], at, end) == FieldAt(d, at, end)
    decreases end - at, 0
  {
    hide DecodeHeader, SimpleStop;
    HeaderWithin(d, at, end);
    var h := DecodeHeader(d, at);
    if h.Some? && at + h.value.len <= end {
      if IsContainerType(h.value.ty) {
        ChildrenWithin(d, at + h.value.len, end, EndMarker(h.value.ty));
      } else {
        StopWithin(d, h.value.ty, at + h.value.len, end);
      }
    }
  }

  lemma {:induction false} ChildrenWithin(d: bytes, p: nat, end: nat, marker: byte)
    requires end <= |d|
    ensures ChildrenEnd(d[..end], p, end, marker) == ChildrenEnd(d, p, end, marker)
    decreases end - p, 1
  {
    hide FieldAt;
    if p < end && d[p] != marker {
      FieldWithin(d, p, end);
      if FieldAt(d, p, end).Some? {
        ChildrenWithin(d, FieldAt(d, p, end).value.end, end, marker);
      }
    }
  }

  /** And so are all the fields of a range. */
  lemma {:induction false} FieldsWithin(d: bytes, p: nat, end: nat)
    requires p <= end <= |d|
    ensures FieldsIn(d[..end], p, end) == FieldsIn(d, p, end)
    decreases end - p
  {
    hide FieldAt;
    if p < end {
      FieldWithin(d, p, end);
      if FieldAt(d, p, end).Some? {
        FieldsWithin(d, FieldAt(d, p, end).value.end, end);
      }
    }
  }

  /** Two buffers that agree before `end` hold the same fields there. */
  lemma OnlyBytesBeforeEndDecide(d: bytes, e: bytes, p: nat, end: nat)
    requires p <= end <= |d| && end <= |e| && d[..end] == e[..end]
    ensures FieldAt(d, p, end) == FieldAt(e, p, end) && FieldsIn(d, p, end) == FieldsIn(e, p, end)
  {
    hide FieldAt, FieldsIn;
    FieldWithin(d, p, end);
    FieldWithin(e, p, end);
    FieldsWithin(d, p, end);
    FieldsWithin(e, p, end);
  }

  /**
   * The reading past `end` is real: with one byte before `end`, the second byte of a two-byte header,
   * the second length byte of a blob, a whole currency and a path set are fetched from behind it.
   */
  lemma ReadsPastEnd()
    ensures DecodeHeader([0x10, 0x02], 0) == Some(Head(1, 2, 2)) && DecodeHeader([0x10, 0x02][..1], 0) == None
    ensures VlLen([0xC1, 0x00], 0) == Some((193, 2)) && VlLen([0xC1, 0x00][..1], 0) == None
    ensures PathsEnd([0xFF, 0x00], 0) == Some(2) && PathsEnd([0xFF, 0x00][..1], 0) == None
    ensures SimpleStop(Zeros(20), STI_ISSUE, 0) == Some(20) && SimpleStop(Zeros(20)[..1], STI_ISSUE, 0) == None
    ensures FieldAt([0x10, 0x02], 0, 1) == None
  {
    assert PathsEnd([0xFF, 0x00], 1) == Some(2);
    assert Zeros(20)[0..20] == Zeros(20);
  }

  // ---- how far a call reads ----

  /** One past the last byte that `decode_header` fetches; a fetch behind the buffer fails and reads nothing. */
  function HeaderReach(d: bytes, at: nat): nat {
    if at >= |d| then 0
    else if (d[at] / 16 > 0 && d[at] % 16 > 0) || at + 1 >= |d| then at + 1
    else if d[at] > 0 || at + 2 >= |d| then at + 2
    else at + 3
  }

  /** The same for `vl_len`. */
  function VlReach(d: bytes, at: nat): nat {
    if at >= |d| then 0
    else if d[at] <= 192 || d[at] == 255 || at + 1 >= |d| then at + 1
    else if d[at] <= 240 || at + 2 >= |d| then at + 2
    else at + 3
  }

  /** The same for the path-set loop: flag bytes are fetched, the parts of a step are not. */
  function PathsReach(d: bytes, p: nat): nat
    decreases |d| - p
  {
    if p >= |d| then 0
    else if d[p] == 0xFF then Max(p + 1, PathsReach(d, p + 1))
    else if d[p] != 0x00 && StepBits(d[p]) then Max(p + 1, PathsReach(d, p + 1 + StepSize(d[p])))
    else p + 1
  }

  /** The same for what follows the header of a field that is not a container. */
  function StopReach(d: bytes, ty: byte, body: nat): nat {
    if ty == STI_AMOUNT then (if body < |d| then body + 1 else 0)
    else if IsBlobType(ty) then VlReach(d, body)
    else if ty == STI_ISSUE then (if body + 20 <= |d| then body + 20 else 0)
    else if ty == STI_PATHSET then PathsReach(d, body)
    else 0
  }

  /** One past the last byte that `parse_field` fetches. */
  function FieldReach(d: bytes, at: nat, end: nat): nat
    requires at <= end <= |d|
    decreases end - at, 0
  {
    var h := DecodeHeader(d, at);
    if h.None? then HeaderReach(d, at) else
    var body := at + h.value.len;
    Max(HeaderReach(d, at), if IsContainerType(h.value.ty) then ChildrenReach(d, body, end, EndMarker(h.value.ty))
                            else StopReach(d, h.value.ty, body))
  }

  function ChildrenReach(d: bytes, p: nat, end: nat, marker: byte): nat
    requires end <= |d|
    decreases end - p, 1
  {
    if p >= end then 0
    else if d[p] == marker then p + 1
    else
      var f := FieldAt(d, p, end);
      Max(FieldReach(d, p, end), if f.None? then 0 else ChildrenReach(d, f.value.end, end, marker))
  }

  lemma {:induction false} PathsReachStop(d: bytes, p: nat, end: nat)
    requires PathsReach(d, p) > end
    ensures PathsEnd(d, p).Some? ==> PathsEnd(d, p).value > end
    decreases |d| - p
  {
    hide StepSize, StepBits;
    if d[p] == 0xFF {
      if p + 1 <= end {
        PathsReachStop(d, p + 1, end);
      }
    } else if d[p] != 0x00 && StepBits(d[p]) && p + 1 <= end {
      PathsReachStop(d, p + 1 + StepSize(d[p]), end);
    }
  }

  /** A call that fetches a byte from `end` on, at whatever depth, answers that there is no field. */
  lemma {:induction false} ReachPastEndFails(d: bytes, at: nat, end: nat)
    requires at <= end <= |d| && FieldReach(d, at, end) > end
    ensures FieldAt(d, at, end) == None
    decreases end - at, 0
  {
    hide PathsReach, PathsEnd;
    var h := DecodeHeader(d, at);
    if h.Some? && at + h.value.len <= end {
      var body := at + h.value.len;
      if IsContainerType(h.value.ty) {
        ChildrenReachPastEndFails(d, body, end, EndMarker(h.value.ty));
      } else if h.value.ty == STI_PATHSET {
        PathsReachStop(d, body, end);
      }
    }
  }

  lemma {:induction false} ChildrenReachPastEndFails(d: bytes, p: nat, end: nat, marker: byte)
    requires end <= |d| && ChildrenReach(d, p, end, marker) > end
    ensures ChildrenEnd(d, p, end, marker) == None
    decreases end - p, 1
  {
    hide FieldAt, FieldReach;
    if p < end && d[p] != marker {
      if FieldReach(d, p, end) > end {
        ReachPastEndFails(d, p, end);
      } else if FieldAt(d, p, end).Some? {
        ChildrenReachPastEndFails(d, FieldAt(d, p, end).value.end, end, marker);
      }
    }
  }

  lemma {:induction false} PathsReachExact(d: bytes, p: nat, e: nat)
    requires e <= |d| && PathsEnd(d, p).Some?
    ensures PathsReach(d, p) <= e <==> PathsEnd(d[..e], p) == PathsEnd(d, p)
    ensures PathsReach(d, p) > p
    decreases |d| - p
  {
    hide StepSize, StepBits;
    if d[p] == 0xFF {
      PathsReachExact(d, p + 1, e);
    } else if d[p] != 0x00 {
      PathsReachExact(d, p + 1 + StepSize(d[p]), e);
    }
  }

  /**
   * For a leaf that decodes, the reach is exact: the first `e` bytes are enough to find its header and
   * its end exactly when nothing is fetched behind them. So `end` is overrun exactly when the header,
   * the first amount byte, the length prefix, the currency of an issue or the flag bytes of a path set
   * go past it.
   */
  lemma LeafReachExact(d: bytes, at: nat, e: nat)
    requires at <= e <= |d| && DecodeHeader(d, at).Some? && !IsContainerType(DecodeHeader(d, at).value.ty)
    requires var h := DecodeHeader(d, at).value; SimpleStop(d, h.ty, at + h.len).Some?
    ensures var h := DecodeHeader(d, at);
            FieldReach(d, at, e) <= e <==>
            && DecodeHeader(d[..e], at) == h
            && SimpleStop(d[..e], h.value.ty, at + h.value.len) == SimpleStop(d, h.value.ty, at + h.value.len)
  {
    hide PathsReach, PathsEnd;
    var h := DecodeHeader(d, at).value;
    var body := at + h.len;
    if h.ty == STI_PATHSET {
      PathsReachExact(d, body, e);
    }
    if h.ty == STI_ISSUE && body + 20 <= e {
      assert d[..e][body..body + 20] == d[body..body + 20];
    }
  }
}
