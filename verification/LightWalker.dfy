/**
 * The light-weight walker (`get_stobject_length`) behind the sto_* host functions, with the
 * amendment fix20260929 on; `ser240` is featureHookAPISerializedType240. `LightAt` says what the
 * walker finds; the method drives the source's cursor and is proved to compute it. The lemmas
 * then say on which written trees it reports the tree's own extents.
 */
module LightWalker {
  import opened Bytes
  import opened Wrappers
  import opened FieldTree
  import opened FullWalker

  /** Lengths and offsets relative to the field's start, as the source reports them. */
  datatype Light = Light(len: nat, ty: byte, field: byte, payloadStart: nat, payloadLen: nat)

  const MAX_DEPTH := 10
  const MAX_CHILDREN := 1024

  function MaxType(ser240: bool): int {
    if ser240 then STI_CURRENCY else STI_VECTOR256
  }

  /** Types the light walker refuses before looking at the payload. */
  predicate Refused(ty: int, ser240: bool) {
    || ty < 1 || MaxType(ser240) < ty || 10 <= ty <= 13
    || ty == STI_NUMBER || ty == STI_UINT96 || ty == STI_UINT192 || ty == STI_UINT384 || ty == STI_UINT512
  }

  predicate IsVl(ty: int, ser240: bool) {
    ty == STI_ACCOUNT || ty == STI_VL || (ty == STI_PATHSET && !ser240) || ty == STI_VECTOR256
  }

  /** Header with the walker's own end checks; the length part of `Head` is 1, 2 or 3. */
  function LightHead(d: bytes, start: nat, end: nat): (h: Option<Head>)
    requires end <= |d|
    ensures h.Some? ==> 1 <= h.value.len <= 3 && start + h.value.len < end
  {
    if start + 1 >= end then None else
    var hi, lo := d[start] / 16, d[start] % 16;
    if hi > 0 && lo > 0 then Some(Head(hi, lo, 1))
    else if start + 2 >= end then None
    else if hi > 0 then Some(Head(hi, d[start + 1], 2))
    else if lo > 0 then Some(Head(d[start + 1], lo, 2))
    else if start + 3 >= end then None
    else Some(Head(d[start + 1], d[start + 2], 3))
  }

  /** Length prefix as this walker reads it: (payload length, prefix length). */
  function LightVl(d: bytes, at: nat, end: nat): Option<(nat, nat)>
    requires at < end <= |d|
  {
    var b1: int := d[at];
    if at + 1 >= end then None
    else if b1 < 193 then Some((b1, 1))
    else if b1 < 241 then Some(((b1 - 193) * 256 + 193 + d[at + 1] as int, 2))
    else if at + 3 >= end then None
    else Some(((b1 - 241) * 65536 + 12481 + d[at + 1] as int * 256 + d[at + 2] as int, 3))
  }

  /** Steps of one path from `p`; the result is the offset of the byte that ends the path. */
  function LightSteps(d: bytes, p: nat, end: nat): (r: Option<nat>)
    requires end <= |d|
    ensures r.Some? ==> p <= r.value < |d|
    decreases |d| - p
  {
    if p >= |d| then None
    else if NoStep(d[p]) then Some(p)
    else if !StepBits(d[p]) then None
    else
      var q := p + 1 + StepSize(d[p]);
      if q >= end then None
      else if d[q] == 0x00 || d[q] == 0xFF then Some(q)
      else LightSteps(d, q, end)
  }

  /** `b & 0x31 == 0` */
  predicate NoStep(b: byte) {
    b % 2 == 0 && b / 16 % 2 == 0 && b / 32 % 2 == 0
  }

  /** The path-set loop; the result is the offset after the 0x00 terminator. */
  function LightPaths(d: bytes, p: nat, end: nat): (r: Option<nat>)
    requires end <= |d|
    ensures r.Some? ==> p < r.value <= |d|
    decreases |d| - p
  {
    if p >= end then None else
    var q := LightSteps(d, p, end);
    if q.None? then None
    else if d[q.value] == 0xFF then LightPaths(d, q.value + 1, end)
    else if d[q.value] == 0x00 then Some(q.value + 1)
    else None
  }

  /** One issue: 20 bytes, or 40 when the currency is not all zero. */
  function LightIssue(d: bytes, at: nat, end: nat): Option<nat>
    requires at <= end <= |d|
  {
    if end - at < 20 then None
    else if AllZero(d[at..at + 20]) then Some(20) else Some(40)
  }

  /** One half of a bridge: a door account (empty or 20 bytes) and an issue. */
  function LightDoor(d: bytes, upto: nat, len: nat, end: nat): (r: Option<nat>)
    requires upto <= end <= |d|
    ensures r.Some? ==> r.value > len
  {
    if end - upto <= len then None
    else if d[upto + len] != 0 && d[upto + len] != 20 then None
    else
      var l := if d[upto + len] == 0 then len + 1 else len + 21;
      if end - upto < l + 20 then None
      else Some(l + (if AllZero(d[upto + l..upto + l + 20]) then 20 else 40))
  }

  function LightBridge(d: bytes, upto: nat, end: nat): Option<nat>
    requires upto <= end <= |d|
  {
    var first := LightDoor(d, upto, 0, end);
    if first.None? then None else LightDoor(d, upto, first.value, end)
  }

  /** Payload length of a type that is neither length-prefixed nor a container; `at < end`. */
  function LightWidth(d: bytes, ty: byte, at: nat, end: nat, ser240: bool): Option<nat>
    requires at < end <= |d|
  {
    match ty
    case 1 => Some(2)
    case 2 => Some(4)
    case 3 => Some(8)
    case 4 => Some(16)
    case 5 => Some(32)
    case 16 => Some(1)
    case 17 => Some(20)
    case 26 => Some(20)
    case 6 => if d[at] / 64 == 1 then Some(8) else Some(48)
    case 18 =>
      if !ser240 then None else
      var e := LightPaths(d, at, end);
      if e.None? then None else Some(e.value - at)
    case 24 => LightIssue(d, at, end)
    case 25 => LightBridge(d, at, end)
    case _ => None
  }

  /** Payload of a non-container: (prefix length, payload length), bounded by `end`. */
  function LightPayload(d: bytes, ty: byte, at: nat, end: nat, ser240: bool): (r: Option<(nat, nat)>)
    requires at < end <= |d|
    ensures r.Some? ==> at + r.value.0 + r.value.1 <= end
  {
    if IsVl(ty, ser240) then
      var v := LightVl(d, at, end);
      if v.None? || at + v.value.1 + v.value.0 > end then None else Some((v.value.1, v.value.0))
    else
      var w := LightWidth(d, ty, at, end, ser240);
      if w.None? || at + w.value > end then None else Some((0, w.value))
  }

  function LightAt(d: bytes, start: nat, end: nat, ser240: bool, depth: nat): (r: Option<Light>)
    requires end <= |d|
    ensures r.Some? ==> r.value.len > 0 && start + r.value.len <= end
    decreases MAX_DEPTH + 1 - depth, MAX_CHILDREN + 1
  {
    if depth > MAX_DEPTH then None else
    var h := LightHead(d, start, end);
    if h.None? || Refused(h.value.ty, ser240) then None else
    var at := start + h.value.len;
    if IsContainerType(h.value.ty) then
      Enclosing(h.value, start, LightChildren(d, at, end, ser240, depth, h.value.ty, MAX_CHILDREN))
    else
      Plain(h.value, LightPayload(d, h.value.ty, at, end, ser240))
  }

  function Enclosing(h: Head, start: nat, marker: Option<nat>): (r: Option<Light>)
    requires marker.Some? ==> start + h.len <= marker.value
    ensures r.Some? ==> marker.Some? && r.value.len == marker.value + 1 - start
  {
    if marker.None? then None
    else Some(Light(marker.value + 1 - start, h.ty, h.field, h.len, marker.value - start - h.len))
  }

  function Plain(h: Head, p: Option<(nat, nat)>): (r: Option<Light>)
    ensures r.Some? ==> p.Some? && r.value.len == h.len + p.value.0 + p.value.1
  {
    if p.None? then None
    else Some(Light(h.len + p.value.0 + p.value.1, h.ty, h.field, h.len + p.value.0, p.value.1))
  }

  /** Offset of the end marker, looked for only after each of at most `n` children. */
  function LightChildren(d: bytes, upto: nat, end: nat, ser240: bool, depth: nat, ty: byte, n: nat): (r: Option<nat>)
    requires end <= |d| && depth <= MAX_DEPTH && IsContainerType(ty) && n <= MAX_CHILDREN
    ensures r.Some? ==> upto < r.value < end
    decreases MAX_DEPTH + 1 - depth, n, end
  {
    if n == 0 then None else
    var sub := LightAt(d, upto, end, ser240, depth + 1);
    if sub.None? || upto + sub.value.len >= end then None
    else if d[upto + sub.value.len] == EndMarker(ty) then Some(upto + sub.value.len)
    else LightChildren(d, upto + sub.value.len, end, ser240, depth, ty, n - 1)
  }

  lemma ChildStep(d: bytes, upto: nat, end: nat, ser240: bool, depth: nat, ty: byte, n: nat)
    requires end <= |d| && depth <= MAX_DEPTH && IsContainerType(ty) && 0 < n <= MAX_CHILDREN
    ensures LightChildren(d, upto, end, ser240, depth, ty, n) ==
      (var sub := LightAt(d, upto, end, ser240, depth + 1);
       if sub.None? || upto + sub.value.len >= end then None
       else if d[upto + sub.value.len] == EndMarker(ty) then Some(upto + sub.value.len)
       else LightChildren(d, upto + sub.value.len, end, ser240, depth, ty, n - 1))
  {
  }

  lemma NoMoreChildren(d: bytes, upto: nat, end: nat, ser240: bool, depth: nat, ty: byte)
    requires end <= |d| && depth <= MAX_DEPTH && IsContainerType(ty)
    ensures LightChildren(d, upto, end, ser240, depth, ty, 0) == None
  {
  }

  lemma TooDeep(d: bytes, start: nat, end: nat, ser240: bool, depth: nat)
    requires end <= |d| && depth > MAX_DEPTH
    ensures LightAt(d, start, end, ser240, depth).None?
  {
  }

  lemma LeafStep(d: bytes, start: nat, end: nat, ser240: bool, depth: nat, h: Head)
    requires end <= |d| && depth <= MAX_DEPTH && LightHead(d, start, end) == Some(h) && !IsContainerType(h.ty)
    ensures LightAt(d, start, end, ser240, depth) ==
            if Refused(h.ty, ser240) then None else Plain(h, LightPayload(d, h.ty, start + h.len, end, ser240))
  {
    hide LightPayload, LightChildren;
  }

  lemma ContainerStep(d: bytes, start: nat, end: nat, ser240: bool, depth: nat, h: Head)
    requires end <= |d| && depth <= MAX_DEPTH && LightHead(d, start, end) == Some(h) && IsContainerType(h.ty)
    ensures LightAt(d, start, end, ser240, depth) ==
            Enclosing(h, start, LightChildren(d, start + h.len, end, ser240, depth, h.ty, MAX_CHILDREN))
  {
  }

  // ---- the walker itself ----

  method WalkSteps(d: bytes, upto: nat, end: nat) returns (r: Option<nat>)
    requires end <= |d| && upto < |d|
    ensures r == LightSteps(d, upto, end)
  {
    var p := upto;
    while true
      invariant p < |d| && LightSteps(d, upto, end) == LightSteps(d, p, end)
      decreases |d| - p
    {
      var flag := d[p];
      if NoStep(flag) {
        return Some(p);
      }
      if !StepBits(flag) {
        return None;
      }
      var q := p + 1;
      if flag % 2 != 0 { q := q + 20; }
      if flag / 16 % 2 != 0 { q := q + 20; }
      if flag / 32 % 2 != 0 { q := q + 20; }
      assert q == p + 1 + StepSize(flag);
      if q >= end {
        return None;
      }
      if d[q] == 0x00 || d[q] == 0xFF {
        return Some(q);
      }
      p := q;
    }
  }

  method WalkPaths(d: bytes, upto: nat, end: nat) returns (r: Option<nat>)
    requires upto < end <= |d|
    ensures r == LightPaths(d, upto, end)
  {
    var p := upto;
    while p < end
      invariant LightPaths(d, upto, end) == LightPaths(d, p, end)
      decreases |d| - p
    {
      var q := WalkSteps(d, p, end);
      if q.None? {
        return None;
      }
      var last := d[q.value];
      p := q.value + 1;
      if last == 0xFF {
        continue;
      } else if last == 0x00 {
        return Some(p);
      } else {
        return None;
      }
    }
    return None;
  }

  method WalkBridge(d: bytes, upto: nat, end: nat) returns (r: Option<nat>)
    requires upto <= end <= |d|
    ensures r == LightBridge(d, upto, end)
  {
    var len := 0;
    for i := 0 to 2
      invariant i == 1 ==> LightDoor(d, upto, 0, end) == Some(len)
      invariant i == 0 ==> len == 0
      invariant i == 2 ==> LightBridge(d, upto, end) == Some(len)
    {
      var step := LightDoor(d, upto, len, end);
      if step.None? {
        return None;
      }
      len := step.value;
    }
    return Some(len);
  }

  method WalkPayload(d: bytes, ty: byte, at: nat, end: nat, ser240: bool) returns (r: Option<(nat, nat)>)
    requires at < end <= |d|
    ensures r == LightPayload(d, ty, at, end, ser240)
  {
    var upto := at;
    var length: nat;
    if IsVl(ty, ser240) {
      var v := LightVl(d, upto, end);
      if v.None? {
        return None;
      }
      length := v.value.0;
      upto := upto + v.value.1;
    } else {
      var w: Option<nat>;
      if ty == STI_PATHSET {
        w := WalkPaths(d, upto, end);
        w := if w.None? then None else Some(w.value - upto);
      } else if ty == STI_XCHAIN_BRIDGE {
        w := WalkBridge(d, upto, end);
      } else {
        w := LightWidth(d, ty, upto, end, ser240);
      }
      if w.None? {
        return None;
      }
      length := w.value;
    }
    if upto + length > end {
      return None;
    }
    return Some((upto - at, length));
  }

  method WalkChildren(d: bytes, from: nat, end: nat, ser240: bool, depth: nat, ty: byte) returns (r: Option<nat>)
    requires end <= |d| && depth <= MAX_DEPTH && IsContainerType(ty)
    ensures r == LightChildren(d, from, end, ser240, depth, ty, MAX_CHILDREN)
    decreases MAX_DEPTH + 1 - depth, 0
  {
    hide LightAt, LightChildren;
    var upto: nat := from;
    ghost var found := LightChildren(d, from, end, ser240, depth, ty, MAX_CHILDREN);
    for i := 0 to MAX_CHILDREN
      invariant found == LightChildren(d, upto, end, ser240, depth, ty, MAX_CHILDREN - i)
    {
      var sub := GetStobjectLength(d, upto, end, ser240, depth + 1);
      ChildStep(d, upto, end, ser240, depth, ty, MAX_CHILDREN - i);
      if sub.None? {
        return None;
      }
      upto := upto + sub.value.len;
      if upto >= end {
        return None;
      }
      if d[upto] == EndMarker(ty) {
        return Some(upto);
      }
    }
    NoMoreChildren(d, upto, end, ser240, depth, ty);
    return None;
  }

  method GetStobjectLength(d: bytes, start: nat, end: nat, ser240: bool, depth: nat) returns (r: Option<Light>)
    requires end <= |d|
    ensures r == LightAt(d, start, end, ser240, depth)
    decreases MAX_DEPTH + 1 - depth, 1
  {
    if depth > MAX_DEPTH {
      return None;
    }
    var h := LightHead(d, start, end);
    if h.None? || Refused(h.value.ty, ser240) {
      return None;
    }
    var ty := h.value.ty;
    var upto := start + h.value.len;
    if IsContainerType(ty) {
      var marker := WalkChildren(d, upto, end, ser240, depth, ty);
      return Enclosing(h.value, start, marker);
    } else {
      var p := WalkPayload(d, ty, upto, end, ser240);
      return Plain(h.value, p);
    }
  }
}
