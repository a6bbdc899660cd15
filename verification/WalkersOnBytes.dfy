/**
 * The two walkers on arbitrary bytes, written by the tree's serializer or not: headers of any length,
 * trailing data, damaged fields. Along the light walker's own walk the places where they part are
 * named one by one; away from these the full walker accepts whatever the light walker accepts, with
 * the same type, code and end.
 */
module WalkersOnBytes {
  import opened Bytes
  import opened Wrappers
  import opened FieldTree
  import opened FullWalker
  import opened LightWalker

  /** Where a leaf is read alike: none of the four differences between the two applies. */
  predicate SteadyLeaf(d: bytes, ty: byte, at: nat, ser240: bool)
    requires at < |d|
  {
    && (ty == STI_AMOUNT ==> d[at] >= 64)      // the native-amount test
    && (IsBlobType(ty) ==> d[at] != 255)       // the length byte 0xFF
    && (ty == STI_PATHSET ==> ser240)          // a path set read as a blob
    && ty != STI_XCHAIN_BRIDGE                 // a type only the light walker knows
  }

  /** No difference along the walk: steady leaves, and no container that begins with its own end marker. */
  predicate Steady(d: bytes, start: nat, end: nat, ser240: bool, depth: nat)
    requires end <= |d|
    decreases MAX_DEPTH + 1 - depth, MAX_CHILDREN + 1
  {
    depth <= MAX_DEPTH && LightHead(d, start, end).Some? &&
    var h := LightHead(d, start, end).value;
    var at := start + h.len;
    if IsContainerType(h.ty) then
      d[at] != EndMarker(h.ty) && SteadyChildren(d, at, end, ser240, depth, h.ty, MAX_CHILDREN)
    else SteadyLeaf(d, h.ty, at, ser240)
  }

  predicate SteadyChildren(d: bytes, upto: nat, end: nat, ser240: bool, depth: nat, ty: byte, n: nat)
    requires end <= |d| && depth <= MAX_DEPTH && IsContainerType(ty) && n <= MAX_CHILDREN
    decreases MAX_DEPTH + 1 - depth, n, end
  {
    n > 0 && Steady(d, upto, end, ser240, depth + 1) &&
    var sub := LightAt(d, upto, end, ser240, depth + 1);
    sub.Some? && upto + sub.value.len < end &&
    (d[upto + sub.value.len] == EndMarker(ty) || SteadyChildren(d, upto + sub.value.len, end, ser240, depth, ty, n - 1))
  }

  lemma SameHead(d: bytes, start: nat, end: nat)
    requires end <= |d| && LightHead(d, start, end).Some?
    ensures DecodeHeader(d, start) == LightHead(d, start, end)
  {
  }

  /** A path the light walker steps through is stepped through alike, up to the byte that ends it. */
  lemma {:induction false} StepsOnBytes(d: bytes, p: nat, end: nat)
    requires end <= |d| && LightSteps(d, p, end).Some?
    ensures PathsEnd(d, p) == PathsEnd(d, LightSteps(d, p, end).value)
    decreases |d| - p
  {
    hide StepSize, NoStep, StepBits;
    if !NoStep(d[p]) {
      StepFlagByte(d[p]);
      var q := p + 1 + StepSize(d[p]);
      if d[q] != 0x00 && d[q] != 0xFF {
        StepsOnBytes(d, q, end);
      }
    }
  }

  lemma StepFlagByte(b: byte)
    ensures StepBits(b) ==> b != 0xFF
    ensures !NoStep(b) ==> b != 0x00
  {
  }

  /** A path set that the light walker reads to its end ends there for the full walker too. */
  lemma {:induction false} PathsOnBytes(d: bytes, p: nat, end: nat)
    requires end <= |d| && LightPaths(d, p, end).Some?
    ensures PathsEnd(d, p) == LightPaths(d, p, end)
    decreases |d| - p
  {
    hide LightSteps;
    var q := LightSteps(d, p, end).value;
    StepsOnBytes(d, p, end);
    if d[q] == 0xFF {
      PathsOnBytes(d, q + 1, end);
    }
  }

  /** A leaf that the light walker accepts ends where the full walker says, if it is steady. */
  lemma LeafOnBytes(d: bytes, ty: byte, at: nat, end: nat, ser240: bool)
    requires at < end <= |d| && !IsContainerType(ty) && !Refused(ty, ser240)
    requires LightPayload(d, ty, at, end, ser240).Some? && SteadyLeaf(d, ty, at, ser240)
    ensures var (a, n) := LightPayload(d, ty, at, end, ser240).value; SimpleStop(d, ty, at) == Some(at + a + n)
  {
    hide LightPaths, PathsEnd, LightBridge;
    if ty == STI_PATHSET {
      PathsOnBytes(d, at, end);
    }
  }

  /** And only then, apart from a path set read as a blob: each of the other differences does part them. */
  lemma UnsteadyLeafDiffers(d: bytes, ty: byte, at: nat, end: nat, ser240: bool)
    requires at < end <= |d| && !IsContainerType(ty) && !Refused(ty, ser240) && ty != STI_PATHSET
    requires LightPayload(d, ty, at, end, ser240).Some? && !SteadyLeaf(d, ty, at, ser240)
    ensures var (a, n) := LightPayload(d, ty, at, end, ser240).value; SimpleStop(d, ty, at) != Some(at + a + n)
  {
    hide LightBridge;
  }

  /** An empty or self-ended container: the full walker stops at the marker that the light walker takes for a child. */
  lemma SelfEndedDiffers(d: bytes, start: nat, end: nat, ser240: bool, depth: nat)
    requires end <= |d| && LightAt(d, start, end, ser240, depth).Some?
    requires var h := LightHead(d, start, end).value; IsContainerType(h.ty) && d[start + h.len] == EndMarker(h.ty)
    ensures var full := FieldAt(d, start, end);
            full.Some? && full.value.end < start + LightAt(d, start, end, ser240, depth).value.len
  {
    hide LightChildren;
    SameHead(d, start, end);
    var h := LightHead(d, start, end).value;
    ContainerStep(d, start, end, ser240, depth, h);
  }

  /**
   * For any bytes: what the light walker accepts without meeting one of the differences, the full
   * walker accepts as the same field.
   */
  lemma {:induction false} LightImpliesFull(d: bytes, start: nat, end: nat, ser240: bool, depth: nat)
    requires start <= end <= |d| && LightAt(d, start, end, ser240, depth).Some? && Steady(d, start, end, ser240, depth)
    ensures var light, full := LightAt(d, start, end, ser240, depth).value, FieldAt(d, start, end);
            && full.Some? && full.value.end == start + light.len
            && full.value.ty == light.ty && full.value.field == light.field
            && full.value.Content().1 == start + light.payloadStart + light.payloadLen
    decreases MAX_DEPTH + 1 - depth, MAX_CHILDREN + 1
  {
    hide LightChildren, LightPayload, SimpleStop, ChildrenEnd, Refused;
    SameHead(d, start, end);
    var h := LightHead(d, start, end).value;
    var at := start + h.len;
    if IsContainerType(h.ty) {
      ContainerStep(d, start, end, ser240, depth, h);
      ChildrenOnBytes(d, at, end, ser240, depth, h.ty, MAX_CHILDREN);
      MarkerLater(d, at, end, h.ty);
    } else {
      LeafStep(d, start, end, ser240, depth, h);
      LeafOnBytes(d, h.ty, at, end, ser240);
    }
  }

  /** From the first child on: what follows the last child is the marker for both. */
  lemma {:induction false} ChildrenOnBytes(d: bytes, upto: nat, end: nat, ser240: bool, depth: nat, ty: byte, n: nat)
    requires upto < end <= |d| && depth <= MAX_DEPTH && IsContainerType(ty) && n <= MAX_CHILDREN
    requires LightChildren(d, upto, end, ser240, depth, ty, n).Some?
    requires SteadyChildren(d, upto, end, ser240, depth, ty, n)
    ensures FieldAt(d, upto, end).Some?
    ensures ChildrenEnd(d, FieldAt(d, upto, end).value.end, end, EndMarker(ty))
            == Some(LightChildren(d, upto, end, ser240, depth, ty, n).value + 1)
    decreases MAX_DEPTH + 1 - depth, n
  {
    hide LightAt, FieldAt, Steady, LightChildren, ChildrenEnd;
    SteadyStep(d, upto, end, ser240, depth, ty, n);
    ChildStep(d, upto, end, ser240, depth, ty, n);
    LightImpliesFull(d, upto, end, ser240, depth + 1);
    var next := upto + LightAt(d, upto, end, ser240, depth + 1).value.len;
    if d[next] == EndMarker(ty) {
      MarkerHere(d, next, end, EndMarker(ty));
    } else {
      ChildrenOnBytes(d, next, end, ser240, depth, ty, n - 1);
      MarkerLater(d, next, end, ty);
    }
  }

  lemma SteadyStep(d: bytes, upto: nat, end: nat, ser240: bool, depth: nat, ty: byte, n: nat)
    requires end <= |d| && depth <= MAX_DEPTH && IsContainerType(ty) && n <= MAX_CHILDREN
    requires SteadyChildren(d, upto, end, ser240, depth, ty, n)
    ensures n > 0 && Steady(d, upto, end, ser240, depth + 1)
    ensures var sub := LightAt(d, upto, end, ser240, depth + 1);
            && sub.Some? && upto + sub.value.len < end
            && (d[upto + sub.value.len] == EndMarker(ty) ||
                SteadyChildren(d, upto + sub.value.len, end, ser240, depth, ty, n - 1))
  {
    hide LightAt;
  }

  lemma MarkerHere(d: bytes, p: nat, end: nat, marker: byte)
    requires p < end <= |d| && d[p] == marker
    ensures ChildrenEnd(d, p, end, marker) == Some(p + 1)
  {
  }

  lemma MarkerLater(d: bytes, p: nat, end: nat, ty: byte)
    requires p < end <= |d| && d[p] != EndMarker(ty) && FieldAt(d, p, end).Some?
    ensures ChildrenEnd(d, p, end, EndMarker(ty)) == ChildrenEnd(d, FieldAt(d, p, end).value.end, end, EndMarker(ty))
  {
    hide FieldAt;
  }

  // ---- the other way: what the full walker accepts ----

  /** On any bytes both read the same header, the light walker only where a byte of payload follows within the end. */
  lemma HeadIff(d: bytes, start: nat, end: nat)
    requires end <= |d|
    ensures var h := DecodeHeader(d, start);
            LightHead(d, start, end) == if h.Some? && start + h.value.len < end then h else None
  {
  }

  /** What the light walker asks of a leaf that the full walker reads up to the end. */
  predicate FitsLeaf(d: bytes, ty: byte, at: nat, end: nat, ser240: bool)
    requires at < end <= |d|
  {
    && !Refused(ty, ser240) && SteadyLeaf(d, ty, at, ser240)
    && (IsBlobType(ty) ==> at + 1 < end)                      // the byte after the length byte
    && (ty == STI_PATHSET ==> LightPaths(d, at, end).Some?)   // no empty path before another
  }

  /** On any bytes: a leaf that the full walker reads is read to the same end exactly if it fits. */
  lemma LeafFitsIff(d: bytes, ty: byte, at: nat, end: nat, ser240: bool)
    requires at < end <= |d| && !IsContainerType(ty) && (ty == STI_PATHSET ==> ser240)
    requires SimpleStop(d, ty, at).Some? && SimpleStop(d, ty, at).value <= end
    ensures (&& !Refused(ty, ser240) && LightPayload(d, ty, at, end, ser240).Some?
             && var (a, n) := LightPayload(d, ty, at, end, ser240).value; SimpleStop(d, ty, at) == Some(at + a + n))
            <==> FitsLeaf(d, ty, at, end, ser240)
  {
    hide LightPaths, PathsEnd, LightBridge;
    if ty == STI_PATHSET && LightPaths(d, at, end).Some? {
      PathsOnBytes(d, at, end);
    }
  }

  /** No obstacle along the full walker's reading: leaves that fit, at least one child, none too deep or too many. */
  predicate Fits(d: bytes, start: nat, end: nat, ser240: bool, depth: nat)
    requires end <= |d|
    decreases MAX_DEPTH + 1 - depth, MAX_CHILDREN + 1
  {
    depth <= MAX_DEPTH && DecodeHeader(d, start).Some? &&
    var h := DecodeHeader(d, start).value;
    var at := start + h.len;
    at < end &&
    if IsContainerType(h.ty) then
      d[at] != EndMarker(h.ty) && FitsChildren(d, at, end, ser240, depth, h.ty, MAX_CHILDREN)
    else FitsLeaf(d, h.ty, at, end, ser240)
  }

  predicate FitsChildren(d: bytes, p: nat, end: nat, ser240: bool, depth: nat, ty: byte, n: nat)
    requires end <= |d| && depth <= MAX_DEPTH && IsContainerType(ty) && n <= MAX_CHILDREN
    decreases MAX_DEPTH + 1 - depth, n
  {
    n > 0 && p < end && Fits(d, p, end, ser240, depth + 1) &&
    var child := FieldAt(d, p, end);
    child.Some? && child.value.end < end &&
    (d[child.value.end] == EndMarker(ty) || FitsChildren(d, child.value.end, end, ser240, depth, ty, n - 1))
  }

  /** For any bytes: what the full walker accepts without an obstacle, the light walker accepts as the same field. */
  lemma {:induction false} FullImpliesLight(d: bytes, start: nat, end: nat, ser240: bool, depth: nat)
    requires start <= end <= |d| && FieldAt(d, start, end).Some? && Fits(d, start, end, ser240, depth)
    ensures var light, full := LightAt(d, start, end, ser240, depth), FieldAt(d, start, end).value;
            && light.Some? && start + light.value.len == full.end
            && light.value.ty == full.ty && light.value.field == full.field
            && start + light.value.payloadStart + light.value.payloadLen == full.Content().1
    decreases MAX_DEPTH + 1 - depth, MAX_CHILDREN + 1
  {
    hide LightChildren, LightPayload, SimpleStop, ChildrenEnd, Refused, FitsChildren, FitsLeaf;
    HeadIff(d, start, end);
    var h := LightHead(d, start, end).value;
    var at := start + h.len;
    if IsContainerType(h.ty) {
      ContainerStep(d, start, end, ser240, depth, h);
      ChildrenFit(d, at, end, ser240, depth, h.ty, MAX_CHILDREN);
    } else {
      LeafStep(d, start, end, ser240, depth, h);
      LeafFits(d, h.ty, at, end, ser240);
    }
  }

  lemma LeafFits(d: bytes, ty: byte, at: nat, end: nat, ser240: bool)
    requires at < end <= |d| && !IsContainerType(ty) && FitsLeaf(d, ty, at, end, ser240)
    requires SimpleStop(d, ty, at).Some? && SimpleStop(d, ty, at).value <= end
    ensures !Refused(ty, ser240) && LightPayload(d, ty, at, end, ser240).Some?
    ensures var (a, n) := LightPayload(d, ty, at, end, ser240).value; SimpleStop(d, ty, at) == Some(at + a + n)
  {
    hide LightPayload, SimpleStop;
    LeafFitsIff(d, ty, at, end, ser240);
  }

  lemma {:induction false} ChildrenFit(d: bytes, p: nat, end: nat, ser240: bool, depth: nat, ty: byte, n: nat)
    requires p < end <= |d| && depth <= MAX_DEPTH && IsContainerType(ty) && n <= MAX_CHILDREN
    requires d[p] != EndMarker(ty) && FitsChildren(d, p, end, ser240, depth, ty, n)
    ensures LightChildren(d, p, end, ser240, depth, ty, n).Some?
    ensures ChildrenEnd(d, p, end, EndMarker(ty)) == Some(LightChildren(d, p, end, ser240, depth, ty, n).value + 1)
    decreases MAX_DEPTH + 1 - depth, n
  {
    hide LightAt, FieldAt, Fits, LightChildren, ChildrenEnd;
    ChildStep(d, p, end, ser240, depth, ty, n);
    FullImpliesLight(d, p, end, ser240, depth + 1);
    MarkerLater(d, p, end, ty);
    var next := FieldAt(d, p, end).value.end;
    if d[next] == EndMarker(ty) {
      MarkerHere(d, next, end, EndMarker(ty));
    } else {
      ChildrenFit(d, next, end, ser240, depth, ty, n - 1);
    }
  }
}
