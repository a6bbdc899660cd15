/**
 * The two walkers against each other. On the common fragment (`LightShape`, with the depth and
 * trailing-byte conditions) both report the extents of the tree that was written; the remaining
 * lemmas say, branch by branch, that the conditions are exact.
 */
module WalkerAgreement {
  import opened Bytes
  import opened Wrappers
  import opened FieldTree
  import opened FullWalker
  import opened LightWalker

  /** Trees on which the light walker's reading coincides with the tree, depth and room aside. */
  predicate LightShape(f: Field, ser240: bool)
    requires Valid(f)
    decreases f, 1
  {
    match f
    case Leaf(ty, _, data) => !Refused(ty, ser240) && (ty == STI_AMOUNT ==> data[0] >= 64)
    case Blob(_, _, _) => true
    case PathSet(_, paths) => ser240 && OnlyLastEmpty(paths)
    case Container(_, _, children) => 1 <= |children| <= MAX_CHILDREN && LightShapeAll(children, ser240)
  }

  /** No path but the last is empty. */
  predicate OnlyLastEmpty(paths: seq<seq<Step>>) {
    |paths| <= 1 || (paths[0] != [] && OnlyLastEmpty(paths[1..]))
  }

  predicate LightShapeAll(fs: seq<Field>, ser240: bool)
    requires ValidAll(fs)
    decreases fs, 0
  {
    fs == [] || (LightShape(fs[0], ser240) && LightShapeAll(fs[1..], ser240))
  }

  function Height(f: Field): nat
    decreases f, 1
  {
    if f.Container? then 1 + HeightAll(f.children) else 0
  }

  function HeightAll(fs: seq<Field>): nat
    decreases fs, 0
  {
    if fs == [] then 0
    else if Height(fs[0]) > HeightAll(fs[1..]) then Height(fs[0]) else HeightAll(fs[1..])
  }

  /** The one leaf whose acceptance depends on what follows it: an empty blob needs a next byte. */
  predicate EmptyBlob(f: Field) {
    f.Blob? && f.payload == []
  }

  function PrefixLen(f: Field): nat
    requires Valid(f)
  {
    if f.Blob? then |Prefix(|f.payload|)| else 0
  }

  function EndLen(f: Field): nat {
    if f.Container? then 1 else 0
  }

  /** The extents of the tree, in the light walker's terms. */
  function LightOf(f: Field): Light
    requires Valid(f)
  {
    Light(|Ser(f)|, f.Ty(), f.code, |HeaderOf(f)| + PrefixLen(f), |Body(f)| - PrefixLen(f) - EndLen(f))
  }

  lemma {:induction false} LightShapeAllIndex(fs: seq<Field>, ser240: bool, k: nat)
    requires ValidAll(fs) && LightShapeAll(fs, ser240) && k < |fs|
    ensures Valid(fs[k]) && LightShape(fs[k], ser240) && Height(fs[k]) <= HeightAll(fs)
  {
    if k > 0 {
      LightShapeAllIndex(fs[1..], ser240, k - 1);
    }
  }

  // ---- headers, prefixes and leaves ----

  lemma LightHeaderReads(d: bytes, at: nat, end: nat, ty: byte, code: byte)
    requires ty > 0 && At(d, at, Header(ty, code)) && at + |Header(ty, code)| < end <= |d|
    ensures LightHead(d, at, end) == Some(Head(ty, code, |Header(ty, code)|))
  {
    AtFirst3(d, at, Header(ty, code));
  }

  lemma LightPrefixReads(d: bytes, at: nat, end: nat, n: nat)
    requires n <= MAX_BLOB && At(d, at, Prefix(n)) && at + |Prefix(n)| + n <= end <= |d|
    ensures LightVl(d, at, end) == if n == 0 && at + 1 == end then None else Some((n, |Prefix(n)|))
  {
    AtFirst3(d, at, Prefix(n));
    PrefixDigits(n);
  }

  lemma StepFlag(f: byte)
    requires StepBits(f)
    ensures f == 0 <==> NoStep(f)
    ensures f != 0xFF
  {
  }

  /** Steps are skipped up to the byte that closes the path; an empty path is left in place. */
  lemma {:induction false} LightStepsRead(d: bytes, p: nat, end: nat, steps: seq<Step>)
    requires steps != [] && forall s | s in steps :: ValidStep(s)
    requires At(d, p, SerSteps(steps)) && p + |SerSteps(steps)| < end <= |d|
    requires d[p + |SerSteps(steps)|] == 0 || d[p + |SerSteps(steps)|] == 0xFF
    ensures LightSteps(d, p, end) == Some(p + |SerSteps(steps)|)
    decreases |steps|
  {
    var s := steps[0];
    var rest := SerSteps(steps[1..]);
    AtSplit(d, p, [s.flag] + s.parts, rest);
    AtIndex(d, p, [s.flag] + s.parts, 0);
    assert s in steps;
    StepFlag(s.flag);
    if steps[1..] != [] {
      var q := p + 1 + |s.parts|;
      var t := steps[1];
      assert t in steps && SerSteps(steps[1..])[0] == t.flag;
      AtIndex(d, q, rest, 0);
      StepFlag(t.flag);
      LightStepsRead(d, q, end, steps[1..]);
    }
  }

  lemma LightPathRead(d: bytes, at: nat, end: nat, steps: seq<Step>, sep: byte)
    requires forall s | s in steps :: ValidStep(s)
    requires At(d, at, SerSteps(steps) + [sep]) && at + |SerSteps(steps)| < end <= |d|
    requires sep == 0 || sep == 0xFF
    ensures d[at + |SerSteps(steps)|] == sep
    ensures LightSteps(d, at, end) ==
            if steps == [] && sep == 0xFF then None else Some(at + |SerSteps(steps)|)
  {
    AtSplit(d, at, SerSteps(steps), [sep]);
    AtIndex(d, at + |SerSteps(steps)|, [sep], 0);
    if steps != [] {
      LightStepsRead(d, at, end, steps);
    }
  }

  /** The native path-set loop reaches the terminator exactly when no path but the last is empty. */
  lemma {:induction false} LightPathsRead(d: bytes, at: nat, end: nat, paths: seq<seq<Step>>)
    requires |paths| > 0 && At(d, at, SerPaths(paths)) && at + |SerPaths(paths)| <= end <= |d|
    requires forall p, s | p in paths && s in p :: ValidStep(s)
    ensures LightPaths(d, at, end) ==
            if OnlyLastEmpty(paths) then Some(at + |SerPaths(paths)|) else None
    decreases |paths|
  {
    hide LightSteps, SerSteps, At, ValidStep;
    var one := SerSteps(paths[0]);
    assert paths[0] in paths;
    if |paths| == 1 {
      LightPathRead(d, at, end, paths[0], 0x00);
    } else {
      var rest := SerPaths(paths[1..]);
      assert SerPaths(paths) == (one + [0xFF]) + rest;
      AtSplit(d, at, one + [0xFF], rest);
      LightPathRead(d, at, end, paths[0], 0xFF);
      LightPathsRead(d, at + |one| + 1, end, paths[1..]);
    }
  }

  predicate Fits(f: Field, at: nat, end: nat)
    requires Valid(f)
  {
    EmptyBlob(f) ==> at + |Ser(f)| < end
  }

  lemma BlobPayload(ty: byte, payload: bytes, d: bytes, at: nat, end: nat, ser240: bool)
    requires IsBlobType(ty) && |payload| <= MAX_BLOB
    requires At(d, at, Prefix(|payload|) + payload) && at + |Prefix(|payload|) + payload| <= end <= |d|
    ensures LightPayload(d, ty, at, end, ser240) ==
            if payload == [] && at + 1 == end then None else Some((|Prefix(|payload|)|, |payload|))
  {
    AtSplit(d, at, Prefix(|payload|), payload);
    LightPrefixReads(d, at, end, |payload|);
  }

  lemma LeafPayload(ty: byte, data: bytes, d: bytes, at: nat, end: nat, ser240: bool)
    requires ValidLeaf(ty, data) && !Refused(ty, ser240) && !IsContainerType(ty)
    requires At(d, at, data) && at + |data| <= end <= |d|
    ensures LightPayload(d, ty, at, end, ser240) == Some((0, |data|)) <==> (ty == STI_AMOUNT ==> data[0] >= 64)
  {
    AtIndex(d, at, data, 0);
    if ty == STI_ISSUE {
      assert d[at..at + 20] == data[..20];
      assert |data| == 20 ==> data[..20] == data;
    }
  }

  /** The payload of a written leaf is measured correctly exactly on the common fragment. */
  lemma PayloadAgreement(f: Field, d: bytes, at: nat, end: nat, ser240: bool)
    requires Valid(f) && !f.Container? && !Refused(f.Ty(), ser240)
    requires At(d, at, Body(f)) && at + |Body(f)| <= end <= |d|
    ensures LightPayload(d, f.Ty(), at, end, ser240) == Some((PrefixLen(f), |Body(f)| - PrefixLen(f)))
            <==> LightShape(f, ser240) && (EmptyBlob(f) ==> at + |Body(f)| < end)
  {
    match f
    case Leaf(ty, _, data) =>
      hide LightPayload, LightWidth;
      LeafPayload(ty, data, d, at, end, ser240);
    case Blob(ty, _, payload) =>
      hide LightPayload;
      BlobPayload(ty, payload, d, at, end, ser240);
    case PathSet(_, paths) =>
      hide LightPaths, LightVl, SerPaths;
      if ser240 {
        LightPathsRead(d, at, end, paths);
      }
  }

  /** On a leaf the walkers agree exactly on the common fragment. */
  lemma LeafAgreement(f: Field, d: bytes, at: nat, end: nat, ser240: bool, depth: nat)
    requires Valid(f) && !f.Container? && depth <= MAX_DEPTH
    requires At(d, at, Ser(f)) && at + |Ser(f)| <= end <= |d|
    ensures LightAt(d, at, end, ser240, depth) == Some(LightOf(f))
            <==> LightShape(f, ser240) && Fits(f, at, end)
  {
    hide LightAt, At, Header, LightPayload, LightHead, OnlyLastEmpty, Body;
    AtSplit(d, at, HeaderOf(f), Body(f));
    LightHeaderReads(d, at, end, f.Ty(), f.code);
    LeafStep(d, at, end, ser240, depth, Head(f.Ty(), f.code, |HeaderOf(f)|));
    if !Refused(f.Ty(), ser240) {
      PayloadAgreement(f, d, at + |HeaderOf(f)|, end, ser240);
    }
  }

  // ---- containers ----

  lemma ContainerFound(f: Field, d: bytes, at: nat, end: nat, ser240: bool, depth: nat)
    requires Valid(f) && f.Container? && depth <= MAX_DEPTH
    requires At(d, at, Ser(f)) && at + |Ser(f)| <= end <= |d|
    ensures LightAt(d, at, end, ser240, depth) ==
            Enclosing(Head(f.ty, f.code, |HeaderOf(f)|), at,
                      LightChildren(d, at + |HeaderOf(f)|, end, ser240, depth, f.ty, MAX_CHILDREN))
  {
    AtSplit(d, at, HeaderOf(f), Body(f));
    LightHeaderReads(d, at, end, f.ty, f.code);
    ContainerStep(d, at, end, ser240, depth, Head(f.ty, f.code, |HeaderOf(f)|));
  }

  lemma EnclosingLight(f: Field, at: nat, marker: Option<nat>)
    requires Valid(f) && f.Container? && (marker.Some? ==> at + |HeaderOf(f)| <= marker.value)
    ensures Enclosing(Head(f.ty, f.code, |HeaderOf(f)|), at, marker) == Some(LightOf(f))
            <==> marker == Some(at + |HeaderOf(f)| + |SerAll(f.children)|)
  {
    assert |Body(f)| == |SerAll(f.children)| + 1;
  }

  /** The light walker reads a fitting tree exactly down to its depth limit and refuses it beyond. */
  lemma {:induction false} LightAfterPrint(f: Field, d: bytes, at: nat, end: nat, ser240: bool, depth: nat)
    requires Valid(f) && LightShape(f, ser240) && Fits(f, at, end)
    requires At(d, at, Ser(f)) && at + |Ser(f)| <= end <= |d|
    ensures LightAt(d, at, end, ser240, depth) ==
            if depth + Height(f) <= MAX_DEPTH then Some(LightOf(f)) else None
    decreases f, 2
  {
    hide LightAt, LightChildren;
    if depth > MAX_DEPTH {
      TooDeep(d, at, end, ser240, depth);
    } else {
      match f
      case Container(ty, _, children) =>
        AtSplit(d, at, HeaderOf(f), Body(f));
        LightChildrenAfterPrint(children, d, at + |HeaderOf(f)|, end, ser240, depth, ty, MAX_CHILDREN);
        ContainerFound(f, d, at, end, ser240, depth);
        EnclosingLight(f, at, LightChildren(d, at + |HeaderOf(f)|, end, ser240, depth, ty, MAX_CHILDREN));
        assert Walkable(children, depth, MAX_CHILDREN) <==> depth + Height(f) <= MAX_DEPTH;
      case _ =>
        LeafAgreement(f, d, at, end, ser240, depth);
    }
  }

  /** Few enough children, none of them too deep. */
  predicate Walkable(fs: seq<Field>, depth: nat, n: nat) {
    |fs| <= n && depth + 1 + HeightAll(fs) <= MAX_DEPTH
  }

  lemma WalkableStep(fs: seq<Field>, depth: nat, n: nat)
    requires fs != []
    ensures Walkable(fs, depth, n) <==>
            n > 0 && depth + 1 + Height(fs[0]) <= MAX_DEPTH && (fs[1..] == [] || Walkable(fs[1..], depth, n - 1))
  {
    var h := HeightAll(fs[1..]);
    assert HeightAll(fs) == if Height(fs[0]) > h then Height(fs[0]) else h;
    assert fs[1..] == [] ==> h == 0;
  }

  /** A list of fitting children is walked to its end marker iff it is short and shallow enough. */
  lemma {:induction false} LightChildrenAfterPrint(fs: seq<Field>, d: bytes, p: nat, end: nat, ser240: bool,
                                                   depth: nat, ty: byte, n: nat)
    requires fs != [] && ValidAll(fs) && LightShapeAll(fs, ser240)
    requires IsContainerType(ty) && forall c | c in fs :: !(c.Ty() == ty && c.code == 1)
    requires At(d, p, SerAll(fs) + [EndMarker(ty)]) && p + |SerAll(fs)| + 1 <= end <= |d|
    requires depth <= MAX_DEPTH && n <= MAX_CHILDREN
    ensures LightChildren(d, p, end, ser240, depth, ty, n) ==
            if Walkable(fs, depth, n) then Some(p + |SerAll(fs)|) else None
    decreases fs, 0
  {
    hide LightAt, LightChildren, Walkable, At, Valid, LightShape, Ser, SerAll, Height, HeightAll, EndMarker;
    WalkableStep(fs, depth, n);
    NothingWritten();
    if n == 0 {
      NoMoreChildren(d, p, end, ser240, depth, ty);
    } else {
      FirstChild(fs, d, p, ty);
      ChildStep(d, p, end, ser240, depth, ty, n);
      LightAfterPrint(fs[0], d, p, end, ser240, depth + 1);
      if fs[1..] != [] {
        LightChildrenAfterPrint(fs[1..], d, p + |Ser(fs[0])|, end, ser240, depth, ty, n - 1);
      }
    }
  }

  lemma NothingWritten()
    ensures SerAll([]) == []
  {
  }

  /** After the first child stands the end marker if it was the only one, another child otherwise. */
  lemma FirstChild(fs: seq<Field>, d: bytes, p: nat, ty: byte)
    requires fs != [] && ValidAll(fs) && At(d, p, SerAll(fs) + [EndMarker(ty)])
    requires IsContainerType(ty) && forall c | c in fs :: !(c.Ty() == ty && c.code == 1)
    ensures At(d, p, Ser(fs[0])) && At(d, p + |Ser(fs[0])|, SerAll(fs[1..]) + [EndMarker(ty)])
    ensures |SerAll(fs)| == |Ser(fs[0])| + |SerAll(fs[1..])|
    ensures d[p + |Ser(fs[0])|] == EndMarker(ty) <==> fs[1..] == []
  {
    hide Valid, At, Ser;
    var f, rest := fs[0], SerAll(fs[1..]) + [EndMarker(ty)];
    assert SerAll(fs) + [EndMarker(ty)] == Ser(f) + rest;
    AtSplit(d, p, Ser(f), rest);
    AtIndex(d, p + |Ser(f)|, rest, 0);
    if fs[1..] != [] {
      var g := fs[1];
      assert g in fs && fs[1..][0] == g;
      FirstByte(g, ty);
    }
  }

  /** A container the light walker reads in step with the tree is never empty and never too wide. */
  lemma ContainerAgreement(f: Field, d: bytes, at: nat, end: nat, ser240: bool, depth: nat)
    requires Valid(f) && f.Container? && LightShapeAll(f.children, ser240)
    requires At(d, at, Ser(f)) && at + |Ser(f)| <= end <= |d|
    ensures LightAt(d, at, end, ser240, depth) == Some(LightOf(f))
            <==> 1 <= |f.children| <= MAX_CHILDREN && depth + Height(f) <= MAX_DEPTH
  {
    hide LightAt, LightChildren, At, HeaderOf;
    if depth > MAX_DEPTH {
      TooDeep(d, at, end, ser240, depth);
    } else {
      var body := at + |HeaderOf(f)|;
      AtSplit(d, at, HeaderOf(f), Body(f));
      var marker := LightChildren(d, body, end, ser240, depth, f.ty, MAX_CHILDREN);
      ContainerFound(f, d, at, end, ser240, depth);
      EnclosingLight(f, at, marker);
      if f.children != [] {
        LightChildrenAfterPrint(f.children, d, body, end, ser240, depth, f.ty, MAX_CHILDREN);
      }
    }
  }

  // ---- the main result ----

  /**
   * On the common fragment both walkers succeed with the same type, code and end, and the light
   * payload is the full walker's content without the length prefix.
   */
  lemma WalkersAgree(f: Field, d: bytes, at: nat, end: nat, ser240: bool, depth: nat)
    requires Valid(f) && LightShape(f, ser240) && depth + Height(f) <= MAX_DEPTH && Fits(f, at, end)
    requires At(d, at, Ser(f)) && at + |Ser(f)| <= end <= |d|
    ensures FieldAt(d, at, end).Some? && LightAt(d, at, end, ser240, depth).Some?
    ensures
      var full, light := FieldAt(d, at, end).value, LightAt(d, at, end, ser240, depth).value;
      && light.ty == full.ty && light.field == full.field && full.start == at && at + light.len == full.end
      && at + light.payloadStart == full.Content().0 + PrefixLen(f)
      && at + light.payloadStart + light.payloadLen == full.Content().1
  {
    ParseAfterPrint(f, d, at, end);
    LightAfterPrint(f, d, at, end, ser240, depth);
  }
}
