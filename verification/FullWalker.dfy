/**
 * The full field walker (`parse_field`, `parse_fields`): what slots hold is read with it.
 * `FieldAt` and `FieldsIn` say which field a position holds; the methods walk with a mutable
 * cursor as the source does, and are proved to compute exactly those functions.
 */
module FullWalker {
  import opened Bytes
  import opened Wrappers
  import opened FieldTree

  /** A field located in its buffer: header at `start`, payload at `body`, first byte after it at `end`. */
  datatype FieldRef = FieldRef(ty: byte, field: byte, start: nat, body: nat, end: nat) {
    function Code(): nat {
      ty * 65536 + field
    }

    /** What the field contributes as a value: containers lose their end marker. */
    function Content(): (nat, nat)
      requires body < end || !IsContainerType(ty)
    {
      if IsContainerType(ty) then (body, end - 1) else (body, end)
    }
  }

  datatype Head = Head(ty: byte, field: byte, len: nat)

  function DecodeHeader(d: bytes, at: nat): (h: Option<Head>)
    ensures h.Some? ==> 1 <= h.value.len <= 3
  {
    if at >= |d| then None else
    var hi, lo := d[at] / 16, d[at] % 16;
    if hi > 0 && lo > 0 then Some(Head(hi, lo, 1))
    else if at + 1 >= |d| then None
    else if hi > 0 then Some(Head(hi, d[at + 1], 2))
    else if lo > 0 then Some(Head(d[at + 1], lo, 2))
    else if at + 2 >= |d| then None
    else Some(Head(d[at + 1], d[at + 2], 3))
  }

  /** Length prefix: (payload length, prefix length). */
  function VlLen(d: bytes, at: nat): Option<(nat, nat)> {
    if at >= |d| then None else
    var b1: int := d[at];
    if b1 <= 192 then Some((b1, 1))
    else if b1 <= 240 then
      if at + 1 >= |d| then None else Some((193 + (b1 - 193) * 256 + d[at + 1] as int, 2))
    else if b1 <= 254 then
      if at + 2 >= |d| then None
      else Some((12481 + (b1 - 241) * 65536 + d[at + 1] as int * 256 + d[at + 2] as int, 3))
    else None
  }

  /** First offset after the path set that starts at `p`. */
  function PathsEnd(d: bytes, p: nat): (r: Option<nat>)
    ensures r.Some? ==> p < r.value <= |d|
    decreases |d| - p
  {
    if p >= |d| then None
    else if d[p] == 0x00 then Some(p + 1)
    else if d[p] == 0xFF then PathsEnd(d, p + 1)
    else if StepBits(d[p]) then PathsEnd(d, p + 1 + StepSize(d[p]))
    else None
  }

  /** Where a field of a non-container type ends, before the check against the enclosing end. */
  function SimpleStop(d: bytes, ty: byte, body: nat): (r: Option<nat>)
    ensures r.Some? ==> body <= r.value
  {
    if FixedWidth(ty).Some? then Some(body + FixedWidth(ty).value)
    else if ty == STI_AMOUNT then
      if body >= |d| then None
      else if d[body] < 128 then Some(body + 8) else Some(body + 48)
    else if IsBlobType(ty) then
      var v := VlLen(d, body);
      if v.None? then None else Some(body + v.value.1 + v.value.0)
    else if ty == STI_ISSUE then
      if body + 20 > |d| then None
      else if AllZero(d[body..body + 20]) then Some(body + 20) else Some(body + 40)
    else if ty == STI_PATHSET then PathsEnd(d, body)
    else None
  }

  /** The field lies in `from..end`; a container has room for its end marker. */
  predicate Extends(f: FieldRef, from: nat, end: nat) {
    from <= f.start < f.body <= f.end <= end && (IsContainerType(f.ty) ==> f.body < f.end)
  }

  /** The field whose header stands at `at`, if one ends no later than `end`. */
  function FieldAt(d: bytes, at: nat, end: nat): (r: Option<FieldRef>)
    requires at <= end <= |d|
    ensures r.Some? ==> r.value.start == at && Extends(r.value, at, end)
    decreases end - at, 0
  {
    var h := DecodeHeader(d, at);
    if h.None? then None else
    var body := at + h.value.len;
    var stop := if IsContainerType(h.value.ty) then ChildrenEnd(d, body, end, EndMarker(h.value.ty))
                else SimpleStop(d, h.value.ty, body);
    if stop.None? || stop.value > end then None
    else Some(FieldRef(h.value.ty, h.value.field, at, body, stop.value))
  }

  /** First offset after the marker that closes the children starting at `p`. */
  function ChildrenEnd(d: bytes, p: nat, end: nat, marker: byte): (r: Option<nat>)
    requires end <= |d|
    ensures r.Some? ==> p < r.value <= end
    decreases end - p, 1
  {
    if p >= end then None
    else if d[p] == marker then Some(p + 1)
    else
      var f := FieldAt(d, p, end);
      if f.None? then None else ChildrenEnd(d, f.value.end, end, marker)
  }

  function FieldsIn(d: bytes, p: nat, end: nat): (r: Option<seq<FieldRef>>)
    requires p <= end <= |d|
    ensures r.Some? ==> forall f :: f in r.value ==> Extends(f, p, end)
    decreases end - p
  {
    if p == end then Some([]) else
    var f := FieldAt(d, p, end);
    if f.None? then None else Prepend([f.value], FieldsIn(d, f.value.end, end))
  }

  function Prepend(fs: seq<FieldRef>, rest: Option<seq<FieldRef>>): Option<seq<FieldRef>> {
    if rest.None? then None else Some(fs + rest.value)
  }

  lemma PrependTwice(a: seq<FieldRef>, b: seq<FieldRef>, rest: Option<seq<FieldRef>>)
    ensures Prepend(a, Prepend(b, rest)) == Prepend(a + b, rest)
  {
    if rest.Some? {
      assert a + (b + rest.value) == (a + b) + rest.value;
    }
  }

  // ---- the walker itself ----

  method ParsePaths(d: bytes, body: nat) returns (r: Option<nat>)
    ensures r == PathsEnd(d, body)
  {
    var p := body;
    while true
      invariant PathsEnd(d, p) == PathsEnd(d, body)
      decreases |d| - p
    {
      if p >= |d| {
        return None;
      }
      var t := d[p];
      p := p + 1;
      if t == 0x00 {
        return Some(p);
      } else if t == 0xFF {
        continue;
      } else if StepBits(t) {
        p := p + 20 * (t % 2 + t / 16 % 2 + t / 32 % 2);
      } else {
        return None;
      }
    }
  }

  method ParseField(d: bytes, at: nat, end: nat) returns (r: Option<FieldRef>)
    requires at <= end <= |d|
    ensures r == FieldAt(d, at, end)
    decreases end - at
  {
    var h := DecodeHeader(d, at);
    if h.None? {
      return None;
    }
    var Head(ty, field, hl) := h.value;
    var body := at + hl;
    var stop: nat;
    if IsContainerType(ty) {
      var marker := EndMarker(ty);
      var p := body;
      while true
        invariant body <= p
        invariant ChildrenEnd(d, p, end, marker) == ChildrenEnd(d, body, end, marker)
        decreases end - p
      {
        if p >= end {
          return None;
        }
        if d[p] == marker {
          stop := p + 1;
          break;
        }
        var f := ParseField(d, p, end);
        if f.None? {
          return None;
        }
        p := f.value.end;
      }
    } else if ty == STI_PATHSET {
      var p := ParsePaths(d, body);
      if p.None? {
        return None;
      }
      stop := p.value;
    } else {
      var s := SimpleStop(d, ty, body);
      if s.None? {
        return None;
      }
      stop := s.value;
    }
    if stop > end {
      return None;
    }
    return Some(FieldRef(ty, field, at, body, stop));
  }

  method ParseFields(d: bytes, start: nat, end: nat) returns (r: Option<seq<FieldRef>>)
    requires start <= end <= |d|
    ensures r == FieldsIn(d, start, end)
  {
    var out: seq<FieldRef> := [];
    var p := start;
    assert forall fs: seq<FieldRef> :: [] + fs == fs;
    while p < end
      invariant start <= p <= end
      invariant FieldsIn(d, start, end) == Prepend(out, FieldsIn(d, p, end))
    {
      var f := ParseField(d, p, end);
      if f.None? {
        return None;
      }
      PrependTwice(out, [f.value], FieldsIn(d, f.value.end, end));
      p := f.value.end;
      out := out + [f.value];
    }
    assert out + [] == out;
    return Some(out);
  }

  // ---- any accepted buffer is tiled ----

  ghost predicate Tiles(fs: seq<FieldRef>, from: nat, to: nat) {
    if fs == [] then from == to
    else fs[0].start == from && from < fs[0].body <= fs[0].end && Tiles(fs[1..], fs[0].end, to)
  }

  lemma {:induction false} FieldsTile(d: bytes, p: nat, end: nat)
    requires p <= end <= |d| && FieldsIn(d, p, end).Some?
    ensures Tiles(FieldsIn(d, p, end).value, p, end)
    decreases end - p
  {
    if p < end {
      FieldsTile(d, FieldAt(d, p, end).value.end, end);
    }
  }

  // ---- parse after print ----

  /** The extents a tree occupies when it is written at offset `at`. */
  function RefOf(f: Field, at: nat): FieldRef
    requires Valid(f)
  {
    FieldRef(f.Ty(), f.code, at, at + |HeaderOf(f)|, at + |Ser(f)|)
  }

  function RefsOf(fs: seq<Field>, at: nat): (r: seq<FieldRef>)
    requires ValidAll(fs)
    ensures |r| == |fs|
  {
    if fs == [] then [] else [RefOf(fs[0], at)] + RefsOf(fs[1..], at + |Ser(fs[0])|)
  }

  lemma {:induction false} RefsOfIndex(fs: seq<Field>, at: nat, k: nat)
    requires ValidAll(fs) && k < |fs|
    ensures Valid(fs[k]) && ValidAll(fs[..k])
    ensures RefsOf(fs, at)[k] == RefOf(fs[k], at + |SerAll(fs[..k])|)
  {
    hide Valid, Ser, RefOf;
    if k > 0 {
      RefsOfIndex(fs[1..], at + |Ser(fs[0])|, k - 1);
      assert fs[..k][1..] == fs[1..][..k - 1] && fs[..k][0] == fs[0];
      SerAllCons(fs[..k]);
    }
  }

  lemma HeaderReads(d: bytes, at: nat, ty: byte, code: byte)
    requires ty > 0 && At(d, at, Header(ty, code))
    ensures DecodeHeader(d, at) == Some(Head(ty, code, |Header(ty, code)|))
  {
    var s := Header(ty, code);
    AtFirst3(d, at, s);
  }

  lemma PrefixReads(d: bytes, at: nat, n: nat)
    requires n <= MAX_BLOB && At(d, at, Prefix(n))
    ensures VlLen(d, at) == Some((n, |Prefix(n)|))
  {
    var s := Prefix(n);
    AtFirst3(d, at, s);
    PrefixDigits(n);
  }

  lemma PrefixDigits(n: nat)
    requires n <= MAX_BLOB
    ensures n > 12480 ==>
      var m := n - 12481;
      m == m / 65536 * 65536 + m / 256 % 256 * 256 + m % 256 && 0 <= m / 65536 <= 13
    ensures 192 < n <= 12480 ==> 0 <= (n - 193) / 256 <= 47
  {
    if n > 12480 {
      var m := n - 12481;
      assert m / 65536 == m / 256 / 256;
    }
  }

  lemma {:induction false} StepsRead(d: bytes, at: nat, p: seq<Step>)
    requires At(d, at, SerSteps(p)) && forall s | s in p :: ValidStep(s)
    ensures PathsEnd(d, at) == PathsEnd(d, at + |SerSteps(p)|)
    decreases |p|
  {
    if p != [] {
      var s := p[0];
      AtSplit(d, at, [s.flag] + s.parts, SerSteps(p[1..]));
      AtIndex(d, at, [s.flag] + s.parts, 0);
      assert s in p;
      StepsRead(d, at + 1 + |s.parts|, p[1..]);
    }
  }

  lemma {:induction false} PathsRead(d: bytes, at: nat, paths: seq<seq<Step>>)
    requires |paths| > 0 && At(d, at, SerPaths(paths))
    requires forall p, s | p in paths && s in p :: ValidStep(s)
    ensures PathsEnd(d, at) == Some(at + |SerPaths(paths)|)
    decreases |paths|
  {
    var one := SerSteps(paths[0]);
    assert paths[0] in paths;
    if |paths| == 1 {
      PathRead(d, at, paths[0], 0x00);
    } else {
      var rest := SerPaths(paths[1..]);
      assert SerPaths(paths) == (one + [0xFF]) + rest;
      AtSplit(d, at, one + [0xFF], rest);
      PathRead(d, at, paths[0], 0xFF);
      PathsRead(d, at + |one| + 1, paths[1..]);
    }
  }

  lemma PathRead(d: bytes, at: nat, steps: seq<Step>, sep: byte)
    requires At(d, at, SerSteps(steps) + [sep]) && forall s | s in steps :: ValidStep(s)
    ensures at + |SerSteps(steps)| < |d| && d[at + |SerSteps(steps)|] == sep
    ensures PathsEnd(d, at) == PathsEnd(d, at + |SerSteps(steps)|)
  {
    AtSplit(d, at, SerSteps(steps), [sep]);
    AtIndex(d, at + |SerSteps(steps)|, [sep], 0);
    StepsRead(d, at, steps);
  }

  lemma SimpleReads(f: Field, d: bytes, at: nat)
    requires Valid(f) && !f.Container? && At(d, at, Body(f))
    ensures SimpleStop(d, f.Ty(), at) == Some(at + |Body(f)|)
  {
    match f
    case Leaf(ty, _, data) =>
      AtIndex(d, at, data, 0);
      if ty == STI_ISSUE {
        assert d[at..at + 20] == data[..20];
        assert |data| == 20 ==> data[..20] == data;
      }
    case Blob(_, _, payload) =>
      AtSplit(d, at, Prefix(|payload|), payload);
      PrefixReads(d, at, |payload|);
    case PathSet(_, paths) =>
      PathsRead(d, at, paths);
  }

  lemma FieldFound(d: bytes, at: nat, end: nat, h: Head, stop: nat)
    requires at <= end <= |d| && DecodeHeader(d, at) == Some(h) && at + h.len <= stop <= end
    requires if IsContainerType(h.ty) then ChildrenEnd(d, at + h.len, end, EndMarker(h.ty)) == Some(stop)
             else SimpleStop(d, h.ty, at + h.len) == Some(stop)
    ensures FieldAt(d, at, end) == Some(FieldRef(h.ty, h.field, at, at + h.len, stop))
  {
  }

  /** Reading back a written field gives its type, code and extents, whatever surrounds it. */
  lemma {:induction false} ParseAfterPrint(f: Field, d: bytes, at: nat, end: nat)
    requires Valid(f) && At(d, at, Ser(f)) && at + |Ser(f)| <= end <= |d|
    ensures FieldAt(d, at, end) == Some(RefOf(f, at))
    decreases f, 2
  {
    hide FieldAt, ChildrenEnd, SimpleStop, DecodeHeader, Header, At, PathsEnd;
    AtSplit(d, at, HeaderOf(f), Body(f));
    HeaderReads(d, at, f.Ty(), f.code);
    var body := at + |HeaderOf(f)|;
    var h := Head(f.Ty(), f.code, |HeaderOf(f)|);
    match f {
      case Container(ty, _, children) =>
        ChildrenAfterPrint(children, d, body, end, ty);
        FieldFound(d, at, end, h, at + |Ser(f)|);
      case _ =>
        SimpleReads(f, d, body);
        FieldFound(d, at, end, h, at + |Ser(f)|);
    }
  }

  lemma {:induction false} ChildrenAfterPrint(fs: seq<Field>, d: bytes, p: nat, end: nat, ty: byte)
    requires ValidAll(fs) && IsContainerType(ty)
    requires forall c | c in fs :: !(c.Ty() == ty && c.code == 1)
    requires At(d, p, SerAll(fs) + [EndMarker(ty)])
    requires p + |SerAll(fs)| + 1 <= end <= |d|
    ensures ChildrenEnd(d, p, end, EndMarker(ty)) == Some(p + |SerAll(fs)| + 1)
    decreases fs, 0
  {
    hide FieldAt, Valid, Body;
    if fs == [] {
      AtIndex(d, p, SerAll(fs) + [EndMarker(ty)], 0);
    } else {
      var rest := SerAll(fs[1..]) + [EndMarker(ty)];
      assert SerAll(fs) + [EndMarker(ty)] == Ser(fs[0]) + rest;
      AtSplit(d, p, Ser(fs[0]), rest);
      AtIndex(d, p, Ser(fs[0]), 0);
      FirstByte(fs[0], ty);
      assert fs[0] in fs;
      ParseAfterPrint(fs[0], d, p, end);
      ChildrenAfterPrint(fs[1..], d, p + |Ser(fs[0])|, end, ty);
    }
  }

  /** A written list of fields parses into exactly those fields, in order and without gaps. */
  lemma {:induction false} ParseAllAfterPrint(fs: seq<Field>, d: bytes, at: nat)
    requires ValidAll(fs) && At(d, at, SerAll(fs))
    ensures FieldsIn(d, at, at + |SerAll(fs)|) == Some(RefsOf(fs, at))
    decreases |fs|
  {
    hide FieldAt, Valid, Ser, At;
    if fs != [] {
      AtSplit(d, at, Ser(fs[0]), SerAll(fs[1..]));
      ParseAfterPrint(fs[0], d, at, at + |SerAll(fs)|);
      ParseAllAfterPrint(fs[1..], d, at + |Ser(fs[0])|);
    }
  }
}
