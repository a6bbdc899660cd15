/**
 * The serialized-object format as a tree: what a field is, which trees can be written, and the
 * bytes each of them is written as. Both walkers (FullWalker, LightWalker) are judged against it.
 */
module FieldTree {
  import opened Bytes
  import opened Wrappers

  const STI_AMOUNT := 6
  const STI_VL := 7
  const STI_ACCOUNT := 8
  const STI_NUMBER := 9
  const STI_OBJECT := 14
  const STI_ARRAY := 15
  const STI_PATHSET := 18
  const STI_VECTOR256 := 19
  const STI_UINT96 := 20
  const STI_UINT192 := 21
  const STI_UINT384 := 22
  const STI_UINT512 := 23
  const STI_ISSUE := 24
  const STI_XCHAIN_BRIDGE := 25
  const STI_CURRENCY := 26

  const OBJECT_END: byte := 0xE1
  const ARRAY_END: byte := 0xF1

  /** One path step: a flag byte naming which 20-byte parts follow, and those parts. */
  datatype Step = Step(flag: byte, parts: bytes)

  datatype Field =
    | Leaf(ty: byte, code: byte, data: bytes)                // fixed width, amount or issue
    | Blob(ty: byte, code: byte, payload: bytes)             // length-prefixed
    | PathSet(code: byte, paths: seq<seq<Step>>)
    | Container(ty: byte, code: byte, children: seq<Field>)  // object or array
  {
    function Ty(): byte {
      if PathSet? then STI_PATHSET else ty
    }
  }

  /** Width of the types whose size does not depend on their content. */
  function FixedWidth(ty: int): Option<nat> {
    match ty
    case 1 => Some(2)
    case 2 => Some(4)
    case 3 => Some(8)
    case 4 => Some(16)
    case 5 => Some(32)
    case 16 => Some(1)
    case 17 => Some(20)
    case 26 => Some(20)
    case 20 => Some(12)
    case 9 => Some(12)
    case 21 => Some(24)
    case 22 => Some(48)
    case 23 => Some(64)
    case _ => None
  }

  predicate IsBlobType(ty: int) {
    ty == STI_VL || ty == STI_ACCOUNT || ty == STI_VECTOR256
  }

  predicate IsContainerType(ty: int) {
    ty == STI_OBJECT || ty == STI_ARRAY
  }

  /** No bit outside 0x31 is set. */
  predicate StepBits(f: byte) {
    f == f % 2 + 16 * (f / 16 % 2) + 32 * (f / 32 % 2)
  }

  /** Bytes announced by the bits 0x01, 0x10 and 0x20. */
  function StepSize(f: byte): nat {
    20 * (f % 2 + f / 16 % 2 + f / 32 % 2)
  }

  /** The marker that closes a container, which none of its direct children may begin with. */
  function EndMarker(ty: int): byte {
    if ty == STI_OBJECT then OBJECT_END else ARRAY_END
  }

  const MAX_BLOB := 929984

  predicate ValidStep(s: Step) {
    s.flag != 0 && StepBits(s.flag) && |s.parts| == StepSize(s.flag)
  }

  predicate ValidLeaf(ty: byte, data: bytes) {
    if FixedWidth(ty).Some? then
      |data| == FixedWidth(ty).value
    else if ty == STI_AMOUNT then
      (|data| == 8 && data[0] < 128) || (|data| == 48 && data[0] >= 128)
    else
      ty == STI_ISSUE && ((|data| == 20 && AllZero(data)) || (|data| == 40 && !AllZero(data[..20])))
  }

  /** The trees the format can express. */
  predicate Valid(f: Field)
    decreases f, 1
  {
    match f
    case Leaf(ty, _, data) => ValidLeaf(ty, data)
    case Blob(ty, _, payload) => IsBlobType(ty) && |payload| <= MAX_BLOB
    case PathSet(_, paths) => |paths| > 0 && forall p, s | p in paths && s in p :: ValidStep(s)
    case Container(ty, _, children) =>
      && IsContainerType(ty)
      && (forall c | c in children :: !(c.Ty() == ty && c.code == 1))
      && ValidAll(children)
  }

  predicate ValidAll(fs: seq<Field>)
    decreases fs, 0
  {
    fs == [] || (Valid(fs[0]) && ValidAll(fs[1..]))
  }

  /** Canonical header: one byte when both codes are below 16, else the long code follows. */
  function Header(ty: byte, code: byte): (h: bytes)
    requires ty > 0
    ensures 1 <= |h| <= 3
  {
    if ty < 16 then
      if 0 < code < 16 then [ty * 16 + code] else [ty * 16, code]
    else
      if 0 < code < 16 then [code, ty] else [0, ty, code]
  }

  /** Length prefix of a blob: one, two or three bytes. */
  function Prefix(n: nat): (p: bytes)
    requires n <= MAX_BLOB
    ensures 1 <= |p| <= 3
  {
    if n <= 192 then [n]
    else if n <= 12480 then [193 + (n - 193) / 256, (n - 193) % 256]
    else [241 + (n - 12481) / 65536, (n - 12481) / 256 % 256, (n - 12481) % 256]
  }

  function SerSteps(p: seq<Step>): bytes {
    if p == [] then [] else [p[0].flag] + p[0].parts + SerSteps(p[1..])
  }

  /** Paths separated by 0xFF, closed by 0x00. */
  function SerPaths(paths: seq<seq<Step>>): (s: bytes)
    requires |paths| > 0
    ensures |s| > 0
  {
    if |paths| == 1 then SerSteps(paths[0]) + [0x00]
    else SerSteps(paths[0]) + [0xFF] + SerPaths(paths[1..])
  }

  function HeaderOf(f: Field): bytes
    requires Valid(f)
  {
    Header(f.Ty(), f.code)
  }

  /** What follows the header. */
  function Body(f: Field): (s: bytes)
    requires Valid(f)
    ensures |s| > 0
    decreases f, 2
  {
    match f
    case Leaf(_, _, data) => data
    case Blob(_, _, payload) => Prefix(|payload|) + payload
    case PathSet(_, paths) => SerPaths(paths)
    case Container(ty, _, children) => SerAll(children) + [EndMarker(ty)]
  }

  function Ser(f: Field): (s: bytes)
    requires Valid(f)
    ensures |s| == |HeaderOf(f)| + |Body(f)|
    decreases f, 3
  {
    HeaderOf(f) + Body(f)
  }

  function SerAll(fs: seq<Field>): bytes
    requires ValidAll(fs)
    decreases fs, 0
  {
    if fs == [] then [] else Ser(fs[0]) + SerAll(fs[1..])
  }

  lemma {:induction false} ValidAllIndex(fs: seq<Field>, k: nat)
    requires ValidAll(fs) && k < |fs|
    ensures Valid(fs[k]) && ValidAll(fs[..k]) && ValidAll(fs[k..])
  {
    if k == 0 {
      assert fs[0..] == fs;
    } else {
      ValidAllIndex(fs[1..], k - 1);
      assert fs[..k][1..] == fs[1..][..k - 1];
      assert fs[1..][k - 1..] == fs[k..];
    }
  }

  /** The serialization of a list splits at every element. */
  lemma {:induction false} SerAllSplit(fs: seq<Field>, k: nat)
    requires ValidAll(fs) && k < |fs|
    ensures Valid(fs[k]) && ValidAll(fs[..k]) && ValidAll(fs[k + 1..])
    ensures SerAll(fs) == SerAll(fs[..k]) + Ser(fs[k]) + SerAll(fs[k + 1..])
  {
    if k == 0 {
      assert fs[..0] == [];
    } else {
      var rest := fs[1..];
      SerAllSplit(rest, k - 1);
      assert fs[..k][1..] == rest[..k - 1] && fs[..k][0] == fs[0];
      assert rest[k..] == fs[k + 1..] && rest[k - 1] == fs[k];
      SerAllCons(fs[..k]);
      Reassociate(Ser(fs[0]), SerAll(rest[..k - 1]), Ser(fs[k]), SerAll(fs[k + 1..]));
    }
  }

  lemma Reassociate(a: bytes, b: bytes, c: bytes, d: bytes)
    ensures a + (b + c + d) == (a + b) + c + d
  {
  }

  lemma SerAllCons(fs: seq<Field>)
    requires fs != [] && Valid(fs[0]) && ValidAll(fs[1..])
    ensures ValidAll(fs) && SerAll(fs) == Ser(fs[0]) + SerAll(fs[1..])
  {
  }

  /** A field starts with a container's end marker only if it carries that very code. */
  lemma FirstByte(f: Field, ty: byte)
    requires Valid(f) && IsContainerType(ty)
    ensures Ser(f)[0] == EndMarker(ty) <==> f.Ty() == ty && f.code == 1
  {
    assert Ser(f)[0] == HeaderOf(f)[0];
  }
}
