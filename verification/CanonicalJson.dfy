/**
 * `canonicalJSONStringify`: object keys sorted by code units, undefined members dropped, no white
 * space. An object is the list of the assignments that built it: its own keys in order of first
 * assignment, each with the value assigned last.
 */
module CanonicalJson {
  import opened JsonText
  import opened Sequences
  import opened Wrappers

  datatype Json =
    | Null
    | Bool(b: bool)
    | Num(n: int)
    | NonFinite
    | Str(s: Text)
    | Arr(items: seq<Json>)
    | Obj(members: seq<Member>)
    | Undefined
    | Unsupported  // a function, a symbol or a big integer

  datatype Member = Member(key: Text, value: Json)

  /** `value[k]`: the last assignment, or undefined. */
  function Lookup(ms: seq<Member>, k: Text): (v: Json)
    ensures v != Undefined ==> exists i :: 0 <= i < |ms| && ms[i].key == k && v == ms[i].value
  {
    if ms == [] then Undefined
    else if ms[|ms| - 1].key == k then ms[|ms| - 1].value
    else
      var front := ms[..|ms| - 1];
      assert forall i :: 0 <= i < |front| ==> front[i] == ms[i];
      Lookup(front, k)
  }

  /** `Object.keys`. */
  function OwnKeys(ms: seq<Member>): (ks: seq<Text>)
    ensures Distinct(ks)
    ensures forall k :: k in ks <==> exists m :: m in ms && m.key == k
  {
    if ms == [] then [] else
      var last := ms[|ms| - 1];
      var front := OwnKeys(ms[..|ms| - 1]);
      assert ms == ms[..|ms| - 1] + [last];
      if last.key in front then front else front + [last.key]
  }

  /** The keys whose value is not undefined. */
  function Kept(ks: seq<Text>, ms: seq<Member>): (r: seq<Text>)
    requires Distinct(ks)
    ensures Distinct(r)
    ensures forall k :: k in r <==> k in ks && Lookup(ms, k) != Undefined
  {
    if ks == [] then [] else
      var rest := Kept(ks[1..], ms);
      assert ks == [ks[0]] + ks[1..];
      if Lookup(ms, ks[0]) == Undefined then rest else [ks[0]] + rest
  }

  /** String order by code units. */
  predicate Less(a: Text, b: Text) {
    b != [] && (a == [] || a[0] < b[0] || (a[0] == b[0] && Less(a[1..], b[1..])))
  }

  predicate Ascending(ks: seq<Text>) {
    forall i, j :: 0 <= i < j < |ks| ==> Less(ks[i], ks[j])
  }

  function Insert(k: Text, ks: seq<Text>): (r: seq<Text>)
    requires Ascending(ks) && k !in ks
    ensures Ascending(r)
    ensures forall x :: x in r <==> x == k || x in ks
  {
    if ks == [] then [k]
    else if Less(ks[0], k) then
      var rest := Insert(k, ks[1..]);
      assert ks == [ks[0]] + ks[1..];
      assert forall x :: x in rest ==> Less(ks[0], x);
      [ks[0]] + rest
    else
      LessTotal(k, ks[0]);
      LessAll(k, ks);
      [k] + ks
  }

  lemma LessAll(k: Text, ks: seq<Text>)
    requires ks != [] && Less(k, ks[0]) && Ascending(ks)
    ensures forall i :: 0 <= i < |ks| ==> Less(k, ks[i])
  {
    forall i | 0 < i < |ks| ensures Less(k, ks[i]) {
      LessTransitive(k, ks[0], ks[i]);
    }
  }

  function Sorted(ks: seq<Text>): (r: seq<Text>)
    requires Distinct(ks)
    ensures Ascending(r)
    ensures forall x :: x in r <==> x in ks
  {
    if ks == [] then [] else
      assert ks == [ks[0]] + ks[1..];
      Insert(ks[0], Sorted(ks[1..]))
  }

  /** The keys an object is printed with, in printing order. */
  function PrintedKeys(ms: seq<Member>): (ks: seq<Text>)
    ensures Ascending(ks)
    ensures forall k :: k in ks <==> Lookup(ms, k) != Undefined
  {
    var ks := Sorted(Kept(OwnKeys(ms), ms));
    assert forall k :: Lookup(ms, k) != Undefined ==> k in OwnKeys(ms);
    ks
  }

  /** The canonical text, or none where the source throws. */
  function Canon(v: Json): Option<Text>
    decreases v, 1, 0
  {
    match v
    case Null => Some(Ascii("null"))
    case Str(s) => Some(Quoted(s))
    case Bool(b) => Some(if b then Ascii("true") else Ascii("false"))
    case Num(n) => Some(Number(n))
    case NonFinite => None
    case Arr(items) =>
      (match CanonItems(v, 0)
       case None => None
       case Some(t) => Some([OPEN_BRACKET] + t + [CLOSE_BRACKET]))
    case Obj(ms) =>
      (match CanonMembers(v, PrintedKeys(ms), 0)
       case None => None
       case Some(t) => Some([OPEN_BRACE] + t + [CLOSE_BRACE]))
    case Undefined => None
    case Unsupported => None
  }

  /** Nothing before the first element, a comma before each later one. */
  function Separator(i: nat): Text {
    if i == 0 then [] else [COMMA]
  }

  function CanonItems(v: Json, i: nat): Option<Text>
    requires v.Arr? && i <= |v.items|
    decreases v, 0, |v.items| - i
  {
    if i == |v.items| then Some([]) else
      match Canon(v.items[i])
      case None => None
      case Some(t) =>
        match CanonItems(v, i + 1)
        case None => None
        case Some(rest) => Some(Separator(i) + (t + rest))
  }

  function CanonMembers(v: Json, ks: seq<Text>, i: nat): Option<Text>
    requires v.Obj? && i <= |ks| && forall k :: k in ks ==> Lookup(v.members, k) != Undefined
    decreases v, 0, |ks| - i
  {
    if i == |ks| then Some([]) else
      match Canon(Lookup(v.members, ks[i]))
      case None => None
      case Some(t) =>
        match CanonMembers(v, ks, i + 1)
        case None => None
        case Some(rest) => Some(Separator(i) + (Quoted(ks[i]) + ([COLON] + (t + rest))))
  }

  /** Equal up to the order of keys, overwritten assignments, and undefined members. */
  ghost predicate Same(v: Json, w: Json)
    decreases v
  {
    match v
    case Arr(items) =>
      w.Arr? && |items| == |w.items| && forall i :: 0 <= i < |items| ==> Same(items[i], w.items[i])
    case Obj(ms) =>
      && w.Obj?
      && (forall k :: Lookup(ms, k) == Undefined <==> Lookup(w.members, k) == Undefined)
      && (forall k :: Lookup(ms, k) != Undefined ==> Same(Lookup(ms, k), Lookup(w.members, k)))
    case _ => v == w
  }

  lemma {:induction false} LessTotal(a: Text, b: Text)
    ensures Less(a, b) || a == b || Less(b, a)
  {
    if a != [] && b != [] && a[0] == b[0] {
      LessTotal(a[1..], b[1..]);
      assert a == [a[0]] + a[1..] && b == [b[0]] + b[1..];
    }
  }

  lemma {:induction false} LessTransitive(a: Text, b: Text, c: Text)
    requires Less(a, b) && Less(b, c)
    ensures Less(a, c)
  {
    if a != [] && a[0] == b[0] == c[0] {
      LessTransitive(a[1..], b[1..], c[1..]);
    }
  }

  lemma {:induction false} LessStrict(a: Text)
    ensures !Less(a, a)
  {
    if a != [] {
      LessStrict(a[1..]);
    }
  }

  /** The two strings part at `p`: the first has ended there, or has the smaller unit. */
  predicate PartsBelow(a: Text, b: Text, p: nat) {
    p < |b| && p <= |a| && a[..p] == b[..p] && (p == |a| || a[p] < b[p])
  }

  lemma SameFirst(a: Text, b: Text, p: nat)
    requires 0 < p <= |a| && p <= |b| && a[..p] == b[..p]
    ensures a[0] == b[0]
  {
    assert a[..p][0] == b[..p][0];
  }

  /** String order, said by the place where two strings part. */
  lemma {:induction false} LessIff(a: Text, b: Text)
    ensures Less(a, b) <==> exists p: nat :: PartsBelow(a, b, p)
  {
    if a == [] || b == [] || a[0] != b[0] {
      assert b != [] && (a == [] || a[0] < b[0]) ==> PartsBelow(a, b, 0);
      forall p: nat | PartsBelow(a, b, p) ensures p == 0 {
        if p > 0 {
          SameFirst(a, b, p);
        }
      }
    } else {
      LessIff(a[1..], b[1..]);
      if p: nat :| PartsBelow(a, b, p) {
        assert p > 0 && a[1..][..p - 1] == a[..p][1..] && b[1..][..p - 1] == b[..p][1..];
        assert PartsBelow(a[1..], b[1..], p - 1);
      }
      if p: nat :| PartsBelow(a[1..], b[1..], p) {
        assert a[..p + 1] == [a[0]] + a[1..][..p] && b[..p + 1] == [b[0]] + b[1..][..p];
        assert PartsBelow(a, b, p + 1);
      }
    }
  }

  /** Each two keys of an object that are printed one after the other part in ascending order of code units. */
  lemma KeysAscend(ms: seq<Member>, i: nat, j: nat)
    requires i < j < |PrintedKeys(ms)|
    ensures exists p: nat :: PartsBelow(PrintedKeys(ms)[i], PrintedKeys(ms)[j], p)
  {
    LessIff(PrintedKeys(ms)[i], PrintedKeys(ms)[j]);
  }
}
