/**
 * What the canonical text is for: it identifies the value up to key order and dropped members. The
 * text of any value, with whatever may follow it, can be read back in one way only.
 */
module CanonicalExact {
  import opened CanonicalJson
  import opened JsonText

  /** The first unit of a value's text tells which kind of value it is. */
  predicate StartsAs(v: Json, u: Unit) {
    match v
    case Null => u == 110
    case Bool(b) => u == if b then 116 else 102
    case Num(n) => u == MINUS || 48 <= u <= 57
    case Str(_) => u == QUOTE
    case Arr(_) => u == OPEN_BRACKET
    case Obj(_) => u == OPEN_BRACE
    case _ => false
  }

  lemma StartOf(v: Json, r: Text)
    requires Canon(v).Some?
    ensures Canon(v).value + r != [] && StartsAs(v, (Canon(v).value + r)[0])
  {
    hide Escape, DigitUnits;
    if v.Num? {
      NumberStart(v.n, r);
    }
  }

  lemma SameKind(v: Json, w: Json, u: Unit)
    requires StartsAs(v, u) && StartsAs(w, u)
    ensures v.Null? == w.Null? && v.Num? == w.Num? && v.Str? == w.Str? && v.Arr? == w.Arr? && v.Obj? == w.Obj?
    ensures v.Bool? ==> w == v
    ensures !v.NonFinite? && !v.Undefined? && !v.Unsupported?
  {
  }

  lemma DropOpen(u: Unit, t: Text, c: Unit, r: Text)
    ensures (([u] + t + [c]) + r)[1..] == t + ([c] + r)
  {
  }

  lemma ArrText(v: Json, r: Text)
    requires v.Arr? && Canon(v).Some?
    ensures CanonItems(v, 0).Some?
    ensures (Canon(v).value + r)[1..] == CanonItems(v, 0).value + ([CLOSE_BRACKET] + r)
  {
    hide CanonItems;
    DropOpen(OPEN_BRACKET, CanonItems(v, 0).value, CLOSE_BRACKET, r);
  }

  lemma ObjText(v: Json, r: Text)
    requires v.Obj? && Canon(v).Some?
    ensures CanonMembers(v, PrintedKeys(v.members), 0).Some?
    ensures (Canon(v).value + r)[1..] == CanonMembers(v, PrintedKeys(v.members), 0).value + ([CLOSE_BRACE] + r)
  {
    hide CanonMembers;
    DropOpen(OPEN_BRACE, CanonMembers(v, PrintedKeys(v.members), 0).value, CLOSE_BRACE, r);
  }

  /** Two values whose texts, each followed by anything that can follow a value, agree are the same. */
  lemma {:induction false} ReadBack(v: Json, w: Json, r: Text, q: Text)
    requires Canon(v).Some? && Canon(w).Some? && Ends(r) && Ends(q)
    requires Canon(v).value + r == Canon(w).value + q
    ensures Same(v, w) && r == q
    decreases v, 1, 0
  {
    hide CanonItems, CanonMembers, Escape, DigitUnits, Lookup, Number;
    StartOf(v, r);
    StartOf(w, q);
    SameKind(v, w, (Canon(v).value + r)[0]);
    match v
    case Null => Overlap(Canon(v).value, Canon(w).value, r, q);
    case Bool(_) => Overlap(Canon(v).value, Canon(w).value, r, q);
    case Num(n) => NumberReadBack(n, w.n, r, q);
    case Str(s) => QuotedReadBack(s, w.s, r, q);
    case Arr(items) =>
      hide Canon;
      ArrText(v, r);
      ArrText(w, q);
      ItemsReadBack(v, w, 0, r, q);
    case Obj(ms) =>
      hide Canon, Ends;
      ObjText(v, r);
      ObjText(w, q);
      var ks, ls := PrintedKeys(ms), PrintedKeys(w.members);
      MembersReadBack(v, w, ks, ls, 0, r, q);
      assert ks == ls;
  }

  lemma ItemsNext(v: Json, i: nat, r: Text)
    requires v.Arr? && i <= |v.items| && CanonItems(v, i).Some?
    ensures var x := CanonItems(v, i).value + ([CLOSE_BRACKET] + r);
            if i == |v.items| then x == [CLOSE_BRACKET] + r else
              && Canon(v.items[i]).Some? && CanonItems(v, i + 1).Some?
              && x == Separator(i) + (Canon(v.items[i]).value + (CanonItems(v, i + 1).value + ([CLOSE_BRACKET] + r)))
  {
    hide Canon, Separator;
    if i < |v.items| {
      var t, rest := Canon(v.items[i]).value, CanonItems(v, i + 1).value;
      Assoc(Separator(i), t + rest, [CLOSE_BRACKET] + r);
      Assoc(t, rest, [CLOSE_BRACKET] + r);
    }
  }

  lemma ItemsEnd(v: Json, i: nat, r: Text)
    requires v.Arr? && i <= |v.items| && CanonItems(v, i).Some?
    ensures var x := CanonItems(v, i).value + ([CLOSE_BRACKET] + r);
            x != [] && (x[0] == CLOSE_BRACKET <==> i == |v.items|) && (i > 0 ==> Ends(x))
  {
    hide Canon, CanonItems;
    ItemsNext(v, i, r);
    if i < |v.items| {
      StartOf(v.items[i], CanonItems(v, i + 1).value + ([CLOSE_BRACKET] + r));
    }
  }

  lemma SameSeparator(i: nat, r: Text, q: Text)
    requires Separator(i) + r == Separator(i) + q
    ensures r == q
  {
    Overlap(Separator(i), Separator(i), r, q);
  }

  lemma {:induction false} ItemsReadBack(v: Json, w: Json, i: nat, r: Text, q: Text)
    requires v.Arr? && w.Arr? && i <= |v.items| && i <= |w.items|
    requires CanonItems(v, i).Some? && CanonItems(w, i).Some?
    requires CanonItems(v, i).value + ([CLOSE_BRACKET] + r) == CanonItems(w, i).value + ([CLOSE_BRACKET] + q)
    ensures |v.items| == |w.items| && r == q
    ensures forall k :: i <= k < |v.items| ==> Same(v.items[k], w.items[k])
    decreases v, 0, |v.items| - i
  {
    hide Canon, CanonItems, Separator, Same, Ends;
    ItemsEnd(v, i, r);
    ItemsEnd(w, i, q);
    ItemsNext(v, i, r);
    ItemsNext(w, i, q);
    if i == |v.items| {
      Overlap([CLOSE_BRACKET], [CLOSE_BRACKET], r, q);
    } else {
      var x := CanonItems(v, i + 1).value + ([CLOSE_BRACKET] + r);
      var y := CanonItems(w, i + 1).value + ([CLOSE_BRACKET] + q);
      SameSeparator(i, Canon(v.items[i]).value + x, Canon(w.items[i]).value + y);
      ItemsEnd(v, i + 1, r);
      ItemsEnd(w, i + 1, q);
      ReadBack(v.items[i], w.items[i], x, y);
      ItemsReadBack(v, w, i + 1, r, q);
    }
  }

  predicate Prints(v: Json, ks: seq<Text>) {
    v.Obj? && forall k :: k in ks ==> Lookup(v.members, k) != Undefined
  }

  /** What follows the key of member `i`. */
  function AfterKey(v: Json, ks: seq<Text>, i: nat, r: Text): Text
    requires Prints(v, ks) && i < |ks| && CanonMembers(v, ks, i).Some?
  {
    [COLON] + (Canon(Lookup(v.members, ks[i])).value + (CanonMembers(v, ks, i + 1).value + ([CLOSE_BRACE] + r)))
  }

  lemma MembersNext(v: Json, ks: seq<Text>, i: nat, r: Text)
    requires Prints(v, ks) && i <= |ks| && CanonMembers(v, ks, i).Some?
    ensures var x := CanonMembers(v, ks, i).value + ([CLOSE_BRACE] + r);
            if i == |ks| then x == [CLOSE_BRACE] + r else
              && Canon(Lookup(v.members, ks[i])).Some? && CanonMembers(v, ks, i + 1).Some?
              && x == Separator(i) + (Quoted(ks[i]) + AfterKey(v, ks, i, r))
  {
    hide Canon, Separator, Quoted, Lookup;
    if i < |ks| {
      var c := [CLOSE_BRACE] + r;
      var t, rest := Canon(Lookup(v.members, ks[i])).value, CanonMembers(v, ks, i + 1).value;
      Assoc(Separator(i), Quoted(ks[i]) + ([COLON] + (t + rest)), c);
      Assoc(Quoted(ks[i]), [COLON] + (t + rest), c);
      Assoc([COLON], t + rest, c);
      Assoc(t, rest, c);
    }
  }

  lemma QuoteFirst(s: Text, r: Text)
    ensures (Quoted(s) + r)[0] == QUOTE
  {
  }

  lemma MembersEnd(v: Json, ks: seq<Text>, i: nat, r: Text)
    requires Prints(v, ks) && i <= |ks| && CanonMembers(v, ks, i).Some?
    ensures var x := CanonMembers(v, ks, i).value + ([CLOSE_BRACE] + r);
            x != [] && (x[0] == CLOSE_BRACE <==> i == |ks|) && (i > 0 ==> Ends(x))
  {
    hide Canon, CanonMembers, Quoted, Lookup, AfterKey;
    MembersNext(v, ks, i, r);
    if i < |ks| {
      QuoteFirst(ks[i], AfterKey(v, ks, i, r));
    }
  }

  lemma AfterKeyTail(v: Json, ks: seq<Text>, i: nat, r: Text)
    requires Prints(v, ks) && i < |ks| && CanonMembers(v, ks, i).Some?
    ensures AfterKey(v, ks, i, r)
            == [COLON] + (Canon(Lookup(v.members, ks[i])).value
                          + (CanonMembers(v, ks, i + 1).value + ([CLOSE_BRACE] + r)))
  {
  }

  lemma {:induction false} MembersReadBack(v: Json, w: Json, ks: seq<Text>, ls: seq<Text>, i: nat, r: Text, q: Text)
    requires Prints(v, ks) && Prints(w, ls) && i <= |ks| && i <= |ls|
    requires CanonMembers(v, ks, i).Some? && CanonMembers(w, ls, i).Some?
    requires CanonMembers(v, ks, i).value + ([CLOSE_BRACE] + r) == CanonMembers(w, ls, i).value + ([CLOSE_BRACE] + q)
    ensures |ks| == |ls| && r == q
    ensures forall k :: i <= k < |ks| ==> ks[k] == ls[k] && Same(Lookup(v.members, ks[k]), Lookup(w.members, ks[k]))
    decreases v, 0, |ks| - i
  {
    hide Canon, CanonMembers, Separator, Same, Ends, Quoted, AfterKey;
    MembersEnd(v, ks, i, r);
    MembersEnd(w, ls, i, q);
    MembersNext(v, ks, i, r);
    MembersNext(w, ls, i, q);
    if i == |ks| {
      Overlap([CLOSE_BRACE], [CLOSE_BRACE], r, q);
    } else {
      SameSeparator(i, Quoted(ks[i]) + AfterKey(v, ks, i, r), Quoted(ls[i]) + AfterKey(w, ls, i, q));
      QuotedReadBack(ks[i], ls[i], AfterKey(v, ks, i, r), AfterKey(w, ls, i, q));
      var x := CanonMembers(v, ks, i + 1).value + ([CLOSE_BRACE] + r);
      var y := CanonMembers(w, ls, i + 1).value + ([CLOSE_BRACE] + q);
      AfterKeyTail(v, ks, i, r);
      AfterKeyTail(w, ls, i, q);
      var a, b := Lookup(v.members, ks[i]), Lookup(w.members, ls[i]);
      Overlap([COLON], [COLON], Canon(a).value + x, Canon(b).value + y);
      MembersEnd(v, ks, i + 1, r);
      MembersEnd(w, ls, i + 1, q);
      ReadBack(a, b, x, y);
      MembersReadBack(v, w, ks, ls, i + 1, r, q);
    }
  }

  /** Ascending lists of the same keys are the same list. */
  lemma {:induction false} AscendingUnique(ks: seq<Text>, ls: seq<Text>)
    requires Ascending(ks) && Ascending(ls) && forall k :: k in ks <==> k in ls
    ensures ks == ls
    decreases |ks|
  {
    hide Less;
    assert ls == [] || ls[0] in ls;
    if ks != [] {
      assert ks[0] in ls && ls[0] in ks;
      FirstIsLeast(ks, ls[0]);
      FirstIsLeast(ls, ks[0]);
      if Less(ks[0], ls[0]) && Less(ls[0], ks[0]) {
        LessTransitive(ks[0], ls[0], ks[0]);
        LessStrict(ks[0]);
      }
      RestKeys(ks);
      RestKeys(ls);
      AscendingUnique(ks[1..], ls[1..]);
      assert ks == [ks[0]] + ks[1..] && ls == [ls[0]] + ls[1..];
    }
  }

  lemma FirstIsLeast(ks: seq<Text>, k: Text)
    requires Ascending(ks) && k in ks
    ensures ks[0] == k || Less(ks[0], k)
  {
  }

  lemma RestKeys(ks: seq<Text>)
    requires Ascending(ks) && ks != []
    ensures Ascending(ks[1..])
    ensures forall k :: k in ks[1..] <==> k in ks && k != ks[0]
  {
    hide Less;
    assert ks == [ks[0]] + ks[1..];
    forall k | k in ks[1..] ensures k != ks[0] {
      assert Less(ks[0], k);
      LessStrict(k);
    }
  }

  /** Equal values print alike, or both throw. */
  lemma {:induction false} SamePrintsSame(v: Json, w: Json)
    requires Same(v, w)
    ensures Canon(v) == Canon(w)
    decreases v, 1, 0
  {
    hide Lookup;
    match v
    case Arr(items) => SameItems(v, w, 0);
    case Obj(ms) =>
      AscendingUnique(PrintedKeys(ms), PrintedKeys(w.members));
      SameMembers(v, w, PrintedKeys(ms), 0);
    case _ =>
  }

  lemma {:induction false} SameItems(v: Json, w: Json, i: nat)
    requires v.Arr? && Same(v, w) && i <= |v.items|
    ensures CanonItems(v, i) == CanonItems(w, i)
    decreases v, 0, |v.items| - i
  {
    if i < |v.items| {
      SamePrintsSame(v.items[i], w.items[i]);
      SameItems(v, w, i + 1);
    }
  }

  lemma {:induction false} SameMembers(v: Json, w: Json, ks: seq<Text>, i: nat)
    requires v.Obj? && Same(v, w) && i <= |ks| && Prints(v, ks)
    ensures Prints(w, ks) && CanonMembers(v, ks, i) == CanonMembers(w, ks, i)
    decreases v, 0, |ks| - i
  {
    hide Canon, Lookup, Quoted, Separator;
    if i < |ks| {
      SamePrintsSame(Lookup(v.members, ks[i]), Lookup(w.members, ks[i]));
      SameMembers(v, w, ks, i + 1);
    }
  }

  predicate DistinctMembers(ms: seq<Member>) {
    forall i, j :: 0 <= i < j < |ms| ==> ms[i].key != ms[j].key
  }

  lemma {:induction false} LookupAt(ms: seq<Member>, i: nat)
    requires DistinctMembers(ms) && i < |ms|
    ensures Lookup(ms, ms[i].key) == ms[i].value
  {
    var n := |ms| - 1;
    if i < n {
      LookupAt(ms[..n], i);
    }
  }

  /** The canonical text identifies the value: two values print alike exactly when they are the same. */
  lemma SameTextIffSame(v: Json, w: Json)
    requires Canon(v).Some?
    ensures Canon(v) == Canon(w) <==> Same(v, w)
  {
    if Canon(v) == Canon(w) {
      ReadBack(v, w, [], []);
    }
    if Same(v, w) {
      SamePrintsSame(v, w);
    }
  }

  // ---- when there is a text ----

  /** Only finite numbers and the six kinds of JSON, at every depth; undefined members do not count. */
  ghost predicate Printable(v: Json)
    decreases v
  {
    match v
    case Arr(items) => forall i :: 0 <= i < |items| ==> Printable(items[i])
    case Obj(ms) => forall k :: Lookup(ms, k) != Undefined ==> Printable(Lookup(ms, k))
    case NonFinite => false
    case Undefined => false
    case Unsupported => false
    case _ => true
  }

  /** The canonical printer throws exactly on what is not printable. */
  lemma {:induction false} PrintsIff(v: Json)
    ensures Canon(v).Some? <==> Printable(v)
    decreases v, 1, 0
  {
    hide Ascii, Quoted, Number, CanonItems, CanonMembers;
    match v
    case Arr(items) => ItemsPrintIff(v, 0);
    case Obj(ms) =>
      MembersPrintIff(v, PrintedKeys(ms), 0);
      assert forall k :: Lookup(ms, k) != Undefined ==> k in PrintedKeys(ms);
    case _ =>
  }

  lemma {:induction false} ItemsPrintIff(v: Json, i: nat)
    requires v.Arr? && i <= |v.items|
    ensures CanonItems(v, i).Some? <==> forall k :: i <= k < |v.items| ==> Printable(v.items[k])
    decreases v, 0, |v.items| - i
  {
    hide Canon, Printable;
    if i < |v.items| {
      PrintsIff(v.items[i]);
      ItemsPrintIff(v, i + 1);
    }
  }

  lemma {:induction false} MembersPrintIff(v: Json, ks: seq<Text>, i: nat)
    requires v.Obj? && i <= |ks| && forall k :: k in ks ==> Lookup(v.members, k) != Undefined
    ensures CanonMembers(v, ks, i).Some? <==>
            forall j :: i <= j < |ks| ==> Printable(Lookup(v.members, ks[j]))
    decreases v, 0, |ks| - i
  {
    hide Canon, Printable, Quoted, Lookup;
    if i < |ks| {
      PrintsIff(Lookup(v.members, ks[i]));
      MembersPrintIff(v, ks, i + 1);
    }
  }
}
