/**
 * The guard-reposition pass on one loop body: where the guard call stands late, the contiguous
 * const, const, call (, drop) is moved to the front. The lemmas say what is moved, that the body is
 * only permuted, and that a second move changes nothing.
 */
module GuardPass {
  import opened Wrappers
  import opened WasmTree

  /** All the pass looks at in one instruction of the body at hand. */
  datatype Kind = Guard | Literal | Discard | Transfer | Other

  function KindOf(i: Instr, g: FuncId): Kind {
    if i == Call(g) then Guard
    else if i.Const? then Literal
    else if i.Drop? then Discard
    else if IsBranch(i) then Transfer
    else Other
  }

  function Kinds(s: seq<Instr>, g: FuncId): (k: seq<Kind>)
    ensures |k| == |s| && forall i :: 0 <= i < |s| ==> k[i] == KindOf(s[i], g)
  {
    seq(|s|, i requires 0 <= i < |s| => KindOf(s[i], g))
  }

  /** The guard comes before any other transfer (`guard_first_at_top_level`). */
  predicate GuardLeads(k: seq<Kind>) {
    k != [] && (k[0] == Guard || (k[0] != Transfer && GuardLeads(k[1..])))
  }

  function FirstGuard(k: seq<Kind>): (r: Option<nat>)
    ensures r.Some? ==> r.value < |k| && k[r.value] == Guard && forall i :: 0 <= i < r.value ==> k[i] != Guard
    ensures r.None? ==> forall i :: 0 <= i < |k| ==> k[i] != Guard
  {
    if k == [] then None
    else if k[0] == Guard then Some(0)
    else
      var r := FirstGuard(k[1..]);
      if r.None? then None else Some(r.value + 1)
  }

  datatype Plan = AtHead | NotAtTop | NotLiteral | Move(start: nat, end: nat)

  function PlanOf(k: seq<Kind>): (p: Plan)
    ensures p.Move? ==> p.start < p.end <= |k|
  {
    if GuardLeads(k) then AtHead
    else
      var ci := FirstGuard(k);
      if ci.None? then NotAtTop
      else if !(ci.value >= 2 && k[ci.value - 1] == Literal && k[ci.value - 2] == Literal) then NotLiteral
      else if ci.value == 2 then AtHead
      else Move(ci.value - 2, if ci.value + 1 < |k| && k[ci.value + 1] == Discard then ci.value + 2 else ci.value + 1)
  }

  datatype Outcome = AlreadyHead | Moved | NoGuard | Skip | Unverified

  function OutcomeOf(s: seq<Instr>, g: FuncId): Outcome {
    match PlanOf(Kinds(s, g))
    case AtHead => AlreadyHead
    case NotAtTop => if ContainsCall(s, g) then Unverified else NoGuard
    case NotLiteral => Skip
    case Move(_, _) => Moved
  }

  /** `s[start..end]` drained and inserted at the front. */
  function ToFront<T>(s: seq<T>, start: nat, end: nat): (r: seq<T>)
    requires start <= end <= |s|
    ensures |r| == |s|
  {
    s[start..end] + s[..start] + s[end..]
  }

  function Hoisted(s: seq<Instr>, g: FuncId): (r: seq<Instr>)
    ensures |r| == |s|
  {
    var p := PlanOf(Kinds(s, g));
    if p.Move? then ToFront(s, p.start, p.end) else s
  }

  lemma {:induction false} LeadsIffNoTransferBefore(k: seq<Kind>)
    ensures GuardLeads(k) <==> FirstGuard(k).Some? && forall i :: 0 <= i < FirstGuard(k).value ==> k[i] != Transfer
  {
    if k != [] && k[0] != Guard {
      LeadsIffNoTransferBefore(k[1..]);
      if FirstGuard(k).Some? {
        var n := FirstGuard(k).value;
        if forall i :: 0 <= i < n ==> k[i] != Transfer {
          forall i | 0 <= i < n - 1 ensures k[1..][i] != Transfer {
            assert k[1..][i] == k[i + 1];
          }
        }
        if GuardLeads(k) {
          forall i | 0 <= i < n ensures k[i] != Transfer {
            if i > 0 { assert k[i] == k[1..][i - 1]; }
          }
        }
      }
    }
  }

  /** What is moved: two literals, the first guard of the body and its drop, past at least one transfer. */
  lemma MoveShape(k: seq<Kind>)
    requires PlanOf(k).Move?
    ensures var Move(a, b) := PlanOf(k);
            && 0 < a && a + 3 <= b <= a + 4 && b <= |k|
            && k[a] == Literal && k[a + 1] == Literal && k[a + 2] == Guard && (b == a + 4 ==> k[a + 3] == Discard)
            && (forall i :: 0 <= i < a ==> k[i] != Guard) && (exists i :: 0 <= i < a && k[i] == Transfer)
  {
    LeadsIffNoTransferBefore(k);
    var n := FirstGuard(k).value;
    var i :| 0 <= i < n && k[i] == Transfer;
    assert i < n - 2;
  }

  /** "Two literals at the very start" never needs moving: the guard leads there already. */
  lemma StartIsAlreadyLed(k: seq<Kind>)
    requires |k| >= 3 && k[0] == Literal && k[1] == Literal && k[2] == Guard
    ensures GuardLeads(k) && PlanOf(k) == AtHead
  {
    assert k[1..][0] == k[1] && k[1..][1..] == k[2..] && k[2..][0] == Guard;
  }

  // ---- when the pass moves, over the instructions themselves ----

  /** The first call of the guard at the top level of the body. */
  predicate FirstCall(s: seq<Instr>, g: FuncId, n: nat) {
    n < |s| && s[n] == Call(g) && forall i :: 0 <= i < n ==> s[i] != Call(g)
  }

  /** Some call or control transfer comes earlier. */
  predicate Preceded(s: seq<Instr>, n: nat)
    requires n <= |s|
  {
    exists i :: 0 <= i < n && IsBranch(s[i])
  }

  predicate AfterLiterals(s: seq<Instr>, n: nat)
    requires n <= |s|
  {
    n >= 2 && s[n - 1].Const? && s[n - 2].Const?
  }

  /** The guard comes late, with its two literals right before it. */
  predicate Late(s: seq<Instr>, g: FuncId, n: nat) {
    FirstCall(s, g, n) && Preceded(s, n) && AfterLiterals(s, n)
  }

  /** Where the block that goes with the guard at `n` ends: a drop right after it goes along. */
  function BlockEnd(s: seq<Instr>, n: nat): (e: nat)
    requires n < |s|
    ensures n < e <= |s|
  {
    if n + 1 < |s| && s[n + 1].Drop? then n + 2 else n + 1
  }

  lemma FirstCallIs(s: seq<Instr>, g: FuncId)
    ensures var r := FirstGuard(Kinds(s, g));
            && (forall n: nat :: FirstCall(s, g, n) <==> r == Some(n))
            && (r.None? <==> forall i :: 0 <= i < |s| ==> s[i] != Call(g))
  {
    var r := FirstGuard(Kinds(s, g));
    forall i | 0 <= i < |s| ensures Kinds(s, g)[i] == Guard <==> s[i] == Call(g) {
      KindsMean(s[i], g);
    }
    forall n: nat ensures FirstCall(s, g, n) <==> r == Some(n) {
    }
  }

  lemma LeadsIs(s: seq<Instr>, g: FuncId, n: nat)
    requires FirstCall(s, g, n)
    ensures GuardLeads(Kinds(s, g)) <==> !Preceded(s, n)
  {
    var k := Kinds(s, g);
    FirstCallIs(s, g);
    LeadsIffNoTransferBefore(k);
    forall i | 0 <= i < n ensures k[i] == Transfer <==> IsBranch(s[i]) {
    }
  }

  lemma {:induction false} CalledAtTop(s: seq<Instr>, g: FuncId, n: nat)
    requires n < |s| && s[n] == Call(g)
    ensures g in Calls(s)
  {
    if n > 0 {
      CalledAtTop(s[1..], g, n - 1);
    }
  }

  /** Two literals at the very start leave no room for anything before them. */
  lemma NotAfterStart(s: seq<Instr>, g: FuncId, n: nat)
    requires FirstCall(s, g, n) && AfterLiterals(s, n) && n == 2
    ensures !Preceded(s, n)
  {
  }

  lemma OutcomeWith(s: seq<Instr>, g: FuncId, n: nat)
    requires FirstCall(s, g, n)
    ensures OutcomeOf(s, g) == if !Preceded(s, n) then AlreadyHead else if AfterLiterals(s, n) then Moved else Skip
  {
    hide Preceded;
    var k := Kinds(s, g);
    FirstCallIs(s, g);
    LeadsIs(s, g, n);
    if AfterLiterals(s, n) && n == 2 {
      NotAfterStart(s, g, n);
    }
    assert AfterLiterals(s, n) <==> n >= 2 && k[n - 1] == Literal && k[n - 2] == Literal;
  }

  lemma OutcomeWithout(s: seq<Instr>, g: FuncId)
    requires forall i :: 0 <= i < |s| ==> s[i] != Call(g)
    ensures OutcomeOf(s, g) == if g in Calls(s) then Unverified else NoGuard
  {
    FirstCallIs(s, g);
    ContainsIsCollected(s, g);
    LeadsIffNoTransferBefore(Kinds(s, g));
  }

  /**
   * Which outcome a body gets. A guard at the top level is moved exactly when it comes late and its
   * two literals stand right before it; it is at the head exactly when nothing precedes it, and
   * skipped exactly when something does and the literals do not. Without one the outcome says
   * whether the guard is called further inside.
   */
  lemma OutcomeIff(s: seq<Instr>, g: FuncId)
    ensures OutcomeOf(s, g) == Moved <==> exists n: nat :: Late(s, g, n)
    ensures OutcomeOf(s, g) == AlreadyHead <==> exists n: nat :: FirstCall(s, g, n) && !Preceded(s, n)
    ensures OutcomeOf(s, g) == Skip <==>
            exists n: nat :: FirstCall(s, g, n) && Preceded(s, n) && !AfterLiterals(s, n)
    ensures OutcomeOf(s, g) == Unverified <==> (forall i :: 0 <= i < |s| ==> s[i] != Call(g)) && g in Calls(s)
    ensures OutcomeOf(s, g) == NoGuard <==> g !in Calls(s)
  {
    hide OutcomeOf, Preceded, AfterLiterals, Calls, Kinds, PlanOf;
    FirstCallIs(s, g);
    var r := FirstGuard(Kinds(s, g));
    if r.Some? {
      assert FirstCall(s, g, r.value);
      OutcomeWith(s, g, r.value);
      CalledAtTop(s, g, r.value);
      assert Late(s, g, r.value) <==> Preceded(s, r.value) && AfterLiterals(s, r.value);
    } else {
      OutcomeWithout(s, g);
    }
  }

  /** What a late guard takes along to the front: its literals and its drop, nothing else. */
  lemma MovesBlock(s: seq<Instr>, g: FuncId, n: nat)
    requires Late(s, g, n)
    ensures OutcomeOf(s, g) == Moved
    ensures var e := BlockEnd(s, n); Hoisted(s, g) == s[n - 2..e] + s[..n - 2] + s[e..]
  {
    OutcomeIff(s, g);
    FirstCallIs(s, g);
    var k := Kinds(s, g);
    assert n + 1 < |s| ==> (k[n + 1] == Discard <==> s[n + 1].Drop?);
  }

  lemma KindsToFront(s: seq<Instr>, g: FuncId, a: nat, b: nat)
    requires a <= b <= |s|
    ensures Kinds(ToFront(s, a, b), g) == ToFront(Kinds(s, g), a, b)
  {
  }

  predicate JumpsAhead(s: seq<Instr>, r: seq<Instr>, g: FuncId,
                       before: seq<Instr>, block: seq<Instr>, after: seq<Instr>)
  {
    && s == before + block + after && r == block + before + after && before != [] && Call(g) !in before
    && 3 <= |block| <= 4 && block[0].Const? && block[1].Const? && block[2] == Call(g)
    && (|block| == 4 ==> block[3].Drop?)
  }

  /** A body is only permuted: one block of constants, guard and drop jumps ahead, the rest keeps its order. */
  lemma HoistPermutes(s: seq<Instr>, g: FuncId)
    ensures multiset(Hoisted(s, g)) == multiset(s)
    ensures OutcomeOf(s, g) != Moved ==> Hoisted(s, g) == s
    ensures OutcomeOf(s, g) == Moved ==>
      exists before, block, after :: JumpsAhead(s, Hoisted(s, g), g, before, block, after)
  {
    if OutcomeOf(s, g) == Moved {
      var before, block, after := Split(s, g);
      JumpPermutes(s, Hoisted(s, g), g, before, block, after);
    }
  }

  lemma Split(s: seq<Instr>, g: FuncId) returns (before: seq<Instr>, block: seq<Instr>, after: seq<Instr>)
    requires OutcomeOf(s, g) == Moved
    ensures JumpsAhead(s, Hoisted(s, g), g, before, block, after)
  {
    hide PlanOf, KindOf, GuardLeads;
    var k := Kinds(s, g);
    MoveShape(k);
    var Move(a, b) := PlanOf(k);
    assert Hoisted(s, g) == ToFront(s, a, b) && s == s[..b] + s[b..] && s[..b] == s[..a] + s[a..b];
    before, block, after := s[..a], s[a..b], s[b..];
    assert s == before + block + after && Hoisted(s, g) == block + before + after;
    KindsMean(s[a], g);
    KindsMean(s[a + 1], g);
    KindsMean(s[a + 2], g);
    if b == a + 4 {
      KindsMean(s[a + 3], g);
    }
    forall i | 0 <= i < |before| ensures before[i] != Call(g) {
      KindsMean(s[i], g);
    }
  }

  lemma KindsMean(i: Instr, g: FuncId)
    ensures KindOf(i, g) == Guard <==> i == Call(g)
    ensures KindOf(i, g) == Literal <==> i.Const?
    ensures KindOf(i, g) == Discard <==> i.Drop?
  {
  }

  lemma JumpPermutes(s: seq<Instr>, r: seq<Instr>, g: FuncId, before: seq<Instr>, block: seq<Instr>, after: seq<Instr>)
    requires JumpsAhead(s, r, g, before, block, after)
    ensures multiset(r) == multiset(s)
  {
    assert multiset(s) == multiset(before) + multiset(block) + multiset(after);
  }

  lemma MovedLeads(s: seq<Instr>, g: FuncId)
    requires OutcomeOf(s, g) == Moved
    ensures |s| >= 3 && Hoisted(s, g)[0].Const? && Hoisted(s, g)[1].Const? && Hoisted(s, g)[2] == Call(g)
    ensures PlanOf(Kinds(Hoisted(s, g), g)) == AtHead
  {
    var k := Kinds(s, g);
    MoveShape(k);
    var Move(a, b) := PlanOf(k);
    KindsToFront(s, g, a, b);
    var h := Hoisted(s, g);
    assert h[0] == s[a] && h[1] == s[a + 1] && h[2] == s[a + 2];
    StartIsAlreadyLed(Kinds(h, g));
  }

  /** Hoisting a second time changes nothing. */
  lemma HoistTwice(s: seq<Instr>, g: FuncId)
    ensures Hoisted(Hoisted(s, g), g) == Hoisted(s, g)
  {
    if OutcomeOf(s, g) == Moved {
      MovedLeads(s, g);
    }
  }
}
