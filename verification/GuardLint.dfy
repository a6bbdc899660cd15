/**
 * The lint's reading of "guard first" (`first_branch_is_guard`, `loop_guard_pos`, `walk_seq`), how
 * the four notions of a guarded loop are nested, and what the lint says after the guard pass.
 */
module GuardLint {
  import opened Wrappers
  import opened WasmTree
  import opened ByteAdjacency
  import opened GuardPass
  import opened GuardRewrite

  /** First transfer on the straight-line path, descending only into leading blocks: is it the guard? */
  function FirstBranch(s: seq<Instr>, g: FuncId): Option<bool> {
    if s == [] then None
    else if s[0] == Call(g) then Some(true)
    else if s[0].Block? then
      var inner := FirstBranch(s[0].body, g);
      if inner.Some? then inner else FirstBranch(s[1..], g)
    else if IsBranch(s[0]) then Some(false)
    else FirstBranch(s[1..], g)
  }

  datatype Position = Compliant | Mispositioned | Unguarded

  function PositionOf(body: seq<Instr>, g: FuncId): Position {
    if FirstBranch(body, g) == Some(true) then Compliant
    else if ContainsCall(body, g) then Mispositioned
    else Unguarded
  }

  /** One finding for a loop that is not compliant. */
  function Finding(body: seq<Instr>, g: FuncId): seq<Position> {
    if PositionOf(body, g) == Compliant then [] else [PositionOf(body, g)]
  }

  /** The recursion of `walk_seq`: a loop is reported before the loops inside it. */
  function Walk(s: seq<Instr>, g: FuncId): seq<Position>
    decreases s, 0
  {
    if s == [] then [] else WalkOne(s[0], g) + Walk(s[1..], g)
  }

  function WalkOne(i: Instr, g: FuncId): seq<Position>
    decreases i, 1
  {
    match i
    case Loop(body) => Finding(body, g) + Walk(body, g)
    case Block(body) => Walk(body, g)
    case IfElse(c, a) => Walk(c, g) + Walk(a, g)
    case _ => []
  }

  function Report(loops: seq<seq<Instr>>, g: FuncId): seq<Position> {
    if loops == [] then [] else Finding(loops[0], g) + Report(loops[1..], g)
  }

  lemma {:induction false} ReportAppend(a: seq<seq<Instr>>, b: seq<seq<Instr>>, g: FuncId)
    ensures Report(a + b, g) == Report(a, g) + Report(b, g)
  {
    if a == [] {
      assert a + b == b;
    } else {
      ReportAppend(a[1..], b, g);
      assert (a + b)[1..] == a[1..] + b && (a + b)[0] == a[0];
    }
  }

  /** The walk reports each loop of the function once, in the order the loops are emitted. */
  lemma {:induction false} WalkReportsLoops(s: seq<Instr>, g: FuncId)
    ensures Walk(s, g) == Report(Loops(s), g)
    decreases s, 0
  {
    hide Finding;
    if s != [] {
      WalkOneReports(s[0], g);
      WalkReportsLoops(s[1..], g);
      ReportAppend(LoopsOf(s[0]), Loops(s[1..]), g);
    }
  }

  lemma {:induction false} WalkOneReports(i: Instr, g: FuncId)
    ensures WalkOne(i, g) == Report(LoopsOf(i), g)
    decreases i, 1
  {
    hide Finding;
    match i
    case Loop(body) =>
      WalkReportsLoops(body, g);
      assert ([body] + Loops(body))[1..] == Loops(body);
    case Block(body) => WalkReportsLoops(body, g);
    case IfElse(c, a) =>
      WalkReportsLoops(c, g);
      WalkReportsLoops(a, g);
      ReportAppend(Loops(c), Loops(a), g);
    case _ =>
  }

  lemma {:induction false} CleanReport(loops: seq<seq<Instr>>, g: FuncId)
    ensures Report(loops, g) == [] <==> forall k :: 0 <= k < |loops| ==> PositionOf(loops[k], g) == Compliant
  {
    hide PositionOf;
    if loops != [] {
      CleanReport(loops[1..], g);
      assert Finding(loops[0], g) == [] <==> PositionOf(loops[0], g) == Compliant;
      if Report(loops, g) == [] {
        forall k | 0 <= k < |loops| ensures PositionOf(loops[k], g) == Compliant {
          if k > 0 { assert loops[k] == loops[1..][k - 1]; }
        }
      }
      if forall k :: 0 <= k < |loops| ==> PositionOf(loops[k], g) == Compliant {
        forall k | 0 <= k < |loops[1..]| ensures PositionOf(loops[1..][k], g) == Compliant {
          assert loops[1..][k] == loops[k + 1];
        }
      }
    }
  }

  // ---- four notions, each implied by the one before ----

  lemma AdjacentLeads(body: seq<Instr>, g: FuncId)
    requires AdjacentBody(body, g)
    ensures GuardLeads(Kinds(body, g))
  {
    StartIsAlreadyLed(Kinds(body, g));
  }

  lemma {:induction false} LeadsIsFirst(s: seq<Instr>, g: FuncId)
    requires GuardLeads(Kinds(s, g))
    ensures FirstBranch(s, g) == Some(true)
  {
    if s[0] != Call(g) {
      assert Kinds(s, g)[1..] == Kinds(s[1..], g);
      LeadsIsFirst(s[1..], g);
    }
  }

  lemma {:induction false} FirstIsContained(s: seq<Instr>, g: FuncId)
    requires FirstBranch(s, g) == Some(true)
    ensures ContainsCall(s, g)
  {
    if s[0] != Call(g) {
      if s[0].Block? && FirstBranch(s[0].body, g).Some? {
        FirstIsContained(s[0].body, g);
      } else {
        FirstIsContained(s[1..], g);
      }
    }
  }

  /** Without blocks at its top level, a body leads with the guard exactly when the lint calls it compliant. */
  lemma {:induction false} FirstIsLeadingWithoutBlocks(s: seq<Instr>, g: FuncId)
    requires forall i :: 0 <= i < |s| ==> !s[i].Block?
    ensures FirstBranch(s, g) == Some(true) <==> GuardLeads(Kinds(s, g))
  {
    if s != [] && s[0] != Call(g) {
      assert Kinds(s, g)[1..] == Kinds(s[1..], g);
      FirstIsLeadingWithoutBlocks(s[1..], g);
    }
  }

  /** None of the implications can be turned around. */
  lemma NotionsDiffer(g: FuncId)
    ensures var late := [Plain(0), Call(g)];
            GuardLeads(Kinds(late, g)) && !AdjacentBody(late, g)
    ensures var nested := [Block([Call(g)])];
            FirstBranch(nested, g) == Some(true) && !GuardLeads(Kinds(nested, g))
    ensures var conditional := [IfElse([Call(g)], [])];
            ContainsCall(conditional, g) && FirstBranch(conditional, g) == Some(false)
  {
    var late := [Plain(0), Call(g)];
    assert Kinds(late, g)[1..][0] == Guard;
    assert FirstBranch([Call(g)], g) == Some(true);
    assert ContainsCall([Call(g)], g);
  }

  /** A function that passes the byte gate has nothing for the lint to report. */
  lemma GateImpliesLint(s: seq<Instr>, g: FuncId)
    requires Flagged(Flatten(s) + [OEnd], 0, g) == []
    ensures Walk(s, g) == []
  {
    CleanBuild(s, g);
    WalkReportsLoops(s, g);
    CleanReport(Loops(s), g);
    forall k | 0 <= k < |Loops(s)| ensures PositionOf(Loops(s)[k], g) == Compliant {
      AdjacentLeads(Loops(s)[k], g);
      LeadsIsFirst(Loops(s)[k], g);
    }
  }

  // ---- after the guard pass ----

  lemma {:induction false} ContainsMember(s: seq<Instr>, g: FuncId)
    ensures ContainsCall(s, g) <==> exists i :: i in s && ContainsCallIn(i, g)
  {
    if s != [] {
      ContainsMember(s[1..], g);
      assert s[0] in s && forall i :: i in s[1..] ==> i in s;
      forall i | i in s && i != s[0] ensures i in s[1..] {
        var k :| 0 <= k < |s| && s[k] == i;
        assert s[1..][k - 1] == i;
      }
    }
  }

  lemma HoistKeepsCalls(s: seq<Instr>, g: FuncId)
    ensures ContainsCall(Hoisted(s, g), g) <==> ContainsCall(s, g)
  {
    HoistPermutes(s, g);
    ContainsMember(s, g);
    ContainsMember(Hoisted(s, g), g);
    forall i ensures i in s <==> i in Hoisted(s, g) {
      assert i in s <==> i in multiset(s);
      assert i in Hoisted(s, g) <==> i in multiset(Hoisted(s, g));
    }
  }

  lemma {:induction false} RewriteKeepsCalls(s: seq<Instr>, g: FuncId)
    ensures ContainsCall(Rewrite(s, g), g) <==> ContainsCall(s, g)
    decreases s, 0
  {
    if s != [] {
      RewriteOneKeepsCalls(s[0], g);
      RewriteKeepsCalls(s[1..], g);
      assert Rewrite(s, g)[1..] == Rewrite(s[1..], g);
    }
  }

  lemma {:induction false} RewriteOneKeepsCalls(i: Instr, g: FuncId)
    ensures ContainsCallIn(RewriteOne(i, g), g) <==> ContainsCallIn(i, g)
    decreases i, 1
  {
    match i
    case Loop(body) =>
      RewriteKeepsCalls(body, g);
      HoistKeepsCalls(Rewrite(body, g), g);
    case Block(body) => RewriteKeepsCalls(body, g);
    case IfElse(c, a) =>
      RewriteKeepsCalls(c, g);
      RewriteKeepsCalls(a, g);
    case _ =>
  }

  /**
   * What the lint says of a loop that has been through the pass: compliant if the pass moved its
   * guard or found it leading, and "unguarded" exactly when the pass reported no guard.
   */
  lemma LintAfterPass(body: seq<Instr>, g: FuncId)
    ensures OutcomeOf(body, g) == Moved || OutcomeOf(body, g) == AlreadyHead ==>
              PositionOf(Done(body, g), g) == Compliant
    ensures PositionOf(Done(body, g), g) == Unguarded <==> OutcomeOf(body, g) == NoGuard
  {
    hide FirstBranch, Rewrite, ContainsCall;
    RewriteKeepsKinds(body, g);
    RewriteKeepsCalls(body, g);
    var r := Rewrite(body, g);
    HoistKeepsCalls(r, g);
    if FirstBranch(Done(body, g), g) == Some(true) {
      FirstIsContained(Done(body, g), g);
    }
    if OutcomeOf(body, g) == Moved {
      MovedLeads(r, g);
      LeadsAtHead(Kinds(Done(body, g), g));
      LeadsIsFirst(Done(body, g), g);
    } else if OutcomeOf(body, g) == AlreadyHead {
      LeadsAtHead(Kinds(r, g));
      LeadsIsFirst(r, g);
    }
    if OutcomeOf(body, g) == Skip {
      var k := Kinds(body, g);
      TopIsContained(body, g, FirstGuard(k).value);
    }
  }

  lemma LeadsAtHead(k: seq<Kind>)
    ensures PlanOf(k) == AtHead <==> GuardLeads(k)
  {
    if PlanOf(k) == AtHead && !GuardLeads(k) {
      StartIsAlreadyLed(k);
    }
  }

  lemma TopIsContained(s: seq<Instr>, g: FuncId, k: nat)
    requires k < |s| && s[k] == Call(g)
    ensures ContainsCall(s, g)
  {
    ContainsMember(s, g);
    assert s[k] in s && ContainsCallIn(s[k], g);
  }
}
