/**
 * The guard pass on whole instruction trees: every loop body hoisted, at every depth. The pass is
 * idempotent, keeps the loops in order, and every loop it moves passes the gate on the emitted stream.
 */
module GuardRewrite {
  import opened ByteAdjacency
  import opened GuardPass
  import opened WasmTree

  /** Every loop body hoisted, at every depth; everything else as it was. */
  function Rewrite(s: seq<Instr>, g: FuncId): (r: seq<Instr>)
    ensures |r| == |s|
    decreases s, 0
  {
    if s == [] then [] else [RewriteOne(s[0], g)] + Rewrite(s[1..], g)
  }

  function RewriteOne(i: Instr, g: FuncId): Instr
    decreases i, 1
  {
    match i
    case Loop(body) => Loop(Hoisted(Rewrite(body, g), g))
    case Block(body) => Block(Rewrite(body, g))
    case IfElse(c, a) => IfElse(Rewrite(c, g), Rewrite(a, g))
    case _ => i
  }

  lemma {:induction false} RewriteIndex(s: seq<Instr>, g: FuncId, k: nat)
    requires k < |s|
    ensures Rewrite(s, g)[k] == RewriteOne(s[k], g)
  {
    if k > 0 {
      RewriteIndex(s[1..], g, k - 1);
    }
  }

  /** Rewriting the nested bodies does not change what the pass sees of this one. */
  lemma RewriteKeepsKinds(s: seq<Instr>, g: FuncId)
    ensures Kinds(Rewrite(s, g), g) == Kinds(s, g)
  {
    forall k | 0 <= k < |s| ensures KindOf(Rewrite(s, g)[k], g) == KindOf(s[k], g) {
      RewriteIndex(s, g, k);
    }
  }

  lemma RewriteToFront(s: seq<Instr>, g: FuncId, a: nat, b: nat)
    requires a <= b <= |s|
    ensures Rewrite(ToFront(s, a, b), g) == ToFront(Rewrite(s, g), a, b)
  {
    var l, r := Rewrite(ToFront(s, a, b), g), ToFront(Rewrite(s, g), a, b);
    forall k | 0 <= k < |s| ensures l[k] == r[k] {
      RewriteIndex(ToFront(s, a, b), g, k);
      RewriteIndex(s, g, if k < b - a then a + k else if k < b then k - (b - a) else k);
    }
  }

  /** Hoisting a body and rewriting what is nested in it commute. */
  lemma RewriteHoisted(s: seq<Instr>, g: FuncId)
    ensures Rewrite(Hoisted(s, g), g) == Hoisted(Rewrite(s, g), g)
  {
    RewriteKeepsKinds(s, g);
    var p := PlanOf(Kinds(s, g));
    if p.Move? {
      RewriteToFront(s, g, p.start, p.end);
    }
  }

  /** The pass is idempotent. */
  lemma {:induction false} RewriteTwice(s: seq<Instr>, g: FuncId)
    ensures Rewrite(Rewrite(s, g), g) == Rewrite(s, g)
    decreases s, 0
  {
    if s != [] {
      RewriteOneTwice(s[0], g);
      RewriteTwice(s[1..], g);
    }
  }

  lemma {:induction false} RewriteOneTwice(i: Instr, g: FuncId)
    ensures RewriteOne(RewriteOne(i, g), g) == RewriteOne(i, g)
    decreases i, 1
  {
    match i
    case Loop(body) =>
      RewriteTwice(body, g);
      RewriteHoisted(Rewrite(body, g), g);
      HoistTwice(Rewrite(body, g), g);
    case Block(body) => RewriteTwice(body, g);
    case IfElse(c, a) =>
      RewriteTwice(c, g);
      RewriteTwice(a, g);
    case _ =>
  }

  // ---- loop by loop ----

  /** What the pass reports, loop by loop in the order of emission. */
  function Outcomes(loops: seq<seq<Instr>>, g: FuncId): (r: seq<Outcome>)
    ensures |r| == |loops| && forall k :: 0 <= k < |r| ==> r[k] == OutcomeOf(loops[k], g)
  {
    seq(|loops|, k requires 0 <= k < |loops| => OutcomeOf(loops[k], g))
  }

  /** What the pass makes of one loop body, nested loops included. */
  function Done(body: seq<Instr>, g: FuncId): seq<Instr> {
    Hoisted(Rewrite(body, g), g)
  }

  function AllDone(loops: seq<seq<Instr>>, g: FuncId): (r: seq<seq<Instr>>)
    ensures |r| == |loops| && forall k :: 0 <= k < |r| ==> r[k] == Done(loops[k], g)
  {
    seq(|loops|, k requires 0 <= k < |loops| => Done(loops[k], g))
  }

  lemma {:induction false} FlatNoLoops(s: seq<Instr>)
    requires forall i :: 0 <= i < |s| ==> s[i].Const? || s[i].Drop? || s[i].Call?
    ensures Loops(s) == []
  {
    if s != [] {
      FlatNoLoops(s[1..]);
    }
  }

  /** The moved block holds no loop, so the loops keep their order. */
  lemma HoistKeepsLoops(s: seq<Instr>, g: FuncId)
    ensures Loops(Hoisted(s, g)) == Loops(s)
  {
    if OutcomeOf(s, g) == Moved {
      var before, block, after := Split(s, g);
      JumpKeepsLoops(s, Hoisted(s, g), g, before, block, after);
    }
  }

  lemma JumpKeepsLoops(s: seq<Instr>, r: seq<Instr>, g: FuncId,
                       before: seq<Instr>, block: seq<Instr>, after: seq<Instr>)
    requires JumpsAhead(s, r, g, before, block, after)
    ensures Loops(r) == Loops(s)
  {
    hide Loops;
    FlatNoLoops(block);
    LoopsAppend(before + block, after);
    LoopsAppend(before, block);
    LoopsAppend(block + before, after);
    LoopsAppend(block, before);
  }

  lemma AllDoneAppend(a: seq<seq<Instr>>, b: seq<seq<Instr>>, g: FuncId)
    ensures AllDone(a + b, g) == AllDone(a, g) + AllDone(b, g)
  {
  }

  /** The loops of the result are the loops of the input, each one done, in the same order. */
  lemma {:induction false} LoopsOfRewrite(s: seq<Instr>, g: FuncId)
    ensures Loops(Rewrite(s, g)) == AllDone(Loops(s), g)
    decreases s, 0
  {
    if s != [] {
      LoopsOfRewriteOne(s[0], g);
      LoopsOfRewrite(s[1..], g);
      AllDoneAppend(LoopsOf(s[0]), Loops(s[1..]), g);
    }
  }

  lemma {:induction false} LoopsOfRewriteOne(i: Instr, g: FuncId)
    ensures LoopsOf(RewriteOne(i, g)) == AllDone(LoopsOf(i), g)
    decreases i, 1
  {
    hide Loops, Rewrite, Hoisted;
    match i
    case Loop(body) =>
      LoopsOfRewrite(body, g);
      HoistKeepsLoops(Rewrite(body, g), g);
      AllDoneAppend([body], Loops(body), g);
    case Block(body) => LoopsOfRewrite(body, g);
    case IfElse(c, a) =>
      LoopsOfRewrite(c, g);
      LoopsOfRewrite(a, g);
      AllDoneAppend(Loops(c), Loops(a), g);
    case _ =>
  }

  lemma {:induction false} FlattenJoin(s: seq<Instr>, t: seq<Instr>)
    ensures Flatten(s + t) == Flatten(s) + Flatten(t)
  {
    hide Emit;
    if s == [] {
      assert s + t == t;
    } else {
      FlattenJoin(s[1..], t);
      assert (s + t)[1..] == s[1..] + t && (s + t)[0] == s[0];
    }
  }

  lemma HoistKeepsOps(s: seq<Instr>, g: FuncId)
    ensures multiset(Flatten(Hoisted(s, g))) == multiset(Flatten(s))
  {
    if OutcomeOf(s, g) == Moved {
      var before, block, after := Split(s, g);
      JumpKeepsOps(s, Hoisted(s, g), g, before, block, after);
    }
  }

  lemma JumpKeepsOps(s: seq<Instr>, r: seq<Instr>, g: FuncId,
                     before: seq<Instr>, block: seq<Instr>, after: seq<Instr>)
    requires JumpsAhead(s, r, g, before, block, after)
    ensures multiset(Flatten(r)) == multiset(Flatten(s))
  {
    hide Flatten, JumpsAhead;
    assert s == before + block + after && r == block + before + after by {
      JumpParts(s, r, g, before, block, after);
    }
    FlattenJoin(before + block, after);
    FlattenJoin(before, block);
    FlattenJoin(block + before, after);
    FlattenJoin(block, before);
  }

  lemma JumpParts(s: seq<Instr>, r: seq<Instr>, g: FuncId,
                  before: seq<Instr>, block: seq<Instr>, after: seq<Instr>)
    requires JumpsAhead(s, r, g, before, block, after)
    ensures s == before + block + after && r == block + before + after
  {
  }

  /** The emitted code holds the same operators after the pass, each as often: nothing is added, lost or changed. */
  lemma {:induction false} RewriteKeepsOps(s: seq<Instr>, g: FuncId)
    ensures multiset(Flatten(Rewrite(s, g))) == multiset(Flatten(s))
    decreases s, 0
  {
    hide Emit, RewriteOne;
    if s != [] {
      RewriteOneKeepsOps(s[0], g);
      RewriteKeepsOps(s[1..], g);
      var r := Rewrite(s, g);
      assert r[0] == RewriteOne(s[0], g) && r[1..] == Rewrite(s[1..], g);
      assert Flatten(r) == Emit(r[0]) + Flatten(r[1..]);
    }
  }

  lemma {:induction false} RewriteOneKeepsOps(i: Instr, g: FuncId)
    ensures multiset(Emit(RewriteOne(i, g))) == multiset(Emit(i))
    decreases i, 1
  {
    hide Flatten, Rewrite, Hoisted;
    match i
    case Loop(body) =>
      RewriteKeepsOps(body, g);
      HoistKeepsOps(Rewrite(body, g), g);
    case Block(body) => RewriteKeepsOps(body, g);
    case IfElse(c, a) =>
      RewriteKeepsOps(c, g);
      RewriteKeepsOps(a, g);
    case _ =>
  }

  /** Wasm typing: the guard takes two i32 arguments, so literals right before its call are i32. */
  predicate TypedGuards(s: seq<Instr>, g: FuncId) {
    forall k :: 2 <= k < |s| ==> TypedAt(s, g, k)
  }

  predicate TypedAt(s: seq<Instr>, g: FuncId, k: nat)
    requires 2 <= k < |s|
  {
    s[k] == Call(g) && s[k - 1].Const? && s[k - 2].Const? ==> s[k - 1].i32 && s[k - 2].i32
  }

  /** After the pass a loop begins with the guard exactly if it was moved or began so before. */
  lemma DoneIsAdjacent(body: seq<Instr>, g: FuncId)
    requires TypedGuards(body, g)
    ensures AdjacentBody(Done(body, g), g) <==> OutcomeOf(body, g) == Moved || AdjacentBody(body, g)
  {
    hide PlanOf, Rewrite, RewriteOne;
    RewriteKeepsKinds(body, g);
    var k, r := Kinds(body, g), Rewrite(body, g);
    if OutcomeOf(body, g) == Moved {
      MoveShape(k);
      var a := PlanOf(k).start;
      KindsMean(body[a], g);
      KindsMean(body[a + 1], g);
      KindsMean(body[a + 2], g);
      assert TypedAt(body, g, a + 2);
      SameFlat(body, g, a);
      SameFlat(body, g, a + 1);
      SameFlat(body, g, a + 2);
      assert Done(body, g)[0] == r[a] && Done(body, g)[1] == r[a + 1] && Done(body, g)[2] == r[a + 2];
    } else if |body| >= 3 {
      SameFlat(body, g, 0);
      SameFlat(body, g, 1);
      SameFlat(body, g, 2);
    }
  }

  /** Instructions without a body are not touched by rewriting, and none of the others becomes one. */
  lemma SameFlat(s: seq<Instr>, g: FuncId, k: nat)
    requires k < |s|
    ensures s[k].Const? || s[k].Call? ==> Rewrite(s, g)[k] == s[k]
    ensures Rewrite(s, g)[k].Const? || Rewrite(s, g)[k].Call? ==> Rewrite(s, g)[k] == s[k]
  {
    RewriteIndex(s, g, k);
  }

  /**
   * After the pass the gate on the emitted stream passes exactly the loops whose guard came late
   * behind its two literals, which the pass moves, and those that began with the guard before.
   */
  lemma GateAfterPass(s: seq<Instr>, g: FuncId, k: nat)
    requires k < |Loops(s)| && forall j :: 0 <= j < |Loops(s)| ==> TypedGuards(Loops(s)[j], g)
    ensures var v := Verdicts(Flatten(Rewrite(s, g)) + [OEnd], g);
            && |v| == |Loops(s)|
            && (v[k] <==> (exists n: nat :: Late(Loops(s)[k], g, n)) || AdjacentBody(Loops(s)[k], g))
  {
    OutcomeIff(Loops(s)[k], g);
    var loops := Loops(s);
    LoopsOfRewrite(s, g);
    StreamMatchesTree(Rewrite(s, g), [OEnd], g);
    SkipOp(OEnd, [], g);
    assert [OEnd] + [] == [OEnd];
    var a := Adjacents(AllDone(loops, g), g);
    assert a + Verdicts([], g) == a;
    assert TypedGuards(loops[k], g);
    DoneIsAdjacent(loops[k], g);
  }

  /** A second run reports every moved loop as fine and moves none. */
  lemma SecondRunMovesNothing(s: seq<Instr>, g: FuncId, k: nat)
    requires k < |Loops(s)|
    ensures |Loops(Rewrite(s, g))| == |Loops(s)|
    ensures Outcomes(Loops(Rewrite(s, g)), g)[k] != Moved
    ensures Outcomes(Loops(s), g)[k] == Moved ==> Outcomes(Loops(Rewrite(s, g)), g)[k] == AlreadyHead
  {
    var body := Loops(s)[k];
    LoopsOfRewrite(s, g);
    RewriteKeepsKinds(body, g);
    if OutcomeOf(Rewrite(body, g), g) == Moved {
      MovedLeads(Rewrite(body, g), g);
    }
  }
}
