/**
 * The guard pass as it runs: a function keeps its instruction sequences in an arena and an
 * instruction refers to a nested sequence by number, so `hoist_guard_in_seq` drains and inserts in
 * one sequence in place. `Reposition` is proved to turn the arena into one for `Rewrite` of its
 * tree and to count exactly the outcomes of the tree's loops.
 */
module GuardArena {
  import opened Sequences
  import opened Wrappers
  import opened WasmTree
  import opened GuardPass
  import opened GuardRewrite
  import opened GuardLint

  type SeqId = nat

  datatype Node =
    | NConst(i32: bool, value: int)
    | NDrop
    | NCall(f: FuncId)
    | NLoop(body: SeqId)
    | NBlock(body: SeqId)
    | NIf(consequent: SeqId, alternative: SeqId)
    | NBranch(tag: int)
    | NPlain(tag: int)

  type Arena = seq<seq<Node>>

  /** A nested sequence is allocated after the one that holds it. */
  predicate Nests(n: Node, id: int, size: nat) {
    match n
    case NLoop(b) => id < b < size
    case NBlock(b) => id < b < size
    case NIf(c, a) => id < c < size && id < a < size
    case _ => true
  }

  predicate AllNest(nodes: seq<Node>, id: int, size: nat) {
    forall n :: n in nodes ==> Nests(n, id, size)
  }

  predicate WellFormed(a: Arena) {
    forall id :: 0 <= id < |a| ==> AllNest(a[id], id, |a|)
  }

  /** The tree of a list of nodes whose nested sequences are numbered above `id`. */
  function Tree(a: Arena, nodes: seq<Node>, id: int): (t: seq<Instr>)
    requires WellFormed(a) && AllNest(nodes, id, |a|)
    ensures |t| == |nodes|
    decreases |a| - id, |nodes|, 0
  {
    if nodes == [] then []
    else
      assert nodes[0] in nodes && forall n :: n in nodes[1..] ==> n in nodes;
      [TreeOf(a, nodes[0], id)] + Tree(a, nodes[1..], id)
  }

  function TreeOf(a: Arena, n: Node, id: int): Instr
    requires WellFormed(a) && Nests(n, id, |a|)
    decreases |a| - id, 0, 1
  {
    match n
    case NConst(t, v) => Const(t, v)
    case NDrop => Drop
    case NCall(f) => Call(f)
    case NLoop(b) => Loop(Tree(a, a[b], b))
    case NBlock(b) => Block(Tree(a, a[b], b))
    case NIf(c, e) => IfElse(Tree(a, a[c], c), Tree(a, a[e], e))
    case NBranch(t) => Branch(t)
    case NPlain(t) => Plain(t)
  }

  function NodeKind(n: Node, g: FuncId): Kind {
    match n
    case NCall(f) => if f == g then Guard else Transfer
    case NConst(_, _) => Literal
    case NDrop => Discard
    case NPlain(_) => Other
    case _ => Transfer
  }

  function NodeKinds(nodes: seq<Node>, g: FuncId): (k: seq<Kind>)
    ensures |k| == |nodes| && forall i :: 0 <= i < |k| ==> k[i] == NodeKind(nodes[i], g)
  {
    seq(|nodes|, i requires 0 <= i < |nodes| => NodeKind(nodes[i], g))
  }

  function HoistedNodes(nodes: seq<Node>, g: FuncId): (r: seq<Node>)
    ensures |r| == |nodes|
  {
    var p := PlanOf(NodeKinds(nodes, g));
    if p.Move? then ToFront(nodes, p.start, p.end) else nodes
  }

  lemma {:induction false} TreeIndex(a: Arena, nodes: seq<Node>, id: int, k: nat)
    requires WellFormed(a) && AllNest(nodes, id, |a|) && k < |nodes|
    ensures nodes[k] in nodes && Tree(a, nodes, id)[k] == TreeOf(a, nodes[k], id)
    decreases k
  {
    if k > 0 {
      TreeIndex(a, nodes[1..], id, k - 1);
    }
  }

  lemma TreeKinds(a: Arena, nodes: seq<Node>, id: int, g: FuncId)
    requires WellFormed(a) && AllNest(nodes, id, |a|)
    ensures Kinds(Tree(a, nodes, id), g) == NodeKinds(nodes, g)
  {
    forall k | 0 <= k < |nodes| ensures KindOf(Tree(a, nodes, id)[k], g) == NodeKind(nodes[k], g) {
      TreeIndex(a, nodes, id, k);
    }
  }

  lemma TreeToFront(a: Arena, nodes: seq<Node>, id: int, i: nat, j: nat)
    requires WellFormed(a) && AllNest(nodes, id, |a|) && i <= j <= |nodes|
    ensures AllNest(ToFront(nodes, i, j), id, |a|)
    ensures Tree(a, ToFront(nodes, i, j), id) == ToFront(Tree(a, nodes, id), i, j)
  {
    var r := ToFront(nodes, i, j);
    assert forall n :: n in r ==> n in nodes;
    var t := Tree(a, nodes, id);
    forall k | 0 <= k < |r| ensures Tree(a, r, id)[k] == ToFront(t, i, j)[k] {
      TreeIndex(a, r, id, k);
      TreeIndex(a, nodes, id, if k < j - i then i + k else if k < j then k - (j - i) else k);
    }
  }

  /** Hoisting the nodes hoists the tree. */
  lemma TreeHoisted(a: Arena, nodes: seq<Node>, id: int, g: FuncId)
    requires WellFormed(a) && AllNest(nodes, id, |a|)
    ensures AllNest(HoistedNodes(nodes, g), id, |a|)
    ensures Tree(a, HoistedNodes(nodes, g), id) == Hoisted(Tree(a, nodes, id), g)
  {
    TreeKinds(a, nodes, id, g);
    var p := PlanOf(NodeKinds(nodes, g));
    if p.Move? {
      TreeToFront(a, nodes, id, p.start, p.end);
    }
  }

  // ---- the loops of a function, by number ----

  function LoopIds(a: Arena, nodes: seq<Node>, id: int): seq<SeqId>
    requires WellFormed(a) && AllNest(nodes, id, |a|)
    decreases |a| - id, |nodes|, 0
  {
    if nodes == [] then []
    else
      assert nodes[0] in nodes && forall n :: n in nodes[1..] ==> n in nodes;
      LoopIdsOf(a, nodes[0], id) + LoopIds(a, nodes[1..], id)
  }

  function LoopIdsOf(a: Arena, n: Node, id: int): seq<SeqId>
    requires WellFormed(a) && Nests(n, id, |a|)
    decreases |a| - id, 0, 1
  {
    match n
    case NLoop(b) => [b] + LoopIds(a, a[b], b)
    case NBlock(b) => LoopIds(a, a[b], b)
    case NIf(c, e) => LoopIds(a, a[c], c) + LoopIds(a, a[e], e)
    case _ => []
  }

  /** Sequences used as the body of a block or the arm of an if. */
  function PlainIds(a: Arena, nodes: seq<Node>, id: int): set<SeqId>
    requires WellFormed(a) && AllNest(nodes, id, |a|)
    decreases |a| - id, |nodes|, 0
  {
    if nodes == [] then {}
    else
      assert nodes[0] in nodes && forall n :: n in nodes[1..] ==> n in nodes;
      PlainIdsOf(a, nodes[0], id) + PlainIds(a, nodes[1..], id)
  }

  function PlainIdsOf(a: Arena, n: Node, id: int): set<SeqId>
    requires WellFormed(a) && Nests(n, id, |a|)
    decreases |a| - id, 0, 1
  {
    match n
    case NLoop(b) => PlainIds(a, a[b], b)
    case NBlock(b) => {b} + PlainIds(a, a[b], b)
    case NIf(c, e) => {c, e} + PlainIds(a, a[c], c) + PlainIds(a, a[e], e)
    case _ => {}
  }

  predicate InArena(ids: seq<SeqId>, size: nat) {
    forall i :: i in ids ==> i < size
  }

  lemma {:induction false} LoopIdsInArena(a: Arena, nodes: seq<Node>, id: int)
    requires WellFormed(a) && AllNest(nodes, id, |a|)
    ensures InArena(LoopIds(a, nodes, id), |a|)
    decreases |a| - id, |nodes|, 0
  {
    if nodes != [] {
      assert nodes[0] in nodes && forall n :: n in nodes[1..] ==> n in nodes;
      match nodes[0] {
        case NLoop(b) => LoopIdsInArena(a, a[b], b);
        case NBlock(b) => LoopIdsInArena(a, a[b], b);
        case NIf(c, e) =>
          LoopIdsInArena(a, a[c], c);
          LoopIdsInArena(a, a[e], e);
        case _ =>
      }
      LoopIdsInArena(a, nodes[1..], id);
    }
  }

  function Bodies(a: Arena, ids: seq<SeqId>): (r: seq<seq<Instr>>)
    requires WellFormed(a) && InArena(ids, |a|)
    ensures |r| == |ids| && forall k :: 0 <= k < |r| ==> ids[k] in ids && r[k] == Tree(a, a[ids[k]], ids[k])
  {
    if ids == [] then []
    else
      assert ids[0] in ids && forall i :: i in ids[1..] ==> i in ids;
      [Tree(a, a[ids[0]], ids[0])] + Bodies(a, ids[1..])
  }

  lemma {:induction false} BodiesAppend(a: Arena, x: seq<SeqId>, y: seq<SeqId>)
    requires WellFormed(a) && InArena(x + y, |a|)
    ensures InArena(x, |a|) && InArena(y, |a|) && Bodies(a, x + y) == Bodies(a, x) + Bodies(a, y)
  {
    hide Tree, WellFormed, Bodies;
    assert forall i :: i in x || i in y ==> i in x + y;
    var l, r := Bodies(a, x + y), Bodies(a, x) + Bodies(a, y);
    forall k | 0 <= k < |l| ensures l[k] == r[k] {
      assert (x + y)[k] == if k < |x| then x[k] else y[k - |x|];
    }
  }

  /** The collected numbers are those of the tree's loops, in order. */
  lemma {:induction false} CollectedLoops(a: Arena, nodes: seq<Node>, id: int)
    requires WellFormed(a) && AllNest(nodes, id, |a|)
    ensures InArena(LoopIds(a, nodes, id), |a|)
    ensures Loops(Tree(a, nodes, id)) == Bodies(a, LoopIds(a, nodes, id))
    decreases |a| - id, |nodes|, 2
  {
    LoopIdsInArena(a, nodes, id);
    if nodes != [] {
      assert nodes[0] in nodes && forall n :: n in nodes[1..] ==> n in nodes;
      CollectedLoopsOf(a, nodes[0], id);
      CollectedLoops(a, nodes[1..], id);
      BodiesAppend(a, LoopIdsOf(a, nodes[0], id), LoopIds(a, nodes[1..], id));
      LoopsStep(Tree(a, nodes, id));
    }
  }

  lemma LoopsStep(s: seq<Instr>)
    requires s != []
    ensures Loops(s) == LoopsOf(s[0]) + Loops(s[1..])
  {
  }

  lemma {:induction false} CollectedLoopsOf(a: Arena, n: Node, id: int)
    requires WellFormed(a) && Nests(n, id, |a|)
    ensures InArena(LoopIdsOf(a, n, id), |a|)
    ensures LoopsOf(TreeOf(a, n, id)) == Bodies(a, LoopIdsOf(a, n, id))
    decreases |a| - id, 0, 3
  {
    match n
    case NLoop(b) =>
      CollectedLoops(a, a[b], b);
      BodiesAppend(a, [b], LoopIds(a, a[b], b));
    case NBlock(b) => CollectedLoops(a, a[b], b);
    case NIf(c, e) =>
      CollectedLoops(a, a[c], c);
      CollectedLoops(a, a[e], e);
      BodiesAppend(a, LoopIds(a, a[c], c), LoopIds(a, a[e], e));
    case _ =>
  }

  // ---- the arena while the pass runs ----

  /** `b` is `a` with the sequences in `done` hoisted. */
  predicate After(a: Arena, b: Arena, done: set<SeqId>, g: FuncId) {
    |b| == |a| && forall i :: 0 <= i < |a| ==> b[i] == if i in done then HoistedNodes(a[i], g) else a[i]
  }

  lemma AfterWellFormed(a: Arena, b: Arena, done: set<SeqId>, g: FuncId)
    requires WellFormed(a) && After(a, b, done, g)
    ensures WellFormed(b)
  {
    forall id | 0 <= id < |b| ensures AllNest(b[id], id, |b|) {
      if id in done {
        TreeHoisted(a, a[id], id, g);
      }
    }
  }

  /** Hoisting any of the sequences neither adds nor removes calls. */
  lemma {:induction false} AfterKeepsCalls(a: Arena, b: Arena, done: set<SeqId>, nodes: seq<Node>, id: int, g: FuncId)
    requires WellFormed(a) && After(a, b, done, g) && WellFormed(b) && AllNest(nodes, id, |a|)
    ensures ContainsCall(Tree(b, nodes, id), g) <==> ContainsCall(Tree(a, nodes, id), g)
    decreases |a| - id, |nodes|, 0
  {
    if nodes != [] {
      assert nodes[0] in nodes && forall n :: n in nodes[1..] ==> n in nodes;
      match nodes[0] {
        case NLoop(c) => BodyKeepsCalls(a, b, done, c, g);
        case NBlock(c) => BodyKeepsCalls(a, b, done, c, g);
        case NIf(c, e) =>
          BodyKeepsCalls(a, b, done, c, g);
          BodyKeepsCalls(a, b, done, e, g);
        case _ =>
      }
      AfterKeepsCalls(a, b, done, nodes[1..], id, g);
    }
  }

  lemma {:induction false} BodyKeepsCalls(a: Arena, b: Arena, done: set<SeqId>, id: SeqId, g: FuncId)
    requires WellFormed(a) && After(a, b, done, g) && WellFormed(b) && id < |a|
    ensures ContainsCall(Tree(b, b[id], id), g) <==> ContainsCall(Tree(a, a[id], id), g)
    decreases |a| - id, |a[id]|, 1
  {
    hide Tree, ContainsCall, Hoisted, HoistedNodes;
    AfterKeepsCalls(a, b, done, a[id], id, g);
    if id in done {
      TreeHoisted(b, a[id], id, g);
      HoistKeepsCalls(Tree(b, a[id], id), g);
    }
  }

  /** Once every loop body is hoisted, and no other sequence, the arena holds the rewritten tree. */
  lemma {:induction false} AfterIsRewrite(a: Arena, b: Arena, done: set<SeqId>, nodes: seq<Node>, id: int, g: FuncId)
    requires WellFormed(a) && After(a, b, done, g) && WellFormed(b) && AllNest(nodes, id, |a|)
    requires (forall i :: i in LoopIds(a, nodes, id) ==> i in done) && PlainIds(a, nodes, id) !! done
    ensures Tree(b, nodes, id) == Rewrite(Tree(a, nodes, id), g)
    decreases |a| - id, |nodes|, 0
  {
    if nodes != [] {
      assert nodes[0] in nodes && forall n :: n in nodes[1..] ==> n in nodes;
      NodeIsRewrite(a, b, done, nodes[0], id, g);
      AfterIsRewrite(a, b, done, nodes[1..], id, g);
      assert Tree(a, nodes, id)[1..] == Tree(a, nodes[1..], id);
    }
  }

  lemma {:induction false} NodeIsRewrite(a: Arena, b: Arena, done: set<SeqId>, n: Node, id: int, g: FuncId)
    requires WellFormed(a) && After(a, b, done, g) && WellFormed(b) && Nests(n, id, |a|)
    requires (forall i :: i in LoopIdsOf(a, n, id) ==> i in done) && PlainIdsOf(a, n, id) !! done
    ensures TreeOf(b, n, id) == RewriteOne(TreeOf(a, n, id), g)
    decreases |a| - id, 0, 1
  {
    hide Tree, Rewrite, Hoisted, HoistedNodes;
    match n
    case NLoop(c) =>
      assert c in LoopIdsOf(a, n, id);
      AfterIsRewrite(a, b, done, a[c], c, g);
      TreeHoisted(b, a[c], c, g);
    case NBlock(c) =>
      AfterIsRewrite(a, b, done, a[c], c, g);
    case NIf(c, e) =>
      AfterIsRewrite(a, b, done, a[c], c, g);
      AfterIsRewrite(a, b, done, a[e], e, g);
    case _ =>
  }

  // ---- the pass ----

  datatype Report = Report(repositioned: nat, alreadyOk: nat, unguarded: nat, skipped: nat, unverified: nat)

  function Count(r: Report, o: Outcome): Report {
    match o
    case AlreadyHead => r.(alreadyOk := r.alreadyOk + 1)
    case Moved => r.(repositioned := r.repositioned + 1)
    case NoGuard => r.(unguarded := r.unguarded + 1)
    case Skip => r.(skipped := r.skipped + 1)
    case Unverified => r.(unverified := r.unverified + 1)
  }

  function Tally(os: seq<Outcome>): Report {
    if os == [] then Report(0, 0, 0, 0, 0) else Count(Tally(os[..|os| - 1]), os[|os| - 1])
  }

  /** The report counts: each figure is how often its outcome occurs. */
  lemma {:induction false} TallyCounts(os: seq<Outcome>)
    ensures var r := Tally(os);
            && r.repositioned == multiset(os)[Moved] && r.alreadyOk == multiset(os)[AlreadyHead]
            && r.unguarded == multiset(os)[NoGuard] && r.skipped == multiset(os)[Skip]
            && r.unverified == multiset(os)[Unverified]
  {
    if os != [] {
      var n := |os| - 1;
      TallyCounts(os[..n]);
      assert os == os[..n] + [os[n]];
    }
  }

  lemma TallyNext(os: seq<Outcome>, i: nat)
    requires i < |os|
    ensures Tally(os[..i + 1]) == Count(Tally(os[..i]), os[i])
  {
    assert os[..i + 1][..i] == os[..i];
  }

  /** The arena of a function is a tree: no loop body is shared, or used as anything else. */
  predicate TreeShaped(a: Arena, entry: SeqId) {
    && WellFormed(a) && entry < |a|
    && var ids := LoopIds(a, a[entry], entry);
    && (forall i, j :: 0 <= i < j < |ids| ==> ids[i] != ids[j])
    && (forall i :: i in ids ==> i != entry && i !in PlainIds(a, a[entry], entry))
  }

  lemma NestsAt(a: Arena, id: SeqId)
    requires WellFormed(a) && id < |a|
    ensures AllNest(a[id], id, |a|)
  {
  }

  lemma LoopIdsNil(a: Arena, id: int)
    requires WellFormed(a)
    ensures LoopIds(a, [], id) == []
  {
  }

  lemma LoopIdsStep(a: Arena, nodes: seq<Node>, id: int, i: nat)
    requires WellFormed(a) && i < |nodes| && AllNest(nodes[i..], id, |a|)
    ensures Nests(nodes[i], id, |a|) && AllNest(nodes[i + 1..], id, |a|)
    ensures LoopIds(a, nodes[i..], id) == LoopIdsOf(a, nodes[i], id) + LoopIds(a, nodes[i + 1..], id)
  {
    assert nodes[i] in nodes[i..] && nodes[i..][1..] == nodes[i + 1..];
  }

  class LocalFunction {
    var blocks: Arena
    const entry: SeqId

    constructor (arena: Arena, id: SeqId)
      ensures blocks == arena && entry == id
    {
      blocks, entry := arena, id;
    }

    method CollectLoops(id: SeqId) returns (out: seq<SeqId>)
      requires WellFormed(blocks) && id < |blocks|
      ensures out == LoopIds(blocks, blocks[id], id)
      decreases |blocks| - id
    {
      hide LoopIds, WellFormed;
      out := [];
      LoopIdsNil(blocks, id);
      NestsAt(blocks, id);
      var nodes := blocks[id];
      assert nodes[0..] == nodes;
      for i := 0 to |nodes|
        invariant AllNest(nodes[i..], id, |blocks|)
        invariant LoopIds(blocks, nodes, id) == out + LoopIds(blocks, nodes[i..], id)
      {
        LoopIdsStep(blocks, nodes, id, i);
        match nodes[i] {
          case NLoop(b) =>
            var inner := CollectLoops(b);
            out := out + ([b] + inner);
          case NBlock(b) =>
            var inner := CollectLoops(b);
            out := out + inner;
          case NIf(c, e) =>
            var l := CollectLoops(c);
            var r := CollectLoops(e);
            out := out + (l + r);
          case _ =>
        }
      }
      assert nodes[|nodes|..] == [];
    }

    method ContainsGuard(id: SeqId, g: FuncId) returns (found: bool)
      requires WellFormed(blocks) && id < |blocks|
      ensures found == ContainsCall(Tree(blocks, blocks[id], id), g)
      decreases |blocks| - id
    {
      var nodes := blocks[id];
      assert nodes[0..] == nodes;
      for i := 0 to |nodes|
        invariant AllNest(nodes[i..], id, |blocks|)
        invariant ContainsCall(Tree(blocks, nodes, id), g) == ContainsCall(Tree(blocks, nodes[i..], id), g)
      {
        assert nodes[i] in nodes && nodes[i..][1..] == nodes[i + 1..];
        match nodes[i] {
          case NCall(f) =>
            if f == g {
              return true;
            }
          case NLoop(b) =>
            var inner := ContainsGuard(b, g);
            if inner {
              return true;
            }
          case NBlock(b) =>
            var inner := ContainsGuard(b, g);
            if inner {
              return true;
            }
          case NIf(c, e) =>
            var l := ContainsGuard(c, g);
            var r := ContainsGuard(e, g);
            if l || r {
              return true;
            }
          case _ =>
        }
      }
      assert nodes[|nodes|..] == [];
      return false;
    }

    /** One body: scan for the guard, then drain its block and insert it at the front, in place. */
    method HoistGuardInSeq(id: SeqId, g: FuncId) returns (o: Outcome)
      requires WellFormed(blocks) && id < |blocks|
      modifies this`blocks
      ensures blocks == old(blocks)[id := HoistedNodes(old(blocks)[id], g)]
      ensures o == OutcomeOf(old(Tree(blocks, blocks[id], id)), g)
    {
      hide Tree;
      TreeKinds(blocks, blocks[id], id, g);
      assert blocks[id := blocks[id]] == blocks;
      var instrs := blocks[id];
      var plan := PlanHoist(instrs, g);
      match plan {
        case AtHead =>
          return AlreadyHead;
        case NotAtTop =>
          var nested := ContainsGuard(id, g);
          return if nested then Unverified else NoGuard;
        case NotLiteral =>
          return Skip;
        case Move(start, end) =>
          var block := instrs[start..end];
          assert block + (instrs[..start] + instrs[end..]) == ToFront(instrs, start, end);
          instrs := instrs[..start] + instrs[end..];
          instrs := block + instrs;
          blocks := blocks[id := instrs];
          return Moved;
      }
    }

    /** Every loop of the function, counting the outcomes. */
    method Reposition(g: FuncId) returns (rep: Report)
      requires TreeShaped(blocks, entry)
      modifies this`blocks
      ensures |blocks| == old(|blocks|) && WellFormed(blocks)
      ensures Tree(blocks, blocks[entry], entry) == Rewrite(old(Tree(blocks, blocks[entry], entry)), g)
      ensures rep == Tally(Outcomes(Loops(old(Tree(blocks, blocks[entry], entry))), g))
    {
      hide Tree, Rewrite, LoopIds, PlainIds, WellFormed, OutcomeOf, HoistedNodes, Loops, Tally, InProgress, Distinct,
           Bodies, Outcomes, InArena, TreeShaped, After, AllNest;
      ghost var a := blocks;
      ShapeOf(a, entry);
      var loops := CollectLoops(entry);
      CollectedLoops(a, a[entry], entry);
      ghost var os := Outcomes(Bodies(a, loops), g);
      rep := Report(0, 0, 0, 0, 0);
      Start(a, loops, g, os);
      for i := 0 to |loops|
        invariant InProgress(a, blocks, loops, i, g)
        invariant rep == Tally(os[..i])
      {
        ghost var before := blocks;
        Next(a, before, loops, i, g);
        var o := HoistGuardInSeq(loops[i], g);
        TallyNext(os, i);
        match o {
          case AlreadyHead => rep := rep.(alreadyOk := rep.alreadyOk + 1);
          case Moved => rep := rep.(repositioned := rep.repositioned + 1);
          case NoGuard => rep := rep.(unguarded := rep.unguarded + 1);
          case Skip => rep := rep.(skipped := rep.skipped + 1);
          case Unverified => rep := rep.(unverified := rep.unverified + 1);
        }
      }
      assert os[..|os|] == os;
      Finish(a, blocks, entry, g);
    }
  }

  function Elements(ids: seq<SeqId>): set<SeqId> {
    set i | i in ids
  }

  /** The first `n` of the loops have been hoisted. */
  predicate InProgress(a: Arena, b: Arena, ids: seq<SeqId>, n: nat, g: FuncId) {
    WellFormed(b) && n <= |ids| && After(a, b, Elements(ids[..n]), g)
  }

  lemma ShapeOf(a: Arena, entry: SeqId)
    requires TreeShaped(a, entry)
    ensures WellFormed(a) && entry < |a|
    ensures InArena(LoopIds(a, a[entry], entry), |a|) && Distinct(LoopIds(a, a[entry], entry))
  {
    LoopIdsInArena(a, a[entry], entry);
  }

  lemma Start(a: Arena, ids: seq<SeqId>, g: FuncId, os: seq<Outcome>)
    requires WellFormed(a)
    ensures InProgress(a, a, ids, 0, g) && Tally(os[..0]) == Report(0, 0, 0, 0, 0)
  {
    assert Elements(ids[..0]) == {};
  }

  lemma TakeNext(ids: seq<SeqId>, i: nat)
    requires i < |ids| && Distinct(ids)
    ensures ids[i] !in Elements(ids[..i]) && Elements(ids[..i + 1]) == Elements(ids[..i]) + {ids[i]}
  {
    assert ids[..i + 1] == ids[..i] + [ids[i]];
  }

  lemma AfterOneMore(a: Arena, b: Arena, done: set<SeqId>, id: SeqId, g: FuncId)
    requires After(a, b, done, g) && id < |a| && id !in done
    ensures |b| == |a| && After(a, b[id := HoistedNodes(b[id], g)], done + {id}, g)
  {
    hide HoistedNodes;
  }

  /** Hoisting the next loop makes progress, and finds what it would have found at the start. */
  lemma Next(a: Arena, b: Arena, ids: seq<SeqId>, i: nat, g: FuncId)
    requires WellFormed(a) && i < |ids| && InArena(ids, |a|) && Distinct(ids) && InProgress(a, b, ids, i, g)
    ensures WellFormed(b) && ids[i] < |b| == |a|
    ensures InProgress(a, b[ids[i] := HoistedNodes(b[ids[i]], g)], ids, i + 1, g)
    ensures OutcomeOf(Tree(b, b[ids[i]], ids[i]), g) == Outcomes(Bodies(a, ids), g)[i]
  {
    hide Tree, OutcomeOf, HoistedNodes, After, WellFormed, Elements, Distinct, Bodies, Outcomes;
    var done, id := Elements(ids[..i]), ids[i];
    assert id in ids;
    TakeNext(ids, i);
    AfterOneMore(a, b, done, id, g);
    OutcomeUnchanged(a, b, done, id, g);
    AfterWellFormed(a, b[id := HoistedNodes(b[id], g)], done + {id}, g);
  }

  lemma Finish(a: Arena, b: Arena, entry: SeqId, g: FuncId)
    requires TreeShaped(a, entry)
    requires var ids := LoopIds(a, a[entry], entry); InProgress(a, b, ids, |ids|, g)
    ensures |b| == |a| && WellFormed(b)
    ensures Tree(b, b[entry], entry) == Rewrite(Tree(a, a[entry], entry), g)
  {
    hide Tree, Rewrite, PlainIds;
    var ids := LoopIds(a, a[entry], entry);
    assert ids[..|ids|] == ids;
    AfterIsRewrite(a, b, Elements(ids), a[entry], entry, g);
  }

  /** What the pass finds in a loop does not depend on the loops it has hoisted before. */
  lemma OutcomeUnchanged(a: Arena, b: Arena, done: set<SeqId>, id: SeqId, g: FuncId)
    requires WellFormed(a) && After(a, b, done, g) && WellFormed(b) && id < |a| && id !in done
    ensures OutcomeOf(Tree(b, b[id], id), g) == OutcomeOf(Tree(a, a[id], id), g)
  {
    TreeKinds(a, a[id], id, g);
    TreeKinds(b, b[id], id, g);
    BodyKeepsCalls(a, b, done, id, g);
  }

  /** Where the guard stands, and what would have to be drained to bring it to the front. */
  method PlanHoist(instrs: seq<Node>, g: FuncId) returns (p: Plan)
    ensures p == PlanOf(NodeKinds(instrs, g))
  {
    ghost var kinds := NodeKinds(instrs, g);
    var leads := GuardFirst(instrs, g);
    if leads {
      return AtHead;
    }
    var ci := GuardPosition(instrs, g);
    if ci.None? {
      return NotAtTop;
    }
    var start, consts := ci.value, 0;
    while start > 0 && consts < 2 && instrs[start - 1].NConst?
      invariant 0 <= start == ci.value - consts && consts <= 2 && ci.value < |instrs|
      invariant forall k :: start <= k < ci.value ==> kinds[k] == Literal
      decreases start
    {
      start := start - 1;
      consts := consts + 1;
    }
    if consts < 2 {
      return NotLiteral;
    }
    var end := ci.value + 1;
    if end < |instrs| && instrs[end].NDrop? {
      end := end + 1;
    }
    if start == 0 {
      return AtHead;
    }
    return Move(start, end);
  }

  method GuardFirst(nodes: seq<Node>, g: FuncId) returns (leads: bool)
    ensures leads == GuardLeads(NodeKinds(nodes, g))
  {
    ghost var k := NodeKinds(nodes, g);
    assert k[0..] == k;
    for i := 0 to |nodes|
      invariant GuardLeads(k) == GuardLeads(k[i..])
    {
      assert k[i..][1..] == k[i + 1..];
      if nodes[i] == NCall(g) {
        return true;
      } else if nodes[i].NCall? || nodes[i].NLoop? || nodes[i].NBlock? || nodes[i].NIf? || nodes[i].NBranch? {
        return false;
      }
    }
    return false;
  }

  method GuardPosition(nodes: seq<Node>, g: FuncId) returns (r: Option<nat>)
    ensures r == FirstGuard(NodeKinds(nodes, g))
  {
    ghost var k := NodeKinds(nodes, g);
    for i := 0 to |nodes|
      invariant forall j :: 0 <= j < i ==> k[j] != Guard
    {
      if nodes[i] == NCall(g) {
        return Some(i);
      }
    }
    return None;
  }
}
