/**
 * The final gate of a build (`verify_byte_adjacency`): one pass over the emitted operators of a
 * function body that flags every `loop` not followed at once by const, const, call of the guard.
 */
module ByteAdjacency {
  import opened Wrappers
  import opened WasmTree

  /** The three operators xahaud requires right after `loop`. */
  predicate StartsGuarded(ops: seq<Op>, g: FuncId) {
    |ops| >= 3 && ops[0].OConst? && ops[0].i32 && ops[1].OConst? && ops[1].i32 && ops[2] == OCall(g)
  }

  /** Offsets, from `base` on, of the loops that lack the guard. */
  function Flagged(ops: seq<Op>, base: nat, g: FuncId): seq<nat> {
    if ops == [] then []
    else
      (if ops[0].OLoop? && !StartsGuarded(ops[1..], g) then [base] else []) + Flagged(ops[1..], base + 1, g)
  }

  /** What the first operator contributes. */
  function Here(ops: seq<Op>, base: nat, g: FuncId): seq<nat>
    requires ops != []
  {
    if ops[0].OLoop? && !StartsGuarded(ops[1..], g) then [base] else []
  }

  lemma FlaggedStep(ops: seq<Op>, base: nat, g: FuncId)
    requires ops != []
    ensures Flagged(ops, base, g) == Here(ops, base, g) + Flagged(ops[1..], base + 1, g)
  {
    hide StartsGuarded;
  }

  lemma {:induction false} FlaggedAt(ops: seq<Op>, base: nat, g: FuncId, k: int)
    ensures k in Flagged(ops, base, g) <==>
              base <= k < base + |ops| && ops[k - base].OLoop? && !StartsGuarded(ops[k - base + 1..], g)
  {
    if ops != [] {
      hide StartsGuarded, Flagged;
      FlaggedStep(ops, base, g);
      FlaggedAt(ops[1..], base + 1, g, k);
      if base < k < base + |ops| {
        TailAt(ops, k - base);
      }
    }
  }

  lemma TailAt(ops: seq<Op>, i: nat)
    requires 0 < i < |ops|
    ensures ops[1..][i - 1] == ops[i] && ops[1..][i - 1 + 1..] == ops[i + 1..]
  {
  }

  lemma {:induction false} FlaggedAscends(ops: seq<Op>, base: nat, g: FuncId)
    ensures forall i, j :: 0 <= i < j < |Flagged(ops, base, g)| ==> Flagged(ops, base, g)[i] < Flagged(ops, base, g)[j]
    ensures forall i :: 0 <= i < |Flagged(ops, base, g)| ==> Flagged(ops, base, g)[i] >= base
  {
    if ops != [] {
      hide StartsGuarded, Flagged;
      FlaggedStep(ops, base, g);
      FlaggedAscends(ops[1..], base + 1, g);
    }
  }

  /** Exactly one finding for each such loop, in order of offset. */
  lemma FlaggedExactly(ops: seq<Op>, base: nat, g: FuncId)
    ensures forall k :: k in Flagged(ops, base, g) <==>
              base <= k < base + |ops| && ops[k - base].OLoop? && !StartsGuarded(ops[k - base + 1..], g)
    ensures forall i, j :: 0 <= i < j < |Flagged(ops, base, g)| ==> Flagged(ops, base, g)[i] < Flagged(ops, base, g)[j]
  {
    hide StartsGuarded, Flagged;
    FlaggedAscends(ops, base, g);
    forall k
      ensures k in Flagged(ops, base, g) <==>
                base <= k < base + |ops| && ops[k - base].OLoop? && !StartsGuarded(ops[k - base + 1..], g)
    {
      FlaggedAt(ops, base, g, k);
    }
  }

  lemma Continue(ops: seq<Op>, i: nat, g: FuncId)
    requires i < |ops|
    ensures Flagged(ops[i..], i, g) ==
            (if ops[i].OLoop? && !StartsGuarded(ops[i + 1..], g) then [i] else []) + Flagged(ops[i + 1..], i + 1, g)
  {
    assert ops[i..][1..] == ops[i + 1..];
  }

  /** Nothing but constants follows the pending loop so far, so no loop is skipped between. */
  lemma SkipConsts(ops: seq<Op>, i: nat, j: nat, g: FuncId)
    requires i <= j <= |ops| && forall k :: i <= k < j ==> ops[k].OConst?
    ensures Flagged(ops[i..], i, g) == Flagged(ops[j..], j, g)
    decreases j - i
  {
    if i < j {
      Continue(ops, i, g);
      SkipConsts(ops, i + 1, j, g);
    }
  }

  /** The findings so far are those of the operators before `i`. */
  ghost predicate FoundUpTo(ops: seq<Op>, bad: seq<nat>, i: nat, g: FuncId)
    requires i <= |ops|
  {
    Flagged(ops, 0, g) == bad + Flagged(ops[i..], i, g)
  }

  lemma PassOther(ops: seq<Op>, bad: seq<nat>, i: nat, g: FuncId)
    requires i < |ops| && !ops[i].OLoop? && FoundUpTo(ops, bad, i, g)
    ensures FoundUpTo(ops, bad, i + 1, g)
  {
    hide StartsGuarded, Flagged;
    Continue(ops, i, g);
  }

  /** The loop at `p` and the constants after it, with the verdict on the loop. */
  lemma PassLoop(ops: seq<Op>, bad: seq<nat>, p: nat, i: nat, g: FuncId)
    requires p < i <= |ops| && ops[p].OLoop? && forall k :: p < k < i ==> ops[k].OConst?
    requires FoundUpTo(ops, bad, p, g)
    ensures FoundUpTo(ops, if StartsGuarded(ops[p + 1..], g) then bad else bad + [p], i, g)
  {
    hide StartsGuarded, Flagged;
    Continue(ops, p, g);
    SkipConsts(ops, p + 1, i, g);
    var rest := Flagged(ops[i..], i, g);
    assert bad + ([p] + rest) == (bad + [p]) + rest && bad + ([] + rest) == bad + rest;
  }

  lemma FoundAll(ops: seq<Op>, bad: seq<nat>, g: FuncId)
    ensures FoundUpTo(ops, [], 0, g)
    ensures FoundUpTo(ops, bad, |ops|, g) ==> bad == Flagged(ops, 0, g)
  {
    assert ops[0..] == ops && ops[|ops|..] == [];
  }

  method VerifyBody(ops: seq<Op>, g: FuncId) returns (bad: seq<nat>)
    ensures bad == Flagged(ops, 0, g)
  {
    hide StartsGuarded, Flagged, FoundUpTo;
    bad := [];
    var pending: Option<nat> := None;
    var want := 0;
    FoundAll(ops, [], g);
    for i := 0 to |ops|
      invariant pending.Some? ==>
        && pending.value < i && want == i - pending.value - 1 && want <= 2 && ops[pending.value].OLoop?
        && (forall k :: pending.value < k < i ==> ops[k].OConst? && ops[k].i32)
      invariant FoundUpTo(ops, bad, if pending.Some? then pending.value else i, g)
    {
      var op := ops[i];
      if pending.Some? {
        var p := pending.value;
        PassLoop(ops, bad, p, i, g);
        var ok := false;
        if want == 0 && op.OConst? && op.i32 {
          want := 1;
          ok := true;
        } else if want == 1 && op.OConst? && op.i32 {
          want := 2;
          ok := true;
        } else if want == 2 && op == OCall(g) {
          GuardFound(ops, p, i, g);
          pending := None;
          ok := true;
        }
        if !ok {
          GuardMissing(ops, p, i, g);
          bad := bad + [p];
          pending := None;
        }
      }
      if pending.None? && !op.OLoop? {
        PassOther(ops, bad, i, g);
      }
      if op.OLoop? {
        pending := Some(i);
        want := 0;
      }
    }
    if pending.Some? {
      PassLoop(ops, bad, pending.value, |ops|, g);
      GuardCut(ops, pending.value, g);
      bad := bad + [pending.value];
    }
    FoundAll(ops, bad, g);
  }

  lemma GuardFound(ops: seq<Op>, p: nat, i: nat, g: FuncId)
    requires i == p + 3 < |ops| && (forall k :: p < k < i ==> ops[k].OConst? && ops[k].i32) && ops[i] == OCall(g)
    ensures StartsGuarded(ops[p + 1..], g)
  {
  }

  lemma GuardMissing(ops: seq<Op>, p: nat, i: nat, g: FuncId)
    requires p < i <= p + 3 && i < |ops|
    requires if i == p + 3 then ops[i] != OCall(g) else !(ops[i].OConst? && ops[i].i32)
    ensures !StartsGuarded(ops[p + 1..], g)
  {
    assert ops[p + 1..][i - p - 1] == ops[i];
  }

  lemma GuardCut(ops: seq<Op>, p: nat, g: FuncId)
    requires p < |ops| <= p + 3
    ensures !StartsGuarded(ops[p + 1..], g)
  {
  }

  // ---- the stream and the tree ----

  /** The same property on the tree: the body's own first three instructions are the guard. */
  predicate AdjacentBody(body: seq<Instr>, g: FuncId) {
    |body| >= 3 && body[0].Const? && body[0].i32 && body[1].Const? && body[1].i32 && body[2] == Call(g)
  }

  function Adjacents(bodies: seq<seq<Instr>>, g: FuncId): (r: seq<bool>)
    ensures |r| == |bodies| && forall k :: 0 <= k < |r| ==> r[k] == AdjacentBody(bodies[k], g)
  {
    seq(|bodies|, k requires 0 <= k < |bodies| => AdjacentBody(bodies[k], g))
  }

  /** One verdict per `loop` of a stream. */
  function Verdicts(ops: seq<Op>, g: FuncId): seq<bool> {
    if ops == [] then []
    else (if ops[0].OLoop? then [StartsGuarded(ops[1..], g)] else []) + Verdicts(ops[1..], g)
  }

  predicate All(v: seq<bool>) {
    forall k :: 0 <= k < |v| ==> v[k]
  }

  lemma AllAppend(u: seq<bool>, v: seq<bool>)
    ensures All(u + v) <==> All(u) && All(v)
  {
    if All(u + v) {
      assert forall k :: 0 <= k < |u| ==> u[k] == (u + v)[k];
      assert forall k :: 0 <= k < |v| ==> v[k] == (u + v)[|u| + k];
    }
  }

  /** A clean scan means every loop of the stream is guarded. */
  lemma {:induction false} CleanScan(ops: seq<Op>, base: nat, g: FuncId)
    ensures Flagged(ops, base, g) == [] <==> All(Verdicts(ops, g))
  {
    if ops != [] {
      CleanScan(ops[1..], base + 1, g);
      var first: seq<bool> := if ops[0].OLoop? then [StartsGuarded(ops[1..], g)] else [];
      AllAppend(first, Verdicts(ops[1..], g));
      assert ops[0].OLoop? ==> (All(first) <==> first[0]);
    }
  }

  /** Where the body ends is visible in the stream, so the verdict never looks past it. */
  lemma BodyVerdict(body: seq<Instr>, rest: seq<Op>, g: FuncId)
    ensures StartsGuarded(Flatten(body) + [OEnd] + rest, g) <==> AdjacentBody(body, g)
  {
    var ops := Flatten(body) + [OEnd] + rest;
    if body != [] {
      FirstOp(body);
      if body[0].Const? && body[1..] != [] {
        FirstOp(body[1..]);
        if body[1].Const? && body[2..] != [] {
          assert body[1..][1..] == body[2..];
          FirstOp(body[2..]);
        }
      }
    }
  }

  lemma FirstOp(s: seq<Instr>)
    requires s != []
    ensures Flatten(s) == Emit(s[0]) + Flatten(s[1..]) && |Flatten(s)| > 0
    ensures Flatten(s)[0] == Emit(s[0])[0]
    ensures Flatten(s)[0].OConst? <==> s[0].Const?
    ensures s[0].Const? ==> Flatten(s)[0] == OConst(s[0].i32, s[0].value) && Flatten(s)[1..] == Flatten(s[1..])
    ensures Flatten(s)[0].OCall? <==> s[0].Call?
    ensures s[0].Call? ==> Flatten(s)[0] == OCall(s[0].f)
  {
    hide Emit;
    EmitStarts(s[0]);
    assert Flatten(s) == Emit(s[0]) + Flatten(s[1..]);
  }

  lemma EmitStarts(i: Instr)
    ensures Emit(i)[0].OConst? <==> i.Const?
    ensures i.Const? ==> Emit(i) == [OConst(i.i32, i.value)]
    ensures Emit(i)[0].OCall? <==> i.Call?
    ensures i.Call? ==> Emit(i)[0] == OCall(i.f)
  {
    hide Flatten;
  }

  lemma AdjacentsAppend(a: seq<seq<Instr>>, b: seq<seq<Instr>>, g: FuncId)
    ensures Adjacents(a + b, g) == Adjacents(a, g) + Adjacents(b, g)
  {
  }

  /** Scanning the emitted stream judges the loops of the tree one by one, in emission order. */
  lemma {:induction false} StreamMatchesTree(s: seq<Instr>, rest: seq<Op>, g: FuncId)
    ensures Verdicts(Flatten(s) + rest, g) == Adjacents(Loops(s), g) + Verdicts(rest, g)
    decreases s, 0
  {
    hide Verdicts, Emit, LoopsOf, Adjacents, AdjacentBody;
    if s == [] {
      assert Flatten(s) + rest == rest;
      NoLoops(g);
    } else {
      var tail := Flatten(s[1..]) + rest;
      assert Flatten(s) + rest == Emit(s[0]) + tail;
      EmitMatchesTree(s[0], tail, g);
      StreamMatchesTree(s[1..], rest, g);
      AdjacentsAppend(LoopsOf(s[0]), Loops(s[1..]), g);
    }
  }

  lemma NoLoops(g: FuncId)
    ensures Adjacents([], g) == []
  {
  }

  lemma SkipOp(op: Op, rest: seq<Op>, g: FuncId)
    requires !op.OLoop?
    ensures Verdicts([op] + rest, g) == Verdicts(rest, g)
  {
    assert ([op] + rest)[1..] == rest;
  }

  lemma EmittedBlock(body: seq<Op>, rest: seq<Op>)
    ensures [OBlock] + body + [OEnd] + rest == [OBlock] + (body + ([OEnd] + rest))
  {
  }

  lemma EmittedIf(c: seq<Instr>, a: seq<Instr>, rest: seq<Op>)
    ensures Emit(IfElse(c, a)) + rest == [OIf] + (Flatten(c) + ([OElse] + (Flatten(a) + ([OEnd] + rest))))
    ensures LoopsOf(IfElse(c, a)) == Loops(c) + Loops(a)
  {
    hide Flatten;
    var after := [OEnd] + rest;
    assert Emit(IfElse(c, a)) + rest == [OIf] + Flatten(c) + [OElse] + Flatten(a) + after;
  }

  lemma Joined(a: seq<bool>, b: seq<bool>, c: seq<bool>)
    ensures a + (b + c) == (a + b) + c
  {
  }

  lemma {:induction false} EmitMatchesTree(i: Instr, rest: seq<Op>, g: FuncId)
    ensures Verdicts(Emit(i) + rest, g) == Adjacents(LoopsOf(i), g) + Verdicts(rest, g)
    decreases i, 1
  {
    hide Flatten, AdjacentBody, StartsGuarded, Verdicts, Adjacents;
    match i
    case Loop(body) => LoopMatchesTree(body, rest, g);
    case Block(body) =>
      BlockMatchesTree([OBlock], body, [OEnd] + rest, g);
      SkipOp(OEnd, rest, g);
      EmittedBlock(Flatten(body), rest);
    case IfElse(c, a) =>
      hide Emit, Loops;
      var after := [OEnd] + rest;
      var otherwise := [OElse] + (Flatten(a) + after);
      EmittedIf(c, a, rest);
      BlockMatchesTree([OIf], c, otherwise, g);
      BlockMatchesTree([OElse], a, after, g);
      SkipOp(OEnd, rest, g);
      AdjacentsAppend(Loops(c), Loops(a), g);
      Joined(Adjacents(Loops(c), g), Adjacents(Loops(a), g), Verdicts(rest, g));
    case _ =>
      SkipOp(Emit(i)[0], rest, g);
      NoLoops(g);
  }

  lemma {:induction false} BlockMatchesTree(opener: seq<Op>, body: seq<Instr>, after: seq<Op>, g: FuncId)
    requires |opener| == 1 && !opener[0].OLoop?
    ensures Verdicts(opener + (Flatten(body) + after), g) == Adjacents(Loops(body), g) + Verdicts(after, g)
    decreases body, 2
  {
    hide Verdicts, Adjacents, Flatten, Loops;
    SkipOp(opener[0], Flatten(body) + after, g);
    assert opener == [opener[0]];
    StreamMatchesTree(body, after, g);
  }

  lemma LoopVerdict(t: seq<Op>, g: FuncId)
    ensures Verdicts([OLoop] + t, g) == [StartsGuarded(t, g)] + Verdicts(t, g)
  {
    assert ([OLoop] + t)[1..] == t;
  }

  lemma OneBody(body: seq<Instr>, g: FuncId)
    ensures Adjacents([body], g) == [AdjacentBody(body, g)]
  {
    assert [body][1..] == [];
  }

  lemma Bracketed(body: seq<Op>, rest: seq<Op>)
    ensures [OLoop] + body + [OEnd] + rest == [OLoop] + (body + ([OEnd] + rest))
    ensures body + [OEnd] + rest == body + ([OEnd] + rest)
  {
  }

  lemma {:induction false} LoopMatchesTree(body: seq<Instr>, rest: seq<Op>, g: FuncId)
    ensures Verdicts([OLoop] + Flatten(body) + [OEnd] + rest, g)
            == Adjacents([body] + Loops(body), g) + Verdicts(rest, g)
    decreases body, 2
  {
    hide StartsGuarded, Flatten, Loops, AdjacentBody, Verdicts, Adjacents;
    var after := [OEnd] + rest;
    Bracketed(Flatten(body), rest);
    LoopVerdict(Flatten(body) + after, g);
    BodyVerdict(body, rest, g);
    StreamMatchesTree(body, after, g);
    SkipOp(OEnd, rest, g);
    AdjacentsAppend([body], Loops(body), g);
    OneBody(body, g);
    Joined([AdjacentBody(body, g)], Adjacents(Loops(body), g), Verdicts(rest, g));
  }

  /** A function body passes the gate exactly when every loop in its tree begins with the guard. */
  lemma CleanBuild(s: seq<Instr>, g: FuncId)
    ensures Flagged(Flatten(s) + [OEnd], 0, g) == [] <==>
            forall k :: 0 <= k < |Loops(s)| ==> AdjacentBody(Loops(s)[k], g)
  {
    hide Flatten, Loops, StartsGuarded, AdjacentBody;
    CleanScan(Flatten(s) + [OEnd], 0, g);
    StreamMatchesTree(s, [OEnd], g);
    SkipOp(OEnd, [], g);
    assert [OEnd] + [] == [OEnd];
    var v := Adjacents(Loops(s), g);
    assert v + Verdicts([], g) == v;
  }
}
