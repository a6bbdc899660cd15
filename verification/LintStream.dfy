/**
 * The lint's verdict on a loop, read off the emitted operators of its body, without the recursion
 * over blocks: what comes first among the operators that transfer control.
 */
module LintStream {
  import opened Wrappers
  import opened WasmTree
  import opened GuardLint

  /** An operator that control runs straight through; blocks open and close without one. */
  predicate Straight(op: Op) {
    op.OConst? || op.ODrop? || op.OPlain? || op.OBlock? || op.OEnd?
  }

  /** The operator at `n` is the first that is not straight, and it is the guard call. */
  predicate GuardComesFirst(ops: seq<Op>, g: FuncId, n: nat) {
    n < |ops| && ops[n] == OCall(g) && forall i :: 0 <= i < n ==> Straight(ops[i])
  }

  /** Is the first operator that is not straight the guard call? None where all are straight. */
  function FirstOp(ops: seq<Op>, g: FuncId): Option<bool> {
    if ops == [] then None
    else if Straight(ops[0]) then FirstOp(ops[1..], g)
    else Some(ops[0] == OCall(g))
  }

  lemma {:induction false} FirstOpJoin(a: seq<Op>, b: seq<Op>, g: FuncId)
    ensures FirstOp(a + b, g) == if FirstOp(a, g).Some? then FirstOp(a, g) else FirstOp(b, g)
  {
    if a == [] {
      assert a + b == b;
    } else {
      FirstOpJoin(a[1..], b, g);
      assert (a + b)[1..] == a[1..] + b && (a + b)[0] == a[0];
    }
  }

  lemma {:induction false} FirstOpIff(ops: seq<Op>, g: FuncId)
    ensures FirstOp(ops, g) == Some(true) <==> exists n: nat :: GuardComesFirst(ops, g, n)
  {
    if ops != [] {
      FirstOpIff(ops[1..], g);
      if n: nat :| GuardComesFirst(ops, g, n) {
        if n > 0 {
          forall i | 0 <= i < n - 1 ensures Straight(ops[1..][i]) {
            assert ops[1..][i] == ops[i + 1];
          }
          assert Straight(ops[0]) && GuardComesFirst(ops[1..], g, n - 1);
        }
      }
      if m: nat :| Straight(ops[0]) && GuardComesFirst(ops[1..], g, m) {
        forall i | 0 <= i < m + 1 ensures Straight(ops[i]) {
          assert i > 0 ==> ops[i] == ops[1..][i - 1];
        }
        assert GuardComesFirst(ops, g, m + 1);
      }
      if !Straight(ops[0]) && ops[0] == OCall(g) {
        assert GuardComesFirst(ops, g, 0);
      }
    }
  }

  /** The recursion over leading blocks finds the first operator of the stream. */
  lemma {:induction false} FirstInStream(s: seq<Instr>, g: FuncId)
    ensures FirstBranch(s, g) == FirstOp(Flatten(s), g)
  {
    if s != [] {
      FirstInStream(s[1..], g);
      FirstOpJoin(Emit(s[0]), Flatten(s[1..]), g);
      match s[0]
      case Block(body) =>
        FirstInStream(body, g);
        FirstOpJoin([OBlock] + Flatten(body), [OEnd], g);
        FirstOpJoin([OBlock], Flatten(body), g);
        OneOp(OBlock, g);
        OneOp(OEnd, g);
      case Loop(_) => assert Emit(s[0])[0] == OLoop;
      case IfElse(_, _) => assert Emit(s[0])[0] == OIf;
      case _ => OneOp(Emit(s[0])[0], g);
    }
  }

  lemma OneOp(op: Op, g: FuncId)
    ensures FirstOp([op], g) == if Straight(op) then None else Some(op == OCall(g))
  {
    assert [op][1..] == [];
  }

  /** The calls of a body are the call operators of its stream. */
  lemma {:induction false} CallsInStream(s: seq<Instr>, g: FuncId)
    ensures g in Calls(s) <==> OCall(g) in Flatten(s)
    decreases s, 0
  {
    if s != [] {
      CallsInStream(s[1..], g);
      match s[0] {
        case Loop(body) => CallsInStream(body, g);
        case Block(body) => CallsInStream(body, g);
        case IfElse(c, a) =>
          CallsInStream(c, g);
          CallsInStream(a, g);
        case _ =>
      }
      assert OCall(g) in Emit(s[0]) <==> g in CallsOf(s[0]);
    }
  }

  /**
   * A loop is compliant exactly when the guard call is the first operator of its body that is not
   * straight, mispositioned when the call is there but not first, unguarded when it is not there.
   */
  lemma PositionIff(body: seq<Instr>, g: FuncId)
    ensures PositionOf(body, g) == Compliant <==> exists n: nat :: GuardComesFirst(Flatten(body), g, n)
    ensures PositionOf(body, g) == Unguarded <==> OCall(g) !in Flatten(body)
    ensures PositionOf(body, g) == Mispositioned <==>
            OCall(g) in Flatten(body) && !exists n: nat :: GuardComesFirst(Flatten(body), g, n)
  {
    FirstInStream(body, g);
    FirstOpIff(Flatten(body), g);
    ContainsIsCollected(body, g);
    CallsInStream(body, g);
  }
}
