/**
 * Structured instruction sequences of one wasm function, and the operator stream they are emitted
 * as: a `loop`, `block` or `if` opens, its body follows, `end` closes (section 5.4.1 of the
 * WebAssembly Core Specification 1.0).
 */
module WasmTree {

  type FuncId = nat

  datatype Instr =
    | Const(i32: bool, value: int)
    | Drop
    | Call(f: FuncId)
    | Loop(body: seq<Instr>)
    | Block(body: seq<Instr>)
    | IfElse(consequent: seq<Instr>, alternative: seq<Instr>)
    | Branch(tag: int)  // call_indirect, br, br_if, br_table, return, unreachable
    | Plain(tag: int)   // everything else: locals, memory, arithmetic

  /** What may not precede the guard in a loop: any call or control transfer. */
  predicate IsBranch(i: Instr) {
    i.Call? || i.Loop? || i.Block? || i.IfElse? || i.Branch?
  }

  datatype Op =
    | OConst(i32: bool, value: int)
    | ODrop
    | OCall(f: FuncId)
    | OLoop
    | OBlock
    | OIf
    | OElse
    | OEnd
    | OBranch(tag: int)
    | OPlain(tag: int)

  function Emit(i: Instr): (ops: seq<Op>)
    ensures |ops| > 0
    decreases i, 1
  {
    match i
    case Const(t, v) => [OConst(t, v)]
    case Drop => [ODrop]
    case Call(f) => [OCall(f)]
    case Loop(body) => [OLoop] + Flatten(body) + [OEnd]
    case Block(body) => [OBlock] + Flatten(body) + [OEnd]
    case IfElse(c, a) => [OIf] + Flatten(c) + [OElse] + Flatten(a) + [OEnd]
    case Branch(t) => [OBranch(t)]
    case Plain(t) => [OPlain(t)]
  }

  function Flatten(s: seq<Instr>): seq<Op>
    decreases s, 0
  {
    if s == [] then [] else Emit(s[0]) + Flatten(s[1..])
  }

  /** The calls of a sequence, nested ones included, in order. */
  function Calls(s: seq<Instr>): seq<FuncId>
    decreases s, 0
  {
    if s == [] then [] else CallsOf(s[0]) + Calls(s[1..])
  }

  function CallsOf(i: Instr): seq<FuncId>
    decreases i, 1
  {
    match i
    case Call(f) => [f]
    case Loop(body) => Calls(body)
    case Block(body) => Calls(body)
    case IfElse(c, a) => Calls(c) + Calls(a)
    case _ => []
  }

  /** Bodies of all loops of a sequence, outermost first, in the order their `loop` is emitted. */
  function Loops(s: seq<Instr>): seq<seq<Instr>>
    decreases s, 0
  {
    if s == [] then [] else LoopsOf(s[0]) + Loops(s[1..])
  }

  function LoopsOf(i: Instr): seq<seq<Instr>>
    decreases i, 1
  {
    match i
    case Loop(body) => [body] + Loops(body)
    case Block(body) => Loops(body)
    case IfElse(c, a) => Loops(c) + Loops(a)
    case _ => []
  }

  lemma {:induction false} LoopsAppend(s: seq<Instr>, t: seq<Instr>)
    ensures Loops(s + t) == Loops(s) + Loops(t)
  {
    hide LoopsOf;
    if s == [] {
      assert s + t == t;
    } else {
      LoopsAppend(s[1..], t);
      assert (s + t)[1..] == s[1..] + t && (s + t)[0] == s[0];
      assert Loops(s + t) == LoopsOf(s[0]) + Loops(s[1..] + t);
    }
  }

  /** Does a call of `g` appear anywhere in the sequence, at any depth? */
  predicate ContainsCall(s: seq<Instr>, g: FuncId)
    decreases s, 0
  {
    s != [] && (ContainsCallIn(s[0], g) || ContainsCall(s[1..], g))
  }

  predicate ContainsCallIn(i: Instr, g: FuncId)
    decreases i, 1
  {
    match i
    case Call(f) => f == g
    case Loop(body) => ContainsCall(body, g)
    case Block(body) => ContainsCall(body, g)
    case IfElse(c, a) => ContainsCall(c, g) || ContainsCall(a, g)
    case _ => false
  }

  /** The scan for the guard and the collection of call edges see the same calls. */
  lemma {:induction false} ContainsIsCollected(s: seq<Instr>, g: FuncId)
    ensures ContainsCall(s, g) <==> g in Calls(s)
    decreases s, 0
  {
    if s != [] {
      match s[0] {
        case Loop(body) => ContainsIsCollected(body, g);
        case Block(body) => ContainsIsCollected(body, g);
        case IfElse(c, a) =>
          ContainsIsCollected(c, g);
          ContainsIsCollected(a, g);
        case _ =>
      }
      ContainsIsCollected(s[1..], g);
    }
  }
}
