/**
 * The stack-budget walk of the lint (`deepest_chain` over all roots with one shared memo): a
 * depth-first search that memoizes finished functions and flags a callee that is still on the
 * stack. It is compared with the call graph's paths, which know nothing of the search.
 */
module CallGraph {
  type Id = nat

  const U32_MAX := 0xFFFF_FFFF

  type u32 = n: nat | n <= U32_MAX

  /** Frame sizes of the local functions, and who calls whom. */
  datatype Graph = Graph(frames: map<Id, u32>, edges: map<Id, seq<Id>>)

  function Own(g: Graph, f: Id): u32 {
    if f in g.frames then g.frames[f] else 0
  }

  function Callees(g: Graph, f: Id): seq<Id> {
    if f in g.edges then g.edges[f] else []
  }

  /** A call that the walk follows: only local functions have frames. */
  predicate Edge(g: Graph, a: Id, b: Id) {
    a in g.edges && b in g.edges[a] && b in g.frames
  }

  ghost predicate Path(g: Graph, p: seq<Id>) {
    |p| > 0 && forall i :: 0 <= i < |p| - 1 ==> Edge(g, p[i], p[i + 1])
  }

  function Weight(g: Graph, p: seq<Id>): nat {
    if p == [] then 0 else (if p[0] in g.frames then g.frames[p[0]] else 0) + Weight(g, p[1..])
  }

  function Cap(n: nat): u32 {
    if n > U32_MAX then U32_MAX else n
  }

  ghost predicate Repeats(p: seq<Id>) {
    exists i, j :: 0 <= i < j < |p| && p[i] == p[j]
  }

  /** Recursion can be reached from `r`: some call path from it visits a function twice. */
  ghost predicate Recursive(g: Graph, r: Id) {
    exists p :: Path(g, p) && p[0] == r && Repeats(p)
  }

  /** `v` is the weight of the heaviest call path from `f`, capped at the u32 maximum. */
  ghost predicate Heaviest(g: Graph, f: Id, v: u32) {
    && (exists p :: Path(g, p) && p[0] == f && (Weight(g, p) == v || (v == U32_MAX && Weight(g, p) > v)))
    && (v < U32_MAX ==> forall p :: Path(g, p) && p[0] == f ==> Weight(g, p) <= v)
  }

  lemma PathCons(g: Graph, f: Id, p: seq<Id>)
    requires Path(g, p) && Edge(g, f, p[0])
    ensures Path(g, [f] + p) && Weight(g, [f] + p) == Own(g, f) + Weight(g, p)
  {
    assert ([f] + p)[1..] == p;
  }

  lemma PathTail(g: Graph, p: seq<Id>)
    requires Path(g, p) && |p| > 1
    ensures Edge(g, p[0], p[1]) && Path(g, p[1..]) && Weight(g, p) == Own(g, p[0]) + Weight(g, p[1..])
  {
    assert Edge(g, p[0], p[0 + 1]);
    forall i | 0 <= i < |p[1..]| - 1 ensures Edge(g, p[1..][i], p[1..][i + 1]) {
      assert Edge(g, p[i + 1], p[i + 1 + 1]);
    }
  }

  lemma PathSnoc(g: Graph, p: seq<Id>, f: Id)
    requires p == [] || (Path(g, p) && Edge(g, p[|p| - 1], f))
    ensures Path(g, p + [f])
  {
    var q := p + [f];
    forall i | 0 <= i < |q| - 1 ensures Edge(g, q[i], q[i + 1]) {
      if i < |p| - 1 {
        assert Edge(g, p[i], p[i + 1]);
      }
    }
  }

  /** The heaviest path goes through the heaviest callee. */
  lemma HeaviestStep(g: Graph, f: Id, values: map<Id, u32>, best: u32)
    requires forall c :: Edge(g, f, c) ==> c in values && Heaviest(g, c, values[c]) && values[c] <= best
    requires best == 0 || exists c :: Edge(g, f, c) && values[c] == best
    ensures Heaviest(g, f, Cap(Own(g, f) + best))
  {
    forall p | Path(g, p) && p[0] == f ensures Cap(Weight(g, p)) <= Cap(Own(g, f) + best) {
      if |p| > 1 {
        PathTail(g, p);
        assert Heaviest(g, p[1], values[p[1]]) && p[1..][0] == p[1];
      } else {
        assert p[1..] == [];
      }
    }
    if best > 0 {
      var c :| Edge(g, f, c) && values[c] == best;
      var p :| Path(g, p) && p[0] == c && (Weight(g, p) == best || (best == U32_MAX && Weight(g, p) > best));
      PathCons(g, f, p);
      assert ([f] + p)[0] == f;
    } else {
      assert Path(g, [f]) && [f][0] == f && [f][1..] == [];
      assert Weight(g, [f]) == Own(g, f);
    }
  }

  // ---- finishing order ----

  /** Every function follows all of its callees. */
  ghost predicate Ordered(g: Graph, done: seq<Id>) {
    forall i, c :: 0 <= i < |done| && Edge(g, done[i], c) ==> c in done[..i]
  }

  lemma {:induction false} OrderedPath(g: Graph, done: seq<Id>, k: nat, p: seq<Id>)
    requires Ordered(g, done) && k < |done| && Path(g, p) && p[0] == done[k]
    requires forall i, j :: 0 <= i < j < |done| ==> done[i] != done[j]
    ensures forall i :: 0 < i < |p| ==> p[i] in done[..k]
    decreases |p|
  {
    if |p| > 1 {
      PathTail(g, p);
      assert p[1] in done[..k];
      var k' :| 0 <= k' < k && done[k'] == p[1];
      OrderedPath(g, done, k', p[1..]);
      forall i | 0 < i < |p| ensures p[i] in done[..k] {
        if i > 1 {
          assert p[i] == p[1..][i - 1];
          assert p[i] in done[..k'];
        }
      }
    }
  }

  /** Nothing that finished in order can reach recursion. */
  lemma {:induction false} OrderedNoRepeat(g: Graph, done: seq<Id>, p: seq<Id>)
    requires Ordered(g, done) && Path(g, p) && p[0] in done
    requires forall i, j :: 0 <= i < j < |done| ==> done[i] != done[j]
    ensures !Repeats(p)
    decreases |p|
  {
    var k :| 0 <= k < |done| && done[k] == p[0];
    OrderedPath(g, done, k, p);
    if |p| > 1 {
      PathTail(g, p);
      assert p[1] in done[..k];
      OrderedNoRepeat(g, done, p[1..]);
      forall i, j | 0 <= i < j < |p| ensures p[i] != p[j] {
        if i == 0 {
          assert p[j] in done[..k];
        } else {
          assert p[1..][i - 1] != p[1..][j - 1];
        }
      }
    }
  }

  // ---- the search ----

  /** What the walk knows between calls. */
  ghost predicate Known(g: Graph, memo: map<Id, u32>, onStack: set<Id>, done: seq<Id>, recursion: bool) {
    && (forall f :: f in memo <==> f in done)
    && (forall f :: f in onStack ==> f !in memo)
    && (forall i, j :: 0 <= i < j < |done| ==> done[i] != done[j])
    && (!recursion ==> Ordered(g, done) && forall f :: f in memo ==> Heaviest(g, f, memo[f]))
  }

  /** The callees `cs` have been visited, and `best` is the largest of their values. */
  ghost predicate Visited(g: Graph, memo: map<Id, u32>, cs: seq<Id>, best: u32) {
    && (forall c :: c in cs && c in g.frames ==> c in memo && memo[c] <= best)
    && (best == 0 || exists c :: c in cs && c in g.frames && c in memo && memo[c] == best)
  }

  lemma VisitOne(g: Graph, before: map<Id, u32>, memo: map<Id, u32>, cs: seq<Id>, best: u32, c: Id, w: u32)
    requires Visited(g, before, cs, best) && (forall f :: f in before ==> f in memo && memo[f] == before[f])
    requires c in g.frames ==> c in memo && memo[c] == w
    ensures Visited(g, memo, cs + [c], if c in g.frames && w > best then w else best)
  {
    assert c in cs + [c];
  }

  lemma Enter(g: Graph, memo: map<Id, u32>, onStack: set<Id>, done: seq<Id>, recursion: bool, f: Id)
    requires Known(g, memo, onStack, done, recursion) && f !in memo
    ensures Known(g, memo, onStack + {f}, done, recursion)
  {
  }

  lemma Finish(g: Graph, memo: map<Id, u32>, onStack: set<Id>, done: seq<Id>, recursion: bool, f: Id, best: u32)
    requires Known(g, memo, onStack + {f}, done, recursion) && f !in onStack
    requires !recursion ==> Visited(g, memo, Callees(g, f), best)
    ensures f !in memo
    ensures Known(g, memo[f := Cap(Own(g, f) + best)], onStack, done + [f], recursion)
  {
    assert f in onStack + {f};
    var memo', done' := memo[f := Cap(Own(g, f) + best)], done + [f];
    if !recursion {
      HeaviestStep(g, f, memo, best) by {
        if best > 0 {
          var c :| c in Callees(g, f) && c in g.frames && c in memo && memo[c] == best;
          assert Edge(g, f, c);
        }
      }
      forall i, c | 0 <= i < |done'| && Edge(g, done'[i], c) ensures c in done'[..i] {
        if i < |done| {
          assert done'[..i] == done[..i];
        } else {
          assert c in memo && done'[..i] == done;
        }
      }
    }
    assert done'[|done|] == f;
    forall x ensures x in memo' <==> x in done' {
      if x in done { assert x in done'; }
    }
  }

  function Elements(chain: seq<Id>): set<Id> {
    set x | x in chain
  }

  function Root(chain: seq<Id>, f: Id): Id {
    if chain == [] then f else chain[0]
  }

  lemma CycleClosed(g: Graph, chain: seq<Id>, f: Id)
    requires chain == [] || (Path(g, chain) && Edge(g, chain[|chain| - 1], f))
    requires f in Elements(chain)
    ensures Recursive(g, Root(chain, f))
  {
    PathSnoc(g, chain, f);
    var q := chain + [f];
    var i :| 0 <= i < |chain| && chain[i] == f;
    assert q[i] == q[|chain|];
    assert Path(g, q) && q[0] == chain[0] && Repeats(q);
  }

  lemma Smaller(all: set<Id>, was: set<Id>, f: Id)
    requires f in all && f !in was
    ensures |all - (was + {f})| < |all - was|
  {
    assert all - was == (all - (was + {f})) + {f};
  }

  lemma Push(chain: seq<Id>, f: Id)
    ensures Elements(chain + [f]) == Elements(chain) + {f}
    ensures (chain + [f])[0] == Root(chain, f) && (chain + [f])[|chain|] == f
  {
  }

  lemma InUniverse(g: Graph, chain: seq<Id>, f: Id)
    requires chain == [] || Edge(g, chain[|chain| - 1], f)
    ensures f in g.frames.Keys + {Root(chain, f)}
  {
  }

  lemma IsEdge(g: Graph, f: Id, i: nat)
    requires i < |Callees(g, f)| && Callees(g, f)[i] in g.frames
    ensures Edge(g, f, Callees(g, f)[i])
  {
  }

  class Search {
    const g: Graph
    var memo: map<Id, u32>
    var onStack: set<Id>
    var recursion: bool
    ghost var done: seq<Id>  // in order of finishing

    ghost predicate Valid()
      reads this
    {
      Known(g, memo, onStack, done, recursion)
    }

    constructor (graph: Graph)
      ensures Valid() && g == graph && memo == map[] && onStack == {} && !recursion
    {
      g := graph;
      memo, onStack, recursion, done := map[], {}, false, [];
    }

    /** `chain` is the call path from the root to the caller: what is on the stack. */
    method DeepestChain(f: Id, ghost chain: seq<Id>, ghost root: Id) returns (v: u32)
      requires root == Root(chain, f)
      requires Valid() && onStack == Elements(chain)
      requires chain == [] || (Path(g, chain) && Edge(g, chain[|chain| - 1], f))
      modifies this
      ensures Valid() && onStack == old(onStack) && (old(recursion) ==> recursion)
      ensures forall x :: x in old(memo) ==> x in memo && memo[x] == old(memo)[x]
      ensures !recursion ==> f in memo && v == memo[f]
      ensures recursion && !old(recursion) ==> Recursive(g, root)
      decreases |g.frames.Keys + {root} - onStack|, 0
    {
      hide Known, Path, Recursive, Visited, Edge, Callees, Own, Cap, Elements;
      var own: nat := Own(g, f);
      if f in onStack {
        CycleClosed(g, chain, f);
        recursion := true;
        Excused(g, memo, onStack, done, old(recursion));
        return own;
      }
      if f in memo {
        return memo[f];
      }
      ghost var was := onStack;
      Enter(g, memo, onStack, done, recursion, f);
      InUniverse(g, chain, f);
      Smaller(g.frames.Keys + {root}, was, f);
      PathSnoc(g, chain, f);
      Push(chain, f);
      onStack := onStack + {f};
      var maxChild := VisitCallees(f, chain + [f], root);
      onStack := onStack - {f};
      assert onStack == was;
      var total := Cap(own + maxChild);
      Finish(g, memo, was, done, recursion, f, maxChild);
      memo := memo[f := total];
      done := done + [f];
      return total;
    }

    /** The loop over the callees of `f`, which is the last function of `chain`. */
    method VisitCallees(f: Id, ghost chain: seq<Id>, ghost root: Id) returns (maxChild: u32)
      requires Valid() && onStack == Elements(chain)
      requires chain != [] && Path(g, chain) && chain[|chain| - 1] == f && chain[0] == root
      modifies this
      ensures Valid() && onStack == old(onStack) && (old(recursion) ==> recursion)
      ensures forall x :: x in old(memo) ==> x in memo && memo[x] == old(memo)[x]
      ensures !recursion ==> Visited(g, memo, Callees(g, f), maxChild)
      ensures recursion && !old(recursion) ==> Recursive(g, root)
      decreases |g.frames.Keys + {root} - onStack|, 1
    {
      hide Known, Path, Recursive, Visited, Edge, Callees, Own, Cap, Elements;
      maxChild := 0;
      var cs := Callees(g, f);
      NoneVisited(g, memo);
      assert cs[..0] == [];
      for i := 0 to |cs|
        invariant Valid() && onStack == old(onStack) && (old(recursion) ==> recursion)
        invariant forall x :: x in old(memo) ==> x in memo && memo[x] == old(memo)[x]
        invariant !recursion ==> Visited(g, memo, cs[..i], maxChild)
        invariant recursion && !old(recursion) ==> Recursive(g, root)
      {
        ghost var before := memo;
        assert cs[..i + 1] == cs[..i] + [cs[i]];
        if cs[i] in g.frames {
          IsEdge(g, f, i);
          var w := DeepestChain(cs[i], chain, root);
          if !recursion {
            VisitOne(g, before, memo, cs[..i], maxChild, cs[i], w);
          }
          maxChild := if w > maxChild then w else maxChild;
        } else if !recursion {
          VisitOne(g, before, memo, cs[..i], maxChild, cs[i], 0);
        }
      }
      assert cs[..|cs|] == cs;
    }

    /** The loop of the stack check: every root with an empty stack, one memo for all. */
    method DeepestOf(roots: seq<Id>) returns (deepest: u32)
      requires Valid() && onStack == {} && memo == map[] && !recursion
      modifies this
      ensures recursion <==> exists r :: r in roots && Recursive(g, r)
      ensures !recursion ==> forall r :: r in roots ==> r in memo && Heaviest(g, r, memo[r]) && memo[r] <= deepest
      ensures !recursion && roots != [] ==> exists r :: r in roots && r in memo && memo[r] == deepest
    {
      deepest := 0;
      for i := 0 to |roots|
        invariant Valid() && onStack == {} && Elements([]) == {}
        invariant recursion ==> exists r :: r in roots && Recursive(g, r)
        invariant !recursion ==> forall j :: 0 <= j < i ==> roots[j] in memo && memo[roots[j]] <= deepest
        invariant !recursion && i > 0 ==> exists j :: 0 <= j < i && roots[j] in memo && memo[roots[j]] == deepest
        invariant i == 0 ==> deepest == 0
      {
        var v := DeepestChain(roots[i], [], roots[i]);
        deepest := if v > deepest then v else deepest;
      }
      if !recursion {
        forall r | r in roots ensures !Recursive(g, r) {
          assert r in memo;
          forall p | Path(g, p) && p[0] == r ensures !Repeats(p) {
            OrderedNoRepeat(g, done, p);
          }
        }
      }
    }
  }

  lemma NoneVisited(g: Graph, memo: map<Id, u32>)
    ensures Visited(g, memo, [], 0)
  {
  }

  lemma Excused(g: Graph, memo: map<Id, u32>, onStack: set<Id>, done: seq<Id>, recursion: bool)
    requires Known(g, memo, onStack, done, recursion)
    ensures Known(g, memo, onStack, done, true)
  {
  }
}
