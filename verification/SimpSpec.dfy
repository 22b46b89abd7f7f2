/** The graphs of `simpaig`: nodes, references with a sign, values, supports and edge counts.
    Node indices stand for the addresses of nodes; they are never used twice. */
module SimpSpec {

  /** The address of a node, tagged with a sign. */
  datatype Ref = Ref(node: nat, neg: bool)

  /** Variables carry a client's name and a time slice. */
  datatype Node = False | Variable(name: nat, slice: int) | And(c0: Ref, c1: Ref)

  datatype Timed = Timed(name: nat, slice: int)

  type Env = (nat, int) -> bool

  function Neg(r: Ref): Ref {
    r.(neg := !r.neg)
  }

  const FALSE := Ref(0, false)
  const TRUE := Ref(0, true)

  /** Children come before their parents, are no constants, and differ in more than the sign. */
  ghost predicate WellFormed(nodes: seq<Node>) {
    && |nodes| > 0 && nodes[0] == False
    && forall i :: 1 <= i < |nodes| ==> NodeOk(nodes[i], i)
  }

  predicate NodeOk(n: Node, i: nat) {
    !n.False? && (n.And? ==> 0 < n.c0.node < i && 0 < n.c1.node < i && n.c0.node != n.c1.node)
  }

  // ----- Values --------------------------------------------------------------------------------

  ghost function NodeVal(nodes: seq<Node>, i: nat, env: Env): bool
    requires WellFormed(nodes) && i < |nodes|
    decreases i
  {
    match nodes[i]
    case False => false
    case Variable(name, slice) => env(name, slice)
    case And(c0, c1) =>
      assert NodeOk(nodes[i], i);
      (NodeVal(nodes, c0.node, env) != c0.neg) && (NodeVal(nodes, c1.node, env) != c1.neg)
  }

  ghost predicate Val(nodes: seq<Node>, r: Ref, env: Env)
    requires WellFormed(nodes) && r.node < |nodes|
  {
    NodeVal(nodes, r.node, env) != r.neg
  }

  lemma {:induction false} NodeValExtend(nodes: seq<Node>, nodes': seq<Node>, i: nat, env: Env)
    requires WellFormed(nodes) && WellFormed(nodes') && nodes <= nodes' && i < |nodes|
    ensures NodeVal(nodes', i, env) == NodeVal(nodes, i, env)
    decreases i
  {
    match nodes[i]
    case And(c0, c1) =>
      assert NodeOk(nodes[i], i);
      NodeValExtend(nodes, nodes', c0.node, env);
      NodeValExtend(nodes, nodes', c1.node, env);
    case _ =>
  }

  lemma ValExtend(nodes: seq<Node>, nodes': seq<Node>, r: Ref)
    requires WellFormed(nodes) && WellFormed(nodes') && nodes <= nodes' && r.node < |nodes|
    ensures forall env :: Val(nodes', r, env) == Val(nodes, r, env)
  {
    forall env ensures Val(nodes', r, env) == Val(nodes, r, env) {
      NodeValExtend(nodes, nodes', r.node, env);
    }
  }

  // ----- Supports ------------------------------------------------------------------------------

  ghost function Support(nodes: seq<Node>, i: nat): set<Timed>
    requires WellFormed(nodes) && i < |nodes|
    decreases i
  {
    match nodes[i]
    case False => {}
    case Variable(name, slice) => {Timed(name, slice)}
    case And(c0, c1) =>
      assert NodeOk(nodes[i], i);
      Support(nodes, c0.node) + Support(nodes, c1.node)
  }

  lemma {:induction false} SupportExtend(nodes: seq<Node>, nodes': seq<Node>, i: nat)
    requires WellFormed(nodes) && WellFormed(nodes') && nodes <= nodes' && i < |nodes|
    ensures Support(nodes', i) == Support(nodes, i)
    decreases i
  {
    match nodes[i]
    case And(c0, c1) =>
      assert NodeOk(nodes[i], i);
      SupportExtend(nodes, nodes', c0.node);
      SupportExtend(nodes, nodes', c1.node);
    case _ =>
  }

  /** Only the variables of the support matter. */
  lemma {:induction false} SupportDecides(nodes: seq<Node>, i: nat, env: Env, env': Env)
    requires WellFormed(nodes) && i < |nodes|
    requires forall x :: x in Support(nodes, i) ==> env(x.name, x.slice) == env'(x.name, x.slice)
    ensures NodeVal(nodes, i, env) == NodeVal(nodes, i, env')
    decreases i
  {
    match nodes[i]
    case Variable(name, slice) => assert Timed(name, slice) in Support(nodes, i);
    case And(c0, c1) =>
      assert NodeOk(nodes[i], i);
      SupportDecides(nodes, c0.node, env, env');
      SupportDecides(nodes, c1.node, env, env');
    case False =>
  }

  // ----- Edges ---------------------------------------------------------------------------------

  function EdgeCount(n: Node, i: nat): nat {
    if n.And? then (if n.c0.node == i then 1 else 0) + (if n.c1.node == i then 1 else 0) else 0
  }

  /** Edges to `i` from the first `k` nodes, counting referenced parents only. */
  ghost function Edges(nodes: seq<Node>, refs: seq<nat>, i: nat, k: nat): nat
    requires k <= |nodes| && k <= |refs|
  {
    if k == 0 then 0
    else Edges(nodes, refs, i, k - 1) + (if refs[k - 1] > 0 then EdgeCount(nodes[k - 1], i) else 0)
  }

  lemma {:induction false} EdgesExtend(nodes: seq<Node>, nodes': seq<Node>, refs: seq<nat>, refs': seq<nat>, i: nat, k: nat)
    requires k <= |nodes| && k <= |refs| && nodes <= nodes' && k <= |refs'|
    requires forall j :: 0 <= j < k ==> (refs[j] > 0 <==> refs'[j] > 0)
    ensures Edges(nodes', refs', i, k) == Edges(nodes, refs, i, k)
  {
    if k > 0 { EdgesExtend(nodes, nodes', refs, refs', i, k - 1); }
  }

  /** When the count of `p` reaches zero, its edges are no longer counted. */
  lemma {:induction false} EdgesDrop(nodes: seq<Node>, refs: seq<nat>, refs': seq<nat>, i: nat, p: nat, k: nat)
    requires k <= |nodes| && k <= |refs| == |refs'| && p < |refs|
    requires refs[p] > 0 && refs'[p] == 0 && forall j :: 0 <= j < |refs| && j != p ==> refs'[j] == refs[j]
    ensures Edges(nodes, refs', i, k) == if p < k then Edges(nodes, refs, i, k) - EdgeCount(nodes[p], i) else Edges(nodes, refs, i, k)
  {
    if k > 0 { EdgesDrop(nodes, refs, refs', i, p, k - 1); }
  }

  /** An unreferenced node has no referenced parent. */
  lemma {:induction false} EdgesZero(nodes: seq<Node>, refs: seq<nat>, i: nat, k: nat, p: nat)
    requires k <= |nodes| && k <= |refs| && p < k && refs[p] > 0
    ensures Edges(nodes, refs, i, k) >= EdgeCount(nodes[p], i)
  {
    if p < k - 1 { EdgesZero(nodes, refs, i, k - 1, p); }
  }

  lemma {:induction false} NoEdges(nodes: seq<Node>, refs: seq<nat>, i: nat, k: nat)
    requires WellFormed(nodes) && k <= |nodes| && k <= |refs| && k <= i + 1
    ensures Edges(nodes, refs, i, k) == 0
  {
    if k > 0 {
      NoEdges(nodes, refs, i, k - 1);
      if k > 1 { assert NodeOk(nodes[k - 1], k - 1); }
    }
  }

  // ----- Stored nodes ----------------------------------------------------------------------------

  /** The same node, children in either order. */
  predicate Alike(a: Node, b: Node) {
    a == b || (a.And? && b.And? && a.c0 == b.c1 && a.c1 == b.c0)
  }

  /** No two stored nodes are alike. */
  ghost predicate OneEach(nodes: seq<Node>, stored: set<nat>) {
    forall i, j :: i in stored && j in stored && i < |nodes| && j < |nodes| && Alike(nodes[i], nodes[j]) ==> i == j
  }
}
