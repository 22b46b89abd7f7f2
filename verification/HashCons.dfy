/** Hash consing in `smvtoaig`: the node table, its rehashing, and the canonical AND nodes it
    yields together with the rewriting rules. */
module HashCons {
  import opened HashChains
  import opened Rewrite

  // ----- Extending the node list ------------------------------------------------------------

  lemma {:induction false} EvalExtend(nodes: seq<Node>, nodes': seq<Node>, env: Env, r: Ref)
    requires WellFormed(nodes) && WellFormed(nodes') && nodes <= nodes' && ValidRef(|nodes|, r)
    ensures Eval(nodes', env, r) == Eval(nodes, env, r)
    decreases Abs(r), r < 0
  {
    if r < 0 {
      EvalExtend(nodes, nodes', env, -r);
    } else if r != TRUE {
      match nodes[r - 2]
      case VarNode(_, _) =>
      case AndNode(c0, c1) =>
        EvalExtend(nodes, nodes', env, c0);
        EvalExtend(nodes, nodes', env, c1);
    }
  }

  lemma TwoLevelExtend(nodes: seq<Node>, nodes': seq<Node>, a: Ref, b: Ref)
    requires nodes <= nodes' && IsNode(|nodes|, a) && IsNode(|nodes|, b)
    ensures TwoLevel(nodes', a, b) == TwoLevel(nodes, a, b)
  {
    assert NodeOf(nodes', Abs(a)) == NodeOf(nodes, Abs(a));
    assert NodeOf(nodes', Abs(b)) == NodeOf(nodes, Abs(b));
    assert Asymmetric(nodes', a, b) == Asymmetric(nodes, a, b);
    assert Asymmetric(nodes', b, a) == Asymmetric(nodes, b, a);
    assert Symmetric(nodes', a, b) == Symmetric(nodes, a, b);
  }

  lemma RestartExtend(nodes: seq<Node>, nodes': seq<Node>, optimize: nat, a: Ref, b: Ref)
    requires nodes <= nodes' && IsNode(|nodes|, a) && IsNode(|nodes|, b)
    ensures Restart(nodes', optimize, a, b) == Restart(nodes, optimize, a, b)
  {
    assert NodeOf(nodes', Abs(a)) == NodeOf(nodes, Abs(a));
    assert NodeOf(nodes', Abs(b)) == NodeOf(nodes, Abs(b));
    assert Substituted(nodes', a, b) == Substituted(nodes, a, b);
    assert Substituted(nodes', b, a) == Substituted(nodes, b, a);
    assert SubstitutedByPair(nodes', a, b) == SubstitutedByPair(nodes, a, b);
    assert SubstitutedByPair(nodes', b, a) == SubstitutedByPair(nodes, b, a);
    assert Merged(nodes', a, b) == Merged(nodes, a, b);
  }

  lemma IrreducibleExtend(nodes: seq<Node>, nodes': seq<Node>, optimize: nat, a: Ref, b: Ref)
    requires nodes <= nodes' && IsNode(|nodes|, a) && IsNode(|nodes|, b)
    requires Irreducible(nodes, optimize, a, b)
    ensures Irreducible(nodes', optimize, a, b)
  {
    TwoLevelExtend(nodes, nodes', a, b);
    RestartExtend(nodes, nodes', optimize, a, b);
  }

  // ----- Canonicity -------------------------------------------------------------------------

  /** No two nodes are alike. */
  ghost predicate Unique(nodes: seq<Node>) {
    forall i, j :: 0 <= i < j < |nodes| ==> nodes[i] != nodes[j]
  }

  /** The operands of every stored AND are in order and no rule applies to them. */
  ghost predicate AllSettled(nodes: seq<Node>, optimize: nat)
    requires WellFormed(nodes)
  {
    forall i :: 0 <= i < |nodes| && nodes[i].AndNode? ==> SettledAnd(nodes, optimize, nodes[i])
  }

  ghost predicate SettledAnd(nodes: seq<Node>, optimize: nat, n: Node)
    requires n.AndNode? && IsNode(|nodes|, n.c0) && IsNode(|nodes|, n.c1)
  {
    Abs(n.c0) < Abs(n.c1) && Irreducible(nodes, optimize, n.c0, n.c1)
  }

  /** What `new_aig` makes of two operands: the node list afterwards and the result. */
  ghost predicate Built(nodes: seq<Node>, optimize: nat, a: Ref, b: Ref, nodes': seq<Node>, r: Ref)
    requires WellFormed(nodes) && ValidRef(|nodes|, a) && ValidRef(|nodes|, b)
  {
    match Normalize(nodes, optimize, a, b)
    case Known(x) => nodes' == nodes && r == x
    case Pair(x, y) => Interned(nodes, AndNode(x, y), nodes', r)
  }

  ghost predicate Interned(nodes: seq<Node>, key: Node, nodes': seq<Node>, r: Ref) {
    && r > 0 && IsNode(|nodes'|, r)
    && NodeOf(nodes', r) == key
    && nodes' == (if key in nodes then nodes else nodes + [key])
  }

  lemma InternedKeeps(nodes: seq<Node>, optimize: nat, key: Node, nodes': seq<Node>, r: Ref)
    requires WellFormed(nodes) && Unique(nodes) && AllSettled(nodes, optimize)
    requires key.AndNode? ==> IsNode(|nodes|, key.c0) && IsNode(|nodes|, key.c1) && SettledAnd(nodes, optimize, key)
    requires Interned(nodes, key, nodes', r)
    ensures WellFormed(nodes') && Unique(nodes') && AllSettled(nodes', optimize) && nodes <= nodes'
  {
    forall i | 0 <= i < |nodes'| && nodes'[i].AndNode?
      ensures SettledAnd(nodes', optimize, nodes'[i])
    {
      if i < |nodes| { assert SettledAnd(nodes, optimize, nodes[i]); }
      IrreducibleExtend(nodes, nodes', optimize, nodes'[i].c0, nodes'[i].c1);
    }
  }

  lemma EvalAnd(nodes: seq<Node>, env: Env, r: Ref, x: Ref, y: Ref)
    requires WellFormed(nodes) && r > 0 && IsNode(|nodes|, r) && NodeOf(nodes, r) == AndNode(x, y)
    requires ValidRef(|nodes|, x) && ValidRef(|nodes|, y)
    ensures Eval(nodes, env, r) <==> Eval(nodes, env, x) && Eval(nodes, env, y)
  {
    assert nodes[r - 2] == AndNode(x, y);
  }

  /** Interning an ordered pair to which no rule applies keeps the table canonical and yields its conjunction. */
  lemma InternedPairSound(nodes: seq<Node>, env: Env, optimize: nat, x: Ref, y: Ref, nodes': seq<Node>, r: Ref)
    requires WellFormed(nodes) && Unique(nodes) && AllSettled(nodes, optimize)
    requires IsNode(|nodes|, x) && IsNode(|nodes|, y) && SettledAnd(nodes, optimize, AndNode(x, y))
    requires Interned(nodes, AndNode(x, y), nodes', r)
    ensures WellFormed(nodes') && Unique(nodes') && AllSettled(nodes', optimize) && nodes <= nodes'
    ensures ValidRef(|nodes'|, r)
    ensures Eval(nodes', env, r) <==> Eval(nodes, env, x) && Eval(nodes, env, y)
  {
    hide SettledAnd, Unique, AllSettled, Eval;
    InternedKeeps(nodes, optimize, AndNode(x, y), nodes', r);
    EvalExtend(nodes, nodes', env, x);
    EvalExtend(nodes, nodes', env, y);
    EvalAnd(nodes', env, r, x, y);
  }

  /** Building an AND keeps the table canonical and computes the conjunction. */
  lemma BuiltSound(nodes: seq<Node>, env: Env, optimize: nat, a: Ref, b: Ref, nodes': seq<Node>, r: Ref)
    requires WellFormed(nodes) && Unique(nodes) && AllSettled(nodes, optimize)
    requires ValidRef(|nodes|, a) && ValidRef(|nodes|, b)
    requires Built(nodes, optimize, a, b, nodes', r)
    ensures WellFormed(nodes') && Unique(nodes') && AllSettled(nodes', optimize) && nodes <= nodes'
    ensures ValidRef(|nodes'|, r)
    ensures Eval(nodes', env, r) <==> Eval(nodes, env, a) && Eval(nodes, env, b)
  {
    NormalizeSound(nodes, env, optimize, a, b);
    var n := Normalize(nodes, optimize, a, b);
    if n.Pair? {
      InternedPairSound(nodes, env, optimize, n.a, n.b, nodes', r);
    }
  }

  /** Rebuilding a stored AND from its own children, in either order, returns that very node. */
  lemma RebuildIsIdentity(nodes: seq<Node>, optimize: nat, i: nat, nodes': seq<Node>, r: Ref)
    requires WellFormed(nodes) && Unique(nodes) && AllSettled(nodes, optimize)
    requires i < |nodes| && nodes[i].AndNode?
    requires
      || Built(nodes, optimize, nodes[i].c0, nodes[i].c1, nodes', r)
      || Built(nodes, optimize, nodes[i].c1, nodes[i].c0, nodes', r)
    ensures nodes' == nodes && r == RefOf(i)
  {
    var a, b := nodes[i].c0, nodes[i].c1;
    assert SettledAnd(nodes, optimize, nodes[i]);
    RulesCommute(nodes, optimize, a, b);
    assert Normalize(nodes, optimize, a, b) == Pair(a, b);
    assert Normalize(nodes, optimize, b, a) == Pair(a, b);
    assert Interned(nodes, AndNode(a, b), nodes', r);
    assert nodes[i] in nodes;
    assert nodes[r - 2] == nodes[i];
  }

  /** No stored AND has one of the operand patterns that the rules of its level remove. */
  lemma StoredPatterns(nodes: seq<Node>, optimize: nat, i: nat, c0: Ref, c1: Ref, d0: Ref, d1: Ref)
    requires WellFormed(nodes) && AllSettled(nodes, optimize) && i < |nodes| && nodes[i].AndNode?
    ensures var a, b := nodes[i].c0, nodes[i].c1;
      && a != TRUE && a != FALSE && b != TRUE && b != FALSE && a != b && a != -b
      && (optimize >= 2 && IsAndOf(nodes, a, c0, c1) ==> b != c0 && b != c1 && b != -c0 && b != -c1)
      && (optimize >= 2 && IsAndOf(nodes, b, c0, c1) ==> a != c0 && a != c1 && a != -c0 && a != -c1)
      && (optimize >= 2 && IsAndOf(nodes, a, c0, c1) && IsAndOf(nodes, b, d0, d1) ==> !Meet(c0, c1, -d0, -d1))
      && (optimize >= 4 && IsAndOf(nodes, a, c0, c1) && IsAndOf(nodes, b, d0, d1) ==> !Meet(c0, c1, d0, d1))
  {
    var a, b := nodes[i].c0, nodes[i].c1;
    assert SettledAnd(nodes, optimize, nodes[i]);
    hide Irreducible;
    NoTrivialOperands(nodes, optimize, a, b);
    NoChildOperand(nodes, optimize, a, b, c0, c1);
    if IsAndOf(nodes, a, c0, c1) && IsAndOf(nodes, b, d0, d1) {
      NoRelatedChildren(nodes, optimize, a, b, c0, c1, d0, d1);
    }
  }

  /** At most one AND is stored per unordered pair of operands. */
  lemma OneAndPerPair(nodes: seq<Node>, optimize: nat, i: nat, j: nat)
    requires WellFormed(nodes) && Unique(nodes) && AllSettled(nodes, optimize)
    requires i < |nodes| && j < |nodes| && nodes[i].AndNode? && nodes[j].AndNode?
    requires {nodes[i].c0, nodes[i].c1} == {nodes[j].c0, nodes[j].c1}
    ensures i == j
  {
    assert SettledAnd(nodes, optimize, nodes[i]) && SettledAnd(nodes, optimize, nodes[j]);
    assert nodes[i].c0 in {nodes[j].c0, nodes[j].c1} && nodes[i].c1 in {nodes[j].c0, nodes[j].c1};
    assert nodes[i] == nodes[j];
  }

  /** All nodes below `n`. */
  ghost function Below(n: nat): set<nat> {
    set i: nat | Less(i, n) && i < n
  }

  predicate Less(i: nat, n: nat) {
    i < n
  }

  class Aigs {
    const optimize: nat
    const hash: Node -> nat
    var nodes: seq<Node>
    var table: seq<seq<nat>>

    constructor (optimize: nat, hash: Node -> nat)
      ensures this.optimize == optimize && this.hash == hash && Valid() && nodes == []
    {
      this.optimize, this.hash := optimize, hash;
      nodes, table := [], [];
    }

    ghost predicate Canonical()
      reads this
    {
      WellFormed(nodes) && Unique(nodes) && AllSettled(nodes, optimize)
    }

    ghost predicate Valid()
      reads this
    {
      && Canonical()
      && |nodes| <= |table|
      && Hashed(nodes, hash, table, Below(|nodes|))
    }

    method Find(key: Node) returns (found: bool, i: nat)
      requires Valid() && |table| > 0
      ensures found <==> key in nodes
      ensures found ==> i < |nodes| && nodes[i] == key
    {
      var s, x;
      found, s, x := Lookup(nodes, hash, table, Below(|nodes|), key);
      i := if found then table[s][x] else 0;
      assert forall j :: 0 <= j < |nodes| ==> j in Below(|nodes|);
    }

    /** Doubles the table and rehashes every node. */
    method Enlarge()
      requires Valid()
      modifies `table
      ensures Valid() && |table| == if |old(table)| == 0 then 1 else 2 * |old(table)|
    {
      table := Rehash(nodes, hash, table, Below(|nodes|));
    }

    /** Returns the node with this key, creating it when there is none. */
    method Intern(key: Node) returns (r: Ref)
      requires Valid() && |nodes| < |table|
      requires key.AndNode? ==> IsNode(|nodes|, key.c0) && IsNode(|nodes|, key.c1) && SettledAnd(nodes, optimize, key)
      modifies `nodes, `table
      ensures Valid() && Interned(old(nodes), key, nodes, r)
    {
      var found, i := Find(key);
      if found {
        return RefOf(i);
      }
      ghost var nodes0 := nodes;
      var n := |nodes|;
      var s := SlotIn(hash, |table|, key);
      r := RefOf(n);
      nodes := nodes + [key];
      HashedExtend(nodes0, nodes, hash, table, Below(n));
      PushHashed(nodes, hash, table, Below(n), n, table[s] + [n]);
      assert Below(n) + {n} == Below(n + 1);
      table := table[s := table[s] + [n]];
      InternedKeeps(nodes0, optimize, key, nodes, r);
    }

    method NewVar(symbol: nat, slice: nat) returns (r: Ref)
      requires Valid()
      modifies `nodes, `table
      ensures Valid() && Interned(old(nodes), VarNode(symbol, slice), nodes, r) && old(nodes) <= nodes
    {
      if |nodes| >= |table| {
        Enlarge();
      }
      r := Intern(VarNode(symbol, slice));
    }

    /** The AND constructor. */
    method NewAnd(a0: Ref, b0: Ref) returns (r: Ref)
      requires Valid() && ValidRef(|nodes|, a0) && ValidRef(|nodes|, b0)
      modifies `nodes, `table
      ensures Valid() && Built(old(nodes), optimize, a0, b0, nodes, r)
    {
      if |nodes| >= |table| {
        Enlarge();
      }
      var a, b := a0, b0;
      while true
        invariant Valid() && nodes == old(nodes) && |nodes| < |table|
        invariant ValidRef(|nodes|, a) && ValidRef(|nodes|, b)
        invariant Normalize(nodes, optimize, a0, b0) == Normalize(nodes, optimize, a, b)
        decreases Abs(a) + Abs(b)
      {
        r := OneLevel(a, b);
        if r != 0 {
          return;
        }
        OneLevelLeavesNodes(|nodes|, a, b);
        if optimize >= 2 {
          r := TwoLevel(nodes, a, b);
          if r != 0 {
            return;
          }
        }
        match Restart(nodes, optimize, a, b) {
          case Again(x, y) =>
            RestartShrinks(nodes, optimize, a, b, x, y);
            a, b := x, y;
          case Settled =>
            break;
        }
      }
      RulesCommute(nodes, optimize, a, b);
      if Abs(a) > Abs(b) {
        a, b := b, a;
      }
      OperandsDiffer(|nodes|, a, b);
      r := Intern(AndNode(a, b));
    }

    /** The debugging check of the source: every AND in the cone rebuilds to itself. */
    method CheckRebuild(r: Ref)
      requires Valid() && ValidRef(|nodes|, r)
      modifies `nodes, `table
      ensures Valid() && nodes == old(nodes)
      decreases Abs(r)
    {
      if Abs(r) == 1 {
        return;
      }
      match nodes[Abs(r) - 2]
      case VarNode(_, _) =>
      case AndNode(c0, c1) =>
        CheckRebuild(c0);
        CheckRebuild(c1);
        ghost var nodes0 := nodes;
        var tmp := NewAnd(c0, c1);
        RebuildIsIdentity(nodes0, optimize, Abs(r) - 2, nodes, tmp);
        assert tmp == Abs(r);
    }
  }

  lemma OperandsDiffer(n: nat, a: Ref, b: Ref)
    requires IsNode(n, a) && IsNode(n, b) && OneLevel(a, b) == 0
    ensures Abs(a) != Abs(b)
  {}
}
