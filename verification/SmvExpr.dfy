/** Compiling SMV expressions to AIG references in `smvtoaig`: memoised, with definitions
    inlined and the `next` operator turned into time slice 1. */
module SmvExpr {
  import opened Rewrite
  import opened HashCons

  datatype BinaryOp = AndOp | OrOp | XorOp | XnorOp | ImpliesOp | IffOp

  /** A missing expression is `NoExpr`, the end of a case list. */
  datatype Link = NoExpr | To(index: nat)

  /** Expressions are stored in the order the parser creates them: operands first. */
  datatype Expr =
    | Const(value: bool)
    | Symbol(symbol: nat)
    | Next(c0: nat)
    | Neg(c0: nat)
    | Binary(op: BinaryOp, c0: nat, c1: nat)
    | Case(cond: nat, then': nat, rest: Link)

  /** The expression arena, and the defining expression of each symbol that has one. */
  datatype Spec = Spec(exprs: seq<Expr>, defs: seq<Link>)

  ghost predicate WellBuilt(p: Spec) {
    && (forall e :: 0 <= e < |p.exprs| ==> OperandsBelow(p, e))
    && (forall s :: 0 <= s < |p.defs| && p.defs[s].To? ==> p.defs[s].index < |p.exprs|)
  }

  predicate OperandsBelow(p: Spec, e: nat)
    requires e < |p.exprs|
  {
    match p.exprs[e]
    case Const(_) => true
    case Symbol(s) => s < |p.defs|
    case Next(c) => c < e
    case Neg(c) => c < e
    case Binary(_, l, r) => l < e && r < e
    case Case(c, t, rest) =>
      && c < e && t < e
      && (rest.To? ==> rest.index < e && p.exprs[rest.index].Case?)
  }

  function Max(x: nat, y: nat): nat {
    if x < y then y else x
  }

  /** One more than the greatest rank of a symbol that the expression mentions. */
  function Height(p: Spec, rank: seq<nat>, e: nat): nat
    requires WellBuilt(p) && |rank| == |p.defs| && e < |p.exprs|
  {
    assert OperandsBelow(p, e);
    match p.exprs[e]
    case Const(_) => 0
    case Symbol(s) => rank[s] + 1
    case Next(c) => Height(p, rank, c)
    case Neg(c) => Height(p, rank, c)
    case Binary(_, l, r) => Max(Height(p, rank, l), Height(p, rank, r))
    case Case(c, t, rest) =>
      Max(Max(Height(p, rank, c), Height(p, rank, t)),
          match rest case NoExpr => 0 case To(i) => Height(p, rank, i))
  }

  /** The definitions are acyclic: a ranking of the symbols decreases along every definition. */
  ghost predicate Ranked(p: Spec, rank: seq<nat>) {
    && WellBuilt(p)
    && |rank| == |p.defs|
    && forall s :: 0 <= s < |p.defs| && p.defs[s].To? ==> Height(p, rank, p.defs[s].index) <= rank[s]
  }

  /** The nesting depth of `next`, counted from 1 and through definitions. */
  function NextLevel(p: Spec, ghost rank: seq<nat>, e: nat): (n: nat)
    requires Ranked(p, rank) && e < |p.exprs|
    ensures n >= 1
    decreases Height(p, rank, e), e
  {
    assert OperandsBelow(p, e);
    match p.exprs[e]
    case Const(_) => 1
    case Symbol(s) => (match p.defs[s] case NoExpr => 1 case To(d) => NextLevel(p, rank, d))
    case Next(c) => NextLevel(p, rank, c) + 1
    case Neg(c) => NextLevel(p, rank, c)
    case Binary(_, l, r) => Max(NextLevel(p, rank, l), NextLevel(p, rank, r))
    case Case(c, t, rest) =>
      Max(Max(NextLevel(p, rank, c), NextLevel(p, rank, t)),
          match rest case NoExpr => 1 case To(i) => NextLevel(p, rank, i))
  }

  predicate Apply(op: BinaryOp, x: bool, y: bool) {
    match op
    case AndOp => x && y
    case OrOp => x || y
    case XorOp => x != y
    case XnorOp => x == y
    case ImpliesOp => x ==> y
    case IffOp => x == y
  }

  /** The value of an SMV expression, read in time slice `slice`. */
  ghost predicate Denote(p: Spec, rank: seq<nat>, env: Env, e: nat, slice: nat)
    requires Ranked(p, rank) && e < |p.exprs|
    decreases Height(p, rank, e), e
  {
    assert OperandsBelow(p, e);
    match p.exprs[e]
    case Const(v) => v
    case Symbol(s) => (match p.defs[s] case NoExpr => env(s, slice) case To(d) => Denote(p, rank, env, d, slice))
    case Next(c) => Denote(p, rank, env, c, slice + 1)
    case Neg(c) => !Denote(p, rank, env, c, slice)
    case Binary(op, l, r) => Apply(op, Denote(p, rank, env, l, slice), Denote(p, rank, env, r, slice))
    case Case(c, t, rest) =>
      if Denote(p, rank, env, c, slice) then Denote(p, rank, env, t, slice)
      else match rest case NoExpr => true case To(i) => Denote(p, rank, env, i, slice)
  }

  // ----- Building --------------------------------------------------------------------------

  ghost predicate Grows(nodes: seq<Node>, nodes': seq<Node>) {
    WellFormed(nodes) && WellFormed(nodes') && nodes <= nodes'
  }

  /** The reference has the value of expression `e` in slice `slice` under every valuation. */
  ghost predicate Denotes(p: Spec, rank: seq<nat>, nodes: seq<Node>, r: Ref, e: nat, slice: nat)
    requires Ranked(p, rank) && e < |p.exprs|
  {
    && WellFormed(nodes) && ValidRef(|nodes|, r)
    && forall env :: Eval(nodes, env, r) == Denote(p, rank, env, e, slice)
  }

  lemma DenotesExtend(p: Spec, rank: seq<nat>, nodes: seq<Node>, nodes': seq<Node>, r: Ref, e: nat, slice: nat)
    requires Ranked(p, rank) && e < |p.exprs|
    requires Grows(nodes, nodes') && Denotes(p, rank, nodes, r, e, slice)
    ensures Denotes(p, rank, nodes', r, e, slice)
  {
    forall env ensures Eval(nodes', env, r) == Denote(p, rank, env, e, slice) {
      EvalExtend(nodes, nodes', env, r);
    }
  }

  /** `r` is the given Boolean function of references `a` and `b`, whatever their values. */
  ghost predicate Computes(nodes: seq<Node>, a: Ref, b: Ref, nodes': seq<Node>, r: Ref, f: (bool, bool) -> bool) {
    && Grows(nodes, nodes')
    && ValidRef(|nodes|, a) && ValidRef(|nodes|, b) && ValidRef(|nodes'|, r)
    && forall env :: Eval(nodes', env, r) == f(Eval(nodes, env, a), Eval(nodes, env, b))
  }

  lemma BuiltComputes(nodes: seq<Node>, optimize: nat, a: Ref, b: Ref, nodes': seq<Node>, r: Ref)
    requires WellFormed(nodes) && Unique(nodes) && AllSettled(nodes, optimize)
    requires ValidRef(|nodes|, a) && ValidRef(|nodes|, b)
    requires Built(nodes, optimize, a, b, nodes', r)
    ensures Computes(nodes, a, b, nodes', r, (x, y) => x && y)
  {
    BuiltSound(nodes, (s, l) => true, optimize, a, b, nodes', r);
    forall env ensures Eval(nodes', env, r) == (Eval(nodes, env, a) && Eval(nodes, env, b)) {
      BuiltSound(nodes, env, optimize, a, b, nodes', r);
    }
  }

  /** Two functions of the same operands, combined into a third. */
  lemma Compose(n0: seq<Node>, n1: seq<Node>, n2: seq<Node>, n3: seq<Node>, a: Ref, b: Ref, l: Ref, r: Ref, res: Ref,
                f: (bool, bool) -> bool, g: (bool, bool) -> bool, h: (bool, bool) -> bool, k: (bool, bool) -> bool)
    requires Computes(n0, a, b, n1, l, f) && Computes(n1, a, b, n2, r, g) && Computes(n2, l, r, n3, res, h)
    requires forall x, y :: k(x, y) == h(f(x, y), g(x, y))
    ensures Computes(n0, a, b, n3, res, k)
  {
    forall env ensures Eval(n3, env, res) == k(Eval(n0, env, a), Eval(n0, env, b)) {
      EvalExtend(n0, n1, env, a);
      EvalExtend(n0, n1, env, b);
      EvalExtend(n1, n2, env, l);
    }
  }

  lemma Negated(nodes: seq<Node>, a: Ref, b: Ref, nodes': seq<Node>, r: Ref, f: (bool, bool) -> bool, g: (bool, bool) -> bool)
    requires Computes(nodes, a, b, nodes', r, f) && forall x, y :: g(x, y) == !f(x, y)
    ensures Computes(nodes, a, b, nodes', -r, g)
  {
    forall env ensures Eval(nodes', env, -r) == g(Eval(nodes, env, a), Eval(nodes, env, b)) {
      NegEval(nodes', env, r);
    }
  }

  lemma NegatedOperands(nodes: seq<Node>, a: Ref, b: Ref, a': Ref, b': Ref, nodes': seq<Node>, r: Ref,
                        f: (bool, bool) -> bool, g: (bool, bool) -> bool)
    requires Computes(nodes, a', b', nodes', r, f)
    requires (a' == a || a' == -a) && (b' == b || b' == -b)
    requires forall x, y :: g(x, y) == f(if a' == a then x else !x, if b' == b then y else !y)
    ensures Computes(nodes, a, b, nodes', r, g)
  {
    forall env ensures Eval(nodes', env, r) == g(Eval(nodes, env, a), Eval(nodes, env, b)) {
      NegEval(nodes, env, a);
      NegEval(nodes, env, b);
    }
  }

  lemma NegDenotes(p: Spec, rank: seq<nat>, nodes: seq<Node>, r: Ref, e: nat, slice: nat)
    requires Ranked(p, rank) && e < |p.exprs| && p.exprs[e].Neg? && p.exprs[e].c0 < e
    requires Denotes(p, rank, nodes, r, p.exprs[e].c0, slice)
    ensures Denotes(p, rank, nodes, -r, e, slice)
  {
    assert OperandsBelow(p, e);
    forall env ensures Eval(nodes, env, -r) == Denote(p, rank, env, e, slice) {
      NegEval(nodes, env, r);
    }
  }

  // ----- What the references mean ------------------------------------------------------------

  /** A value for every expression in every slice. */
  type Values = (nat, nat) -> bool

  /** The values obey the operators, each read by itself. */
  ghost predicate Solves(p: Spec, env: Env, val: Values) {
    forall e: nat, s: nat :: e < |p.exprs| ==> Obeys(p, env, val, e, s)
  }

  ghost predicate Obeys(p: Spec, env: Env, val: Values, e: nat, s: nat)
    requires e < |p.exprs|
  {
    match p.exprs[e]
    case Const(v) => val(e, s) == v
    case Symbol(x) => x < |p.defs| ==> val(e, s) == if p.defs[x].To? then val(p.defs[x].index, s) else env(x, s)
    case Next(c) => val(e, s) == val(c, s + 1)
    case Neg(c) => val(e, s) == !val(c, s)
    case Binary(op, l, r) => ObeysBinary(op, val(l, s), val(r, s), val(e, s))
    case Case(c, t, rest) =>
      val(e, s) == if val(c, s) then val(t, s) else rest.To? ==> val(rest.index, s)
  }

  predicate ObeysBinary(op: BinaryOp, x: bool, y: bool, z: bool) {
    && (op == AndOp ==> (z <==> x && y))
    && (op == OrOp ==> (z <==> x || y))
    && (op == XorOp ==> (z <==> x != y))
    && (op == XnorOp || op == IffOp ==> (z <==> x == y))
    && (op == ImpliesOp ==> (z <==> (x ==> y)))
  }

  /** Acyclic definitions leave one solution, which is the denotation. */
  lemma {:induction false} SolutionUnique(p: Spec, rank: seq<nat>, env: Env, val: Values, e: nat, s: nat)
    requires Ranked(p, rank) && e < |p.exprs| && Solves(p, env, val)
    ensures val(e, s) == Denote(p, rank, env, e, s)
    decreases Height(p, rank, e), e
  {
    assert OperandsBelow(p, e) && Obeys(p, env, val, e, s);
    match p.exprs[e] {
      case Const(_) =>
      case Symbol(x) => if p.defs[x].To? { SolutionUnique(p, rank, env, val, p.defs[x].index, s); }
      case Next(c) => SolutionUnique(p, rank, env, val, c, s + 1);
      case Neg(c) => SolutionUnique(p, rank, env, val, c, s);
      case Binary(_, l, r) =>
        SolutionUnique(p, rank, env, val, l, s);
        SolutionUnique(p, rank, env, val, r, s);
      case Case(c, t, rest) =>
        SolutionUnique(p, rank, env, val, c, s);
        SolutionUnique(p, rank, env, val, t, s);
        if rest.To? { SolutionUnique(p, rank, env, val, rest.index, s); }
    }
  }

  /** There is a solution. */
  lemma SolutionExists(p: Spec, rank: seq<nat>, env: Env) returns (val: Values)
    requires Ranked(p, rank)
    ensures Solves(p, env, val)
  {
    val := (e: nat, s: nat) => e < |p.exprs| && Denote(p, rank, env, e, s);
    forall e: nat, s: nat | e < |p.exprs| ensures Obeys(p, env, val, e, s) {
      assert OperandsBelow(p, e);
    }
  }

  /** A compiled reference has the value that its expression has in every solution. */
  lemma CompiledSolves(p: Spec, rank: seq<nat>, nodes: seq<Node>, r: Ref, e: nat, slice: nat, env: Env, val: Values)
    requires Ranked(p, rank) && e < |p.exprs| && Denotes(p, rank, nodes, r, e, slice) && Solves(p, env, val)
    ensures Eval(nodes, env, r) == val(e, slice)
  {
    SolutionUnique(p, rank, env, val, e, slice);
    assert Eval(nodes, env, r) == Denote(p, rank, env, e, slice);
  }

  lemma ConstantMeans(p: Spec, rank: seq<nat>, nodes: seq<Node>, r: Ref, e: nat, slice: nat, v: bool)
    requires Ranked(p, rank) && e < |p.exprs| && Denotes(p, rank, nodes, r, e, slice) && p.exprs[e] == Const(v)
    ensures forall env :: Eval(nodes, env, r) == v
  {
    forall env ensures Eval(nodes, env, r) == v {
      var val := SolutionExists(p, rank, env);
      CompiledSolves(p, rank, nodes, r, e, slice, env, val);
      assert Obeys(p, env, val, e, slice);
    }
  }

  /** A symbol without definition is the variable of its slice. */
  lemma VariableMeans(p: Spec, rank: seq<nat>, nodes: seq<Node>, r: Ref, e: nat, slice: nat, x: nat)
    requires Ranked(p, rank) && e < |p.exprs| && Denotes(p, rank, nodes, r, e, slice)
    requires p.exprs[e] == Symbol(x) && x < |p.defs| && p.defs[x] == NoExpr
    ensures forall env: Env :: Eval(nodes, env, r) == env(x, slice)
  {
    forall env: Env ensures Eval(nodes, env, r) == env(x, slice) {
      var val := SolutionExists(p, rank, env);
      CompiledSolves(p, rank, nodes, r, e, slice, env, val);
      assert Obeys(p, env, val, e, slice);
    }
  }

  /** Definitions, the next state and negation, by the reference of the only operand. */
  lemma UnaryMeans(p: Spec, rank: seq<nat>, nodes: seq<Node>, r: Ref, e: nat, slice: nat, a: Ref, c: nat, s: nat)
    requires Ranked(p, rank) && e < |p.exprs| && Denotes(p, rank, nodes, r, e, slice)
    requires c < |p.exprs| && Denotes(p, rank, nodes, a, c, s)
    ensures p.exprs[e].Symbol? && p.exprs[e].symbol < |p.defs| && p.defs[p.exprs[e].symbol] == To(c) && s == slice ==>
      forall env :: Eval(nodes, env, r) == Eval(nodes, env, a)
    ensures p.exprs[e] == Next(c) && s == slice + 1 ==> forall env :: Eval(nodes, env, r) == Eval(nodes, env, a)
    ensures p.exprs[e] == Neg(c) && s == slice ==> forall env :: Eval(nodes, env, r) == !Eval(nodes, env, a)
  {
    forall env
      ensures p.exprs[e].Symbol? && p.exprs[e].symbol < |p.defs| && p.defs[p.exprs[e].symbol] == To(c) && s == slice ==>
        Eval(nodes, env, r) == Eval(nodes, env, a)
      ensures p.exprs[e] == Next(c) && s == slice + 1 ==> Eval(nodes, env, r) == Eval(nodes, env, a)
      ensures p.exprs[e] == Neg(c) && s == slice ==> Eval(nodes, env, r) == !Eval(nodes, env, a)
    {
      var val := SolutionExists(p, rank, env);
      CompiledSolves(p, rank, nodes, r, e, slice, env, val);
      CompiledSolves(p, rank, nodes, a, c, s, env, val);
      assert Obeys(p, env, val, e, slice);
    }
  }

  /** The binary operators, by the references of the operands. */
  lemma BinaryMeans(p: Spec, rank: seq<nat>, nodes: seq<Node>, r: Ref, e: nat, slice: nat, op: BinaryOp, c0: nat, c1: nat, a: Ref, b: Ref)
    requires Ranked(p, rank) && e < |p.exprs| && p.exprs[e] == Binary(op, c0, c1) && Denotes(p, rank, nodes, r, e, slice)
    requires c0 < e && c1 < e && Denotes(p, rank, nodes, a, c0, slice) && Denotes(p, rank, nodes, b, c1, slice)
    ensures op == AndOp ==> forall env :: Eval(nodes, env, r) <==> Eval(nodes, env, a) && Eval(nodes, env, b)
    ensures op == OrOp ==> forall env :: Eval(nodes, env, r) <==> Eval(nodes, env, a) || Eval(nodes, env, b)
    ensures op == XorOp ==> forall env :: Eval(nodes, env, r) <==> Eval(nodes, env, a) != Eval(nodes, env, b)
    ensures op == XnorOp || op == IffOp ==> forall env :: Eval(nodes, env, r) <==> Eval(nodes, env, a) == Eval(nodes, env, b)
    ensures op == ImpliesOp ==> forall env :: Eval(nodes, env, r) <==> (Eval(nodes, env, a) ==> Eval(nodes, env, b))
  {
    forall env ensures ObeysBinary(op, Eval(nodes, env, a), Eval(nodes, env, b), Eval(nodes, env, r)) {
      var val := SolutionExists(p, rank, env);
      CompiledSolves(p, rank, nodes, r, e, slice, env, val);
      CompiledSolves(p, rank, nodes, a, c0, slice, env, val);
      CompiledSolves(p, rank, nodes, b, c1, slice, env, val);
      assert Obeys(p, env, val, e, slice);
    }
  }

  /** The cases of a list, from `chain[0]` to the last. */
  ghost predicate CaseList(p: Spec, chain: seq<nat>) {
    && |chain| > 0
    && (forall k :: 0 <= k < |chain| ==> chain[k] < |p.exprs| && p.exprs[chain[k]].Case?)
    && (forall k :: 0 <= k < |chain| - 1 ==> p.exprs[chain[k]].rest == To(chain[k + 1]))
    && p.exprs[chain[|chain| - 1]].rest == NoExpr
  }

  /** The value of a case list is that of the first branch whose condition holds, TRUE if there is none. */
  lemma {:induction false} FirstCaseDecides(p: Spec, rank: seq<nat>, env: Env, val: Values, chain: seq<nat>, s: nat, k: nat)
    requires Ranked(p, rank) && Solves(p, env, val) && CaseList(p, chain) && k <= |chain|
    requires forall j :: 0 <= j < k ==> !val(p.exprs[chain[j]].cond, s)
    requires k < |chain| ==> val(p.exprs[chain[k]].cond, s)
    ensures val(chain[0], s) == if k < |chain| then val(p.exprs[chain[k]].then', s) else true
  {
    assert Obeys(p, env, val, chain[0], s);
    if k > 0 && |chain| > 1 {
      assert CaseList(p, chain[1..]) by {
        assert forall j :: 0 <= j < |chain| - 1 ==> chain[1..][j] == chain[j + 1];
      }
      forall j | 0 <= j < k - 1 ensures !val(p.exprs[chain[1..][j]].cond, s) { assert chain[1..][j] == chain[j + 1]; }
      FirstCaseDecides(p, rank, env, val, chain[1..], s, k - 1);
      assert p.exprs[chain[0]].rest == To(chain[0 + 1]);
    }
  }

  /** The references of the condition and of the branch of a case. */
  ghost predicate CaseAt(p: Spec, rank: seq<nat>, nodes: seq<Node>, e: nat, slice: nat, cond: Ref, branch: Ref)
    requires Ranked(p, rank) && e < |p.exprs| && p.exprs[e].Case?
  {
    && p.exprs[e].cond < |p.exprs| && Denotes(p, rank, nodes, cond, p.exprs[e].cond, slice)
    && p.exprs[e].then' < |p.exprs| && Denotes(p, rank, nodes, branch, p.exprs[e].then', slice)
  }

  /** ... by the references of the conditions and of the branch taken. */
  lemma CaseMeans(p: Spec, rank: seq<nat>, nodes: seq<Node>, r: Ref, chain: seq<nat>, slice: nat,
                  conds: seq<Ref>, branches: seq<Ref>, env: Env, k: nat)
    requires Ranked(p, rank) && CaseList(p, chain) && Denotes(p, rank, nodes, r, chain[0], slice)
    requires |conds| == |branches| == |chain| && k <= |chain| && WellFormed(nodes)
    requires forall j :: 0 <= j < |chain| ==>
      ValidRef(|nodes|, conds[j]) && ValidRef(|nodes|, branches[j]) && CaseAt(p, rank, nodes, chain[j], slice, conds[j], branches[j])
    requires forall j :: 0 <= j < k ==> !Eval(nodes, env, conds[j])
    requires k < |chain| ==> Eval(nodes, env, conds[k])
    ensures ValidRef(|nodes|, r) && Eval(nodes, env, r) == if k < |chain| then Eval(nodes, env, branches[k]) else true
  {
    var val := SolutionExists(p, rank, env);
    CompiledSolves(p, rank, nodes, r, chain[0], slice, env, val);
    forall j | 0 <= j < |chain|
      ensures p.exprs[chain[j]].Case?
      ensures Eval(nodes, env, conds[j]) == val(p.exprs[chain[j]].cond, slice)
      ensures Eval(nodes, env, branches[j]) == val(p.exprs[chain[j]].then', slice)
    {
      assert CaseAt(p, rank, nodes, chain[j], slice, conds[j], branches[j]);
      CompiledSolves(p, rank, nodes, conds[j], p.exprs[chain[j]].cond, slice, env, val);
      CompiledSolves(p, rank, nodes, branches[j], p.exprs[chain[j]].then', slice, env, val);
    }
    FirstCaseDecides(p, rank, env, val, chain, slice, k);
  }

  class Builder {
    const p: Spec
    ghost const rank: seq<nat>
    const aigs: Aigs
    var cache: map<(nat, nat), Ref>

    constructor (p: Spec, ghost rank: seq<nat>, aigs: Aigs)
      requires Ranked(p, rank) && aigs.Valid()
      ensures this.p == p && this.rank == rank && this.aigs == aigs && cache == map[] && Valid()
    {
      this.p, this.rank, this.aigs, cache := p, rank, aigs, map[];
    }

    ghost predicate Valid()
      reads this, aigs
    {
      && Ranked(p, rank)
      && aigs.Valid()
      && forall k :: k in cache ==>
           k.0 < |p.exprs| && k.1 < 2 && Denotes(p, rank, aigs.nodes, cache[k], k.0, k.1)
    }

    lemma CacheExtend(nodes: seq<Node>, nodes': seq<Node>, c: map<(nat, nat), Ref>)
      requires Ranked(p, rank) && Grows(nodes, nodes')
      requires forall k :: k in c ==> k.0 < |p.exprs| && k.1 < 2 && Denotes(p, rank, nodes, c[k], k.0, k.1)
      ensures forall k :: k in c ==> k.0 < |p.exprs| && k.1 < 2 && Denotes(p, rank, nodes', c[k], k.0, k.1)
    {
      forall k | k in c ensures Denotes(p, rank, nodes', c[k], k.0, k.1) {
        DenotesExtend(p, rank, nodes, nodes', c[k], k.0, k.1);
      }
    }

    method And(a: Ref, b: Ref) returns (r: Ref)
      requires Valid() && ValidRef(|aigs.nodes|, a) && ValidRef(|aigs.nodes|, b)
      modifies aigs
      ensures Valid() && Computes(old(aigs.nodes), a, b, aigs.nodes, r, (x, y) => x && y)
    {
      ghost var n0 := aigs.nodes;
      r := aigs.NewAnd(a, b);
      BuiltComputes(n0, aigs.optimize, a, b, aigs.nodes, r);
      CacheExtend(n0, aigs.nodes, cache);
    }

    method Or(a: Ref, b: Ref) returns (r: Ref)
      requires Valid() && ValidRef(|aigs.nodes|, a) && ValidRef(|aigs.nodes|, b)
      modifies aigs
      ensures Valid() && Computes(old(aigs.nodes), a, b, aigs.nodes, r, (x, y) => x || y)
    {
      ghost var n0 := aigs.nodes;
      var c := And(-a, -b);
      NegatedOperands(n0, a, b, -a, -b, aigs.nodes, c, (x, y) => x && y, (x, y) => !x && !y);
      Negated(n0, a, b, aigs.nodes, c, (x, y) => !x && !y, (x, y) => x || y);
      r := -c;
    }

    method Implies(a: Ref, b: Ref) returns (r: Ref)
      requires Valid() && ValidRef(|aigs.nodes|, a) && ValidRef(|aigs.nodes|, b)
      modifies aigs
      ensures Valid() && Computes(old(aigs.nodes), a, b, aigs.nodes, r, (x, y) => x ==> y)
    {
      ghost var n0 := aigs.nodes;
      var c := And(a, -b);
      NegatedOperands(n0, a, b, a, -b, aigs.nodes, c, (x, y) => x && y, (x, y) => x && !y);
      Negated(n0, a, b, aigs.nodes, c, (x, y) => x && !y, (x, y) => x ==> y);
      r := -c;
    }

    method Xor(a: Ref, b: Ref) returns (r: Ref)
      requires Valid() && ValidRef(|aigs.nodes|, a) && ValidRef(|aigs.nodes|, b)
      modifies aigs
      ensures Valid() && Computes(old(aigs.nodes), a, b, aigs.nodes, r, (x, y) => x != y)
    {
      ghost var n0 := aigs.nodes;
      var both := And(a, b);
      Negated(n0, a, b, aigs.nodes, both, (x, y) => x && y, (x, y) => !(x && y));
      ghost var n1 := aigs.nodes;
      var none := And(-a, -b);
      NegatedOperands(n1, a, b, -a, -b, aigs.nodes, none, (x, y) => x && y, (x, y) => !x && !y);
      Negated(n1, a, b, aigs.nodes, none, (x, y) => !x && !y, (x, y) => x || y);
      ghost var n2 := aigs.nodes;
      r := And(-both, -none);
      Compose(n0, n1, n2, aigs.nodes, a, b, -both, -none, r,
              (x, y) => !(x && y), (x, y) => x || y, (x, y) => x && y, (x, y) => x != y);
    }

    method Iff(a: Ref, b: Ref) returns (r: Ref)
      requires Valid() && ValidRef(|aigs.nodes|, a) && ValidRef(|aigs.nodes|, b)
      modifies aigs
      ensures Valid() && Computes(old(aigs.nodes), a, b, aigs.nodes, r, (x, y) => x == y)
    {
      ghost var n0 := aigs.nodes;
      var l := Implies(a, b);
      ghost var n1 := aigs.nodes;
      var back := Implies(b, a);
      assert Computes(n1, a, b, aigs.nodes, back, (x, y) => y ==> x);
      ghost var n2 := aigs.nodes;
      r := And(l, back);
      Compose(n0, n1, n2, aigs.nodes, a, b, l, back, r,
              (x, y) => x ==> y, (x, y) => y ==> x, (x, y) => x && y, (x, y) => x == y);
    }

    /** If-then-else out of two implications. */
    method Ite(c: Ref, t: Ref, e: Ref) returns (r: Ref)
      requires Valid() && ValidRef(|aigs.nodes|, c) && ValidRef(|aigs.nodes|, t) && ValidRef(|aigs.nodes|, e)
      modifies aigs
      ensures Valid() && Grows(old(aigs.nodes), aigs.nodes) && ValidRef(|aigs.nodes|, r)
      ensures forall env :: Eval(aigs.nodes, env, r) ==
                              (if Eval(old(aigs.nodes), env, c) then Eval(old(aigs.nodes), env, t)
                               else Eval(old(aigs.nodes), env, e))
    {
      ghost var n0 := aigs.nodes;
      var l := Implies(c, t);
      ghost var n1 := aigs.nodes;
      var k := Implies(-c, e);
      ghost var n2 := aigs.nodes;
      r := And(l, k);
      forall env
        ensures Eval(aigs.nodes, env, r) == if Eval(n0, env, c) then Eval(n0, env, t) else Eval(n0, env, e)
      {
        NegEval(n1, env, c);
        EvalExtend(n0, n1, env, c);
        EvalExtend(n0, n1, env, e);
        EvalExtend(n1, n2, env, l);
      }
    }

    method Combine(op: BinaryOp, a: Ref, b: Ref) returns (r: Ref)
      requires Valid() && ValidRef(|aigs.nodes|, a) && ValidRef(|aigs.nodes|, b)
      modifies aigs
      ensures Valid()
      ensures op == AndOp ==> Computes(old(aigs.nodes), a, b, aigs.nodes, r, (x, y) => x && y)
      ensures op == OrOp ==> Computes(old(aigs.nodes), a, b, aigs.nodes, r, (x, y) => x || y)
      ensures op == XorOp ==> Computes(old(aigs.nodes), a, b, aigs.nodes, r, (x, y) => x != y)
      ensures op == XnorOp || op == IffOp ==> Computes(old(aigs.nodes), a, b, aigs.nodes, r, (x, y) => x == y)
      ensures op == ImpliesOp ==> Computes(old(aigs.nodes), a, b, aigs.nodes, r, (x, y) => x ==> y)
      ensures Grows(old(aigs.nodes), aigs.nodes) && ValidRef(|aigs.nodes|, r)
    {
      ghost var n0 := aigs.nodes;
      match op {
        case AndOp => r := And(a, b);
        case OrOp => r := Or(a, b);
        case XorOp => r := Xor(a, b);
        case XnorOp =>
          r := Xor(a, b);
          Negated(n0, a, b, aigs.nodes, r, (x, y) => x != y, (x, y) => x == y);
          r := -r;
        case ImpliesOp => r := Implies(a, b);
        case IffOp => r := Iff(a, b);
      }
    }

    method SymbolAig(s: nat, slice: nat, ghost e: nat) returns (r: Ref)
      requires Valid() && e < |p.exprs| && p.exprs[e] == Symbol(s)
      requires slice + NextLevel(p, rank, e) <= 2
      modifies `cache, aigs
      ensures Valid() && Grows(old(aigs.nodes), aigs.nodes) && Denotes(p, rank, aigs.nodes, r, e, slice)
      decreases Height(p, rank, e), e, 0
    {
      assert OperandsBelow(p, e);
      match p.defs[s] {
        case To(d) =>
          r := BuildExpr(d, slice);
        case NoExpr =>
          ghost var n0 := aigs.nodes;
          r := aigs.NewVar(s, slice);
          CacheExtend(n0, aigs.nodes, cache);
      }
    }

    /** A case list without a true condition denotes TRUE. */
    method BuildCases(rest: Link, slice: nat, ghost e: nat) returns (r: Ref)
      requires Valid() && e <= |p.exprs| && (rest.To? ==> rest.index < e && p.exprs[rest.index].Case?)
      requires rest.To? ==> slice + NextLevel(p, rank, rest.index) <= 2
      modifies `cache, aigs
      ensures Valid() && Grows(old(aigs.nodes), aigs.nodes) && ValidRef(|aigs.nodes|, r)
      ensures rest.To? ==> Denotes(p, rank, aigs.nodes, r, rest.index, slice)
      ensures rest.NoExpr? ==> r == TRUE
      decreases if rest.To? then Height(p, rank, rest.index) else 0, if rest.To? then rest.index else 0, 0
    {
      match rest {
        case NoExpr =>
          return TRUE;
        case To(i) =>
          assert OperandsBelow(p, i);
          var x := p.exprs[i];
          var c := BuildExpr(x.cond, slice);
          ghost var n1 := aigs.nodes;
          var t := BuildExpr(x.then', slice);
          DenotesExtend(p, rank, n1, aigs.nodes, c, x.cond, slice);
          ghost var n2 := aigs.nodes;
          var d := BuildCases(x.rest, slice, i);
          DenotesExtend(p, rank, n2, aigs.nodes, c, x.cond, slice);
          DenotesExtend(p, rank, n2, aigs.nodes, t, x.then', slice);
          r := Ite(c, t, d);
      }
    }

    method BuildUncached(e: nat, slice: nat) returns (r: Ref)
      requires Valid() && e < |p.exprs| && slice + NextLevel(p, rank, e) <= 2
      modifies `cache, aigs
      ensures Valid() && Grows(old(aigs.nodes), aigs.nodes) && Denotes(p, rank, aigs.nodes, r, e, slice)
      decreases Height(p, rank, e), e, 1
    {
      assert OperandsBelow(p, e);
      match p.exprs[e] {
        case Const(v) =>
          r := if v then TRUE else FALSE;
        case Symbol(s) =>
          r := SymbolAig(s, slice, e);
        case Next(c) =>
          r := BuildExpr(c, slice + 1);
        case Case(_, _, _) =>
          r := BuildCases(To(e), slice, e + 1);
        case Neg(c) =>
          r := BuildExpr(c, slice);
          NegDenotes(p, rank, aigs.nodes, r, e, slice);
          r := -r;
        case Binary(_, _, _) =>
          r := BuildBinary(e, slice);
      }
    }

    method BuildBinary(e: nat, slice: nat) returns (r: Ref)
      requires Valid() && e < |p.exprs| && slice + NextLevel(p, rank, e) <= 2 && p.exprs[e].Binary?
      modifies `cache, aigs
      ensures Valid() && Grows(old(aigs.nodes), aigs.nodes) && Denotes(p, rank, aigs.nodes, r, e, slice)
      decreases Height(p, rank, e), e, 0
    {
      assert OperandsBelow(p, e);
      var Binary(op, x, y) := p.exprs[e];
      var a := BuildExpr(x, slice);
      ghost var n1 := aigs.nodes;
      var b := BuildExpr(y, slice);
      DenotesExtend(p, rank, n1, aigs.nodes, a, x, slice);
      ghost var n2 := aigs.nodes;
      r := Combine(op, a, b);
      forall env ensures Eval(aigs.nodes, env, r) == Denote(p, rank, env, e, slice) {
        assert Eval(n2, env, a) == Denote(p, rank, env, x, slice) && Eval(n2, env, b) == Denote(p, rank, env, y, slice);
      }
    }

    /** The memoised compiler.  It is only ever asked for slices 0 and 1. */
    method BuildExpr(e: nat, slice: nat) returns (r: Ref)
      requires Valid() && e < |p.exprs| && slice + NextLevel(p, rank, e) <= 2
      modifies `cache, aigs
      ensures Valid() && Grows(old(aigs.nodes), aigs.nodes) && Denotes(p, rank, aigs.nodes, r, e, slice)
      decreases Height(p, rank, e), e, 2
    {
      assert slice < 2;
      if (e, slice) in cache {
        return cache[(e, slice)];
      }
      r := BuildUncached(e, slice);
      cache := cache[(e, slice) := r];
    }
  }
}
