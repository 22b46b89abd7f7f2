/** The checks of `smvtoaig` before expressions are compiled: definitions must not be cyclic, and
    `next` must not be nested through them. */
module SmvCheck {
  import opened SmvExpr

  /** A parsed program: `props` are the expressions that may only talk about the current state, `trans`
      the conjuncts of the transition relation. */
  datatype Program = Program(spec: Spec, inits: seq<Link>, nexts: seq<Link>, props: seq<nat>, trans: seq<nat>)

  /** A symbol is defined or assigned, but not both. */
  ghost predicate Parsed(g: Program) {
    && WellBuilt(g.spec)
    && LinksBelow(g.spec, g.inits) && LinksBelow(g.spec, g.nexts)
    && (forall s :: 0 <= s < |g.spec.defs| && g.spec.defs[s].To? ==> g.inits[s] == g.nexts[s] == NoExpr)
    && (forall i :: 0 <= i < |g.props| ==> g.props[i] < |g.spec.exprs|)
    && (forall i :: 0 <= i < |g.trans| ==> g.trans[i] < |g.spec.exprs|)
  }

  ghost predicate LinksBelow(p: Spec, links: seq<Link>) {
    |links| == |p.defs| && forall s :: 0 <= s < |links| && links[s].To? ==> links[s].index < |p.exprs|
  }

  // ----- Cyclic definitions ---------------------------------------------------------------------------

  /** The expression mentions the symbol. */
  predicate Mentions(p: Spec, e: nat, u: nat)
    requires WellBuilt(p) && e < |p.exprs|
  {
    assert OperandsBelow(p, e);
    match p.exprs[e]
    case Const(_) => false
    case Symbol(s) => s == u
    case Next(c) => Mentions(p, c, u)
    case Neg(c) => Mentions(p, c, u)
    case Binary(_, l, r) => Mentions(p, l, u) || Mentions(p, r, u)
    case Case(c, t, rest) =>
      || Mentions(p, c, u) || Mentions(p, t, u)
      || (match rest case NoExpr => false case To(i) => Mentions(p, i, u))
  }

  predicate MentionedBy(p: Spec, x: Link, u: nat)
    requires WellBuilt(p)
  {
    x.To? && x.index < |p.exprs| && Mentions(p, x.index, u)
  }

  /** The definition or the initial value of `s` mentions `u`. */
  predicate Depends(p: Spec, inits: seq<Link>, s: nat, u: nat)
    requires WellBuilt(p) && LinksBelow(p, inits)
  {
    s < |p.defs| && u < |p.defs| && (MentionedBy(p, p.defs[s], u) || MentionedBy(p, inits[s], u))
  }

  ghost predicate Chain(p: Spec, inits: seq<Link>, path: seq<nat>)
    requires WellBuilt(p) && LinksBelow(p, inits)
  {
    forall i :: 0 <= i < |path| - 1 ==> Depends(p, inits, path[i], path[i + 1])
  }

  /** Some symbol depends on itself. */
  ghost predicate Cyclic(p: Spec, inits: seq<Link>)
    requires WellBuilt(p) && LinksBelow(p, inits)
  {
    exists path: seq<nat> :: |path| >= 2 && Chain(p, inits, path) && path[0] == path[|path| - 1]
  }

  predicate Part(p: Spec, e: nat, c: nat)
    requires e < |p.exprs|
  {
    match p.exprs[e]
    case Const(_) => false
    case Symbol(_) => false
    case Next(l) => c == l
    case Neg(l) => c == l
    case Binary(_, l, r) => c == l || c == r
    case Case(l, t, rest) => c == l || c == t || rest == To(c)
  }

  lemma PartMentions(p: Spec, e: nat, c: nat)
    requires WellBuilt(p) && e < |p.exprs| && Part(p, e, c)
    ensures c < e && forall u: nat :: Mentions(p, c, u) ==> Mentions(p, e, u)
  {
    assert OperandsBelow(p, e);
  }

  /** Each expression is an operand of the one before. */
  ghost predicate Inside(p: Spec, trail: seq<nat>) {
    && (forall i :: 0 <= i < |trail| ==> trail[i] < |p.exprs|)
    && forall i :: 0 <= i < |trail| - 1 ==> Part(p, trail[i], trail[i + 1])
  }

  ghost predicate LeadsTo(p: Spec, e: nat, u: nat, trail: seq<nat>) {
    Inside(p, trail) && |trail| > 0 && trail[0] == e && p.exprs[trail[|trail| - 1]] == Symbol(u)
  }

  lemma {:induction false} MentionsTrail(p: Spec, e: nat, u: nat)
    requires WellBuilt(p) && e < |p.exprs| && Mentions(p, e, u)
    ensures exists trail :: LeadsTo(p, e, u, trail)
  {
    assert OperandsBelow(p, e);
    if p.exprs[e] == Symbol(u) {
      assert LeadsTo(p, e, u, [e]);
    } else {
      var c: nat :| Part(p, e, c) && c < e && Mentions(p, c, u);
      MentionsTrail(p, c, u);
      var trail :| LeadsTo(p, c, u, trail);
      var longer := [e] + trail;
      assert longer[|longer| - 1] == trail[|trail| - 1];
      forall i | 0 <= i < |longer| - 1 ensures longer[i] < |p.exprs| && Part(p, longer[i], longer[i + 1]) {
        if i > 0 { assert Part(p, trail[i - 1], trail[i]); }
      }
      assert LeadsTo(p, e, u, longer);
    }
  }

  lemma {:induction false} TrailMentions(p: Spec, e: nat, u: nat, trail: seq<nat>)
    requires WellBuilt(p) && LeadsTo(p, e, u, trail)
    ensures Mentions(p, e, u)
    decreases |trail|
  {
    assert OperandsBelow(p, e);
    if |trail| > 1 {
      var rest := trail[1..];
      assert rest[0] == trail[1] && rest[|rest| - 1] == trail[|trail| - 1];
      forall i | 0 <= i < |rest| - 1 ensures Part(p, rest[i], rest[i + 1]) { assert Part(p, trail[i + 1], trail[i + 2]); }
      assert Part(p, trail[0], trail[1]) && Inside(p, rest);
      TrailMentions(p, trail[1], u, rest);
    }
  }

  /** A symbol depends on exactly the symbols that its definition or its initial value leads to. */
  lemma DependsMeans(p: Spec, inits: seq<Link>, s: nat, u: nat)
    requires WellBuilt(p) && LinksBelow(p, inits)
    ensures Depends(p, inits, s, u) <==> s < |p.defs| && exists e: nat, trail ::
      (p.defs[s] == To(e) || inits[s] == To(e)) && LeadsTo(p, e, u, trail)
  {
    if Depends(p, inits, s, u) {
      var e := if MentionedBy(p, p.defs[s], u) then p.defs[s].index else inits[s].index;
      MentionsTrail(p, e, u);
    }
    if s < |p.defs| {
      forall e: nat, trail | (p.defs[s] == To(e) || inits[s] == To(e)) && LeadsTo(p, e, u, trail)
        ensures Depends(p, inits, s, u)
      {
        TrailMentions(p, e, u, trail);
        MentionedIsSymbol(p, e, u);
      }
    }
  }

  lemma {:induction false} MentionedIsSymbol(p: Spec, e: nat, u: nat)
    requires WellBuilt(p) && e < |p.exprs| && Mentions(p, e, u)
    ensures u < |p.defs|
  {
    assert OperandsBelow(p, e);
    match p.exprs[e]
    case Const(_) =>
    case Symbol(_) =>
    case Next(c) => MentionedIsSymbol(p, c, u);
    case Neg(c) => MentionedIsSymbol(p, c, u);
    case Binary(_, l, r) => MentionedIsSymbol(p, if Mentions(p, l, u) then l else r, u);
    case Case(c, t, rest) =>
      if Mentions(p, c, u) { MentionedIsSymbol(p, c, u); }
      else if Mentions(p, t, u) { MentionedIsSymbol(p, t, u); }
      else { MentionedIsSymbol(p, rest.index, u); }
  }

  /** `mark` is 1 for the symbols in `order`, which are finished and come after all they depend on, and
      2 for those on `path`, each of which depends on the next. */
  ghost predicate Visited(p: Spec, inits: seq<Link>, mark: seq<nat>, order: seq<nat>, path: seq<nat>) {
    && WellBuilt(p) && LinksBelow(p, inits)
    && |mark| == |p.defs|
    && (forall s: nat :: s < |mark| ==> MarkOk(mark, order, path, s))
    && (forall i :: 0 <= i < |path| ==> path[i] < |mark|)
    && Chain(p, inits, path)
    && Finished(p, inits, order)
  }

  predicate MarkOk(mark: seq<nat>, order: seq<nat>, path: seq<nat>, s: nat)
    requires s < |mark|
  {
    mark[s] <= 2 && (mark[s] == 1 <==> s in order) && (mark[s] == 2 <==> s in path)
  }

  ghost predicate Finished(p: Spec, inits: seq<Link>, order: seq<nat>)
    requires WellBuilt(p) && LinksBelow(p, inits)
  {
    && (forall i :: 0 <= i < |order| ==> order[i] < |p.defs|)
    && (forall i, j :: 0 <= i < j < |order| ==> order[i] != order[j])
    && (forall i: nat, u: nat :: i < |order| && Depends(p, inits, order[i], u) ==> u in order[..i])
  }

  ghost function White(mark: seq<nat>): set<nat> {
    set s: nat | Unmarked(mark, s) && s < |mark|
  }

  predicate Unmarked(mark: seq<nat>, s: nat) {
    s < |mark| && mark[s] == 0
  }

  /** A symbol on the path is met again. */
  lemma MetAgain(p: Spec, inits: seq<Link>, path: seq<nat>, s: nat)
    requires WellBuilt(p) && LinksBelow(p, inits) && Chain(p, inits, path)
    requires s in path && Depends(p, inits, path[|path| - 1], s)
    ensures Cyclic(p, inits)
  {
    var j :| 0 <= j < |path| && path[j] == s;
    var cycle := path[j..] + [s];
    forall i | 0 <= i < |cycle| - 1 ensures Depends(p, inits, cycle[i], cycle[i + 1]) {
      if i < |path| - j - 1 { assert Depends(p, inits, path[j + i], path[j + i + 1]); }
    }
    assert Chain(p, inits, cycle) && cycle[0] == cycle[|cycle| - 1];
  }

  lemma Enter(p: Spec, inits: seq<Link>, mark: seq<nat>, order: seq<nat>, path: seq<nat>, s: nat)
    requires Visited(p, inits, mark, order, path) && s < |mark| && mark[s] == 0
    requires path != [] ==> Depends(p, inits, path[|path| - 1], s)
    ensures Visited(p, inits, mark[s := 2], order, path + [s]) && White(mark[s := 2]) < White(mark)
  {
    assert MarkOk(mark, order, path, s);
    var mark', path' := mark[s := 2], path + [s];
    forall t: nat | t < |mark| ensures MarkOk(mark', order, path', t) {
      assert MarkOk(mark, order, path, t);
    }
    assert Chain(p, inits, path + [s]);
    assert s in White(mark) && s !in White(mark[s := 2]);
  }

  lemma Leave(p: Spec, inits: seq<Link>, mark: seq<nat>, order: seq<nat>, path: seq<nat>, s: nat)
    requires Visited(p, inits, mark, order, path + [s]) && s !in path
    requires forall u: nat :: Depends(p, inits, s, u) ==> u in order
    ensures s < |mark| && Visited(p, inits, mark[s := 1], order + [s], path) && White(mark[s := 1]) <= White(mark)
  {
    assert (path + [s])[|path|] == s;
    assert MarkOk(mark, order, path + [s], s);
    var mark', longer := mark[s := 1], order + [s];
    forall t: nat | t < |mark| ensures MarkOk(mark', longer, path, t) {
      assert MarkOk(mark, order, path + [s], t);
    }
    assert path == (path + [s])[..|path|];
    forall i: nat, u: nat | i < |longer| && Depends(p, inits, longer[i], u) ensures u in longer[..i] {
      assert longer[..|order|] == order;
      if i < |order| { assert longer[..i] == order[..i]; }
    }
  }

  class Checker {
    const p: Spec
    const inits: seq<Link>
    var mark: seq<nat>
    ghost var order: seq<nat>
    ghost var path: seq<nat>

    ghost predicate Valid()
      reads this
    {
      Visited(p, inits, mark, order, path)
    }

    constructor (p: Spec, inits: seq<Link>)
      requires WellBuilt(p) && LinksBelow(p, inits)
      ensures this.p == p && this.inits == inits && Valid() && path == []
    {
      this.p, this.inits := p, inits;
      mark, order, path := seq(|p.defs|, _ => 0), [], [];
    }

    method CheckExpr(e: nat) returns (ok: bool)
      requires Valid() && e < |p.exprs| && path != []
      requires forall u: nat :: Mentions(p, e, u) ==> Depends(p, inits, path[|path| - 1], u)
      modifies this
      ensures !ok ==> Cyclic(p, inits)
      ensures ok ==> Valid() && path == old(path) && old(order) <= order && White(mark) <= old(White(mark))
      ensures ok ==> forall u: nat :: Mentions(p, e, u) ==> u in order
      decreases White(mark), 1, e, 1
    {
      assert OperandsBelow(p, e);
      match p.exprs[e] {
        case Const(_) =>
          ok := true;
        case Symbol(s) =>
          assert Mentions(p, e, s);
          ok := CheckSymbol(s);
        case Next(c) =>
          ok := CheckPart(e, c);
        case Neg(c) =>
          ok := CheckPart(e, c);
        case Binary(_, l, r) =>
          ok := CheckPart(e, l);
          if ok { ok := CheckPart(e, r); }
        case Case(c, t, rest) =>
          ok := CheckPart(e, c);
          if ok { ok := CheckPart(e, t); }
          if ok && rest.To? { ok := CheckPart(e, rest.index); }
      }
    }

    method CheckPart(e: nat, c: nat) returns (ok: bool)
      requires Valid() && e < |p.exprs| && Part(p, e, c) && path != []
      requires forall u: nat :: Mentions(p, e, u) ==> Depends(p, inits, path[|path| - 1], u)
      modifies this
      ensures !ok ==> Cyclic(p, inits)
      ensures ok ==> Valid() && path == old(path) && old(order) <= order && White(mark) <= old(White(mark))
      ensures ok ==> c < |p.exprs| && forall u: nat :: Mentions(p, c, u) ==> u in order
      decreases White(mark), 1, e, 0
    {
      PartMentions(p, e, c);
      ok := CheckExpr(c);
    }

    /** Reports an error exactly when it meets a symbol that is being visited. */
    method CheckSymbol(s: nat) returns (ok: bool)
      requires Valid() && s < |p.defs| && (path != [] ==> Depends(p, inits, path[|path| - 1], s))
      modifies this
      ensures !ok ==> Cyclic(p, inits)
      ensures ok ==> Valid() && path == old(path) && old(order) <= order && White(mark) <= old(White(mark))
      ensures ok ==> s in order
      decreases White(mark), 0
    {
      assert MarkOk(mark, order, path, s);
      if mark[s] == 2 {
        MetAgain(p, inits, path, s);
        return false;
      }
      if mark[s] != 0 { return true; }
      Enter(p, inits, mark, order, path, s);
      mark, path := mark[s := 2], path + [s];
      ok := CheckLink(p.defs[s], s);
      if !ok { return; }
      ok := CheckLink(inits[s], s);
      if !ok { return; }
      Leave(p, inits, mark, order, old(path), s);
      mark, path, order := mark[s := 1], old(path), order + [s];
    }

    method CheckLink(x: Link, ghost s: nat) returns (ok: bool)
      requires Valid() && path != [] && path[|path| - 1] == s && (x.To? ==> x.index < |p.exprs|)
      requires s < |p.defs| && (x == p.defs[s] || x == inits[s])
      modifies this
      ensures !ok ==> Cyclic(p, inits)
      ensures ok ==> Valid() && path == old(path) && old(order) <= order && White(mark) <= old(White(mark))
      ensures ok ==> forall u: nat :: MentionedBy(p, x, u) ==> u in order
      decreases White(mark), 2
    {
      ok := true;
      if x.To? {
        forall u: nat | Mentions(p, x.index, u) ensures Depends(p, inits, s, u) { MentionedIsSymbol(p, x.index, u); }
        ok := CheckExpr(x.index);
      }
    }

    /** Succeeds iff no symbol depends on itself; the finishing order then ranks the symbols. */
    method CheckNonCyclicDefinitions() returns (ok: bool, ghost rank: seq<nat>)
      requires Valid() && path == []
      modifies this
      ensures ok <==> !Cyclic(p, inits)
      ensures ok ==> Ranked(p, rank) && mark == seq(|p.defs|, _ => 0)
    {
      rank := [];
      for s := 0 to |p.defs|
        invariant Valid() && path == []
        invariant forall t: nat :: t < s ==> t in order
      {
        ghost var before := order;
        ok := CheckSymbol(s);
        if !ok { return; }
        forall t: nat | t in before ensures t in order { assert t in order[..|before|]; }
      }
      rank := FinishedIsRanked(p, inits, order);
      mark, ok := seq(|p.defs|, _ => 0), true;
    }
  }

  ghost function Position(order: seq<nat>, s: nat): nat {
    if s in order then (var i :| 0 <= i < |order| && order[i] == s; i) else 0
  }

  /** In a finished order, positions fall along dependencies. */
  lemma Falls(p: Spec, inits: seq<Link>, order: seq<nat>, s: nat, u: nat)
    requires WellBuilt(p) && LinksBelow(p, inits) && Finished(p, inits, order) && s in order && Depends(p, inits, s, u)
    ensures u in order && Position(order, u) < Position(order, s)
  {
    var i := Position(order, s);
    assert u in order[..i];
  }

  lemma {:induction false} ChainFalls(p: Spec, inits: seq<Link>, order: seq<nat>, path: seq<nat>)
    requires WellBuilt(p) && LinksBelow(p, inits) && Finished(p, inits, order)
    requires |path| >= 2 && Chain(p, inits, path) && path[0] in order
    ensures path[|path| - 1] in order && Position(order, path[|path| - 1]) < Position(order, path[0])
    decreases |path|
  {
    Falls(p, inits, order, path[0], path[1]);
    if |path| > 2 {
      forall i | 0 <= i < |path[1..]| - 1 ensures Depends(p, inits, path[1..][i], path[1..][i + 1]) {
        assert Depends(p, inits, path[i + 1], path[i + 2]);
      }
      ChainFalls(p, inits, order, path[1..]);
    }
  }

  lemma {:induction false} HeightBelow(p: Spec, rank: seq<nat>, e: nat, b: nat)
    requires WellBuilt(p) && |rank| == |p.defs| && e < |p.exprs|
    requires forall u: nat :: Mentions(p, e, u) ==> u < |rank| && rank[u] < b
    ensures Height(p, rank, e) <= b
  {
    assert OperandsBelow(p, e);
    match p.exprs[e]
    case Const(_) =>
    case Symbol(s) => assert Mentions(p, e, s);
    case _ =>
      forall c: nat | Part(p, e, c) ensures c < e && Height(p, rank, c) <= b {
        PartMentions(p, e, c);
        HeightBelow(p, rank, c, b);
      }
  }

  /** A finishing order of all symbols ranks them and excludes cycles. */
  lemma FinishedIsRanked(p: Spec, inits: seq<Link>, order: seq<nat>) returns (rank: seq<nat>)
    requires WellBuilt(p) && LinksBelow(p, inits) && Finished(p, inits, order)
    requires forall s: nat :: s < |p.defs| ==> s in order
    ensures Ranked(p, rank) && !Cyclic(p, inits)
  {
    rank := seq(|p.defs|, s requires 0 <= s => Position(order, s));
    forall s | 0 <= s < |p.defs| && p.defs[s].To? ensures Height(p, rank, p.defs[s].index) <= rank[s] {
      forall u: nat | Mentions(p, p.defs[s].index, u) ensures u < |rank| && rank[u] < rank[s] {
        MentionedIsSymbol(p, p.defs[s].index, u);
        Falls(p, inits, order, s, u);
      }
      HeightBelow(p, rank, p.defs[s].index, rank[s]);
    }
    if Cyclic(p, inits) {
      var path: seq<nat> :| |path| >= 2 && Chain(p, inits, path) && path[0] == path[|path| - 1];
      assert Depends(p, inits, path[0], path[1]);
      ChainFalls(p, inits, order, path);
    }
  }
}
