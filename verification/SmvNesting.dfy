/** The nesting of `next` in `smvtoaig`: what is checked before compilation, which assignments are moved
    into the transition relation, and which time slices compilation then meets. */
module SmvNesting {
  import opened Rewrite
  import opened SmvExpr
  import opened SmvCheck

  // ----- Slices -----------------------------------------------------------------------------------------

  /** Compiling the expression in `slice` compiles something in slice `t`. */
  ghost predicate Visits(p: Spec, rank: seq<nat>, e: nat, slice: nat, t: nat)
    requires Ranked(p, rank) && e < |p.exprs|
    decreases Height(p, rank, e), e
  {
    assert OperandsBelow(p, e);
    t == slice ||
    match p.exprs[e]
    case Const(_) => false
    case Symbol(s) => (match p.defs[s] case NoExpr => false case To(d) => Visits(p, rank, d, slice, t))
    case Next(c) => Visits(p, rank, c, slice + 1, t)
    case Neg(c) => Visits(p, rank, c, slice, t)
    case Binary(_, l, r) => Visits(p, rank, l, slice, t) || Visits(p, rank, r, slice, t)
    case Case(c, u, rest) =>
      || Visits(p, rank, c, slice, t) || Visits(p, rank, u, slice, t)
      || (match rest case NoExpr => false case To(i) => Visits(p, rank, i, slice, t))
  }

  lemma {:induction false} ReachesDepth(p: Spec, rank: seq<nat>, e: nat, slice: nat)
    requires Ranked(p, rank) && e < |p.exprs|
    ensures Visits(p, rank, e, slice, slice + NextLevel(p, rank, e) - 1)
    decreases Height(p, rank, e), e
  {
    assert OperandsBelow(p, e);
    match p.exprs[e]
    case Const(_) =>
    case Symbol(s) => if p.defs[s].To? { ReachesDepth(p, rank, p.defs[s].index, slice); }
    case Next(c) => ReachesDepth(p, rank, c, slice + 1);
    case Neg(c) => ReachesDepth(p, rank, c, slice);
    case Binary(_, l, r) =>
      ReachesDepth(p, rank, l, slice);
      ReachesDepth(p, rank, r, slice);
    case Case(c, u, rest) =>
      ReachesDepth(p, rank, c, slice);
      ReachesDepth(p, rank, u, slice);
      if rest.To? { ReachesDepth(p, rank, rest.index, slice); }
  }

  lemma {:induction false} StaysAbove(p: Spec, rank: seq<nat>, e: nat, slice: nat)
    requires Ranked(p, rank) && e < |p.exprs|
    ensures forall t: nat :: Visits(p, rank, e, slice, t) ==> t < slice + NextLevel(p, rank, e)
    decreases Height(p, rank, e), e
  {
    assert OperandsBelow(p, e);
    match p.exprs[e]
    case Const(_) =>
    case Symbol(s) => if p.defs[s].To? { StaysAbove(p, rank, p.defs[s].index, slice); }
    case Next(c) => StaysAbove(p, rank, c, slice + 1);
    case Neg(c) => StaysAbove(p, rank, c, slice);
    case Binary(_, l, r) =>
      StaysAbove(p, rank, l, slice);
      StaysAbove(p, rank, r, slice);
    case Case(c, u, rest) =>
      StaysAbove(p, rank, c, slice);
      StaysAbove(p, rank, u, slice);
      if rest.To? { StaysAbove(p, rank, rest.index, slice); }
  }

  /** The nesting level is exactly the number of slices that are met. */
  lemma DeepestSlice(p: Spec, rank: seq<nat>, e: nat, slice: nat)
    requires Ranked(p, rank) && e < |p.exprs|
    ensures Visits(p, rank, e, slice, slice + NextLevel(p, rank, e) - 1)
    ensures forall t: nat :: Visits(p, rank, e, slice, t) ==> t < slice + NextLevel(p, rank, e)
  {
    ReachesDepth(p, rank, e, slice);
    StaysAbove(p, rank, e, slice);
  }

  // ----- Counting levels --------------------------------------------------------------------------------

  function SymbolLevel(p: Spec, ghost rank: seq<nat>, s: nat): nat
    requires Ranked(p, rank) && s < |p.defs|
  {
    match p.defs[s] case NoExpr => 1 case To(d) => NextLevel(p, rank, d)
  }

  ghost predicate Within(p: Spec, rank: seq<nat>, e: nat, bound: nat)
    requires Ranked(p, rank)
  {
    e < |p.exprs| && NextLevel(p, rank, e) <= bound
  }

  /** Levels, memoised in the marks of the symbols. */
  class Counter {
    const p: Spec
    ghost const rank: seq<nat>
    var mark: seq<nat>

    ghost predicate Valid()
      reads this
    {
      && Ranked(p, rank) && |mark| == |p.defs|
      && forall s :: 0 <= s < |mark| && mark[s] != 0 ==> mark[s] == SymbolLevel(p, rank, s)
    }

    constructor (p: Spec, ghost rank: seq<nat>)
      requires Ranked(p, rank)
      ensures this.p == p && this.rank == rank && Valid()
    {
      this.p, this.rank := p, rank;
      mark := seq(|p.defs|, _ => 0);
    }

    method CountExpr(e: nat) returns (n: nat)
      requires Valid() && e < |p.exprs|
      modifies this
      ensures Valid() && n == NextLevel(p, rank, e)
      decreases Height(p, rank, e), e, 1
    {
      assert OperandsBelow(p, e);
      match p.exprs[e] {
        case Const(_) =>
          n := 1;
        case Symbol(s) =>
          n := CountSymbol(s);
        case Next(c) =>
          n := CountExpr(c);
          n := n + 1;
        case Neg(c) =>
          n := CountExpr(c);
        case Binary(_, l, r) =>
          n := CountExpr(l);
          var tmp := CountExpr(r);
          if tmp > n { n := tmp; }
        case Case(c, t, rest) =>
          n := CountExpr(c);
          var tmp := CountExpr(t);
          if tmp > n { n := tmp; }
          if rest.To? {
            tmp := CountExpr(rest.index);
            if tmp > n { n := tmp; }
          }
      }
    }

    method CountSymbol(s: nat) returns (n: nat)
      requires Valid() && s < |p.defs|
      modifies this
      ensures Valid() && n == SymbolLevel(p, rank, s)
      decreases rank[s] + 1, 0, 0
    {
      if mark[s] == 0 {
        n := 1;
        if p.defs[s].To? { n := CountExpr(p.defs[s].index); }
        mark := mark[s := n];
      }
      n := mark[s];
    }

    method AllWithin(es: seq<nat>, bound: nat) returns (ok: bool)
      requires Valid() && forall i :: 0 <= i < |es| ==> es[i] < |p.exprs|
      modifies this
      ensures Valid() && (ok <==> forall i :: 0 <= i < |es| ==> Within(p, rank, es[i], bound))
    {
      for i := 0 to |es|
        invariant Valid() && forall j :: 0 <= j < i ==> Within(p, rank, es[j], bound)
      {
        var n := CountExpr(es[i]);
        if n > bound {
          assert !Within(p, rank, es[i], bound);
          return false;
        }
      }
      ok := true;
    }
  }

  // ----- Adding expressions -----------------------------------------------------------------------------

  ghost predicate Extends(p: Spec, p': Spec) {
    WellBuilt(p) && WellBuilt(p') && p.defs == p'.defs && p.exprs <= p'.exprs
  }

  lemma {:induction false} SameHeight(p: Spec, p': Spec, rank: seq<nat>, e: nat)
    requires Extends(p, p') && |rank| == |p.defs| && e < |p.exprs|
    ensures Height(p', rank, e) == Height(p, rank, e)
  {
    assert OperandsBelow(p, e);
    forall c: nat | c < e ensures Height(p', rank, c) == Height(p, rank, c) { SameHeight(p, p', rank, c); }
  }

  lemma SameRank(p: Spec, p': Spec, rank: seq<nat>)
    requires Extends(p, p') && Ranked(p, rank)
    ensures Ranked(p', rank)
  {
    forall s | 0 <= s < |p.defs| && p.defs[s].To? ensures Height(p', rank, p'.defs[s].index) <= rank[s] {
      SameHeight(p, p', rank, p.defs[s].index);
    }
  }

  /** New expressions change neither the level nor the value of the old ones. */
  lemma {:induction false} SameMeaning(p: Spec, p': Spec, rank: seq<nat>, e: nat)
    requires Extends(p, p') && Ranked(p, rank) && Ranked(p', rank) && e < |p.exprs|
    ensures NextLevel(p', rank, e) == NextLevel(p, rank, e)
    ensures forall env: Env, slice: nat :: Denote(p', rank, env, e, slice) == Denote(p, rank, env, e, slice)
    decreases Height(p, rank, e), e
  {
    assert OperandsBelow(p, e);
    assert p'.exprs[e] == p.exprs[e];
    match p.exprs[e]
    case Const(_) =>
    case Symbol(s) => if p.defs[s].To? { SameMeaning(p, p', rank, p.defs[s].index); }
    case Next(c) => SameMeaning(p, p', rank, c);
    case Neg(c) => SameMeaning(p, p', rank, c);
    case Binary(_, l, r) =>
      SameMeaning(p, p', rank, l);
      SameMeaning(p, p', rank, r);
    case Case(c, t, rest) =>
      SameMeaning(p, p', rank, c);
      SameMeaning(p, p', rank, t);
      if rest.To? { SameMeaning(p, p', rank, rest.index); }
  }

  // ----- The transition relation --------------------------------------------------------------------------

  /** The next value of the symbol is its assigned expression. */
  ghost predicate Assigned(g: Program, rank: seq<nat>, env: Env, s: nat)
    requires Parsed(g) && Ranked(g.spec, rank) && s < |g.nexts| && g.nexts[s].To?
  {
    env(s, 1) == Denote(g.spec, rank, env, g.nexts[s].index, 0)
  }

  ghost predicate Conjunct(g: Program, rank: seq<nat>, env: Env, i: nat)
    requires Parsed(g) && Ranked(g.spec, rank) && i < |g.trans|
  {
    Denote(g.spec, rank, env, g.trans[i], 0)
  }

  /** All transition constraints and all next-state assignments hold between two slices. */
  ghost predicate Transition(g: Program, rank: seq<nat>, env: Env)
    requires Parsed(g) && Ranked(g.spec, rank)
  {
    && (forall i :: 0 <= i < |g.trans| ==> Conjunct(g, rank, env, i))
    && (forall s :: 0 <= s < |g.nexts| && g.nexts[s].To? ==> Assigned(g, rank, env, s))
  }

  /** The assignment becomes the conjunct `next (s) <-> expression`. */
  function MoveNext(g: Program, s: nat): Program
    requires s < |g.nexts| && g.nexts[s].To?
  {
    var n := |g.spec.exprs|;
    Program(Spec(g.spec.exprs + [Symbol(s), Next(n), Binary(IffOp, n + 1, g.nexts[s].index)], g.spec.defs),
            g.inits, g.nexts[s := NoExpr], g.props, g.trans + [n + 2])
  }

  lemma MovedParses(g: Program, rank: seq<nat>, s: nat)
    requires Parsed(g) && Ranked(g.spec, rank) && s < |g.nexts| && g.nexts[s].To?
    ensures Parsed(MoveNext(g, s)) && Extends(g.spec, MoveNext(g, s).spec) && Ranked(MoveNext(g, s).spec, rank)
  {
    var g', n := MoveNext(g, s), |g.spec.exprs|;
    forall e | 0 <= e < |g'.spec.exprs| ensures OperandsBelow(g'.spec, e) {
      if e < n { assert OperandsBelow(g.spec, e); }
    }
    SameRank(g.spec, g'.spec, rank);
  }

  /** The new conjunct says what the assignment said. */
  lemma MovedConjunct(g: Program, rank: seq<nat>, s: nat)
    requires Parsed(g) && Ranked(g.spec, rank) && s < |g.nexts| && g.nexts[s].To?
    requires Parsed(MoveNext(g, s)) && Extends(g.spec, MoveNext(g, s).spec) && Ranked(MoveNext(g, s).spec, rank)
    ensures forall env: Env :: Conjunct(MoveNext(g, s), rank, env, |g.trans|) <==> Assigned(g, rank, env, s)
    ensures NextLevel(MoveNext(g, s).spec, rank, |g.spec.exprs| + 2) == Max(2, NextLevel(g.spec, rank, g.nexts[s].index))
  {
    var p', n := MoveNext(g, s).spec, |g.spec.exprs|;
    assert g.spec.defs[s] == NoExpr;
    SameMeaning(g.spec, p', rank, g.nexts[s].index);
    assert p'.exprs[n] == Symbol(s) && p'.exprs[n + 1] == Next(n) && p'.exprs[n + 2] == Binary(IffOp, n + 1, g.nexts[s].index);
    assert NextLevel(p', rank, n + 1) == NextLevel(p', rank, n) + 1 == 2;
    forall env: Env ensures Conjunct(MoveNext(g, s), rank, env, |g.trans|) <==> Assigned(g, rank, env, s) {
      assert Denote(p', rank, env, n + 1, 0) == Denote(p', rank, env, n, 1) == env(s, 1);
    }
  }

  /** Moving an assignment keeps the transition relation. */
  lemma MovedTransition(g: Program, rank: seq<nat>, s: nat)
    requires Parsed(g) && Ranked(g.spec, rank) && s < |g.nexts| && g.nexts[s].To?
    requires Parsed(MoveNext(g, s)) && Extends(g.spec, MoveNext(g, s).spec) && Ranked(MoveNext(g, s).spec, rank)
    ensures forall env: Env :: Transition(MoveNext(g, s), rank, env) <==> Transition(g, rank, env)
  {
    var g' := MoveNext(g, s);
    MovedConjunct(g, rank, s);
    forall env: Env ensures Transition(g', rank, env) <==> Transition(g, rank, env) {
      forall i | 0 <= i < |g.trans| ensures Conjunct(g', rank, env, i) <==> Conjunct(g, rank, env, i) {
        SameMeaning(g.spec, g'.spec, rank, g.trans[i]);
      }
      forall t | 0 <= t < |g.nexts| && t != s && g.nexts[t].To? ensures Assigned(g', rank, env, t) <==> Assigned(g, rank, env, t) {
        SameMeaning(g.spec, g'.spec, rank, g.nexts[t].index);
      }
      assert Conjunct(g', rank, env, |g.trans|) <==> Assigned(g, rank, env, s);
    }
  }

  // ----- The check ------------------------------------------------------------------------------------------

  ghost predicate LinkWithin(p: Spec, rank: seq<nat>, x: Link, bound: nat)
    requires Ranked(p, rank)
  {
    x.To? ==> Within(p, rank, x.index, bound)
  }

  /** What the check demands of a program, symbol by symbol after the expressions. */
  ghost predicate Unnested(g: Program, rank: seq<nat>)
    requires Parsed(g) && Ranked(g.spec, rank)
  {
    && (forall i :: 0 <= i < |g.props| ==> Within(g.spec, rank, g.props[i], 1))
    && (forall i :: 0 <= i < |g.trans| ==> Within(g.spec, rank, g.trans[i], 2))
    && (forall s :: 0 <= s < |g.inits| ==> LinkWithin(g.spec, rank, g.inits[s], 1))
    && (forall s :: 0 <= s < |g.nexts| ==> LinkWithin(g.spec, rank, g.nexts[s], 2))
  }

  /** The program while symbols below `n` have been dealt with. */
  ghost predicate Moving(g: Program, rank: seq<nat>, g': Program, n: nat)
    requires Parsed(g) && Ranked(g.spec, rank)
  {
    && Parsed(g') && Ranked(g'.spec, rank) && Extends(g.spec, g'.spec)
    && g'.inits == g.inits && g'.props == g.props
    && (forall i :: 0 <= i < |g'.trans| ==> Within(g'.spec, rank, g'.trans[i], 2))
    && (forall s :: 0 <= s < |g.nexts| ==>
          g'.nexts[s] == if s < n && !LinkWithin(g.spec, rank, g.nexts[s], 1) then NoExpr else g.nexts[s])
    && (forall env: Env :: Transition(g', rank, env) <==> Transition(g, rank, env))
  }

  /** The check in numbers: properties and initial values may not mention `next`, transition constraints and
      assignments may not nest it; and the assignments that are moved are those that mention it. */
  lemma UnnestedMeans(g: Program, rank: seq<nat>)
    requires Parsed(g) && Ranked(g.spec, rank)
    ensures Unnested(g, rank) <==>
      && (forall i :: 0 <= i < |g.props| ==> NextLevel(g.spec, rank, g.props[i]) == 1)
      && (forall i :: 0 <= i < |g.trans| ==> NextLevel(g.spec, rank, g.trans[i]) <= 2)
      && (forall s :: 0 <= s < |g.inits| && g.inits[s].To? ==> NextLevel(g.spec, rank, g.inits[s].index) == 1)
      && (forall s :: 0 <= s < |g.nexts| && g.nexts[s].To? ==> NextLevel(g.spec, rank, g.nexts[s].index) <= 2)
    ensures forall g' :: Unnested(g, rank) && Moving(g, rank, g', |g.nexts|) ==>
      |g'.nexts| == |g.nexts| && forall s :: 0 <= s < |g.nexts| ==>
        g'.nexts[s] == if g.nexts[s].To? && NextLevel(g.spec, rank, g.nexts[s].index) == 2 then NoExpr else g.nexts[s]
  {
    if i :| 0 <= i < |g.props| && NextLevel(g.spec, rank, g.props[i]) != 1 { assert !Within(g.spec, rank, g.props[i], 1); }
    if i :| 0 <= i < |g.trans| && NextLevel(g.spec, rank, g.trans[i]) > 2 { assert !Within(g.spec, rank, g.trans[i], 2); }
    forall s | 0 <= s < |g.inits| ensures LinkWithin(g.spec, rank, g.inits[s], 1) <==>
                                          (g.inits[s].To? ==> NextLevel(g.spec, rank, g.inits[s].index) == 1) {}
    forall s | 0 <= s < |g.nexts|
      ensures LinkWithin(g.spec, rank, g.nexts[s], 2) <==> (g.nexts[s].To? ==> NextLevel(g.spec, rank, g.nexts[s].index) <= 2)
      ensures LinkWithin(g.spec, rank, g.nexts[s], 1) <==> (g.nexts[s].To? ==> NextLevel(g.spec, rank, g.nexts[s].index) <= 1) {}
  }

  lemma MoveOne(g: Program, rank: seq<nat>, g': Program, s: nat)
    requires Parsed(g) && Ranked(g.spec, rank) && Moving(g, rank, g', s) && s < |g.nexts| && g.nexts[s].To?
    requires NextLevel(g.spec, rank, g.nexts[s].index) == 2
    ensures Moving(g, rank, MoveNext(g', s), s + 1)
  {
    var g'' := MoveNext(g', s);
    assert g'.nexts[s] == g.nexts[s];
    SameMeaning(g.spec, g'.spec, rank, g.nexts[s].index);
    MovedParses(g', rank, s);
    MovedConjunct(g', rank, s);
    MovedTransition(g', rank, s);
    forall i | 0 <= i < |g''.trans| ensures Within(g''.spec, rank, g''.trans[i], 2) {
      if i < |g'.trans| {
        assert Within(g'.spec, rank, g'.trans[i], 2);
        SameMeaning(g'.spec, g''.spec, rank, g'.trans[i]);
      }
    }
    forall env: Env ensures Transition(g'', rank, env) <==> Transition(g, rank, env) {
      assert Transition(g'', rank, env) <==> Transition(g', rank, env);
      assert Transition(g', rank, env) <==> Transition(g, rank, env);
    }
  }

  /** Succeeds iff nothing is nested too deeply.  Assignments that mention the next state are moved into
      the transition relation, which keeps its meaning; all others stay. */
  method CheckNextNotNested(g: Program, ghost rank: seq<nat>) returns (ok: bool, g': Program)
    requires Parsed(g) && Ranked(g.spec, rank)
    ensures ok <==> Unnested(g, rank)
    ensures ok ==> Moving(g, rank, g', |g.nexts|)
  {
    g' := g;
    var counter := new Counter(g.spec, rank);
    for s := 0 to |g.spec.defs|
      invariant counter.p == g.spec && counter.rank == rank && counter.Valid()
    {
      var _ := counter.CountSymbol(s);
    }
    ok := counter.AllWithin(g.props, 1);
    if !ok { return; }
    ok := counter.AllWithin(g.trans, 2);
    if !ok { return; }
    for s := 0 to |g.nexts|
      invariant counter.p == g.spec && counter.rank == rank && counter.Valid()
      invariant Moving(g, rank, g', s)
      invariant forall t :: 0 <= t < s ==> LinkWithin(g.spec, rank, g.inits[t], 1) && LinkWithin(g.spec, rank, g.nexts[t], 2)
    {
      if g.inits[s].To? {
        var nesting := counter.CountExpr(g.inits[s].index);
        if nesting > 1 {
          assert !LinkWithin(g.spec, rank, g.inits[s], 1);
          return false, g';
        }
      }
      if g.nexts[s].To? {
        var nesting := counter.CountExpr(g.nexts[s].index);
        if nesting > 2 {
          assert !LinkWithin(g.spec, rank, g.nexts[s], 2);
          return false, g';
        }
        if nesting > 1 {
          MoveOne(g, rank, g', s);
          g' := MoveNext(g', s);
        }
      }
    }
    ok := true;
  }

  // ----- What is compiled ------------------------------------------------------------------------------------

  /** The expressions that are compiled in slice 0: those of the program, and all definitions. */
  ghost predicate Compiled(g: Program, e: nat) {
    || e in g.props || e in g.trans
    || To(e) in g.inits || To(e) in g.nexts || To(e) in g.spec.defs
  }

  ghost predicate TwoSlices(g: Program, rank: seq<nat>)
    requires Parsed(g) && Ranked(g.spec, rank)
  {
    forall e: nat, t: nat :: e < |g.spec.exprs| && Compiled(g, e) && Visits(g.spec, rank, e, 0, t) ==> t < 2
  }

  ghost predicate DefinitionsWithin(g: Program, rank: seq<nat>)
    requires Parsed(g) && Ranked(g.spec, rank)
  {
    forall s :: 0 <= s < |g.spec.defs| ==> LinkWithin(g.spec, rank, g.spec.defs[s], 2)
  }

  /** Compilation stays within slices 0 and 1 iff no definition nests `next` twice, be it used or not;
      the check does not look at definitions by themselves. */
  lemma StaysInTwoSlices(g: Program, rank: seq<nat>, g': Program)
    requires Parsed(g) && Ranked(g.spec, rank) && Unnested(g, rank) && Moving(g, rank, g', |g.nexts|)
    ensures TwoSlices(g', rank) <==> DefinitionsWithin(g, rank)
  {
    if DefinitionsWithin(g, rank) {
      forall e: nat, t: nat | e < |g'.spec.exprs| && Compiled(g', e) && Visits(g'.spec, rank, e, 0, t) ensures t < 2 {
        if s :| 0 <= s < |g.spec.defs| && g.spec.defs[s] == To(e) {
          assert LinkWithin(g.spec, rank, g.spec.defs[s], 2);
          SameMeaning(g.spec, g'.spec, rank, e);
        } else {
          OtherLevels(g, rank, g', e);
        }
        DeepestSlice(g'.spec, rank, e, 0);
      }
    } else {
      var s :| 0 <= s < |g.spec.defs| && !LinkWithin(g.spec, rank, g.spec.defs[s], 2);
      var e := g.spec.defs[s].index;
      SameMeaning(g.spec, g'.spec, rank, e);
      DeepestSlice(g'.spec, rank, e, 0);
      assert g'.spec.defs[s] == To(e) && Compiled(g', e);
      var t: nat := NextLevel(g'.spec, rank, e) - 1;
      assert e < |g'.spec.exprs| && Compiled(g', e) && Visits(g'.spec, rank, e, 0, t) && t >= 2;
    }
  }

  lemma OtherLevels(g: Program, rank: seq<nat>, g': Program, e: nat)
    requires Parsed(g) && Ranked(g.spec, rank) && Unnested(g, rank) && Moving(g, rank, g', |g.nexts|)
    requires e < |g'.spec.exprs| && Compiled(g', e) && To(e) !in g.spec.defs
    ensures NextLevel(g'.spec, rank, e) <= 2
  {
    if e in g.props {
      var i :| 0 <= i < |g.props| && g.props[i] == e;
      assert Within(g.spec, rank, g.props[i], 1);
      SameMeaning(g.spec, g'.spec, rank, e);
    } else if e in g'.trans {
      var i :| 0 <= i < |g'.trans| && g'.trans[i] == e;
      assert Within(g'.spec, rank, g'.trans[i], 2);
    } else if To(e) in g.inits {
      var s :| 0 <= s < |g.inits| && g.inits[s] == To(e);
      assert LinkWithin(g.spec, rank, g.inits[s], 1);
      SameMeaning(g.spec, g'.spec, rank, e);
    } else {
      var s :| 0 <= s < |g'.nexts| && g'.nexts[s] == To(e);
      assert LinkWithin(g.spec, rank, g.nexts[s], 2);
      SameMeaning(g.spec, g'.spec, rank, e);
    }
  }

  /** Two definitions on top of each other that both use `next`, and no other expression. */
  function NestedDefinitions(): Program {
    Program(Spec([Symbol(0), Next(0), Symbol(1), Next(2)], [NoExpr, To(1), To(3)]),
            [NoExpr, NoExpr, NoExpr], [NoExpr, NoExpr, NoExpr], [], [])
  }

  lemma NestedDefinitionsParse()
    ensures Parsed(NestedDefinitions()) && Ranked(NestedDefinitions().spec, [0, 1, 2])
  {
    var p, rank := NestedDefinitions().spec, [0, 1, 2];
    assert forall e :: 0 <= e < 4 ==> OperandsBelow(p, e);
    assert Height(p, rank, 1) == 1 && Height(p, rank, 3) == 2;
  }

  lemma NestedDefinitionsAcyclic()
    requires Parsed(NestedDefinitions())
    ensures !Cyclic(NestedDefinitions().spec, NestedDefinitions().inits)
  {
    hide Cyclic, Height;
    var p, inits := NestedDefinitions().spec, NestedDefinitions().inits;
    assert forall u: nat :: Mentions(p, 1, u) ==> u == 0;
    assert forall u: nat :: Mentions(p, 3, u) ==> u == 1;
    var order: seq<nat> := [0, 1, 2];
    forall i: nat, u: nat | i < 3 && Depends(p, inits, order[i], u) ensures u in order[..i] {
      assert order[..1][0] == 0 && order[..2][1] == 1;
    }
    var _ := FinishedIsRanked(p, inits, order);
  }

  /** This program passes both checks, but compiling its definitions reaches slice 2. */
  lemma NestedDefinitionsPass()
    ensures Parsed(NestedDefinitions()) && Ranked(NestedDefinitions().spec, [0, 1, 2])
    ensures !Cyclic(NestedDefinitions().spec, NestedDefinitions().inits)
    ensures Unnested(NestedDefinitions(), [0, 1, 2])
    ensures Compiled(NestedDefinitions(), 3) && Visits(NestedDefinitions().spec, [0, 1, 2], 3, 0, 2)
  {
    var g, rank := NestedDefinitions(), [0, 1, 2];
    NestedDefinitionsParse();
    NestedDefinitionsAcyclic();
    hide Ranked, Parsed, Cyclic;
    assert g.spec.defs[2] == To(3);
    assert Visits(g.spec, rank, 0, 2, 2);
    assert Visits(g.spec, rank, 1, 1, 2);
    assert Visits(g.spec, rank, 2, 1, 2);
  }
}
