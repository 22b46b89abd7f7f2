/** `aigtocnf`: the polarity-aware (Plaisted-Greenbaum) translation of a combinational AIG with
    one output into DIMACS CNF. */
module PgCnf {
  import opened Aiger
  import opened Cnf

  /** The header counts and the clauses written, in order. */
  datatype Dimacs = Dimacs(vars: nat, clauses: nat, cnf: seq<Clause>)

  datatype Result =
    | Latches | BadProperties | Constraints | NoOutput | ManyOutputs
    | Written(dimacs: Dimacs, map': seq<int>)

  // ----- Literal maps and polarities --------------------------------------------------------

  /** The polarities in use are closed under the operands of the gates from index `from` on. */
  ghost predicate Closed(m: Model, refs: seq<nat>, from: nat)
    requires Reencoded(m) && |refs| == 2 * (m.maxvar + 1)
  {
    forall i :: from <= i < |m.ands| ==> ClosedAt(m.ands[i], refs)
  }

  predicate ClosedAt(g: Gate, refs: seq<nat>)
    requires g.lhs + 1 < |refs| && g.lhs % 2 == 0 && g.lhs > g.rhs0 >= g.rhs1
  {
    && (refs[g.lhs] > 0 ==> refs[g.rhs0] > 0 && refs[g.rhs1] > 0)
    && (refs[g.lhs + 1] > 0 ==> refs[Not(g.rhs0)] > 0 && refs[Not(g.rhs1)] > 0)
  }

  lemma GateFacts(m: Model, i: nat)
    requires Reencoded(m) && i < |m.ands|
    ensures m.ands[i].lhs == 2 * (FirstAnd(m) + i) && m.ands[i].lhs + 1 < 2 * (m.maxvar + 1)
    ensures m.ands[i].lhs % 2 == 0 && m.ands[i].lhs > m.ands[i].rhs0 >= m.ands[i].rhs1
    ensures Not(m.ands[i].rhs0) < m.ands[i].lhs && Not(m.ands[i].rhs1) < m.ands[i].lhs
  {}

  /** The number of variable `v`; the constant carries its number on the literal 1. */
  function Number(mp: seq<int>, v: nat): int
    requires 2 * v < |mp|
  {
    if v == 0 then -mp[0] else mp[2 * v]
  }

  predicate InUse(refs: seq<nat>, v: nat)
    requires 2 * v + 1 < |refs|
  {
    refs[2 * v] > 0 || refs[2 * v + 1] > 0
  }

  ghost predicate MapsVar(refs: seq<nat>, mp: seq<int>, inv: seq<nat>, v: nat)
    requires |mp| == |refs| && 2 * v + 1 < |refs|
  {
    && mp[2 * v + 1] == -mp[2 * v]
    && if InUse(refs, v) then 1 <= Number(mp, v) <= |inv| && inv[Number(mp, v) - 1] == v else mp[2 * v] == 0
  }

  /** Variables in use are numbered from 1 on, one number each; the others are not mapped. */
  ghost predicate GoodMap(refs: seq<nat>, mp: seq<int>, inv: seq<nat>, n: nat) {
    && |mp| == |refs| && 2 * n <= |refs|
    && (forall v :: 0 <= v < n ==> MapsVar(refs, mp, inv, v))
    && (forall k :: 0 <= k < |inv| ==> inv[k] < n && InUse(refs, inv[k]) && Number(mp, inv[k]) == k + 1)
  }

  /** What the emitted clauses say. */
  ghost predicate Meaning(a: Assignment, m: Model, refs: seq<nat>, mp: seq<int>, n: nat)
    requires Reencoded(m) && |refs| == |mp| == 2 * (m.maxvar + 1) && n <= |m.ands|
  {
    forall i :: 0 <= i < n ==> GateMeaning(a, m, refs, mp, i)
  }

  ghost predicate GateMeaning(a: Assignment, m: Model, refs: seq<nat>, mp: seq<int>, i: nat)
    requires Reencoded(m) && |refs| == |mp| == 2 * (m.maxvar + 1) && i < |m.ands|
  {
    GateFacts(m, i);
    var g := m.ands[i];
    && (refs[g.lhs] > 0 ==> (Holds(a, mp[g.lhs + 1]) || Holds(a, mp[g.rhs1])) && (Holds(a, mp[g.lhs + 1]) || Holds(a, mp[g.rhs0])))
    && (refs[g.lhs + 1] > 0 ==> Holds(a, mp[g.lhs]) || Holds(a, mp[Not(g.rhs1)]) || Holds(a, mp[Not(g.rhs0)]))
  }

  ghost predicate ConstMeaning(a: Assignment, refs: seq<nat>, mp: seq<int>)
    requires |refs| == |mp| >= 2
  {
    refs[0] > 0 || refs[1] > 0 ==> Holds(a, mp[1])
  }

  ghost predicate AllMeaning(a: Assignment, m: Model, refs: seq<nat>, mp: seq<int>, out: nat)
    requires Reencoded(m) && |refs| == |mp| == 2 * (m.maxvar + 1) && out < |mp|
  {
    ConstMeaning(a, refs, mp) && Meaning(a, m, refs, mp, |m.ands|) && Holds(a, mp[out])
  }

  // ----- Soundness: the clauses force every literal in use ----------------------------------

  /** The valuation reads the mapped inputs off the assignment. */
  ghost predicate InputsFrom(a: Assignment, m: Model, refs: seq<nat>, mp: seq<int>, w: Valuation)
    requires |refs| == |mp| == 2 * |w| && |m.inputs| < |w|
  {
    forall v :: 1 <= v < FirstLatch(m) && (refs[2 * v] > 0 || refs[2 * v + 1] > 0) ==> w[v] == Holds(a, mp[2 * v])
  }

  lemma Mapped(refs: seq<nat>, mp: seq<int>, inv: seq<nat>, n: nat, l: nat)
    requires GoodMap(refs, mp, inv, n) && l < 2 * n && (refs[l] > 0 || refs[Not(l)] > 0)
    ensures mp[l] != 0 && mp[Not(l)] == -mp[l] && -|inv| <= mp[l] <= |inv|
  {
    assert MapsVar(refs, mp, inv, l / 2);
  }

  /** What the circuit side of the soundness proof relies on. */
  ghost predicate Setting(a: Assignment, m: Model, refs: seq<nat>, mp: seq<int>, inv: seq<nat>, w: Valuation) {
    && Reencoded(m) && InRange(m) && m.latches == [] && Consistent(m, w)
    && |refs| == |mp| == 2 * (m.maxvar + 1) && GoodMap(refs, mp, inv, m.maxvar + 1) && Closed(m, refs, 0)
    && ConstMeaning(a, refs, mp) && Meaning(a, m, refs, mp, |m.ands|) && InputsFrom(a, m, refs, mp, w)
  }

  lemma ForcedLeaf(a: Assignment, m: Model, refs: seq<nat>, mp: seq<int>, inv: seq<nat>, w: Valuation, l: nat)
    requires Setting(a, m, refs, mp, inv, w)
    requires l / 2 < FirstLatch(m) && refs[l] > 0 && Holds(a, mp[l])
    ensures LitVal(w, l)
  {
    assert MapsVar(refs, mp, inv, l / 2);
    assert l == 2 * (l / 2) || l == 2 * (l / 2) + 1;
  }

  /** The operand whose image holds when the negation of gate `i` is asserted. */
  lemma GateOperands(a: Assignment, m: Model, refs: seq<nat>, mp: seq<int>, inv: seq<nat>, w: Valuation, i: nat)
    requires Setting(a, m, refs, mp, inv, w) && i < |m.ands|
    ensures var g := m.ands[i];
      && g.lhs == 2 * (FirstAnd(m) + i) && g.lhs > g.rhs0 >= g.rhs1
      && Not(g.rhs0) < g.lhs && Not(g.rhs1) < g.lhs && g.lhs + 1 < |refs| && GateHolds(w, g)
      && (refs[g.lhs] > 0 && Holds(a, mp[g.lhs]) ==>
            refs[g.rhs0] > 0 && refs[g.rhs1] > 0 && Holds(a, mp[g.rhs0]) && Holds(a, mp[g.rhs1]))
      && (refs[g.lhs + 1] > 0 && Holds(a, mp[g.lhs + 1]) ==>
            && refs[Not(g.rhs0)] > 0 && refs[Not(g.rhs1)] > 0
            && (Holds(a, mp[Not(g.rhs1)]) || Holds(a, mp[Not(g.rhs0)])))
  {
    var g := m.ands[i];
    GateFacts(m, i);
    assert GateMeaning(a, m, refs, mp, i) && ClosedAt(g, refs);
    assert MapsVar(refs, mp, inv, FirstAnd(m) + i);
  }

  /** Every literal in use whose image holds is true in the circuit. */
  lemma {:induction false} ForcedTrue(a: Assignment, m: Model, refs: seq<nat>, mp: seq<int>, inv: seq<nat>, w: Valuation, l: nat)
    requires Setting(a, m, refs, mp, inv, w)
    requires l / 2 < NumVars(m) && refs[l] > 0 && Holds(a, mp[l])
    ensures LitVal(w, l)
    decreases l / 2
  {
    if l / 2 < FirstLatch(m) {
      ForcedLeaf(a, m, refs, mp, inv, w, l);
    } else {
      var i := l / 2 - FirstAnd(m);
      GateOperands(a, m, refs, mp, inv, w, i);
      var g := m.ands[i];
      if l == g.lhs {
        ForcedTrue(a, m, refs, mp, inv, w, g.rhs0);
        ForcedTrue(a, m, refs, mp, inv, w, g.rhs1);
      } else {
        var r := if Holds(a, mp[Not(g.rhs1)]) then g.rhs1 else g.rhs0;
        ForcedTrue(a, m, refs, mp, inv, w, Not(r));
        NotFlips(w, r);
      }
    }
  }

  lemma NotFlips(w: Valuation, l: nat)
    requires l / 2 < |w|
    ensures Not(l) / 2 == l / 2 && LitVal(w, Not(l)) == !LitVal(w, l)
  {}

  // ----- Completeness: every satisfying valuation is a model --------------------------------

  ghost function ModelOf(w: Valuation, inv: seq<nat>): Assignment {
    k => 1 <= k <= |inv| && (inv[k - 1] == 0 || (inv[k - 1] < |w| && w[inv[k - 1]]))
  }

  lemma ModelOfLit(refs: seq<nat>, mp: seq<int>, inv: seq<nat>, w: Valuation, l: nat)
    requires GoodMap(refs, mp, inv, |w|) && |refs| == 2 * |w| && l < |refs| && (refs[l] > 0 || refs[Not(l)] > 0) && !w[0]
    ensures Holds(ModelOf(w, inv), mp[l]) == LitVal(w, l)
  {
    var v := l / 2;
    assert MapsVar(refs, mp, inv, v);
    assert l == 2 * v || l == 2 * v + 1;
  }

  lemma ModelGate(m: Model, refs: seq<nat>, mp: seq<int>, inv: seq<nat>, w: Valuation, i: nat)
    requires Reencoded(m) && InRange(m) && Consistent(m, w) && i < |m.ands|
    requires |refs| == |mp| == 2 * (m.maxvar + 1) && GoodMap(refs, mp, inv, m.maxvar + 1) && Closed(m, refs, 0)
    ensures GateMeaning(ModelOf(w, inv), m, refs, mp, i)
  {
    var g := m.ands[i];
    GateFacts(m, i);
    assert ClosedAt(g, refs) && GateHolds(w, g);
    if refs[g.lhs] > 0 {
      ModelOfLit(refs, mp, inv, w, g.lhs + 1);
      ModelOfLit(refs, mp, inv, w, g.rhs0);
      ModelOfLit(refs, mp, inv, w, g.rhs1);
    }
    if refs[g.lhs + 1] > 0 {
      ModelOfLit(refs, mp, inv, w, g.lhs);
      ModelOfLit(refs, mp, inv, w, Not(g.rhs0));
      ModelOfLit(refs, mp, inv, w, Not(g.rhs1));
      NotFlips(w, g.rhs0);
      NotFlips(w, g.rhs1);
    }
  }

  lemma ModelSatisfies(m: Model, refs: seq<nat>, mp: seq<int>, inv: seq<nat>, w: Valuation, out: nat)
    requires Reencoded(m) && InRange(m) && Consistent(m, w)
    requires |refs| == |mp| == 2 * (m.maxvar + 1) && GoodMap(refs, mp, inv, m.maxvar + 1) && Closed(m, refs, 0)
    requires out < |refs| && refs[out] > 0 && LitVal(w, out)
    ensures AllMeaning(ModelOf(w, inv), m, refs, mp, out)
  {
    ModelOfLit(refs, mp, inv, w, out);
    if refs[0] > 0 || refs[1] > 0 { ModelOfLit(refs, mp, inv, w, 1); }
    forall i | 0 <= i < |m.ands| ensures GateMeaning(ModelOf(w, inv), m, refs, mp, i) {
      ModelGate(m, refs, mp, inv, w, i);
    }
  }

  // ----- Clause counting --------------------------------------------------------------------

  /** Clauses that the polarities of variable `v` call for. */
  function Cost(refs: seq<nat>, v: nat): nat
    requires 2 * v + 1 < |refs|
  {
    (if refs[2 * v] > 0 then 2 else 0) + (if refs[2 * v + 1] > 0 then 1 else 0)
  }

  function CostBelow(refs: seq<nat>, from: nat, to: nat): nat
    requires 2 * to <= |refs|
  {
    if to <= from then 0 else CostBelow(refs, from, to - 1) + Cost(refs, to - 1)
  }

  lemma {:induction false} CostOfUnused(refs: seq<nat>, from: nat, mid: nat, to: nat)
    requires from <= mid <= to && 2 * to <= |refs|
    requires forall l :: 2 * mid <= l < |refs| ==> refs[l] == 0
    ensures CostBelow(refs, from, to) == CostBelow(refs, from, mid)
  {
    if mid < to { CostOfUnused(refs, from, mid, to - 1); }
  }

  // ----- Which polarities are needed ---------------------------------------------------------

  /** A gate in use asks for its operands, its negation for their negations. */
  predicate AsksFor(g: Gate, l: nat, x: nat) {
    || (l == g.lhs && (x == g.rhs0 || x == g.rhs1))
    || (l == Not(g.lhs) && (x == Not(g.rhs0) || x == Not(g.rhs1)))
  }

  ghost predicate OperandEdge(m: Model, l: nat, x: nat) {
    exists i :: 0 <= i < |m.ands| && AsksFor(m.ands[i], l, x)
  }

  ghost predicate Trail(m: Model, p: seq<nat>) {
    forall i :: 0 <= i < |p| - 1 ==> OperandEdge(m, p[i], p[i + 1])
  }

  /** The literal is needed for the output: a trail of operands with matching polarity leads to it. */
  ghost predicate Reached(m: Model, out: nat, l: nat) {
    exists p :: IsTrail(m, out, l, p)
  }

  ghost predicate IsTrail(m: Model, out: nat, l: nat, p: seq<nat>) {
    |p| > 0 && p[0] == out && p[|p| - 1] == l && Trail(m, p)
  }

  lemma ReachedStart(m: Model, out: nat)
    ensures Reached(m, out, out)
  {
    assert IsTrail(m, out, out, [out]);
  }

  lemma ReachedStep(m: Model, out: nat, i: nat, l: nat, x: nat)
    requires Reached(m, out, l) && i < |m.ands| && AsksFor(m.ands[i], l, x)
    ensures Reached(m, out, x)
  {
    var p :| IsTrail(m, out, l, p);
    assert OperandEdge(m, l, x);
    assert IsTrail(m, out, x, p + [x]);
  }

  /** A needed literal is the output or asked for by a needed one. */
  lemma ReachedFrom(m: Model, out: nat, x: nat) returns (i: nat, l: nat)
    requires Reached(m, out, x) && x != out
    ensures i < |m.ands| && AsksFor(m.ands[i], l, x) && Reached(m, out, l)
  {
    var p :| IsTrail(m, out, x, p);
    var n := |p| - 1;
    l := p[n - 1];
    assert OperandEdge(m, p[n - 1], p[n - 1 + 1]);
    i :| 0 <= i < |m.ands| && AsksFor(m.ands[i], l, x);
    assert IsTrail(m, out, l, p[..n]) by {
      forall j | 0 <= j < n - 1 ensures OperandEdge(m, p[..n][j], p[..n][j + 1]) { assert OperandEdge(m, p[j], p[j + 1]); }
    }
  }

  lemma ClosedEdge(m: Model, refs: seq<nat>, l: nat, x: nat)
    requires Reencoded(m) && |refs| == 2 * (m.maxvar + 1) && Closed(m, refs, 0)
    requires OperandEdge(m, l, x) && l < |refs| && refs[l] > 0
    ensures x < |refs| && refs[x] > 0
  {
    var i :| 0 <= i < |m.ands| && AsksFor(m.ands[i], l, x);
    GateFacts(m, i);
    assert ClosedAt(m.ands[i], refs);
  }

  /** Closed counts reach every literal of a trail. */
  lemma {:induction false} ClosedTrail(m: Model, refs: seq<nat>, p: seq<nat>)
    requires Reencoded(m) && |refs| == 2 * (m.maxvar + 1) && Closed(m, refs, 0)
    requires |p| > 0 && Trail(m, p) && p[0] < |refs| && refs[p[0]] > 0
    ensures p[|p| - 1] < |refs| && refs[p[|p| - 1]] > 0
  {
    if |p| > 1 {
      assert OperandEdge(m, p[0], p[0 + 1]);
      ClosedEdge(m, refs, p[0], p[1]);
      hide Closed, Reencoded, OperandEdge;
      forall j | 0 <= j < |p[1..]| - 1 ensures OperandEdge(m, p[1..][j], p[1..][j + 1]) {
        assert OperandEdge(m, p[j + 1], p[j + 1 + 1]);
      }
      ClosedTrail(m, refs, p[1..]);
    }
  }

  ghost predicate OnlyReached(m: Model, out: nat, refs: seq<nat>) {
    forall l :: 0 <= l < |refs| && refs[l] > 0 ==> Reached(m, out, l)
  }

  /** Exactly the needed literals have references. */
  ghost predicate ExactlyReached(m: Model, out: nat, refs: seq<nat>) {
    forall l: nat :: Reached(m, out, l) <==> l < |refs| && refs[l] > 0
  }

  lemma CountsExact(m: Model, out: nat, refs: seq<nat>)
    requires Reencoded(m) && |refs| == 2 * (m.maxvar + 1) && Closed(m, refs, 0)
    requires out < |refs| && refs[out] > 0 && OnlyReached(m, out, refs)
    ensures ExactlyReached(m, out, refs)
  {
    forall l: nat | Reached(m, out, l) ensures l < |refs| && refs[l] > 0 {
      var p :| IsTrail(m, out, l, p);
      ClosedTrail(m, refs, p);
    }
  }

  /** Counting the operands of gate `i` keeps to needed literals. */
  lemma OnlyReachedKept(m: Model, out: nat, refs: seq<nat>, refs': seq<nat>, i: nat)
    requires OnlyReached(m, out, refs) && |refs'| == |refs| && i < |m.ands| && m.ands[i].lhs % 2 == 0 && m.ands[i].lhs + 1 < |refs|
    requires forall x :: 0 <= x < |refs| && refs'[x] > refs[x] ==> NewlyCounted(m.ands[i], refs, x)
    ensures OnlyReached(m, out, refs')
  {
    forall x | 0 <= x < |refs| && refs'[x] > 0 ensures Reached(m, out, x) {
      var g := m.ands[i];
      if refs[x] == 0 {
        assert NewlyCounted(g, refs, x);
        ReachedStep(m, out, i, if refs[g.lhs] > 0 && (x == g.rhs0 || x == g.rhs1) then g.lhs else g.lhs + 1, x);
      }
    }
  }

  predicate NewlyCounted(g: Gate, refs: seq<nat>, x: nat)
    requires g.lhs + 1 < |refs|
  {
    || (refs[g.lhs] > 0 && (x == g.rhs0 || x == g.rhs1))
    || (refs[g.lhs + 1] > 0 && (x == Not(g.rhs0) || x == Not(g.rhs1)))
  }

  /** Clauses that the needed polarities of the first `n` gates call for. */
  ghost function NeededClauses(m: Model, out: nat, n: nat): nat
    requires n <= |m.ands|
  {
    if n == 0 then 0 else
      NeededClauses(m, out, n - 1)
      + (if Reached(m, out, m.ands[n - 1].lhs) then 2 else 0) + (if Reached(m, out, Not(m.ands[n - 1].lhs)) then 1 else 0)
  }

  lemma {:induction false} CostIsNeeded(m: Model, out: nat, refs: seq<nat>, n: nat)
    requires Reencoded(m) && |refs| == 2 * (m.maxvar + 1) && n <= |m.ands| && ExactlyReached(m, out, refs)
    ensures CostBelow(refs, FirstAnd(m), FirstAnd(m) + n) == NeededClauses(m, out, n)
  {
    if n > 0 {
      CostIsNeeded(m, out, refs, n - 1);
      GateFacts(m, n - 1);
    }
  }

  // ----- The passes of `main` ---------------------------------------------------------------

  ghost predicate AtLeast(refs: seq<nat>, refs': seq<nat>) {
    |refs| == |refs'| && forall l :: 0 <= l < |refs| ==> refs[l] <= refs'[l]
  }

  /** Counting the operands of gate `i` closes it and leaves the gates above alone. */
  lemma ClosedDown(m: Model, refs: seq<nat>, refs': seq<nat>, i: nat)
    requires Reencoded(m) && |refs| == 2 * (m.maxvar + 1) && i < |m.ands|
    requires Closed(m, refs, i + 1) && AtLeast(refs, refs')
    requires forall l :: 2 * (FirstAnd(m) + i) <= l < |refs| ==> refs'[l] == refs[l]
    requires var g := m.ands[i];
      && (refs[g.lhs] > 0 ==> refs'[g.rhs0] > 0 && refs'[g.rhs1] > 0)
      && (g.lhs + 1 < |refs| ==> refs[g.lhs + 1] > 0 ==> refs'[Not(g.rhs0)] > 0 && refs'[Not(g.rhs1)] > 0)
    ensures Closed(m, refs', i)
  {
    forall j | i <= j < |m.ands| ensures ClosedAt(m.ands[j], refs') {
      GateFacts(m, j);
      if j > i { assert ClosedAt(m.ands[j], refs); }
    }
  }

  /** Backward pass: which literals are needed in which polarity. */
  method CountRefs(m: Model, out: nat) returns (refs: array<nat>)
    requires Reencoded(m) && out / 2 < NumVars(m)
    ensures fresh(refs) && refs.Length == 2 * (m.maxvar + 1)
    ensures refs[out] > 0 && Closed(m, refs[..], 0) && ExactlyReached(m, out, refs[..])
    ensures forall l :: 2 * NumVars(m) <= l < refs.Length ==> refs[l] == 0
  {
    hide Reached;
    refs := new nat[2 * (m.maxvar + 1)](_ => 0);
    refs[out] := refs[out] + 1;
    ReachedStart(m, out);
    var i := |m.ands|;
    while i > 0
      invariant 0 <= i <= |m.ands|
      invariant refs[out] > 0 && Closed(m, refs[..], i) && OnlyReached(m, out, refs[..])
      invariant forall l :: 2 * NumVars(m) <= l < refs.Length ==> refs[l] == 0
    {
      i := i - 1;
      CountGate(m, refs, i, out);
    }
    CountsExact(m, out, refs[..]);
  }

  method CountGate(m: Model, refs: array<nat>, i: nat, ghost out: nat)
    requires Reencoded(m) && refs.Length == 2 * (m.maxvar + 1) && i < |m.ands|
    requires out < refs.Length && refs[out] > 0 && Closed(m, refs[..], i + 1) && OnlyReached(m, out, refs[..])
    requires forall l :: 2 * NumVars(m) <= l < refs.Length ==> refs[l] == 0
    modifies refs
    ensures refs[out] > 0 && Closed(m, refs[..], i) && OnlyReached(m, out, refs[..])
    ensures forall l :: 2 * NumVars(m) <= l < refs.Length ==> refs[l] == 0
  {
    hide OnlyReached, Closed;
    GateFacts(m, i);
    hide Reencoded;
    ghost var before := refs[..];
    var g := m.ands[i];
    if refs[g.lhs] > 0 {
      refs[g.rhs0] := refs[g.rhs0] + 1;
      refs[g.rhs1] := refs[g.rhs1] + 1;
    }
    if refs[g.lhs + 1] > 0 {
      refs[Not(g.rhs0)] := refs[Not(g.rhs0)] + 1;
      refs[Not(g.rhs1)] := refs[Not(g.rhs1)] + 1;
    }
    ClosedDown(m, before, refs[..], i);
    OnlyReachedKept(m, out, before, refs[..], i);
  }

  /** Numbers the variables in use and predicts the clause count. */
  method BuildMap(m: Model, refs: seq<nat>) returns (mp: array<int>, vars: nat, clauses: nat, ghost inv: seq<nat>)
    requires Reencoded(m) && m.latches == [] && |refs| == 2 * (m.maxvar + 1)
    requires forall l :: 2 * NumVars(m) <= l < |refs| ==> refs[l] == 0
    ensures fresh(mp) && mp.Length == |refs| && vars == |inv| && GoodMap(refs, mp[..], inv, m.maxvar + 1)
    ensures clauses == 1 + (if InUse(refs, 0) then 1 else 0) + CostBelow(refs, FirstAnd(m), NumVars(m))
  {
    hide GoodMap;
    mp := new int[|refs|](_ => 0);
    vars, clauses, inv := 0, 1, [];
    if refs[0] > 0 || refs[1] > 0 {
      mp[0], mp[1] := -1, 1;
      vars, clauses, inv := vars + 1, clauses + 1, [0];
    }
    MapBegins(refs, mp[..], inv);
    for v := 1 to m.maxvar + 1
      invariant vars == |inv| && GoodMap(refs, mp[..], inv, v)
      invariant clauses == 1 + (if InUse(refs, 0) then 1 else 0) + CostBelow(refs, FirstAnd(m), v)
    {
      ghost var before, inv0 := mp[..], inv;
      var lit := 2 * v;
      if refs[lit] > 0 || refs[lit + 1] > 0 {
        vars, inv := vars + 1, inv + [v];
        mp[lit] := vars;
        mp[lit + 1] := -(vars as int);
        if lit > 2 * |m.inputs| + 1 {
          if refs[lit] > 0 { clauses := clauses + 2; }
          if refs[lit + 1] > 0 { clauses := clauses + 1; }
        }
      } else {
        mp[lit], mp[lit + 1] := 0, 0;
      }
      MapGrows(refs, before, mp[..], inv0, inv, v);
    }
    CostOfUnused(refs, FirstAnd(m), NumVars(m), m.maxvar + 1);
  }

  lemma MapBegins(refs: seq<nat>, mp: seq<int>, inv: seq<nat>)
    requires |mp| == |refs| >= 2
    requires if InUse(refs, 0) then inv == [0] && mp[0] == -1 && mp[1] == 1 else inv == [] && mp[0] == mp[1] == 0
    ensures GoodMap(refs, mp, inv, 1)
  {}

  lemma MapGrows(refs: seq<nat>, mp: seq<int>, mp': seq<int>, inv: seq<nat>, inv': seq<nat>, v: nat)
    requires 1 <= v && 2 * v + 1 < |refs| && GoodMap(refs, mp, inv, v)
    requires |mp'| == |refs| && forall l :: 0 <= l < 2 * v ==> mp'[l] == mp[l]
    requires if InUse(refs, v) then inv' == inv + [v] && mp'[2 * v] == |inv'| && mp'[2 * v + 1] == -|inv'|
             else inv' == inv && mp'[2 * v] == 0 && mp'[2 * v + 1] == 0
    ensures GoodMap(refs, mp', inv', v + 1)
  {
    forall u | 0 <= u < v + 1 ensures MapsVar(refs, mp', inv', u) {
      if u < v { assert MapsVar(refs, mp, inv, u); }
    }
  }

  /** Every literal of every clause is a mapped one. */
  ghost predicate AllMapped(cnf: seq<Clause>, vars: nat) {
    forall i, j :: 0 <= i < |cnf| && 0 <= j < |cnf[i]| ==> cnf[i][j] != 0 && -(vars as int) <= cnf[i][j] <= vars
  }

  function GateCnf(m: Model, refs: seq<nat>, mp: seq<int>, i: nat): seq<Clause>
    requires Reencoded(m) && |refs| == |mp| == 2 * (m.maxvar + 1) && i < |m.ands|
  {
    GateFacts(m, i);
    var g := m.ands[i];
    (if refs[g.lhs] > 0 then [[mp[g.lhs + 1], mp[g.rhs1]], [mp[g.lhs + 1], mp[g.rhs0]]] else [])
    + (if refs[g.lhs + 1] > 0 then [[mp[g.lhs], mp[Not(g.rhs1)], mp[Not(g.rhs0)]]] else [])
  }

  lemma GateCnfMeaning(a: Assignment, m: Model, refs: seq<nat>, mp: seq<int>, cnf: seq<Clause>, i: nat)
    requires Reencoded(m) && |refs| == |mp| == 2 * (m.maxvar + 1) && i < |m.ands|
    ensures Satisfies(a, cnf + GateCnf(m, refs, mp, i)) <==> Satisfies(a, cnf) && GateMeaning(a, m, refs, mp, i)
  {
    GateFacts(m, i);
    var g := m.ands[i];
    var c1, c2, c3 := [mp[g.lhs + 1], mp[g.rhs1]], [mp[g.lhs + 1], mp[g.rhs0]], [mp[g.lhs], mp[Not(g.rhs1)], mp[Not(g.rhs0)]];
    ClauseHolds2(a, mp[g.lhs + 1], mp[g.rhs1]);
    ClauseHolds2(a, mp[g.lhs + 1], mp[g.rhs0]);
    ClauseHolds3(a, mp[g.lhs], mp[Not(g.rhs1)], mp[Not(g.rhs0)]);
    var mid := if refs[g.lhs] > 0 then cnf + [c1] + [c2] else cnf;
    SatisfiesSnoc(a, cnf, c1);
    SatisfiesSnoc(a, cnf + [c1], c2);
    SatisfiesSnoc(a, mid, c3);
    assert cnf + GateCnf(m, refs, mp, i) == if refs[g.lhs + 1] > 0 then mid + [c3] else mid;
  }

  lemma GateCnfMapped(m: Model, refs: seq<nat>, mp: seq<int>, inv: seq<nat>, i: nat)
    requires Reencoded(m) && |refs| == |mp| == 2 * (m.maxvar + 1) && i < |m.ands|
    requires GoodMap(refs, mp, inv, m.maxvar + 1) && Closed(m, refs, 0)
    ensures AllMapped(GateCnf(m, refs, mp, i), |inv|)
    ensures |GateCnf(m, refs, mp, i)| == Cost(refs, FirstAnd(m) + i)
  {
    GateFacts(m, i);
    var g := m.ands[i];
    assert ClosedAt(g, refs);
    if refs[g.lhs] > 0 {
      Mapped(refs, mp, inv, m.maxvar + 1, g.lhs + 1);
      Mapped(refs, mp, inv, m.maxvar + 1, g.rhs0);
      Mapped(refs, mp, inv, m.maxvar + 1, g.rhs1);
    }
    if refs[g.lhs + 1] > 0 {
      Mapped(refs, mp, inv, m.maxvar + 1, g.lhs);
      Mapped(refs, mp, inv, m.maxvar + 1, Not(g.rhs0));
      Mapped(refs, mp, inv, m.maxvar + 1, Not(g.rhs1));
    }
  }

  /** The header promises no variable that no clause mentions. */
  ghost predicate AllOccur(cnf: seq<Clause>, vars: nat) {
    forall k :: 1 <= k <= vars ==> Occurs(cnf, k)
  }

  ghost predicate Occurs(cnf: seq<Clause>, k: int) {
    exists c :: c in cnf && (k in c || -k in c)
  }

  /** The clauses of all gates, the constant and the output are there. */
  ghost predicate HasAll(m: Model, refs: seq<nat>, mp: seq<int>, out: nat, cnf: seq<Clause>)
    requires Reencoded(m) && |refs| == |mp| == 2 * (m.maxvar + 1) && out < |refs|
  {
    HasUpTo(m, refs, mp, cnf, |m.ands|) && [mp[out]] in cnf
  }

  ghost predicate HasUpTo(m: Model, refs: seq<nat>, mp: seq<int>, cnf: seq<Clause>, n: nat)
    requires Reencoded(m) && |refs| == |mp| == 2 * (m.maxvar + 1) && n <= |m.ands|
  {
    (InUse(refs, 0) ==> [mp[1]] in cnf) && forall i :: 0 <= i < n ==> HasGate(m, refs, mp, i, cnf)
  }

  lemma HasStep(m: Model, refs: seq<nat>, mp: seq<int>, cnf: seq<Clause>, n: nat)
    requires Reencoded(m) && |refs| == |mp| == 2 * (m.maxvar + 1) && n < |m.ands| && HasUpTo(m, refs, mp, cnf, n)
    ensures HasUpTo(m, refs, mp, cnf + GateCnf(m, refs, mp, n), n + 1)
  {
    forall i | 0 <= i < n + 1 ensures HasGate(m, refs, mp, i, cnf + GateCnf(m, refs, mp, n)) {
      if i < n { assert HasGate(m, refs, mp, i, cnf); }
    }
  }

  lemma HasOutput(m: Model, refs: seq<nat>, mp: seq<int>, cnf: seq<Clause>, out: nat)
    requires Reencoded(m) && |refs| == |mp| == 2 * (m.maxvar + 1) && out < |refs| && HasUpTo(m, refs, mp, cnf, |m.ands|)
    ensures HasAll(m, refs, mp, out, cnf + [[mp[out]]])
  {
    var cnf' := cnf + [[mp[out]]];
    forall i | 0 <= i < |m.ands| ensures HasGate(m, refs, mp, i, cnf') { assert HasGate(m, refs, mp, i, cnf); }
    assert cnf'[|cnf|] == [mp[out]];
  }

  ghost predicate HasGate(m: Model, refs: seq<nat>, mp: seq<int>, i: nat, cnf: seq<Clause>)
    requires Reencoded(m) && |refs| == |mp| == 2 * (m.maxvar + 1) && i < |m.ands|
  {
    forall c :: c in GateCnf(m, refs, mp, i) ==> c in cnf
  }

  /** The clause of a gate that mentions an operand it asks for. */
  lemma AskedOccurs(m: Model, refs: seq<nat>, mp: seq<int>, i: nat, l: nat, x: nat, cnf: seq<Clause>)
    requires Reencoded(m) && |refs| == |mp| == 2 * (m.maxvar + 1) && i < |m.ands| && HasGate(m, refs, mp, i, cnf)
    requires AsksFor(m.ands[i], l, x) && l < |refs| && refs[l] > 0 && x < |mp|
    ensures exists c :: c in cnf && mp[x] in c
  {
    GateFacts(m, i);
    var g, cs := m.ands[i], GateCnf(m, refs, mp, i);
    if l == g.lhs {
      assert cs[0] == [mp[g.lhs + 1], mp[g.rhs1]] && cs[1] == [mp[g.lhs + 1], mp[g.rhs0]];
      var c := if x == g.rhs1 then cs[0] else cs[1];
      assert c in cs && c[1] == mp[x];
    } else {
      var c := cs[|cs| - 1];
      assert c == [mp[g.lhs], mp[Not(g.rhs1)], mp[Not(g.rhs0)]] && c in cs;
      assert c[1] in c && c[2] in c;
    }
  }

  lemma VariableOccurs(m: Model, refs: seq<nat>, mp: seq<int>, inv: seq<nat>, out: nat, cnf: seq<Clause>, x: nat)
    requires Reencoded(m) && |refs| == |mp| == 2 * (m.maxvar + 1) && out < |refs| && ExactlyReached(m, out, refs)
    requires GoodMap(refs, mp, inv, m.maxvar + 1) && HasAll(m, refs, mp, out, cnf)
    requires x < |refs| && refs[x] > 0
    ensures Occurs(cnf, Number(mp, x / 2))
  {
    var v := x / 2;
    assert MapsVar(refs, mp, inv, v) && (x == 2 * v || x == 2 * v + 1);
    if v == 0 {
      assert [mp[1]] in cnf && mp[1] in [mp[1]];
    } else if x == out {
      assert [mp[out]] in cnf && mp[out] in [mp[out]];
    } else {
      var i, l := ReachedFrom(m, out, x);
      assert HasGate(m, refs, mp, i, cnf);
      AskedOccurs(m, refs, mp, i, l, x, cnf);
    }
  }

  lemma EverythingOccurs(m: Model, refs: seq<nat>, mp: seq<int>, inv: seq<nat>, out: nat, cnf: seq<Clause>)
    requires Reencoded(m) && |refs| == |mp| == 2 * (m.maxvar + 1) && out < |refs| && ExactlyReached(m, out, refs)
    requires GoodMap(refs, mp, inv, m.maxvar + 1) && HasAll(m, refs, mp, out, cnf)
    ensures AllOccur(cnf, |inv|)
  {
    forall k | 1 <= k <= |inv| ensures Occurs(cnf, k) {
      var v := inv[k - 1];
      VariableOccurs(m, refs, mp, inv, out, cnf, if refs[2 * v] > 0 then 2 * v else 2 * v + 1);
    }
  }

  /** Forward pass: writes the clauses. */
  method Emit(m: Model, refs: seq<nat>, mp: seq<int>, ghost inv: seq<nat>, out: nat) returns (cnf: seq<Clause>)
    requires Reencoded(m) && |refs| == |mp| == 2 * (m.maxvar + 1) && out < |refs| && refs[out] > 0
    requires GoodMap(refs, mp, inv, m.maxvar + 1) && Closed(m, refs, 0)
    ensures |cnf| == 1 + (if InUse(refs, 0) then 1 else 0) + CostBelow(refs, FirstAnd(m), NumVars(m))
    ensures AllMapped(cnf, |inv|) && HasAll(m, refs, mp, out, cnf)
    ensures forall a :: Satisfies(a, cnf) <==> AllMeaning(a, m, refs, mp, out)
  {
    hide Closed, GoodMap, GateCnf, GateMeaning;
    cnf := [];
    if refs[0] > 0 || refs[1] > 0 {
      cnf := [[mp[1]]];
      Mapped(refs, mp, inv, m.maxvar + 1, 1);
      forall a ensures Satisfies(a, cnf) <==> Holds(a, mp[1]) {
        assert cnf == [] + [[mp[1]]];
        SatisfiesSnoc(a, [], [mp[1]]);
        ClauseHolds1(a, mp[1]);
      }
    }
    assert HasUpTo(m, refs, mp, cnf, 0);
    hide HasUpTo;
    for i := 0 to |m.ands|
      invariant |cnf| == (if InUse(refs, 0) then 1 else 0) + CostBelow(refs, FirstAnd(m), FirstAnd(m) + i)
      invariant AllMapped(cnf, |inv|) && HasUpTo(m, refs, mp, cnf, i)
      invariant forall a :: Satisfies(a, cnf) <==> ConstMeaning(a, refs, mp) && Meaning(a, m, refs, mp, i)
    {
      GateCnfMapped(m, refs, mp, inv, i);
      forall a
        ensures Satisfies(a, cnf + GateCnf(m, refs, mp, i)) <==>
                Satisfies(a, cnf) && GateMeaning(a, m, refs, mp, i)
      {
        GateCnfMeaning(a, m, refs, mp, cnf, i);
      }
      HasStep(m, refs, mp, cnf, i);
      cnf := cnf + GateCnf(m, refs, mp, i);
    }
    HasOutput(m, refs, mp, cnf, out);
    Mapped(refs, mp, inv, m.maxvar + 1, out);
    forall a ensures Satisfies(a, cnf + [[mp[out]]]) <==> Satisfies(a, cnf) && Holds(a, mp[out]) {
      SatisfiesSnoc(a, cnf, [mp[out]]);
      ClauseHolds1(a, mp[out]);
    }
    cnf := cnf + [[mp[out]]];
  }

  // ----- The tool ---------------------------------------------------------------------------

  /** Some input makes the output true. */
  ghost predicate OutputReachable(m: Model)
    requires InRange(m) && |m.outputs| == 1
  {
    exists w :: Consistent(m, w) && LitVal(w, m.outputs[0])
  }

  /** The inputs of a model of the CNF, read through the printed literal map, make the output
      true, whatever the inputs that are not mapped are. */
  ghost predicate InputsForceOutput(m: Model, a: Assignment, mp: seq<int>)
    requires InRange(m) && |m.outputs| == 1
  {
    forall w :: Consistent(m, w) && |mp| == 2 * |w| && ReadsInputs(m, a, mp, w) ==> LitVal(w, m.outputs[0])
  }

  ghost predicate ReadsInputs(m: Model, a: Assignment, mp: seq<int>, w: Valuation)
    requires |mp| == 2 * |w|
  {
    forall v :: 1 <= v < FirstLatch(m) && v < |w| && mp[2 * v] != 0 ==> w[v] == Holds(a, mp[2 * v])
  }

  lemma ModelForcesOutput(m: Model, refs: seq<nat>, mp: seq<int>, inv: seq<nat>, a: Assignment)
    requires Reencoded(m) && InRange(m) && m.latches == [] && |m.outputs| == 1
    requires |refs| == |mp| == 2 * (m.maxvar + 1) && GoodMap(refs, mp, inv, m.maxvar + 1) && Closed(m, refs, 0)
    requires refs[m.outputs[0]] > 0 && AllMeaning(a, m, refs, mp, m.outputs[0])
    ensures InputsForceOutput(m, a, mp) && OutputReachable(m)
  {
    forall w | Consistent(m, w) && |mp| == 2 * |w| && ReadsInputs(m, a, mp, w)
      ensures LitVal(w, m.outputs[0])
    {
      forall v | 1 <= v < FirstLatch(m) && InUse(refs, v) ensures w[v] == Holds(a, mp[2 * v]) {
        assert MapsVar(refs, mp, inv, v);
      }
      ForcedTrue(a, m, refs, mp, inv, w, m.outputs[0]);
    }
    var base := seq(m.maxvar + 1, v requires 0 <= v < m.maxvar + 1 => Holds(a, mp[2 * v]));
    var w := ConsistentExists(m, base, |m.ands|);
    assert ReadsInputs(m, a, mp, w);
  }

  /** One clause for the output, one for the constant if needed, and those of the needed gate polarities. */
  ghost function ClauseCount(m: Model, out: nat): nat {
    if out == 0 then 1 else if out == 1 then 0 else
      1 + (if Reached(m, out, 0) || Reached(m, out, 1) then 1 else 0) + NeededClauses(m, out, |m.ands|)
  }

  /** The variables with a number are those needed in some polarity. */
  ghost predicate MapsReached(m: Model, out: nat, mp: seq<int>) {
    |mp| == 2 * (m.maxvar + 1) && forall l :: 0 <= l < |mp| ==> (mp[l] != 0 <==> Reached(m, out, l) || Reached(m, out, Not(l)))
  }

  lemma MapExact(m: Model, refs: seq<nat>, mp: seq<int>, inv: seq<nat>, out: nat)
    requires |refs| == |mp| == 2 * (m.maxvar + 1) && ExactlyReached(m, out, refs) && GoodMap(refs, mp, inv, m.maxvar + 1)
    ensures MapsReached(m, out, mp)
  {
    forall l | 0 <= l < |mp| ensures mp[l] != 0 <==> Reached(m, out, l) || Reached(m, out, Not(l)) {
      assert MapsVar(refs, mp, inv, l / 2) && (l == 2 * (l / 2) || l == 2 * (l / 2) + 1);
    }
  }

  /** `aigtocnf` in its default mode. */
  method ToCnf(m: Model) returns (r: Result)
    requires Reencoded(m) && InRange(m)
    ensures r.Latches? <==> m.latches != []
    ensures r.BadProperties? <==> m.latches == [] && m.bad != []
    ensures r.Constraints? <==> m.latches == [] && m.bad == [] && m.constraints != []
    ensures r.NoOutput? <==> m.latches == [] && m.bad == [] && m.constraints == [] && |m.outputs| == 0
    ensures r.ManyOutputs? <==> m.latches == [] && m.bad == [] && m.constraints == [] && |m.outputs| > 1
    ensures r.Written? ==>
      && |r.dimacs.cnf| == r.dimacs.clauses == ClauseCount(m, m.outputs[0])
      && AllMapped(r.dimacs.cnf, r.dimacs.vars) && AllOccur(r.dimacs.cnf, r.dimacs.vars)
      && (m.outputs[0] > 1 ==> MapsReached(m, m.outputs[0], r.map'))
      && (Satisfiable(r.dimacs.cnf) <==> OutputReachable(m))
      && forall a :: Satisfies(a, r.dimacs.cnf) ==> InputsForceOutput(m, a, r.map')
  {
    if |m.latches| > 0 { return Latches; }
    if |m.bad| > 0 { return BadProperties; }
    if |m.constraints| > 0 { return Constraints; }
    if |m.outputs| == 0 { return NoOutput; }
    if |m.outputs| > 1 { return ManyOutputs; }
    var out := m.outputs[0];
    if out == 0 {
      FalseOutput(m);
      return Written(Dimacs(0, 1, [[]]), []);
    }
    if out == 1 {
      TrueOutput(m);
      return Written(Dimacs(0, 0, []), []);
    }
    assert out / 2 < NumVars(m) <= m.maxvar + 1;
    hide Reached, Closed, GoodMap, AllMeaning, Satisfiable, Satisfies, InputsForceOutput, OutputReachable, Reencoded;
    hide ExactlyReached, AllMapped, AllOccur, HasAll, MapsReached, InRange, NeededClauses, CostBelow;
    var refs := CountRefs(m, out);
    ghost var rs := refs[..];
    var mp, vars, clauses, inv := BuildMap(m, refs[..]);
    var cnf := Emit(m, refs[..], mp[..], inv, out);
    r := Written(Dimacs(vars, clauses, cnf), mp[..]);
    WrittenExactly(m, rs, r.map', inv, cnf);
  }

  /** The header, the map and the clauses belong together. */
  lemma WrittenExactly(m: Model, refs: seq<nat>, mp: seq<int>, inv: seq<nat>, cnf: seq<Clause>)
    requires Reencoded(m) && InRange(m) && m.latches == [] && |m.outputs| == 1
    requires |refs| == |mp| == 2 * (m.maxvar + 1) && GoodMap(refs, mp, inv, m.maxvar + 1) && Closed(m, refs, 0)
    requires m.outputs[0] > 1 && refs[m.outputs[0]] > 0 && ExactlyReached(m, m.outputs[0], refs)
    requires HasAll(m, refs, mp, m.outputs[0], cnf)
    requires forall a :: Satisfies(a, cnf) <==> AllMeaning(a, m, refs, mp, m.outputs[0])
    ensures 1 + (if InUse(refs, 0) then 1 else 0) + CostBelow(refs, FirstAnd(m), NumVars(m)) == ClauseCount(m, m.outputs[0])
    ensures AllOccur(cnf, |inv|) && MapsReached(m, m.outputs[0], mp)
    ensures Satisfiable(cnf) <==> OutputReachable(m)
    ensures forall a :: Satisfies(a, cnf) ==> InputsForceOutput(m, a, mp)
  {
    var out := m.outputs[0];
    assert NumVars(m) <= m.maxvar + 1;
    hide *;
    Equisatisfiable(m, refs, mp, inv, cnf);
    HeaderCount(m, refs, out);
    EverythingOccurs(m, refs, mp, inv, out, cnf);
    MapExact(m, refs, mp, inv, out);
  }

  lemma HeaderCount(m: Model, refs: seq<nat>, out: nat)
    requires Reencoded(m) && |refs| == 2 * (m.maxvar + 1) && ExactlyReached(m, out, refs) && out > 1
    ensures 1 + (if InUse(refs, 0) then 1 else 0) + CostBelow(refs, FirstAnd(m), NumVars(m)) == ClauseCount(m, out)
  {
    CostIsNeeded(m, out, refs, |m.ands|);
  }

  lemma Equisatisfiable(m: Model, refs: seq<nat>, mp: seq<int>, inv: seq<nat>, cnf: seq<Clause>)
    requires Reencoded(m) && InRange(m) && m.latches == [] && |m.outputs| == 1
    requires |refs| == |mp| == 2 * (m.maxvar + 1) && GoodMap(refs, mp, inv, m.maxvar + 1) && Closed(m, refs, 0)
    requires refs[m.outputs[0]] > 0
    requires forall a :: Satisfies(a, cnf) <==> AllMeaning(a, m, refs, mp, m.outputs[0])
    ensures Satisfiable(cnf) <==> OutputReachable(m)
    ensures forall a :: Satisfies(a, cnf) ==> InputsForceOutput(m, a, mp)
  {
    forall a | Satisfies(a, cnf) ensures InputsForceOutput(m, a, mp) && OutputReachable(m) {
      ModelForcesOutput(m, refs, mp, inv, a);
    }
    if w :| Consistent(m, w) && LitVal(w, m.outputs[0]) {
      ModelSatisfies(m, refs, mp, inv, w, m.outputs[0]);
      assert Satisfies(ModelOf(w, inv), cnf);
    }
  }

  lemma FalseOutput(m: Model)
    requires Reencoded(m) && InRange(m) && |m.outputs| == 1 && m.outputs[0] == 0
    ensures !OutputReachable(m) && !Satisfiable([[]])
    ensures forall a :: !Satisfies(a, [[]])
  {
    forall a ensures !Satisfies(a, [[]]) {
      var cs: seq<Clause> := [[]];
      assert !ClauseHolds(a, cs[0]);
    }
  }

  lemma TrueOutput(m: Model)
    requires Reencoded(m) && InRange(m) && |m.outputs| == 1 && m.outputs[0] == 1
    ensures OutputReachable(m) && Satisfiable([])
    ensures forall a, mp :: InputsForceOutput(m, a, mp)
  {
    var w := ConsistentExists(m, seq(m.maxvar + 1, _ => false), |m.ands|);
    assert LitVal(w, 1);
    assert Satisfies(k => true, []);
    forall a, mp ensures InputsForceOutput(m, a, mp) {
      assert forall w :: Consistent(m, w) ==> LitVal(w, 1);
    }
  }
}
