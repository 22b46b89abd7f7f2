/** And-Inverter Graphs and their sequential semantics, shared by every tool of the suite.

    A literal is a natural number: twice a variable index, plus one when it is negated.
    Variable 0 is the constant false.  A valuation gives one truth value to every variable;
    a run is a sequence of valuations, one per time frame. */
module Aiger {

  datatype Latch = Latch(lit: nat, next: nat, reset: nat)
  datatype Gate = Gate(lhs: nat, rhs0: nat, rhs1: nat)
  datatype Model = Model(
    maxvar: nat,
    inputs: seq<nat>,
    latches: seq<Latch>,
    ands: seq<Gate>,
    outputs: seq<nat>,
    bad: seq<nat>,
    constraints: seq<nat>,
    justice: seq<seq<nat>>,
    fairness: seq<nat>)

  type Valuation = seq<bool>

  function Not(l: nat): nat {
    if l % 2 == 0 then l + 1 else l - 1
  }

  predicate LitVal(w: Valuation, l: nat)
    requires l / 2 < |w|
  {
    w[l / 2] != (l % 2 == 1)
  }

  /** Every literal a model mentions stays within its variable range. */
  ghost predicate InRange(m: Model) {
    && (forall i :: 0 <= i < |m.inputs| ==> m.inputs[i] / 2 <= m.maxvar)
    && (forall i :: 0 <= i < |m.latches| ==>
          m.latches[i].lit / 2 <= m.maxvar && m.latches[i].next / 2 <= m.maxvar && m.latches[i].reset / 2 <= m.maxvar)
    && (forall i :: 0 <= i < |m.ands| ==>
          m.ands[i].lhs / 2 <= m.maxvar && m.ands[i].rhs0 / 2 <= m.maxvar && m.ands[i].rhs1 / 2 <= m.maxvar)
    && PropertiesBelow(m, m.maxvar + 1)
  }

  ghost predicate AllBelow(ls: seq<nat>, n: nat) {
    forall i :: 0 <= i < |ls| ==> ls[i] / 2 < n
  }

  ghost predicate PropertiesBelow(m: Model, n: nat) {
    && AllBelow(m.outputs, n)
    && AllBelow(m.bad, n)
    && AllBelow(m.constraints, n)
    && (forall i :: 0 <= i < |m.justice| ==> AllBelow(m.justice[i], n))
    && AllBelow(m.fairness, n)
  }

  /** The latch initialisation the format allows: constant 0, constant 1, or uninitialised. */
  predicate LegalReset(q: Latch) {
    q.reset <= 1 || q.reset == q.lit
  }

  // ----- Meaning -----------------------------------------------------------------------

  /** The valuation respects the constant and every AND gate. */
  ghost predicate Consistent(m: Model, w: Valuation)
    requires InRange(m)
  {
    && |w| == m.maxvar + 1
    && !w[0]
    && (forall i :: 0 <= i < |m.ands| ==> GateHolds(w, m.ands[i]))
  }

  ghost predicate GateHolds(w: Valuation, g: Gate)
    requires g.lhs / 2 < |w| && g.rhs0 / 2 < |w| && g.rhs1 / 2 < |w|
  {
    LitVal(w, g.lhs) == (LitVal(w, g.rhs0) && LitVal(w, g.rhs1))
  }

  ghost predicate Initial(m: Model, w: Valuation)
    requires InRange(m) && |w| == m.maxvar + 1
  {
    forall i :: 0 <= i < |m.latches| && m.latches[i].reset <= 1 ==>
                  LitVal(w, m.latches[i].lit) == (m.latches[i].reset == 1)
  }

  ghost predicate Step(m: Model, w: Valuation, w': Valuation)
    requires InRange(m) && |w| == |w'| == m.maxvar + 1
  {
    forall i :: 0 <= i < |m.latches| ==> LitVal(w', m.latches[i].lit) == LitVal(w, m.latches[i].next)
  }

  /** A finite run from a reset state, with any inputs. */
  ghost predicate Run(m: Model, ws: seq<Valuation>)
    requires InRange(m)
  {
    && |ws| > 0
    && (forall t :: 0 <= t < |ws| ==> Consistent(m, ws[t]))
    && Initial(m, ws[0])
    && (forall t :: 0 <= t < |ws| - 1 ==> Step(m, ws[t], ws[t + 1]))
  }

  // ----- Re-encoded models ---------------------------------------------------------------

  /** Number of variables of a re-encoded model: the constant, inputs, latches and gates. */
  function NumVars(m: Model): nat {
    1 + |m.inputs| + |m.latches| + |m.ands|
  }

  function FirstLatch(m: Model): nat {
    1 + |m.inputs|
  }

  function FirstAnd(m: Model): nat {
    1 + |m.inputs| + |m.latches|
  }

  /** What `aiger_reencode` establishes, together with the definedness checks of `aiger_check`:
      inputs, latches and gates are numbered consecutively, every gate lies above its ordered
      operands, and every literal in use is defined. */
  ghost predicate Reencoded(m: Model) {
    && NumVars(m) <= m.maxvar + 1
    && (forall i :: 0 <= i < |m.inputs| ==> m.inputs[i] == 2 * (1 + i))
    && (forall i :: 0 <= i < |m.latches| ==>
          && m.latches[i].lit == 2 * (FirstLatch(m) + i)
          && m.latches[i].next / 2 < NumVars(m)
          && m.latches[i].reset / 2 < NumVars(m))
    && (forall i :: 0 <= i < |m.ands| ==>
          && m.ands[i].lhs == 2 * (FirstAnd(m) + i)
          && m.ands[i].lhs > m.ands[i].rhs0 >= m.ands[i].rhs1)
    && PropertiesBelow(m, NumVars(m))
  }

  lemma ReencodedInRange(m: Model)
    requires Reencoded(m)
    ensures InRange(m)
  {
    forall i | 0 <= i < |m.ands|
      ensures m.ands[i].lhs / 2 <= m.maxvar && m.ands[i].rhs0 / 2 <= m.maxvar && m.ands[i].rhs1 / 2 <= m.maxvar
    {
      assert m.ands[i].lhs == 2 * (FirstAnd(m) + i);
    }
  }

  /** In a re-encoded model the inputs and latches determine every defined variable. */
  lemma {:induction false} ConsistentUnique(m: Model, w: Valuation, w': Valuation, n: nat)
    requires Reencoded(m) && InRange(m) && Consistent(m, w) && Consistent(m, w')
    requires n <= NumVars(m)
    requires forall v :: 1 <= v < FirstAnd(m) ==> w[v] == w'[v]
    ensures forall v :: 0 <= v < n ==> w[v] == w'[v]
  {
    if n > FirstAnd(m) {
      ConsistentUnique(m, w, w', n - 1);
      var g := m.ands[n - 1 - FirstAnd(m)];
      assert GateHolds(w, g) && GateHolds(w', g);
    }
  }

  /** Two runs with the same inputs and the same uninitialised latches coincide. */
  lemma {:induction false} RunDeterministic(m: Model, ws: seq<Valuation>, ws': seq<Valuation>, n: nat)
    requires Reencoded(m) && InRange(m) && Run(m, ws) && Run(m, ws')
    requires 0 < n <= |ws| && n <= |ws'|
    requires forall t, v :: 0 <= t < n && 1 <= v < FirstLatch(m) ==> ws[t][v] == ws'[t][v]
    requires forall v :: FirstLatch(m) <= v < FirstAnd(m) ==> ws[0][v] == ws'[0][v]
    ensures forall t, v :: 0 <= t < n && 0 <= v < NumVars(m) ==> ws[t][v] == ws'[t][v]
  {
    if n == 1 {
      ConsistentUnique(m, ws[0], ws'[0], NumVars(m));
    } else {
      RunDeterministic(m, ws, ws', n - 1);
      var w, w' := ws[n - 1], ws'[n - 1];
      assert Step(m, ws[n - 2], ws[n - 1]) && Step(m, ws'[n - 2], ws'[n - 1]);
      forall v | FirstLatch(m) <= v < FirstAnd(m)
        ensures w[v] == w'[v]
      {
        var q := m.latches[v - FirstLatch(m)];
        assert LitVal(w, q.lit) == LitVal(ws[n - 2], q.next);
        assert LitVal(w', q.lit) == LitVal(ws'[n - 2], q.next);
      }
      ConsistentUnique(m, w, w', NumVars(m));
    }
  }

  /** Any choice of inputs and latch values extends to a consistent valuation. */
  lemma {:induction false} ConsistentExists(m: Model, base: Valuation, n: nat) returns (w: Valuation)
    requires Reencoded(m) && InRange(m) && |base| == m.maxvar + 1 && n <= |m.ands|
    ensures |w| == m.maxvar + 1 && !w[0]
    ensures forall v :: 1 <= v < FirstAnd(m) ==> w[v] == base[v]
    ensures forall i :: 0 <= i < n ==> GateHolds(w, m.ands[i])
    ensures n == |m.ands| ==> Consistent(m, w)
  {
    if n == 0 {
      w := base[0 := false];
    } else {
      var w0 := ConsistentExists(m, base, n - 1);
      var g := m.ands[n - 1];
      assert g.lhs == 2 * (FirstAnd(m) + n - 1);
      var v := FirstAnd(m) + n - 1;
      w := w0[v := LitVal(w0, g.rhs0) && LitVal(w0, g.rhs1)];
      forall i | 0 <= i < n - 1 ensures GateHolds(w, m.ands[i]) {
        GateUntouched(m, w0, w, v, i);
      }
    }
  }

  lemma GateUntouched(m: Model, w: Valuation, w': Valuation, v: nat, i: nat)
    requires Reencoded(m) && i < |m.ands| && FirstAnd(m) + i < v < |w| == |w'| == m.maxvar + 1
    requires forall u :: 0 <= u < v ==> w'[u] == w[u]
    ensures m.ands[i].lhs / 2 <= m.maxvar && m.ands[i].rhs0 / 2 <= m.maxvar && m.ands[i].rhs1 / 2 <= m.maxvar
    ensures GateHolds(w', m.ands[i]) == GateHolds(w, m.ands[i])
  {
    assert m.ands[i].lhs == 2 * (FirstAnd(m) + i);
  }
}
