/** The library functions that extend a model: every literal that is mentioned raises `maxvar`. */
module AigerBuild {
  import opened Aiger

  ghost predicate GatesWithin(gs: seq<Gate>, maxvar: nat) {
    forall i :: 0 <= i < |gs| ==> GateWithin(gs[i], maxvar)
  }

  predicate GateWithin(g: Gate, maxvar: nat) {
    g.lhs / 2 <= maxvar && g.rhs0 / 2 <= maxvar && g.rhs1 / 2 <= maxvar
  }

  predicate LatchWithin(q: Latch, maxvar: nat) {
    q.lit / 2 <= maxvar && q.next / 2 <= maxvar && q.reset / 2 <= maxvar
  }

  class Builder {
    var maxvar: nat
    var inputs: seq<nat>
    var latches: seq<Latch>
    var ands: seq<Gate>

    constructor ()
      ensures maxvar == 0 && inputs == [] && latches == [] && ands == []
    {
      maxvar, inputs, latches, ands := 0, [], [], [];
    }

    method Import(lit: nat)
      modifies `maxvar
      ensures maxvar == if lit / 2 > old(maxvar) then lit / 2 else old(maxvar)
    {
      if lit / 2 > maxvar { maxvar := lit / 2; }
    }

    method AddInputs(lits: seq<nat>)
      modifies `maxvar, `inputs
      ensures inputs == old(inputs) + lits && old(maxvar) <= maxvar
      ensures forall i :: 0 <= i < |lits| ==> lits[i] / 2 <= maxvar
    {
      for i := 0 to |lits|
        invariant inputs == old(inputs) + lits[..i] && old(maxvar) <= maxvar
        invariant forall j :: 0 <= j < i ==> lits[j] / 2 <= maxvar
      {
        Import(lits[i]);
        inputs := inputs + [lits[i]];
        assert lits[..i + 1] == lits[..i] + [lits[i]];
      }
      assert lits[..|lits|] == lits;
    }

    method AddLatches(qs: seq<Latch>)
      modifies `maxvar, `latches
      ensures latches == old(latches) + qs && old(maxvar) <= maxvar
      ensures forall i :: 0 <= i < |qs| ==> LatchWithin(qs[i], maxvar)
      ensures |qs| == 1 ==> maxvar in {old(maxvar), qs[0].lit / 2, qs[0].next / 2, qs[0].reset / 2}
    {
      for i := 0 to |qs|
        invariant latches == old(latches) + qs[..i] && old(maxvar) <= maxvar
        invariant forall j :: 0 <= j < i ==> LatchWithin(qs[j], maxvar)
        invariant i == 0 ==> maxvar == old(maxvar)
        invariant i == 1 ==> maxvar in {old(maxvar), qs[0].lit / 2, qs[0].next / 2, qs[0].reset / 2}
      {
        Import(qs[i].lit);
        Import(qs[i].next);
        Import(qs[i].reset);
        latches := latches + [qs[i]];
        assert qs[..i + 1] == qs[..i] + [qs[i]];
      }
      assert qs[..|qs|] == qs;
    }

    method AddAnd(g: Gate)
      modifies `maxvar, `ands
      ensures ands == old(ands) + [g] && old(maxvar) <= maxvar && GateWithin(g, maxvar)
      ensures g.rhs0 / 2 <= g.lhs / 2 && g.rhs1 / 2 <= g.lhs / 2 ==> maxvar == if g.lhs / 2 > old(maxvar) then g.lhs / 2 else old(maxvar)
    {
      if g.lhs / 2 > maxvar { maxvar := g.lhs / 2; }
      if g.rhs0 / 2 > maxvar { maxvar := g.rhs0 / 2; }
      if g.rhs1 / 2 > maxvar { maxvar := g.rhs1 / 2; }
      ands := ands + [g];
    }

    method AddAnds(gs: seq<Gate>)
      modifies `maxvar, `ands
      ensures ands == old(ands) + gs && old(maxvar) <= maxvar && GatesWithin(gs, maxvar)
    {
      for i := 0 to |gs|
        invariant ands == old(ands) + gs[..i] && old(maxvar) <= maxvar
        invariant forall j :: 0 <= j < i ==> GateWithin(gs[j], maxvar)
      {
        AddAnd(gs[i]);
        assert gs[..i + 1] == gs[..i] + [gs[i]];
      }
      assert gs[..|gs|] == gs;
    }
  }

  lemma NotVal(w: Valuation, l: nat)
    requires l / 2 < |w|
    ensures Not(l) / 2 == l / 2 && LitVal(w, Not(l)) == !LitVal(w, l)
  {}

  ghost predicate GatesHold(w: Valuation, gs: seq<Gate>)
    requires |w| > 0 && GatesWithin(gs, |w| - 1)
  {
    forall i :: 0 <= i < |gs| ==> GateWithin(gs[i], |w| - 1) && GateHolds(w, gs[i])
  }

  lemma GatesConcat(w: Valuation, a: seq<Gate>, b: seq<Gate>)
    requires |w| > 0 && GatesWithin(a, |w| - 1) && GatesWithin(b, |w| - 1)
    ensures GatesWithin(a + b, |w| - 1)
    ensures GatesHold(w, a + b) <==> GatesHold(w, a) && GatesHold(w, b)
  {
    var gs := a + b;
    if GatesHold(w, gs) {
      forall i | 0 <= i < |a| ensures GateHolds(w, a[i]) { assert gs[i] == a[i]; }
      forall i | 0 <= i < |b| ensures GateHolds(w, b[i]) { assert gs[|a| + i] == b[i]; }
    }
  }

  // ----- Gates that are added ------------------------------------------------------------------------------

  /** Each added gate has the next free variable as its left side. */
  ghost predicate Fresh(extra: seq<Gate>, first: nat) {
    forall k :: 0 <= k < |extra| ==> FreshAt(extra, first, k)
  }

  predicate FreshAt(extra: seq<Gate>, first: nat, k: nat)
    requires k < |extra|
  {
    extra[k].lhs == 2 * (first + k) && extra[k].rhs0 / 2 < first + k && extra[k].rhs1 / 2 < first + k
  }

  lemma FreshWithin(extra: seq<Gate>, first: nat, maxvar: nat)
    requires Fresh(extra, first) && first + |extra| <= maxvar + 1
    ensures GatesWithin(extra, maxvar)
  {
    forall k | 0 <= k < |extra| ensures GateWithin(extra[k], maxvar) {
      assert FreshAt(extra, first, k);
    }
  }

  /** Added gates can be evaluated one after the other. */
  lemma {:induction false} EvaluateFresh(extra: seq<Gate>, first: nat, base: Valuation) returns (w: Valuation)
    requires Fresh(extra, first) && first + |extra| <= |base| && first > 0
    ensures |w| == |base| && (forall v :: 0 <= v < first ==> w[v] == base[v])
    ensures GatesWithin(extra, |w| - 1) && GatesHold(w, extra)
    decreases |extra|
  {
    FreshWithin(extra, first, |base| - 1);
    if |extra| == 0 {
      w := base;
    } else {
      var n := |extra| - 1;
      assert Fresh(extra[..n], first) by {
        forall k | 0 <= k < n ensures FreshAt(extra[..n], first, k) { assert FreshAt(extra, first, k); }
      }
      var w0 := EvaluateFresh(extra[..n], first, base);
      var g := extra[n];
      assert FreshAt(extra, first, n);
      w := w0[first + n := LitVal(w0, g.rhs0) && LitVal(w0, g.rhs1)];
      forall k | 0 <= k < |extra| ensures GateHolds(w, extra[k]) {
        assert FreshAt(extra, first, k);
        if k < n { assert GateHolds(w0, extra[..n][k]); }
      }
    }
  }

  /** The frame is large enough for the added gates and respects them. */
  ghost predicate Respects(w: Valuation, extra: seq<Gate>, first: nat) {
    && 0 < first && first + |extra| <= |w| && !w[0] && Fresh(extra, first)
    && GatesWithin(extra, |w| - 1) && GatesHold(w, extra)
  }

  lemma RespectsPrefix(w: Valuation, extra: seq<Gate>, extra': seq<Gate>, first: nat)
    requires extra <= extra' && Respects(w, extra', first)
    ensures Respects(w, extra, first)
  {
    forall k | 0 <= k < |extra| ensures FreshAt(extra, first, k) && GateWithin(extra[k], |w| - 1) && GateHolds(w, extra[k]) {
      assert FreshAt(extra', first, k) && GateWithin(extra'[k], |w| - 1) && extra'[k] == extra[k];
    }
  }

  predicate LitIs(w: Valuation, l: nat, b: bool) {
    l / 2 < |w| && LitVal(w, l) == b
  }

  lemma FreshSnoc(extra: seq<Gate>, first: nat, g: Gate)
    requires Fresh(extra, first) && g.lhs == 2 * (first + |extra|) && g.rhs0 / 2 < first + |extra| && g.rhs1 / 2 < first + |extra|
    ensures Fresh(extra + [g], first)
    ensures forall w: Valuation :: Respects(w, extra + [g], first) ==> |w| > first + |extra| && GateHolds(w, g)
  {
    var more := extra + [g];
    forall k | 0 <= k < |more| ensures FreshAt(more, first, k) {
      if k < |extra| { assert FreshAt(extra, first, k); }
    }
    forall w: Valuation | Respects(w, more, first) ensures |w| > first + |extra| && GateHolds(w, g) {
      assert more[|extra|] == g && GateWithin(more[|extra|], |w| - 1);
    }
  }
}
