/** What folding constraints means for whole runs. */
module MoveRuns {
  import opened Aiger
  import opened AigerBuild
  import opened Move

  /** The two frames agree on all variables the source model mentions. */
  ghost predicate SameBelow(w: Valuation, w0: Valuation, first: nat) {
    forall v: nat :: v < first && v < |w0| ==> SameVar(w, w0, v)
  }

  predicate SameVar(w: Valuation, w0: Valuation, v: nat) {
    v < |w| && v < |w0| && w[v] == w0[v]
  }

  lemma SameLit(w: Valuation, w0: Valuation, first: nat, l: nat)
    requires SameBelow(w, w0, first) && l / 2 < first && l / 2 < |w0|
    ensures l / 2 < |w| && LitVal(w, l) == LitVal(w0, l)
  {
    assert SameVar(w, w0, l / 2);
  }

  /** The copied gates hold in a frame of the result iff they hold in the source frame. */
  lemma SourceGates(m: Model, first: nat, w: Valuation, w0: Valuation)
    requires MentionsBelow(m, first) && SameBelow(w, w0, first) && |w0| == m.maxvar + 1 && |w| > 0
    ensures GatesWithin(m.ands, |w| - 1)
    ensures !w[0] && GatesHold(w, m.ands) <==> Consistent(m, w0)
  {
    assert SameVar(w, w0, 0);
    forall i | 0 <= i < |m.ands|
      ensures GateWithin(m.ands[i], |w| - 1) && (GateHolds(w, m.ands[i]) <==> GateHolds(w0, m.ands[i]))
    {
      assert GateWithin(m.ands[i], first - 1);
      SameLit(w, w0, first, m.ands[i].lhs);
      SameLit(w, w0, first, m.ands[i].rhs0);
      SameLit(w, w0, first, m.ands[i].rhs1);
    }
  }

  ghost predicate ConstraintsTrue(m: Model, w: Valuation)
    requires InRange(m) && |w| == m.maxvar + 1
  {
    forall i :: 0 <= i < |m.constraints| ==> LitVal(w, m.constraints[i])
  }

  lemma SameConstraints(m: Model, first: nat, w: Valuation, w0: Valuation)
    requires MentionsBelow(m, first) && SameBelow(w, w0, first) && |w0| == m.maxvar + 1
    ensures AllTrue(w, m.constraints) <==> ConstraintsTrue(m, w0)
  {
    forall i | 0 <= i < |m.constraints| ensures LitIs(w, m.constraints[i], true) <==> LitVal(w0, m.constraints[i]) {
      SameLit(w, w0, first, m.constraints[i]);
    }
  }

  // ----- Without latches -----------------------------------------------------------------------------

  /** Each new output is true iff its bad literal and all constraints are, in the same frame. */
  lemma FrameOutputs(m: Model, e: Model, first: nat, w: Valuation, w0: Valuation, k: nat)
    requires MovedWithoutLatch(m, e, first) && Consistent(e, w) && |w0| == m.maxvar + 1
    requires SameBelow(w, w0, first) && k < |m.bad|
    ensures Consistent(m, w0)
    ensures |e.outputs| == |m.outputs| + |m.bad|
    ensures LitVal(w, e.outputs[|m.outputs| + k]) <==> LitVal(w0, m.bad[k]) && ConstraintsTrue(m, w0)
  {
    var cs := m.constraints;
    var extra := Folded(cs[0], first, cs[1..], m.bad);
    SplitGates(m, e, extra, w);
    SourceGates(m, first, w, w0);
    SameLit(w, w0, first, m.bad[k]);
    SameLit(w, w0, first, cs[0]);
    FoldedValue(w, cs[0], first, cs[1..], m.bad, k);
    SameConstraints(m, first, w, w0);
    assert cs == [cs[0]] + cs[1..];
    assert AllTrue(w, cs) <==> LitIs(w, cs[0], true) && AllTrue(w, cs[1..]) by {
      assert forall i :: 0 <= i < |cs| - 1 ==> cs[1..][i] == cs[i + 1];
      if LitIs(w, cs[0], true) && AllTrue(w, cs[1..]) {
        forall i | 0 <= i < |cs| ensures LitIs(w, cs[i], true) {
          if i > 0 { assert cs[1..][i - 1] == cs[i]; }
        }
      }
    }
  }

  lemma SplitGates(m: Model, e: Model, extra: seq<Gate>, w: Valuation)
    requires InRange(e) && e.ands == m.ands + extra && |w| == e.maxvar + 1
    ensures GatesWithin(m.ands, |w| - 1) && GatesWithin(extra, |w| - 1)
    ensures Consistent(e, w) <==> !w[0] && GatesHold(w, m.ands) && GatesHold(w, extra)
  {
    forall i | 0 <= i < |m.ands| ensures GateWithin(m.ands[i], |w| - 1) { assert e.ands[i] == m.ands[i]; }
    forall i | 0 <= i < |extra| ensures GateWithin(extra[i], |w| - 1) { assert e.ands[|m.ands| + i] == extra[i]; }
    GatesConcat(w, m.ands, extra);
  }

  ghost predicate SameRun(ws: seq<Valuation>, ws0: seq<Valuation>, first: nat) {
    |ws| == |ws0| && forall t :: 0 <= t < |ws| ==> SameBelow(ws[t], ws0[t], first)
  }

  /** All constraints held at times 0 to `t`. */
  ghost predicate HeldUntil(m: Model, ws0: seq<Valuation>, t: nat)
    requires InRange(m) && t < |ws0| && forall i :: 0 <= i < |ws0| ==> |ws0[i]| == m.maxvar + 1
  {
    forall i :: 0 <= i <= t ==> ConstraintsTrue(m, ws0[i])
  }

  /** Folding frame by frame and folding over the past differ exactly where the output is 1 after
      an earlier violation. */
  lemma PerFrameDiffersExactly(m: Model, e: Model, first: nat, ws: seq<Valuation>, ws0: seq<Valuation>, t: nat, k: nat)
    requires MovedWithoutLatch(m, e, first) && Run(e, ws) && SameRun(ws, ws0, first) && t < |ws| && k < |m.bad|
    requires forall i :: 0 <= i < |ws0| ==> |ws0[i]| == m.maxvar + 1
    ensures |e.outputs| == |m.outputs| + |m.bad|
    ensures LitVal(ws[t], e.outputs[|m.outputs| + k]) != (LitVal(ws0[t], m.bad[k]) && HeldUntil(m, ws0, t)) <==>
      LitVal(ws0[t], m.bad[k]) && ConstraintsTrue(m, ws0[t]) && exists i :: 0 <= i < t && !ConstraintsTrue(m, ws0[i])
  {
    assert Consistent(e, ws[t]) && SameBelow(ws[t], ws0[t], first);
    FrameOutputs(m, e, first, ws[t], ws0[t], k);
  }

  /** A source frame with the added gates. */
  lemma {:induction false} ExtendPlainFrame(m: Model, e: Model, first: nat, w0: Valuation) returns (w: Valuation)
    requires MovedWithoutLatch(m, e, first) && Consistent(m, w0)
    ensures Consistent(e, w) && SameBelow(w, w0, first)
  {
    var extra := Folded(m.constraints[0], first, m.constraints[1..], m.bad);
    FoldedFresh(m.constraints[0], first, m.constraints[1..], m.bad);
    var base: Valuation := seq(e.maxvar + 1, v requires 0 <= v => v < |w0| && w0[v]);
    w := EvaluateFresh(extra, first, base);
    forall v: nat | v < first && v < |w0| ensures SameVar(w, w0, v) { assert base[v] == w0[v]; }
    SplitGates(m, e, extra, w);
    SourceGates(m, first, w, w0);
  }

  ghost predicate Differs(m: Model, e: Model, first: nat, ws: seq<Valuation>, ws0: seq<Valuation>, t: nat, k: nat) {
    && MovedWithoutLatch(m, e, first) && Run(e, ws) && Run(m, ws0) && SameRun(ws, ws0, first) && t < |ws| && k < |m.bad|
    && |e.outputs| == |m.outputs| + |m.bad|
    && LitVal(ws[t], e.outputs[|m.outputs| + k]) != (LitVal(ws0[t], m.bad[k]) && HeldUntil(m, ws0, t))
  }

  lemma TwoFrames(m: Model, e: Model, first: nat, u: Valuation, v: Valuation) returns (ws: seq<Valuation>)
    requires MovedWithoutLatch(m, e, first) && Consistent(m, u) && Consistent(m, v)
    ensures Run(e, ws) && Run(m, [u, v]) && SameRun(ws, [u, v], first)
  {
    var x := ExtendPlainFrame(m, e, first, u);
    var y := ExtendPlainFrame(m, e, first, v);
    hide FoldedPerFrame, Consistent, InRange, SameBelow;
    LatchFreeRun(e, x, y);
    LatchFreeRun(m, u, v);
    ws := [x, y];
  }

  lemma LatchFreeRun(m: Model, u: Valuation, v: Valuation)
    requires InRange(m) && m.latches == [] && Consistent(m, u) && Consistent(m, v)
    ensures Run(m, [u, v])
  {
    hide InRange;
  }

  ghost predicate CanViolate(m: Model)
    requires InRange(m)
  {
    exists u :: Consistent(m, u) && !ConstraintsTrue(m, u)
  }

  ghost predicate CanBeBad(m: Model)
    requires InRange(m)
  {
    exists v, k :: Consistent(m, v) && ConstraintsTrue(m, v) && 0 <= k < |m.bad| && LitVal(v, m.bad[k])
  }

  /** Over all runs, the two foldings agree unless some frame violates a constraint and another one
      meets all of them in a bad state. */
  lemma PerFrameSufficesExactly(m: Model, e: Model, first: nat)
    requires MovedWithoutLatch(m, e, first)
    ensures (exists ws, ws0, t, k :: Differs(m, e, first, ws, ws0, t, k)) <==> CanViolate(m) && CanBeBad(m)
  {
    if ws, ws0, t, k :| Differs(m, e, first, ws, ws0, t, k) {
      DiffersMeans(m, e, first, ws, ws0, t, k);
    }
    if CanViolate(m) && CanBeBad(m) {
      var u :| Consistent(m, u) && !ConstraintsTrue(m, u);
      var v, k :| Consistent(m, v) && ConstraintsTrue(m, v) && 0 <= k < |m.bad| && LitVal(v, m.bad[k]);
      hide Differs;
      var ws := DiffersOn(m, e, first, u, v, k);
    }
  }

  lemma DiffersMeans(m: Model, e: Model, first: nat, ws: seq<Valuation>, ws0: seq<Valuation>, t: nat, k: nat)
    requires MovedWithoutLatch(m, e, first) && Differs(m, e, first, ws, ws0, t, k)
    ensures CanViolate(m) && CanBeBad(m)
  {
    PerFrameDiffersExactly(m, e, first, ws, ws0, t, k);
    var i :| 0 <= i < t && !ConstraintsTrue(m, ws0[i]);
    assert Consistent(m, ws0[i]) && Consistent(m, ws0[t]);
  }

  lemma DiffersOn(m: Model, e: Model, first: nat, u: Valuation, v: Valuation, k: nat) returns (ws: seq<Valuation>)
    requires MovedWithoutLatch(m, e, first) && Consistent(m, u) && !ConstraintsTrue(m, u)
    requires Consistent(m, v) && ConstraintsTrue(m, v) && k < |m.bad| && LitVal(v, m.bad[k])
    ensures Differs(m, e, first, ws, [u, v], 1, k)
  {
    ws := TwoFrames(m, e, first, u, v);
    var ws0 := [u, v];
    assert !ConstraintsTrue(m, ws0[0]) && ConstraintsTrue(m, ws0[1]);
    hide Run, FoldedPerFrame, InRange, ConstraintsTrue, Consistent, SameRun;
    PerFrameDiffersExactly(m, e, first, ws, ws0, 1, k);
  }

  /** The smallest case: one input that has to be true, and a bad literal that always is. */
  function Forgetful(): Model {
    Model(1, [2], [], [], [], [1], [2], [], [])
  }

  function ForgetfulMoved(): Model {
    Model(2, [2], [], [Gate(4, 2, 1)], [4], [], [], [], [])
  }

  lemma ForgetfulIsMoved()
    ensures MovedWithoutLatch(Forgetful(), ForgetfulMoved(), 2)
  {
    assert Forgetful().constraints[1..] == [];
    assert Folded(2, 2, [], [1]) == [Gate(4, 2, 1)];
    assert BadLits(2, 1) == [4];
  }

  lemma ForgetfulRuns()
    ensures InRange(Forgetful()) && InRange(ForgetfulMoved())
    ensures Run(ForgetfulMoved(), [[false, false, false], [false, true, true]])
    ensures Run(Forgetful(), [[false, false], [false, true]])
  {
    var e := ForgetfulMoved();
    assert GateHolds([false, false, false], e.ands[0]) && GateHolds([false, true, true], e.ands[0]);
    LatchFreeRun(e, [false, false, false], [false, true, true]);
    LatchFreeRun(Forgetful(), [false, false], [false, true]);
  }

  /** The constraint fails at time 0, and the output is 1 at time 1. */
  lemma ViolationForgotten()
    ensures MovedWithoutLatch(Forgetful(), ForgetfulMoved(), 2)
    ensures Run(ForgetfulMoved(), [[false, false, false], [false, true, true]])
    ensures Run(Forgetful(), [[false, false], [false, true]])
    ensures !ConstraintsTrue(Forgetful(), [false, false]) && LitVal([false, true, true], ForgetfulMoved().outputs[0])
  {
    ForgetfulIsMoved();
    ForgetfulRuns();
    assert !LitVal([false, false], Forgetful().constraints[0]);
  }

  // ----- With latches: frames ----------------------------------------------------------------------------

  function Extra(m: Model, first: nat): seq<Gate> {
    Folded(Not(2 * first), first + 1, m.constraints, m.bad)
  }

  /** In a frame, `valid` is the negated latch and all constraints. */
  lemma FrameValid(m: Model, e: Model, first: nat, w: Valuation, w0: Valuation)
    requires MovedWithLatch(m, e, first) && Consistent(e, w) && |w0| == m.maxvar + 1 && SameBelow(w, w0, first)
    ensures Consistent(m, w0)
    ensures LitVal(w, 2 * (first + |m.constraints|)) <==> !w[first] && ConstraintsTrue(m, w0)
  {
    SplitGates(m, e, Extra(m, first), w);
    SourceGates(m, first, w, w0);
    SameConstraints(m, first, w, w0);
    NotVal(w, 2 * first);
    ChainHolds(w, Not(2 * first), first + 1, m.constraints, m.bad);
    ChainValue(w, Not(2 * first), first + 1, m.constraints, |m.constraints|);
    assert m.constraints[..|m.constraints|] == m.constraints;
  }

  /** Each new output is `valid` and its bad literal. */
  lemma FrameOutput(m: Model, e: Model, first: nat, w: Valuation, w0: Valuation, k: nat)
    requires MovedWithLatch(m, e, first) && Consistent(e, w) && |w0| == m.maxvar + 1 && SameBelow(w, w0, first)
    requires k < |m.bad|
    ensures |e.outputs| == |m.outputs| + |m.bad| && e.outputs[|m.outputs| + k] / 2 < |w|
    ensures LitVal(w, e.outputs[|m.outputs| + k]) <==> LitVal(w, 2 * (first + |m.constraints|)) && LitVal(w0, m.bad[k])
  {
    SplitGates(m, e, Extra(m, first), w);
    SameLit(w, w0, first, m.bad[k]);
    NotVal(w, 2 * first);
    FoldedValue(w, Not(2 * first), first + 1, m.constraints, m.bad, k);
    assert e.outputs[|m.outputs| + k] == BadLits(first + 1 + |m.constraints|, |m.bad|)[k];
    assert ChainLit(Not(2 * first), first + 1, |m.constraints|) == 2 * (first + |m.constraints|);
  }

  // ----- With latches: runs ---------------------------------------------------------------------------------

  lemma SameInitial(m: Model, e: Model, first: nat, w: Valuation, w0: Valuation)
    requires MovedWithLatch(m, e, first) && |w| == e.maxvar + 1 && |w0| == m.maxvar + 1 && SameBelow(w, w0, first)
    ensures Initial(e, w) <==> Initial(m, w0) && !w[first]
  {
    var n := |m.latches|;
    forall i | 0 <= i < n ensures e.latches[i] == m.latches[i] && LitVal(w, m.latches[i].lit) == LitVal(w0, m.latches[i].lit) {
      assert LatchWithin(m.latches[i], first - 1);
      SameLit(w, w0, first, m.latches[i].lit);
    }
    assert e.latches[n] == Latch(2 * first, Not(2 * (first + |m.constraints|)), 0);
    assert Initial(e, w) ==> LitVal(w, e.latches[n].lit) == (e.latches[n].reset == 1);
  }

  lemma SameStep(m: Model, e: Model, first: nat, w: Valuation, w0: Valuation, v: Valuation, v0: Valuation)
    requires MovedWithLatch(m, e, first) && |w| == |v| == e.maxvar + 1 && |w0| == |v0| == m.maxvar + 1
    requires SameBelow(w, w0, first) && SameBelow(v, v0, first)
    ensures Step(e, w, v) <==> Step(m, w0, v0) && v[first] == !LitVal(w, 2 * (first + |m.constraints|))
  {
    var n := |m.latches|;
    forall i | 0 <= i < n
      ensures e.latches[i] == m.latches[i]
      ensures LitVal(v, m.latches[i].lit) == LitVal(v0, m.latches[i].lit) && LitVal(w, m.latches[i].next) == LitVal(w0, m.latches[i].next)
    {
      assert LatchWithin(m.latches[i], first - 1);
      SameLit(v, v0, first, m.latches[i].lit);
      SameLit(w, w0, first, m.latches[i].next);
    }
    NotVal(w, 2 * (first + |m.constraints|));
    assert e.latches[n] == Latch(2 * first, Not(2 * (first + |m.constraints|)), 0);
    assert Step(e, w, v) ==> LitVal(v, e.latches[n].lit) == LitVal(w, e.latches[n].next);
  }

  lemma {:induction false} LatchRemembers(m: Model, e: Model, first: nat, ws: seq<Valuation>, ws0: seq<Valuation>, t: nat)
    requires MovedWithLatch(m, e, first) && Run(e, ws) && SameRun(ws, ws0, first) && t < |ws|
    requires forall i :: 0 <= i < |ws0| ==> |ws0[i]| == m.maxvar + 1
    ensures LitVal(ws[t], 2 * (first + |m.constraints|)) <==> HeldUntil(m, ws0, t)
  {
    assert Consistent(e, ws[t]) && SameBelow(ws[t], ws0[t], first);
    FrameValid(m, e, first, ws[t], ws0[t]);
    if t == 0 {
      SameInitial(m, e, first, ws[0], ws0[0]);
    } else {
      LatchRemembers(m, e, first, ws, ws0, t - 1);
      assert Step(e, ws[t - 1], ws[t - 1 + 1]);
      SameStep(m, e, first, ws[t - 1], ws0[t - 1], ws[t], ws0[t]);
    }
  }

  /** Each new output is 1 at time `t` iff its bad literal is, and every constraint held until then. */
  lemma OutputsMean(m: Model, e: Model, first: nat, ws: seq<Valuation>, ws0: seq<Valuation>, t: nat, k: nat)
    requires MovedWithLatch(m, e, first) && Run(e, ws) && SameRun(ws, ws0, first) && t < |ws| && k < |m.bad|
    requires forall i :: 0 <= i < |ws0| ==> |ws0[i]| == m.maxvar + 1
    ensures |e.outputs| == |m.outputs| + |m.bad|
    ensures LitVal(ws[t], e.outputs[|m.outputs| + k]) <==> LitVal(ws0[t], m.bad[k]) && HeldUntil(m, ws0, t)
  {
    LatchRemembers(m, e, first, ws, ws0, t);
    assert Consistent(e, ws[t]) && SameBelow(ws[t], ws0[t], first);
    FrameOutput(m, e, first, ws[t], ws0[t], k);
  }

  function SourcePart(m: Model, first: nat, w: Valuation): (r: Valuation)
    ensures |r| == m.maxvar + 1 && forall v :: 0 <= v < |r| ==> r[v] == (v < first && v < |w| && w[v])
  {
    seq(m.maxvar + 1, v requires 0 <= v => v < first && v < |w| && w[v])
  }

  /** Every run of the result is a run of the source model with the same latches. */
  lemma {:induction false} RunOfSource(m: Model, e: Model, first: nat, ws: seq<Valuation>) returns (ws0: seq<Valuation>)
    requires MovedWithLatch(m, e, first) && Run(e, ws)
    ensures Run(m, ws0) && SameRun(ws, ws0, first)
  {
    ws0 := seq(|ws|, t requires 0 <= t < |ws| => SourcePart(m, first, ws[t]));
    forall t | 0 <= t < |ws| ensures SameBelow(ws[t], ws0[t], first) && Consistent(m, ws0[t]) {
      assert Consistent(e, ws[t]);
      FrameValid(m, e, first, ws[t], ws0[t]);
    }
    SameInitial(m, e, first, ws[0], ws0[0]);
    forall t | 0 <= t < |ws0| - 1 ensures Step(m, ws0[t], ws0[t + 1]) {
      assert Step(e, ws[t], ws[t + 1]);
      SameStep(m, e, first, ws[t], ws0[t], ws[t + 1], ws0[t + 1]);
    }
  }

  /** A source frame with the latch and the added gates. */
  lemma {:induction false} ExtendFrame(m: Model, e: Model, first: nat, w0: Valuation, latch: bool) returns (w: Valuation)
    requires MovedWithLatch(m, e, first) && Consistent(m, w0)
    ensures Consistent(e, w) && SameBelow(w, w0, first) && w[first] == latch
  {
    FoldedFresh(Not(2 * first), first + 1, m.constraints, m.bad);
    var base: Valuation := seq(e.maxvar + 1, v requires 0 <= v => if v == first then latch else v < |w0| && w0[v]);
    w := EvaluateFresh(Extra(m, first), first + 1, base);
    assert base[first] == latch;
    forall v: nat | v < first && v < |w0| ensures SameVar(w, w0, v) { assert base[v] == w0[v]; }
    SplitGates(m, e, Extra(m, first), w);
    SourceGates(m, first, w, w0);
  }

  /** Every run of the source model, whether or not it violates constraints, is one of the result. */
  lemma {:induction false} RunOfResult(m: Model, e: Model, first: nat, ws0: seq<Valuation>) returns (ws: seq<Valuation>)
    requires MovedWithLatch(m, e, first) && Run(m, ws0)
    ensures Run(e, ws) && SameRun(ws, ws0, first)
  {
    ws := [];
    for n := 0 to |ws0|
      invariant |ws| == n && (forall t :: 0 <= t < n ==> Consistent(e, ws[t]) && SameBelow(ws[t], ws0[t], first))
      invariant n > 0 ==> Initial(e, ws[0])
      invariant forall t :: 0 <= t < n - 1 ==> Step(e, ws[t], ws[t + 1])
    {
      assert Consistent(m, ws0[n]);
      var latch := n > 0 && !LitVal(ws[n - 1], 2 * (first + |m.constraints|));
      var w := ExtendFrame(m, e, first, ws0[n], latch);
      if n == 0 {
        SameInitial(m, e, first, w, ws0[0]);
      } else {
        assert Step(m, ws0[n - 1], ws0[n - 1 + 1]);
        SameStep(m, e, first, ws[n - 1], ws0[n - 1], w, ws0[n]);
      }
      ws := ws + [w];
    }
  }
}
