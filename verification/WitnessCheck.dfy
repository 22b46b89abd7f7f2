/** `aigbmc` and `aigsim` together: what the model checker prints, the simulator confirms. */
module WitnessCheck {
  import opened Aiger
  import opened BmcSpec
  import B = BmcMain
  import G = BmcListing
  import L = LassoCheck

  /** The simulator looks for the same lassos as the model checker. */
  lemma SameLassos(m: Model, ws: seq<Valuation>, p: nat)
    requires InRange(m) && Run(m, ws) && p < |m.justice|
    ensures FairLasso(m, ws, p) <==> L.Witnesses(m, ws, p)
  {
    forall l: nat | l < |ws| ensures LoopsBackTo(m, ws, l) <==> L.Closes(m, ws, l) {
      forall j | 0 <= j < |m.latches| ensures L.LatchCloses(m, ws, l, j) <==>
        LitVal(ws[l], m.latches[j].lit) == LitVal(ws[|ws| - 1], m.latches[j].next)
      {}
    }
    forall l: nat, ls: seq<nat> | AllBelow(ls, m.maxvar + 1) ensures AllSeenSince(m, ws, ls, l) <==> L.AllSince(m, ws, ls, l) {
      forall j | 0 <= j < |ls| ensures SeenSince(ws, ls[j], l) <==> L.TrueSince(m, ws, ls[j], l) {}
    }
    if FairLasso(m, ws, p) {
      var l :| 0 <= l < |ws| && LoopsBackTo(m, ws, l) && AllSeenSince(m, ws, m.justice[p], l) && AllSeenSince(m, ws, m.fairness, l);
      assert L.FairLoop(m, ws, l) && L.AllSince(m, ws, m.justice[p], l);
    }
    if L.Witnesses(m, ws, p) {
      var l: nat :| L.FairLoop(m, ws, l) && L.AllSince(m, ws, m.justice[p], l);
      assert LoopsBackTo(m, ws, l);
    }
  }

  ghost predicate SameDefined(m: Model, w: Valuation, w': Valuation) {
    forall v: nat :: v < NumVars(m) ==> SameAt(w, w', v)
  }

  predicate SameAt(w: Valuation, w': Valuation, v: nat) {
    v < |w| && v < |w'| && w[v] == w'[v]
  }

  /** The printed initial state is one the simulator accepts. */
  lemma InitLegal(m: Model, ws: seq<Valuation>, init: seq<bool>, inputs: seq<seq<bool>>)
    requires Reencoded(m) && InRange(m) && Run(m, ws) && B.Replays(m, ws, init, inputs)
    ensures L.Legal(m, L.FromWitness(init)) && forall t :: 0 <= t < |inputs| ==> |inputs[t]| == |m.inputs|
  {
    forall t | 0 <= t < |inputs| ensures |inputs[t]| == |m.inputs| { assert B.ReplaysFrame(m, ws[t], inputs[t]); }
  }

  /** A simulated frame that follows frames of the run is the next frame of the run. */
  lemma NextFrameAgrees(m: Model, ws: seq<Valuation>, init: seq<bool>, inputs: seq<seq<bool>>, trace: seq<Valuation>, w: Valuation)
    requires Reencoded(m) && InRange(m) && Run(m, ws) && B.Replays(m, ws, init, inputs) && L.Legal(m, L.FromWitness(init))
    requires L.Frames(m, trace) && |trace| < |ws| && forall t :: 0 <= t < |trace| ==> SameDefined(m, trace[t], ws[t])
    requires Consistent(m, w) && L.InputsAt(m, w, inputs[|trace|]) && L.LatchesNext(m, L.FromWitness(init), trace, w)
    ensures SameDefined(m, w, ws[|trace|])
  {
    var n := |trace|;
    assert B.ReplaysFrame(m, ws[n], inputs[n]);
    forall v | 1 <= v < FirstLatch(m) ensures w[v] == ws[n][v] {
      assert m.inputs[v - 1] == 2 * v && w[1 + (v - 1)] == inputs[n][v - 1];
    }
    forall v | FirstLatch(m) <= v < FirstAnd(m) ensures w[v] == ws[n][v] {
      var j := v - FirstLatch(m);
      assert m.latches[j].lit == 2 * v && L.LatchNext(m, L.FromWitness(init), trace, w, j);
      if n > 0 {
        assert Step(m, ws[n - 1], ws[n]);
        assert SameAt(trace[n - 1], ws[n - 1], m.latches[j].next / 2);
      }
    }
    ConsistentUnique(m, w, ws[n], NumVars(m));
    forall v: nat | v < NumVars(m) ensures SameAt(w, ws[n], v) {}
  }

  /** The simulation goes through the frames of the run. */
  lemma {:induction false} TraceAgrees(m: Model, ws: seq<Valuation>, init: seq<bool>, inputs: seq<seq<bool>>, trace: seq<Valuation>, n: nat)
    requires Reencoded(m) && InRange(m) && Run(m, ws) && B.Replays(m, ws, init, inputs) && L.Legal(m, L.FromWitness(init))
    requires L.TraceOf(m, L.FromWitness(init), inputs, trace) && n <= |trace|
    ensures forall t :: 0 <= t < n ==> SameDefined(m, trace[t], ws[t])
  {
    if n > 0 {
      TraceAgrees(m, ws, init, inputs, trace, n - 1);
      assert L.FrameOk(m, L.FromWitness(init), inputs[n - 1], trace[..n - 1], trace[n - 1]);
      NextFrameAgrees(m, ws, init, inputs, trace[..n - 1], trace[n - 1]);
    }
  }

  /** No frame of a reported run violates a constraint in the simulation. */
  lemma NoViolation(m: Model, ws: seq<Valuation>, init: seq<bool>, inputs: seq<seq<bool>>, trace: seq<Valuation>)
    requires Reencoded(m) && InRange(m) && Run(m, ws) && B.Replays(m, ws, init, inputs) && L.Legal(m, L.FromWitness(init))
    requires Constrained(m, ws) && L.TraceOf(m, L.FromWitness(init), inputs, trace)
    ensures !L.Violates(m, L.FromWitness(init), inputs, trace)
  {
    var n := |trace|;
    if w: Valuation :| n < |inputs| && L.FrameButConstraints(m, L.FromWitness(init), inputs[n], trace, w) {
      TraceAgrees(m, ws, init, inputs, trace, n);
      NextFrameAgrees(m, ws, init, inputs, trace, w);
      forall i | 0 <= i < |m.constraints| ensures LitVal(w, m.constraints[i]) {
        assert SameAt(w, ws[n], m.constraints[i] / 2) && LitVal(ws[n], m.constraints[i]);
      }
      assert false;
    }
  }

  /** Literals and lassos of the run are those of the trace. */
  lemma TraceLit(m: Model, ws: seq<Valuation>, trace: seq<Valuation>, t: nat, l: nat)
    requires t < |ws| == |trace| && SameDefined(m, trace[t], ws[t]) && l / 2 < NumVars(m)
    ensures l / 2 < |ws[t]| && l / 2 < |trace[t]| && LitVal(ws[t], l) == LitVal(trace[t], l)
  {
    assert SameAt(trace[t], ws[t], l / 2);
  }

  lemma TraceLasso(m: Model, ws: seq<Valuation>, trace: seq<Valuation>, p: nat)
    requires Reencoded(m) && InRange(m) && Run(m, ws) && Run(m, trace) && |trace| == |ws| && p < |m.justice|
    requires forall t :: 0 <= t < |ws| ==> SameDefined(m, trace[t], ws[t])
    requires FairLasso(m, ws, p)
    ensures FairLasso(m, trace, p)
  {
    forall t, l: nat | 0 <= t < |ws| && l < 2 * NumVars(m) && l <= 2 * m.maxvar + 1 ensures LitVal(ws[t], l) == LitVal(trace[t], l) {
      TraceLit(m, ws, trace, t, l);
    }
    assert B.Agree(m, ws, trace);
    if Ungrounded(m, p) {
      var l :| 0 <= l < |ws| && LoopsBackTo(m, ws, l) && AllSeenSince(m, ws, m.justice[p], l) && AllSeenSince(m, ws, m.fairness, l);
      B.LoopAgree(m, ws, trace, l);
    } else {
      assert Accepted(m, ws, p);
      B.AcceptedAgree(m, ws, trace, p);
    }
  }

  /** The properties listed in the witness. */
  function Listed(r: B.Outcome): L.Expected
    requires r.Found?
  {
    L.Expected(set i | i in r.bad, set p | p in r.justice)
  }

  /** All listed justice properties have a fair lasso in the run. */
  ghost predicate AllFair(m: Model, ws: seq<Valuation>, justice: seq<nat>)
    requires InRange(m) && Run(m, ws)
  {
    forall p :: p in justice ==> p < |m.justice| && FairLasso(m, ws, p)
  }

  /** What `aigsim` says about a witness of `aigbmc`: no constraint is violated, all listed bad states are
      found, and the witness passes iff every listed justice property has a fair lasso. */
  ghost predicate Confirms(m: Model, ws: seq<Valuation>, r: B.Outcome, c: L.Report)
    requires r.Found? && InRange(m) && Run(m, ws)
  {
    && !c.violated
    && |c.bad| == |m.bad| && (forall i :: i in r.bad ==> i < |c.bad| && c.bad[i])
    && |c.justice| == |m.justice| && (forall p :: p in r.justice ==> p < |c.justice| && (c.justice[p] <==> FairLasso(m, ws, p)))
    && (c.pass <==> AllFair(m, ws, r.justice))
  }

  /** Whatever run is read off a witness of such a model, all listed properties are fair. */
  lemma FairByModel(m: Model, ws: seq<Valuation>, r: B.Outcome)
    requires r.Found? && B.GenuineOutcome(m, ws, r) && G.ListsOnlyFair(m)
    ensures AllFair(m, ws, r.justice)
  {
    forall p | p in r.justice ensures p < |m.justice| && FairLasso(m, ws, p) {
      assert |m.justice| == 1 ==> Accepted(m, ws, p);
      G.OnlyFairListed(m, ws, p);
    }
  }

  /** Witnesses pass unless a property without literals or, next to a bad state, an unfair one is listed. */
  lemma UsuallyFair(m: Model, ws: seq<Valuation>, r: B.Outcome)
    requires r.Found? && B.GenuineOutcome(m, ws, r) && Grounded(m)
    requires r.bad == [] || r.justice == [] || |m.justice| == 1
    ensures AllFair(m, ws, r.justice)
  {
    forall p | p in r.justice ensures p < |m.justice| && FairLasso(m, ws, p) {
      assert Accepted(m, ws, p);
    }
  }

  lemma Confirmed(m: Model, ws: seq<Valuation>, r: B.Outcome, c: L.Report, trace: seq<Valuation>)
    requires r.Found? && B.GenuineOutcome(m, ws, r) && InRange(m) && L.Legal(m, L.FromWitness(r.init))
    requires L.TraceOf(m, L.FromWitness(r.init), r.inputs, trace)
    requires |c.bad| == |m.bad| && forall j :: 0 <= j < |m.bad| ==> (c.bad[j] <==> L.TrueSince(m, trace, m.bad[j], 0))
    requires if c.violated then L.Violates(m, L.FromWitness(r.init), r.inputs, trace) else |trace| == |r.inputs|
    requires |c.justice| == |m.justice| && forall j :: 0 <= j < |m.justice| ==>
      (c.justice[j] <==> !c.violated && L.Witnesses(m, trace, j))
    requires c.loop <==> !c.violated && L.FindsLoops(m) && exists p: nat :: L.FairLoop(m, trace, p)
    requires c.pass <==>
      && (forall j: nat :: j in Listed(r).bad && j < |m.bad| ==> L.TrueSince(m, trace, m.bad[j], 0))
      && (L.FindsLoops(m) ==> c.loop || Listed(r).justice == {})
      && (forall j: nat :: j in Listed(r).justice && j < |m.justice| ==> !c.violated && L.Witnesses(m, trace, j))
    ensures Confirms(m, ws, r, c)
  {
    NoViolation(m, ws, r.init, r.inputs, trace);
    TraceAgrees(m, ws, r.init, r.inputs, trace, |trace|);
    L.TraceIsRun(m, L.FromWitness(r.init), r.inputs, trace);
    forall i | i in r.bad ensures i < |c.bad| && c.bad[i] {
      TraceLit(m, ws, trace, |ws| - 1, m.bad[i]);
    }
    forall t | 0 <= t < |ws| ensures SameDefined(m, ws[t], trace[t]) {
      forall v: nat | v < NumVars(m) ensures SameAt(ws[t], trace[t], v) { assert SameAt(trace[t], ws[t], v); }
    }
    forall p | p in r.justice ensures p < |m.justice| && (L.Witnesses(m, trace, p) <==> FairLasso(m, ws, p)) {
      SameLassos(m, trace, p);
      if FairLasso(m, ws, p) { TraceLasso(m, ws, trace, p); }
      if FairLasso(m, trace, p) { TraceLasso(m, trace, ws, p); }
    }
    if AllFair(m, ws, r.justice) && r.justice != [] {
      var p := r.justice[0];
      assert p in r.justice;
      assert L.Witnesses(m, trace, p);
    }
  }

  /** Searches for a witness and has it checked. */
  method FindAndCheck(m: Model, maxk: nat, solve: B.Oracle) returns (r: B.Outcome, c: L.Report)
    requires Reencoded(m) && B.Correct(solve)
    ensures r.Found? ==> InRange(m) && exists ws :: |ws| == r.k + 1 && B.GenuineOutcome(m, ws, r) && Confirms(m, ws, r, c)
    ensures r.Found? && G.ListsOnlyFair(m) ==> c.pass
    ensures r.Found? && Grounded(m) && (r.bad == [] || r.justice == [] || |m.justice| == 1) ==> c.pass
  {
    r := B.BoundedModelCheck(m, maxk, solve);
    c := L.Report([], [], false, 0, false, false);
    if r.Found? {
      ghost var ws :| |ws| == r.k + 1 && B.GenuineOutcome(m, ws, r);
      ReencodedInRange(m);
      InitLegal(m, ws, r.init, r.inputs);
      ghost var trace;
      c, trace := L.Check(m, L.FromWitness(r.init), r.inputs, Listed(r));
      Confirmed(m, ws, r, c, trace);
      if Grounded(m) && (r.bad == [] || r.justice == [] || |m.justice| == 1) { UsuallyFair(m, ws, r); }
      if G.ListsOnlyFair(m) { FairByModel(m, ws, r); }
    }
  }
}
