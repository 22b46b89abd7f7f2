/** Every satisfying assignment of the BMC clauses is a run that the checker may report. */
module BmcSoundness {
  import opened Aiger
  import opened BmcSpec
  import opened Cnf
  import opened BmcEncoding

  /** The valuation that an assignment gives to one frame. */
  ghost function Extract(a: Assignment, m: Model, st: State): (w: Valuation)
    requires Usable(m, st)
    ensures |w| == m.maxvar + 1
    ensures forall v :: 0 <= v < |w| && v < NumVars(m) ==> w[v] == Holds(a, ImportVar(m, st, v))
  {
    seq(m.maxvar + 1, v requires v >= 0 => v < NumVars(m) && Holds(a, ImportVar(m, st, v)))
  }

  ghost predicate Usable(m: Model, st: State) {
    && HasVar(m, st, NumVars(m) - 1)
    && forall v :: 0 <= v < NumVars(m) ==> ImportVar(m, st, v) != 0
  }

  ghost function ExtractRun(a: Assignment, m: Model, states: seq<State>): (ws: seq<Valuation>)
    requires forall t :: 0 <= t < |states| ==> Usable(m, states[t])
    ensures |ws| == |states|
    ensures forall t :: 0 <= t < |ws| ==> ws[t] == Extract(a, m, states[t])
  {
    seq(|states|, t requires 0 <= t < |states| => Extract(a, m, states[t]))
  }

  lemma {:induction false} FramesUsable(m: Model, roles: seq<Role>, join: seq<int>, states: seq<State>, t: nat)
    requires Encoded(m, roles, join, states) && t < |states|
    ensures Usable(m, states[t])
  {
    var st := states[t];
    FrameSizes(m, roles, join, states, t);
    FrameLatches(m, roles, join, states, t);
    if t > 0 {
      FramesUsable(m, roles, join, states, t - 1);
      FrameNexts(m, roles, join, states, t - 1);
      forall i | 0 <= i < |m.latches| ensures st.latches[i] != 0 {
        assert ImportVar(m, states[t - 1], m.latches[i].next / 2) != 0;
      }
    }
  }

  lemma ExtractLit(a: Assignment, m: Model, st: State, l: nat)
    requires Usable(m, st) && NumVars(m) <= m.maxvar + 1 && l / 2 < NumVars(m)
    ensures LitVal(Extract(a, m, st), l) == Holds(a, Import(m, st, l))
  {
    assert ImportVar(m, st, l / 2) != 0;
  }

  lemma ExtractLatch(a: Assignment, m: Model, st: State, i: nat)
    requires Usable(m, st) && Reencoded(m) && i < |m.latches|
    ensures LitVal(Extract(a, m, st), m.latches[i].lit) == Holds(a, st.latches[i])
  {
    ExtractLit(a, m, st, m.latches[i].lit);
    assert m.latches[i].lit / 2 == FirstLatch(m) + i;
  }

  lemma ExtractConsistent(a: Assignment, m: Model, roles: seq<Role>, join: seq<int>, states: seq<State>, k: nat, t: nat)
    requires Encoded(m, roles, join, states) && k <= |states|
    requires AllClauses(a, m, roles, join, states, k) && t < |states| && Usable(m, states[t])
    ensures Consistent(m, Extract(a, m, states[t]))
  {
    var st := states[t];
    var w := Extract(a, m, st);
    assert ImportVar(m, st, 0) == -1;
    forall i | 0 <= i < |m.ands| ensures GateHolds(w, m.ands[i]) {
      GatesAt(a, m, roles, join, states, k, t, i);
      var g := m.ands[i];
      ExtractLit(a, m, st, g.lhs);
      ExtractLit(a, m, st, g.rhs0);
      ExtractLit(a, m, st, g.rhs1);
      assert ImportVar(m, st, FirstAnd(m) + i) == st.ands[i];
    }
  }

  lemma ExtractInitial(a: Assignment, m: Model, roles: seq<Role>, join: seq<int>, states: seq<State>, k: nat)
    requires Encoded(m, roles, join, states) && k <= |states| && |states| > 0
    requires AllClauses(a, m, roles, join, states, k) && Usable(m, states[0])
    ensures Initial(m, Extract(a, m, states[0]))
  {
    FrameLatches(m, roles, join, states, 0);
    var w := Extract(a, m, states[0]);
    forall i | 0 <= i < |m.latches| && m.latches[i].reset <= 1
      ensures LitVal(w, m.latches[i].lit) == (m.latches[i].reset == 1)
    {
      ExtractLatch(a, m, states[0], i);
    }
  }

  lemma ExtractStep(a: Assignment, m: Model, roles: seq<Role>, join: seq<int>, states: seq<State>, t: nat)
    requires Encoded(m, roles, join, states) && t + 1 < |states|
    requires Usable(m, states[t]) && Usable(m, states[t + 1])
    ensures Step(m, Extract(a, m, states[t]), Extract(a, m, states[t + 1]))
  {
    FrameNexts(m, roles, join, states, t);
    FrameLatches(m, roles, join, states, t + 1);
    var w, w' := Extract(a, m, states[t]), Extract(a, m, states[t + 1]);
    forall i | 0 <= i < |m.latches| ensures LitVal(w', m.latches[i].lit) == LitVal(w, m.latches[i].next) {
      ExtractLatch(a, m, states[t + 1], i);
      ExtractLit(a, m, states[t], m.latches[i].next);
    }
  }

  lemma ExtractedRun(a: Assignment, m: Model, roles: seq<Role>, join: seq<int>, states: seq<State>, k: nat)
    requires Encoded(m, roles, join, states) && k <= |states| && |states| > 0
    requires AllClauses(a, m, roles, join, states, k)
    ensures forall t :: 0 <= t < |states| ==> Usable(m, states[t])
    ensures Run(m, ExtractRun(a, m, states))
  {
    forall t | 0 <= t < |states| ensures Usable(m, states[t]) {
      FramesUsable(m, roles, join, states, t);
    }
    var ws := ExtractRun(a, m, states);
    forall t | 0 <= t < |ws| ensures Consistent(m, ws[t]) {
      ExtractConsistent(a, m, roles, join, states, k, t);
    }
    ExtractInitial(a, m, roles, join, states, k);
    forall t | 0 <= t < |ws| - 1 ensures Step(m, ws[t], ws[t + 1]) {
      ExtractStep(a, m, roles, join, states, t);
    }
  }

  // ----- Constraints ----------------------------------------------------------------------

  lemma {:induction false} SaneDownward(a: Assignment, m: Model, roles: seq<Role>, join: seq<int>, states: seq<State>, k: nat, t: nat, n: nat)
    requires Encoded(m, roles, join, states) && k <= |states|
    requires AllClauses(a, m, roles, join, states, k) && t <= n < |states|
    requires |m.constraints| > 0 && Holds(a, states[n].sane)
    ensures Holds(a, states[t].sane)
    decreases n - t
  {
    if t < n {
      SaneAt(a, m, roles, join, states, k, n);
      FrameProperties(m, roles, join, states, n);
      SaneDownward(a, m, roles, join, states, k, t, n - 1);
    }
  }

  lemma ExtractedConstrained(a: Assignment, m: Model, roles: seq<Role>, join: seq<int>, states: seq<State>, k: nat)
    requires Encoded(m, roles, join, states) && |states| == k + 1
    requires AllClauses(a, m, roles, join, states, k) && Holds(a, states[k].assumption)
    requires forall t :: 0 <= t < |states| ==> Usable(m, states[t])
    requires Run(m, ExtractRun(a, m, states))
    ensures Constrained(m, ExtractRun(a, m, states))
  {
    var ws := ExtractRun(a, m, states);
    forall t, i | 0 <= t < |ws| && 0 <= i < |m.constraints|
      ensures LitVal(ws[t], m.constraints[i])
    {
      SaneAt(a, m, roles, join, states, k, k);
      SaneDownward(a, m, roles, join, states, k, t, k);
      SaneAt(a, m, roles, join, states, k, t);
      FrameProperties(m, roles, join, states, t);
      assert Holds(a, states[t].constraints[i]);
      ExtractLit(a, m, states[t], m.constraints[i]);
    }
  }

  // ----- Lassos ---------------------------------------------------------------------------

  /** A loop literal leads back to a frame where the loop was entered. */
  lemma {:induction false} LoopWasJoined(a: Assignment, m: Model, roles: seq<Role>, join: seq<int>, states: seq<State>, k: nat, t: nat)
    returns (l: nat)
    requires Encoded(m, roles, join, states) && k <= |states|
    requires AllClauses(a, m, roles, join, states, k) && t < |states|
    requires |m.justice| > 0 && Holds(a, states[t].loop)
    ensures l <= t && Joined(a, states, l)
  {
    LoopAt(a, m, roles, join, states, k, t);
    FrameLoop(m, roles, join, states, t);
    if t == 0 || Holds(a, states[t].join) {
      l := t;
    } else {
      l := LoopWasJoined(a, m, roles, join, states, k, t - 1);
    }
  }

  ghost predicate Joined(a: Assignment, states: seq<State>, l: nat)
    requires l < |states|
  {
    Holds(a, states[l].join)
  }

  /** A tracked literal of a justice property held at a frame inside the loop. */
  lemma {:induction false} JusticeWasSeen(a: Assignment, m: Model, roles: seq<Role>, join: seq<int>, states: seq<State>, k: nat, t: nat, p: nat, j: nat)
    returns (s: nat)
    requires Encoded(m, roles, join, states) && k <= |states|
    requires AllClauses(a, m, roles, join, states, k) && t < |states|
    requires p < |m.justice| && j < |m.justice[p]| && JusticeShape(m, states[t])
    requires Holds(a, states[t].justice[p].lits[j].sat)
    ensures s <= t && JusticeShape(m, states[s])
    ensures Holds(a, states[s].justice[p].lits[j].lit) && Holds(a, states[s].loop)
  {
    JusticeAt(a, m, roles, join, states, k, t);
    assert TrackClauses(a, PrevSat(PrevLits(Prev(states, t), p), j), states[t].justice[p].lits[j], states[t].loop);
    if Holds(a, states[t].justice[p].lits[j].lit) && Holds(a, states[t].loop) {
      s := t;
    } else {
      s := JusticeWasSeen(a, m, roles, join, states, k, t - 1, p, j);
    }
  }

  lemma {:induction false} FairWasSeen(a: Assignment, m: Model, roles: seq<Role>, join: seq<int>, states: seq<State>, k: nat, t: nat, j: nat)
    returns (s: nat)
    requires Encoded(m, roles, join, states) && k <= |states|
    requires AllClauses(a, m, roles, join, states, k) && t < |states|
    requires |m.justice| > 0 && j < |m.fairness| && |states[t].fairness| == |m.fairness|
    requires Holds(a, states[t].fairness[j].sat)
    ensures s <= t && |states[s].fairness| == |m.fairness|
    ensures Holds(a, states[s].fairness[j].lit) && Holds(a, states[s].loop)
  {
    FairAt(a, m, roles, join, states, k, t);
    assert TrackClauses(a, PrevSat(PrevFair(Prev(states, t)), j), states[t].fairness[j], states[t].loop);
    if Holds(a, states[t].fairness[j].lit) && Holds(a, states[t].loop) {
      s := t;
    } else {
      s := FairWasSeen(a, m, roles, join, states, k, t - 1, j);
    }
  }

  lemma {:induction false} FirstJoined(a: Assignment, states: seq<State>, n: nat) returns (l: nat)
    requires n < |states| && Joined(a, states, n)
    ensures l <= n && Joined(a, states, l)
    ensures forall u :: 0 <= u < l ==> !Joined(a, states, u)
  {
    if u :| 0 <= u < n && Joined(a, states, u) {
      l := FirstJoined(a, states, u);
    } else {
      l := n;
    }
  }

  lemma JoinedState(a: Assignment, m: Model, roles: seq<Role>, join: seq<int>, states: seq<State>, k: nat, l: nat, i: nat)
    requires Encoded(m, roles, join, states) && |states| == k + 1 && l <= k
    requires AllClauses(a, m, roles, join, states, k) && Holds(a, states[k].assumption)
    requires |m.justice| > 0 && i < |m.latches| && Joined(a, states, l)
    ensures |states[l].latches| == |states[k].nexts| == |m.latches|
    ensures Holds(a, states[l].latches[i]) == Holds(a, states[k].nexts[i])
  {
    LoopAt(a, m, roles, join, states, k, l);
    LoopAt(a, m, roles, join, states, k, k);
    var x := join[i];
    assert Holds(a, x) == Holds(a, states[l].latches[i]);
    assert Holds(a, x) == Holds(a, states[k].nexts[i]);
  }

  lemma JoinClosesLoop(a: Assignment, m: Model, roles: seq<Role>, join: seq<int>, states: seq<State>, k: nat, l: nat)
    requires Encoded(m, roles, join, states) && |states| == k + 1 && l <= k
    requires AllClauses(a, m, roles, join, states, k) && Holds(a, states[k].assumption)
    requires forall t :: 0 <= t < |states| ==> Usable(m, states[t])
    requires Run(m, ExtractRun(a, m, states)) && |m.justice| > 0
    requires Joined(a, states, l)
    ensures LoopsBackTo(m, ExtractRun(a, m, states), l)
  {
    var ws := ExtractRun(a, m, states);
    forall i | 0 <= i < |m.latches|
      ensures LitVal(ws[l], m.latches[i].lit) == LitVal(ws[k], m.latches[i].next)
    {
      JoinedState(a, m, roles, join, states, k, l, i);
      ExtractLatch(a, m, states[l], i);
      FrameNexts(m, roles, join, states, k);
      ExtractLit(a, m, states[k], m.latches[i].next);
    }
  }

  ghost predicate FairnessMet(a: Assignment, m: Model, st: State) {
    |m.fairness| > 0 ==> |st.fairness| == |m.fairness| && forall j :: 0 <= j < |st.fairness| ==> Holds(a, st.fairness[j].sat)
  }

  ghost predicate JusticeMet(a: Assignment, m: Model, st: State, p: nat)
    requires p < |m.justice|
  {
    && JusticeShape(m, st)
    && forall j :: 0 <= j < |m.justice[p]| ==> Holds(a, st.justice[p].lits[j].sat)
  }

  /** Some loop entry exists as soon as anything is tracked. */
  lemma LoopEntry(a: Assignment, m: Model, roles: seq<Role>, join: seq<int>, states: seq<State>, k: nat, p: nat)
    returns (l: nat)
    requires Encoded(m, roles, join, states) && |states| == k + 1
    requires AllClauses(a, m, roles, join, states, k)
    requires p < |m.justice| && !Ungrounded(m, p)
    requires JusticeMet(a, m, states[k], p) && FairnessMet(a, m, states[k])
    ensures l <= k && Joined(a, states, l)
    ensures forall u :: 0 <= u < l ==> !Joined(a, states, u)
  {
    var s: nat;
    if |m.justice[p]| > 0 {
      s := JusticeWasSeen(a, m, roles, join, states, k, k, p, 0);
    } else {
      s := FairWasSeen(a, m, roles, join, states, k, k, 0);
    }
    var u := LoopWasJoined(a, m, roles, join, states, k, s);
    l := FirstJoined(a, states, u);
  }

  lemma JusticeLitIsGenuine(a: Assignment, m: Model, roles: seq<Role>, join: seq<int>, states: seq<State>, s: nat, p: nat, j: nat)
    requires Encoded(m, roles, join, states) && s < |states| && Usable(m, states[s])
    requires p < |m.justice| && j < |m.justice[p]| && JusticeShape(m, states[s])
    ensures m.justice[p][j] / 2 <= m.maxvar
    ensures LitVal(Extract(a, m, states[s]), m.justice[p][j]) == Holds(a, states[s].justice[p].lits[j].lit)
  {
    FrameJusticeLit(m, roles, join, states, s, p, j);
    ExtractLit(a, m, states[s], m.justice[p][j]);
  }

  lemma FairLitIsGenuine(a: Assignment, m: Model, roles: seq<Role>, join: seq<int>, states: seq<State>, s: nat, j: nat)
    requires Encoded(m, roles, join, states) && s < |states| && Usable(m, states[s]) && |m.justice| > 0
    requires j < |m.fairness| == |states[s].fairness|
    ensures LitVal(Extract(a, m, states[s]), m.fairness[j]) == Holds(a, states[s].fairness[j].lit)
  {
    FrameFairLit(m, roles, join, states, s, j);
    ExtractLit(a, m, states[s], m.fairness[j]);
  }

  lemma JusticeSeenSince(a: Assignment, m: Model, roles: seq<Role>, join: seq<int>, states: seq<State>, k: nat, p: nat, l: nat)
    requires Encoded(m, roles, join, states) && |states| == k + 1 && l <= k
    requires AllClauses(a, m, roles, join, states, k)
    requires forall t :: 0 <= t < |states| ==> Usable(m, states[t])
    requires Run(m, ExtractRun(a, m, states)) && p < |m.justice|
    requires JusticeMet(a, m, states[k], p)
    requires forall u :: 0 <= u < l ==> !Joined(a, states, u)
    ensures AllSeenSince(m, ExtractRun(a, m, states), m.justice[p], l)
  {
    var ws := ExtractRun(a, m, states);
    forall j | 0 <= j < |m.justice[p]| ensures SeenSince(ws, m.justice[p][j], l) {
      var s := JusticeWasSeen(a, m, roles, join, states, k, k, p, j);
      var u := LoopWasJoined(a, m, roles, join, states, k, s);
      JusticeLitIsGenuine(a, m, roles, join, states, s, p, j);
      assert l <= s < |ws| && LitVal(ws[s], m.justice[p][j]);
    }
  }

  lemma FairnessSeenSince(a: Assignment, m: Model, roles: seq<Role>, join: seq<int>, states: seq<State>, k: nat, l: nat)
    requires Encoded(m, roles, join, states) && |states| == k + 1 && l <= k
    requires AllClauses(a, m, roles, join, states, k)
    requires forall t :: 0 <= t < |states| ==> Usable(m, states[t])
    requires Run(m, ExtractRun(a, m, states)) && |m.justice| > 0
    requires FairnessMet(a, m, states[k])
    requires forall u :: 0 <= u < l ==> !Joined(a, states, u)
    ensures AllSeenSince(m, ExtractRun(a, m, states), m.fairness, l)
  {
    var ws := ExtractRun(a, m, states);
    forall j | 0 <= j < |m.fairness| ensures SeenSince(ws, m.fairness[j], l) {
      var s := FairWasSeen(a, m, roles, join, states, k, k, j);
      var u := LoopWasJoined(a, m, roles, join, states, k, s);
      FairLitIsGenuine(a, m, roles, join, states, s, j);
      assert l <= s < |ws| && LitVal(ws[s], m.fairness[j]);
    }
  }

  /** Satisfied tracking variables at frame `k` certify a fair lasso, unless there are none.
      Different literals may have entered the loop at different frames; all these frames carry
      the same latch state, so the earliest one serves them all. */
  lemma TrackedLasso(a: Assignment, m: Model, roles: seq<Role>, join: seq<int>, states: seq<State>, k: nat, p: nat)
    requires Encoded(m, roles, join, states) && |states| == k + 1
    requires AllClauses(a, m, roles, join, states, k) && Holds(a, states[k].assumption)
    requires forall t :: 0 <= t < |states| ==> Usable(m, states[t])
    requires Run(m, ExtractRun(a, m, states)) && p < |m.justice|
    requires JusticeMet(a, m, states[k], p) && FairnessMet(a, m, states[k])
    ensures Accepted(m, ExtractRun(a, m, states), p)
  {
    if !Ungrounded(m, p) {
      var l := LoopEntry(a, m, roles, join, states, k, p);
      JoinClosesLoop(a, m, roles, join, states, k, l);
      JusticeSeenSince(a, m, roles, join, states, k, p, l);
      FairnessSeenSince(a, m, roles, join, states, k, l);
    }
  }

  /** Once the shared justification literal holds, every fairness literal is satisfied. */
  lemma OneJustifiedIsFair(a: Assignment, m: Model, roles: seq<Role>, join: seq<int>, states: seq<State>, k: nat)
    returns (p: nat)
    requires Encoded(m, roles, join, states) && |states| == k + 1
    requires AllClauses(a, m, roles, join, states, k)
    requires |m.justice| > 0 && Holds(a, states[k].onejustified)
    ensures FairnessMet(a, m, states[k])
    ensures p < |m.justice| && JusticeShape(m, states[k]) && Holds(a, states[k].justice[p].sat)
  {
    p := SomeJusticeSat(a, m, roles, join, states, k);
    if |m.fairness| > 0 {
      FrameFair(m, roles, join, states, k);
      FairAt(a, m, roles, join, states, k, k);
      if |m.fairness| > 1 {
        forall j | 0 <= j < |m.fairness| ensures Holds(a, states[k].fairness[j].sat) {
          assert Sats(states[k].fairness)[j] == states[k].fairness[j].sat;
        }
      }
    }
  }

  lemma SomeJusticeSat(a: Assignment, m: Model, roles: seq<Role>, join: seq<int>, states: seq<State>, k: nat)
    returns (p: nat)
    requires Encoded(m, roles, join, states) && |states| == k + 1
    requires AllClauses(a, m, roles, join, states, k)
    requires |m.justice| > 0 && Holds(a, states[k].onejustified)
    ensures p < |m.justice| && JusticeShape(m, states[k]) && Holds(a, states[k].justice[p].sat)
  {
    FrameJustice(m, roles, join, states, k);
    OneJustifiedAt(a, m, roles, join, states, k, k);
    if |m.justice| == 1 {
      p := 0;
    } else {
      var ls := JusticeSats(states[k].justice);
      p :| 0 <= p < |ls| && Holds(a, ls[p]);
    }
  }

  lemma JusticeSatMeansMet(a: Assignment, m: Model, roles: seq<Role>, join: seq<int>, states: seq<State>, k: nat, p: nat)
    requires Encoded(m, roles, join, states) && |states| == k + 1
    requires AllClauses(a, m, roles, join, states, k)
    requires p < |m.justice| && JusticeShape(m, states[k]) && Holds(a, states[k].justice[p].sat)
    ensures JusticeMet(a, m, states[k], p)
  {
    JusticeAt(a, m, roles, join, states, k, k);
    var ls := states[k].justice[p].lits;
    assert AllHold(a, Sats(ls));
    forall j | 0 <= j < |ls| ensures Holds(a, ls[j].sat) {
      assert Sats(ls)[j] == ls[j].sat;
    }
  }

  /** A bad literal imported into the last frame is the bad literal of the extracted run. */
  lemma BadIsGenuine(a: Assignment, m: Model, roles: seq<Role>, join: seq<int>, states: seq<State>, k: nat, i: nat)
    requires Encoded(m, roles, join, states) && |states| == k + 1 && i < |m.bad| == |states[k].bad|
    requires Usable(m, states[k])
    ensures LitVal(Extract(a, m, states[k]), m.bad[i]) == Holds(a, states[k].bad[i])
  {
    FrameProperties(m, roles, join, states, k);
    ExtractLit(a, m, states[k], m.bad[i]);
  }

  /** Soundness of the encoding. */
  lemma SatisfyingRunReported(a: Assignment, m: Model, roles: seq<Role>, join: seq<int>, states: seq<State>, k: nat)
    requires Encoded(m, roles, join, states) && |states| == k + 1
    requires AllClauses(a, m, roles, join, states, k) && Holds(a, states[k].assumption)
    ensures forall t :: 0 <= t < |states| ==> Usable(m, states[t])
    ensures Reported(m, ExtractRun(a, m, states))
  {
    ExtractedRun(a, m, roles, join, states, k);
    ExtractedConstrained(a, m, roles, join, states, k);
    var ws, st := ExtractRun(a, m, states), states[k];
    GoalAt(a, m, roles, join, states, k, k);
    if |m.bad| > 0 && Holds(a, st.onebad) {
      BadAt(a, m, roles, join, states, k, k);
      FrameProperties(m, roles, join, states, k);
      var i :| 0 <= i < |m.bad| && Holds(a, st.bad[i]);
      BadIsGenuine(a, m, roles, join, states, k, i);
      assert BadAtEnd(m, ws);
    } else {
      var p := OneJustifiedIsFair(a, m, roles, join, states, k);
      JusticeSatMeansMet(a, m, roles, join, states, k, p);
      TrackedLasso(a, m, roles, join, states, k, p);
    }
  }
}
