/** Every run that the checker may report satisfies the BMC clauses: each solver variable is
    given the value it was allocated for. */
module BmcCompleteness {
  import opened Aiger
  import opened BmcSpec
  import opened Cnf
  import opened BmcEncoding
  import opened BmcSoundness

  ghost predicate LoopedBy(m: Model, ws: seq<Valuation>, t: nat)
    requires InRange(m) && Run(m, ws) && t < |ws|
  {
    exists l :: 0 <= l <= t && LoopsBackTo(m, ws, l)
  }

  ghost predicate LitAt(ws: seq<Valuation>, lit: nat, t: nat) {
    t < |ws| && lit / 2 < |ws[t]| && LitVal(ws[t], lit)
  }

  ghost predicate SeenInLoop(m: Model, ws: seq<Valuation>, lit: nat, t: nat)
    requires InRange(m) && Run(m, ws)
  {
    exists s :: 0 <= s <= t && s < |ws| && LitAt(ws, lit, s) && LoopedBy(m, ws, s)
  }

  ghost predicate AllSeenInLoop(m: Model, ws: seq<Valuation>, lits: seq<nat>, t: nat)
    requires InRange(m) && Run(m, ws)
  {
    forall j :: 0 <= j < |lits| ==> SeenInLoop(m, ws, lits[j], t)
  }

  /** A single justice property shares its variable with `onejustified`, which also demands
      fairness; several properties do not. */
  ghost predicate JusticeDone(m: Model, ws: seq<Valuation>, i: nat, t: nat)
    requires InRange(m) && Run(m, ws)
  {
    && i < |m.justice|
    && AllSeenInLoop(m, ws, m.justice[i], t)
    && (|m.justice| == 1 ==> AllSeenInLoop(m, ws, m.fairness, t))
  }

  ghost predicate SomeJusticeDone(m: Model, ws: seq<Valuation>, t: nat)
    requires InRange(m) && Run(m, ws)
  {
    exists i :: 0 <= i < |m.justice| && JusticeDone(m, ws, i, t)
  }

  ghost predicate AnyAt(ws: seq<Valuation>, lits: seq<nat>, t: nat) {
    exists i :: 0 <= i < |lits| && LitAt(ws, lits[i], t)
  }

  ghost predicate SaneUpTo(m: Model, ws: seq<Valuation>, t: nat) {
    forall u, i :: 0 <= u <= t && 0 <= i < |m.constraints| ==> LitAt(ws, m.constraints[i], u)
  }

  ghost predicate Value(m: Model, ws: seq<Valuation>, r: Role)
    requires InRange(m) && Run(m, ws)
  {
    match r
    case One => true
    case JoinVar(i) => i < |m.latches| && LitAt(ws, m.latches[i].next, |ws| - 1)
    case ResetVar(i) => i < |m.latches| && LitAt(ws, m.latches[i].lit, 0)
    case InputVar(t, i) => i < |m.inputs| && LitAt(ws, m.inputs[i], t)
    case AndVar(t, i) => i < |m.ands| && LitAt(ws, m.ands[i].lhs, t)
    case AssumeVar(t) => t == |ws| - 1
    case OneBadVar(t) => AnyAt(ws, m.bad, t)
    case SaneVar(t) => SaneUpTo(m, ws, t)
    case JoinedVar(t) => t < |ws| && LoopsBackTo(m, ws, t)
    case LoopVar(t) => t < |ws| && LoopedBy(m, ws, t)
    case JusticeLitVar(t, i, j) => i < |m.justice| && j < |m.justice[i]| && SeenInLoop(m, ws, m.justice[i][j], t)
    case JusticeSatVar(t, i) => JusticeDone(m, ws, i, t)
    case OneJustifiedVar(t) => SomeJusticeDone(m, ws, t) && AllSeenInLoop(m, ws, m.fairness, t)
    case FairVar(t, i) => i < |m.fairness| && SeenInLoop(m, ws, m.fairness[i], t)
    case AllFairVar(t) => AllSeenInLoop(m, ws, m.fairness, t)
  }

  ghost function Canon(m: Model, ws: seq<Valuation>, roles: seq<Role>): Assignment
    requires InRange(m) && Run(m, ws)
  {
    v => 1 <= v <= |roles| && Value(m, ws, roles[v - 1])
  }

  lemma CanonVar(m: Model, ws: seq<Valuation>, roles: seq<Role>, l: int, r: Role)
    requires InRange(m) && Run(m, ws) && IsVar(roles, l, r)
    ensures Holds(Canon(m, ws, roles), l) == Value(m, ws, r)
  {}

  ghost predicate Matches(a: Assignment, m: Model, w: Valuation, st: State) {
    && Usable(m, st)
    && |w| == m.maxvar + 1 && NumVars(m) <= |w|
    && forall v :: 0 <= v < NumVars(m) ==> Holds(a, ImportVar(m, st, v)) == w[v]
  }

  lemma MatchesLit(a: Assignment, m: Model, w: Valuation, st: State, l: nat)
    requires Matches(a, m, w, st) && l / 2 < NumVars(m)
    ensures Holds(a, Import(m, st, l)) == LitVal(w, l)
  {
    assert ImportVar(m, st, l / 2) != 0;
  }

  lemma {:induction false} CanonMatches(m: Model, ws: seq<Valuation>, roles: seq<Role>, join: seq<int>, states: seq<State>, t: nat)
    requires Encoded(m, roles, join, states) && Run(m, ws) && t < |states| == |ws|
    ensures Matches(Canon(m, ws, roles), m, ws[t], states[t])
    decreases t, 1
  {
    var a, st, w := Canon(m, ws, roles), states[t], ws[t];
    FramesUsable(m, roles, join, states, t);
    FrameSizes(m, roles, join, states, t);
    assert |w| == m.maxvar + 1 && !w[0] by { assert Consistent(m, w); }
    forall v | 0 <= v < NumVars(m) ensures Holds(a, ImportVar(m, st, v)) == w[v] {
      if v == 0 {
        assert a(1);
      } else if v < FirstLatch(m) {
        CanonInput(m, ws, roles, join, states, t, v - 1);
      } else if v < FirstAnd(m) {
        CanonLatch(m, ws, roles, join, states, t, v - FirstLatch(m));
      } else {
        CanonAnd(m, ws, roles, join, states, t, v - FirstAnd(m));
      }
    }
  }

  lemma CanonInput(m: Model, ws: seq<Valuation>, roles: seq<Role>, join: seq<int>, states: seq<State>, t: nat, i: nat)
    requires Encoded(m, roles, join, states) && Run(m, ws) && t < |states| == |ws|
    requires i < |m.inputs| == |states[t].inputs|
    ensures |ws[t]| == m.maxvar + 1
    ensures Holds(Canon(m, ws, roles), states[t].inputs[i]) == ws[t][1 + i]
  {
    FrameInputs(m, roles, join, states, t);
    CanonVar(m, ws, roles, states[t].inputs[i], InputVar(t, i));
    assert Consistent(m, ws[t]);
  }

  lemma CanonAnd(m: Model, ws: seq<Valuation>, roles: seq<Role>, join: seq<int>, states: seq<State>, t: nat, i: nat)
    requires Encoded(m, roles, join, states) && Run(m, ws) && t < |states| == |ws|
    requires i < |m.ands| == |states[t].ands|
    ensures |ws[t]| == m.maxvar + 1
    ensures Holds(Canon(m, ws, roles), states[t].ands[i]) == ws[t][FirstAnd(m) + i]
  {
    FrameInputs(m, roles, join, states, t);
    CanonVar(m, ws, roles, states[t].ands[i], AndVar(t, i));
    assert Consistent(m, ws[t]);
    assert m.ands[i].lhs == 2 * (FirstAnd(m) + i);
  }

  lemma {:induction false} CanonLatch(m: Model, ws: seq<Valuation>, roles: seq<Role>, join: seq<int>, states: seq<State>, t: nat, i: nat)
    requires Encoded(m, roles, join, states) && Run(m, ws) && t < |states| == |ws|
    requires i < |m.latches| == |states[t].latches|
    ensures Holds(Canon(m, ws, roles), states[t].latches[i]) == ws[t][FirstLatch(m) + i]
    decreases t, 0
  {
    var a, q := Canon(m, ws, roles), m.latches[i];
    assert q.lit == 2 * (FirstLatch(m) + i);
    FrameLatches(m, roles, join, states, t);
    if t == 0 {
      assert Consistent(m, ws[0]) && LegalReset(q);
      if q.reset > 1 {
        CanonVar(m, ws, roles, states[0].latches[i], ResetVar(i));
      } else {
        assert LitVal(ws[0], q.lit) == (q.reset == 1);
        assert a(1);
      }
    } else {
      CanonMatches(m, ws, roles, join, states, t - 1);
      FrameNexts(m, roles, join, states, t - 1);
      MatchesLit(a, m, ws[t - 1], states[t - 1], q.next);
      assert Step(m, ws[t - 1], ws[t]);
    }
  }

  // ----- The clause groups of one frame ----------------------------------------------------

  lemma CanonGates(m: Model, ws: seq<Valuation>, roles: seq<Role>, join: seq<int>, states: seq<State>, t: nat, i: nat)
    requires Encoded(m, roles, join, states) && Run(m, ws) && t < |states| == |ws|
    requires Matches(Canon(m, ws, roles), m, ws[t], states[t]) && i < |m.ands| == |states[t].ands|
    ensures var a, st := Canon(m, ws, roles), states[t];
      Holds(a, st.ands[i]) <==>
      Holds(a, Import(m, st, m.ands[i].rhs0)) && Holds(a, Import(m, st, m.ands[i].rhs1))
  {
    var a, st, w := Canon(m, ws, roles), states[t], ws[t];
    var g := m.ands[i];
    assert Consistent(m, w) && GateHolds(w, g) && g.lhs == 2 * (FirstAnd(m) + i);
    MatchesLit(a, m, w, st, g.rhs0);
    MatchesLit(a, m, w, st, g.rhs1);
    assert ImportVar(m, st, FirstAnd(m) + i) == st.ands[i];
  }

  lemma CanonBad(m: Model, ws: seq<Valuation>, roles: seq<Role>, join: seq<int>, states: seq<State>, t: nat)
    requires Encoded(m, roles, join, states) && Run(m, ws) && t < |states| == |ws|
    requires Matches(Canon(m, ws, roles), m, ws[t], states[t])
    ensures BadClauses(Canon(m, ws, roles), states[t])
    ensures |m.bad| > 0 && AnyAt(ws, m.bad, t) ==> Holds(Canon(m, ws, roles), states[t].onebad)
  {
    var a, st, w := Canon(m, ws, roles), states[t], ws[t];
    FrameProperties(m, roles, join, states, t);
    if |m.bad| > 1 { CanonVar(m, ws, roles, st.onebad, OneBadVar(t)); }
    if |m.bad| > 0 && AnyAt(ws, m.bad, t) {
      var i :| 0 <= i < |m.bad| && LitAt(ws, m.bad[i], t);
      MatchesLit(a, m, w, st, m.bad[i]);
      assert Holds(a, st.bad[i]);
    }
  }

  lemma CanonSane(m: Model, ws: seq<Valuation>, roles: seq<Role>, join: seq<int>, states: seq<State>, t: nat)
    requires Encoded(m, roles, join, states) && Run(m, ws) && t < |states| == |ws|
    requires Matches(Canon(m, ws, roles), m, ws[t], states[t]) && Constrained(m, ws)
    ensures SaneClauses(Canon(m, ws, roles), Prev(states, t), states[t])
  {
    var a, st, w := Canon(m, ws, roles), states[t], ws[t];
    FrameProperties(m, roles, join, states, t);
    if |m.constraints| > 0 {
      CanonVar(m, ws, roles, st.sane, SaneVar(t));
      if t > 0 {
        FrameProperties(m, roles, join, states, t - 1);
        CanonVar(m, ws, roles, states[t - 1].sane, SaneVar(t - 1));
      }
      forall i | 0 <= i < |m.constraints| && Holds(a, st.sane) ensures Holds(a, st.constraints[i]) {
        assert LitAt(ws, m.constraints[i], t);
        MatchesLit(a, m, w, st, m.constraints[i]);
      }
      SaneEverywhere(m, ws, t);
    }
  }

  lemma SaneEverywhere(m: Model, ws: seq<Valuation>, t: nat)
    requires InRange(m) && Run(m, ws) && Constrained(m, ws) && t < |ws|
    ensures SaneUpTo(m, ws, t)
  {
    forall u, i | 0 <= u <= t && 0 <= i < |m.constraints| ensures LitAt(ws, m.constraints[i], u) {
      assert Consistent(m, ws[u]) && LitVal(ws[u], m.constraints[i]);
    }
  }

  lemma CanonLoopLits(m: Model, ws: seq<Valuation>, roles: seq<Role>, join: seq<int>, states: seq<State>, t: nat)
    requires Encoded(m, roles, join, states) && Run(m, ws) && t < |states| == |ws| && |m.justice| > 0
    ensures Holds(Canon(m, ws, roles), states[t].join) == LoopsBackTo(m, ws, t)
    ensures Holds(Canon(m, ws, roles), states[t].loop) == LoopedBy(m, ws, t)
  {
    FrameLoop(m, roles, join, states, t);
    CanonVar(m, ws, roles, states[t].join, JoinedVar(t));
    if t > 0 { CanonVar(m, ws, roles, states[t].loop, LoopVar(t)); }
  }

  lemma CanonJoin(m: Model, ws: seq<Valuation>, roles: seq<Role>, join: seq<int>, states: seq<State>, i: nat)
    requires Encoded(m, roles, join, states) && Run(m, ws) && |states| == |ws|
    requires |m.justice| > 0 && i < |m.latches|
    ensures i < |join|
    ensures m.latches[i].next / 2 < |ws[|ws| - 1]|
    ensures Holds(Canon(m, ws, roles), join[i]) == LitVal(ws[|ws| - 1], m.latches[i].next)
  {
    CanonVar(m, ws, roles, join[i], JoinVar(i));
    assert Consistent(m, ws[|ws| - 1]);
  }

  lemma CanonStateLits(m: Model, ws: seq<Valuation>, roles: seq<Role>, join: seq<int>, states: seq<State>, t: nat, i: nat)
    requires Encoded(m, roles, join, states) && Run(m, ws) && t < |states| == |ws|
    requires Matches(Canon(m, ws, roles), m, ws[t], states[t]) && i < |m.latches|
    ensures |states[t].latches| == |states[t].nexts| == |m.latches|
    ensures Holds(Canon(m, ws, roles), states[t].latches[i]) == LitVal(ws[t], m.latches[i].lit)
    ensures Holds(Canon(m, ws, roles), states[t].nexts[i]) == LitVal(ws[t], m.latches[i].next)
  {
    FrameSizes(m, roles, join, states, t);
    CanonLatch(m, ws, roles, join, states, t, i);
    assert m.latches[i].lit == 2 * (FirstLatch(m) + i);
    FrameNexts(m, roles, join, states, t);
    MatchesLit(Canon(m, ws, roles), m, ws[t], states[t], m.latches[i].next);
  }

  lemma CanonLoop(m: Model, ws: seq<Valuation>, roles: seq<Role>, join: seq<int>, states: seq<State>, t: nat)
    requires Encoded(m, roles, join, states) && Run(m, ws) && t < |states| == |ws| && |m.justice| > 0
    requires Matches(Canon(m, ws, roles), m, ws[t], states[t])
    ensures |join| == |states[t].latches| == |states[t].nexts|
    ensures LoopClauses(Canon(m, ws, roles), join, Prev(states, t), states[t])
  {
    var a, st := Canon(m, ws, roles), states[t];
    FrameSizes(m, roles, join, states, t);
    CanonLoopLits(m, ws, roles, join, states, t);
    if t > 0 { CanonLoopLits(m, ws, roles, join, states, t - 1); }
    assert Holds(a, st.assumption) == (t == |ws| - 1) by {
      FrameInputs(m, roles, join, states, t);
      CanonVar(m, ws, roles, st.assumption, AssumeVar(t));
    }
    forall i | 0 <= i < |join|
      ensures Holds(a, st.join) ==> Holds(a, join[i]) == Holds(a, st.latches[i])
      ensures Holds(a, st.assumption) ==> Holds(a, join[i]) == Holds(a, st.nexts[i])
    {
      CanonJoin(m, ws, roles, join, states, i);
      CanonStateLits(m, ws, roles, join, states, t, i);
    }
  }

  /** The tracking recurrence holds for "seen inside the loop so far". */
  lemma SeenRecurrence(m: Model, ws: seq<Valuation>, lit: nat, t: nat)
    requires InRange(m) && Run(m, ws) && t < |ws| && SeenInLoop(m, ws, lit, t)
    ensures (t > 0 && SeenInLoop(m, ws, lit, t - 1)) || (LitAt(ws, lit, t) && LoopedBy(m, ws, t))
  {
    var s :| 0 <= s <= t && s < |ws| && LitAt(ws, lit, s) && LoopedBy(m, ws, s);
    if s < t {
      assert SeenInLoop(m, ws, lit, t - 1);
    }
  }

  lemma TrackHolds(a: Assignment, m: Model, ws: seq<Valuation>, lit: nat, t: nat, prev: Option<int>, cur: Tracked, loop: int)
    requires InRange(m) && Run(m, ws) && t < |ws|
    requires Holds(a, cur.sat) == SeenInLoop(m, ws, lit, t)
    requires Holds(a, cur.lit) == LitAt(ws, lit, t)
    requires Holds(a, loop) == LoopedBy(m, ws, t)
    requires prev.Some? == (t > 0)
    requires t > 0 ==> Holds(a, prev.value) == SeenInLoop(m, ws, lit, t - 1)
    ensures TrackClauses(a, prev, cur, loop)
  {
    if SeenInLoop(m, ws, lit, t) {
      SeenRecurrence(m, ws, lit, t);
    }
  }

  lemma CanonJusticeVar(m: Model, ws: seq<Valuation>, roles: seq<Role>, join: seq<int>, states: seq<State>, t: nat, i: nat, j: nat)
    requires Encoded(m, roles, join, states) && Run(m, ws) && t < |states| == |ws|
    requires i < |m.justice| && j < |m.justice[i]|
    requires Matches(Canon(m, ws, roles), m, ws[t], states[t])
    ensures |states[t].justice| == |m.justice| && |states[t].justice[i].lits| == |m.justice[i]|
    ensures var cur := states[t].justice[i].lits[j];
      && Holds(Canon(m, ws, roles), cur.sat) == SeenInLoop(m, ws, m.justice[i][j], t)
      && Holds(Canon(m, ws, roles), cur.lit) == LitAt(ws, m.justice[i][j], t)
  {
    FrameJusticeLit(m, roles, join, states, t, i, j);
    var cur := states[t].justice[i].lits[j];
    CanonVar(m, ws, roles, cur.sat, JusticeLitVar(t, i, j));
    MatchesLit(Canon(m, ws, roles), m, ws[t], states[t], m.justice[i][j]);
  }

  lemma CanonJusticeLit(m: Model, ws: seq<Valuation>, roles: seq<Role>, join: seq<int>, states: seq<State>, t: nat, i: nat, j: nat)
    requires Encoded(m, roles, join, states) && Run(m, ws) && t < |states| == |ws|
    requires i < |m.justice| && j < |m.justice[i]|
    requires Matches(Canon(m, ws, roles), m, ws[t], states[t]) && ShapeAt(m, states, t)
    ensures TrackClauses(Canon(m, ws, roles), PrevSat(PrevLits(Prev(states, t), i), j),
                         states[t].justice[i].lits[j], states[t].loop)
  {
    CanonJusticeVar(m, ws, roles, join, states, t, i, j);
    CanonLoopLits(m, ws, roles, join, states, t);
    if t > 0 {
      CanonMatches(m, ws, roles, join, states, t - 1);
      CanonJusticeVar(m, ws, roles, join, states, t - 1, i, j);
    }
    TrackHolds(Canon(m, ws, roles), m, ws, m.justice[i][j], t, PrevSat(PrevLits(Prev(states, t), i), j),
               states[t].justice[i].lits[j], states[t].loop);
  }

  lemma CanonJusticeSat(m: Model, ws: seq<Valuation>, roles: seq<Role>, join: seq<int>, states: seq<State>, t: nat, i: nat)
    requires Encoded(m, roles, join, states) && Run(m, ws) && t < |states| == |ws|
    requires i < |m.justice|
    ensures |states[t].justice| == |m.justice|
    ensures Holds(Canon(m, ws, roles), states[t].justice[i].sat) == JusticeDone(m, ws, i, t)
  {
    FrameJustice(m, roles, join, states, t);
    CanonVar(m, ws, roles, states[t].justice[i].sat, JusticeSatVar(t, i));
  }

  lemma CanonJustice(m: Model, ws: seq<Valuation>, roles: seq<Role>, join: seq<int>, states: seq<State>, t: nat)
    requires Encoded(m, roles, join, states) && Run(m, ws) && t < |states| == |ws| && |m.justice| > 0
    requires Matches(Canon(m, ws, roles), m, ws[t], states[t]) && ShapeAt(m, states, t)
    ensures JusticeClauses(Canon(m, ws, roles), Prev(states, t), states[t])
  {
    var a, st := Canon(m, ws, roles), states[t];
    forall i | 0 <= i < |st.justice|
      ensures TrackAllClauses(a, PrevLits(Prev(states, t), i), st.justice[i].lits, st.loop)
      ensures Holds(a, st.justice[i].sat) ==> AllHold(a, Sats(st.justice[i].lits))
    {
      CanonJusticeSat(m, ws, roles, join, states, t, i);
      forall j | 0 <= j < |st.justice[i].lits|
        ensures TrackClauses(a, PrevSat(PrevLits(Prev(states, t), i), j), st.justice[i].lits[j], st.loop)
        ensures Holds(a, st.justice[i].sat) ==> Holds(a, Sats(st.justice[i].lits)[j])
      {
        CanonJusticeVar(m, ws, roles, join, states, t, i, j);
        CanonJusticeLit(m, ws, roles, join, states, t, i, j);
      }
    }
  }

  lemma CanonOneJustified(m: Model, ws: seq<Valuation>, roles: seq<Role>, join: seq<int>, states: seq<State>, t: nat)
    requires Encoded(m, roles, join, states) && Run(m, ws) && t < |states| == |ws| && |m.justice| > 0
    ensures OneJustifiedClauses(Canon(m, ws, roles), states[t])
    ensures Holds(Canon(m, ws, roles), states[t].onejustified) <==>
            SomeJusticeDone(m, ws, t) && AllSeenInLoop(m, ws, m.fairness, t)
  {
    FrameJustice(m, roles, join, states, t);
    if |m.justice| == 1 {
      CanonJusticeSat(m, ws, roles, join, states, t, 0);
      if SomeJusticeDone(m, ws, t) { assert JusticeDone(m, ws, 0, t); }
    } else {
      CanonVar(m, ws, roles, states[t].onejustified, OneJustifiedVar(t));
      if SomeJusticeDone(m, ws, t) {
        CanonSomeJustice(m, ws, roles, join, states, t);
      }
    }
  }

  lemma CanonSomeJustice(m: Model, ws: seq<Valuation>, roles: seq<Role>, join: seq<int>, states: seq<State>, t: nat)
    requires Encoded(m, roles, join, states) && Run(m, ws) && t < |states| == |ws|
    requires SomeJusticeDone(m, ws, t)
    ensures AnyHolds(Canon(m, ws, roles), JusticeSats(states[t].justice))
  {
    var i :| 0 <= i < |m.justice| && JusticeDone(m, ws, i, t);
    CanonJusticeSat(m, ws, roles, join, states, t, i);
    assert Holds(Canon(m, ws, roles), JusticeSats(states[t].justice)[i]);
  }

  lemma CanonFairVar(m: Model, ws: seq<Valuation>, roles: seq<Role>, join: seq<int>, states: seq<State>, t: nat, j: nat)
    requires Encoded(m, roles, join, states) && Run(m, ws) && t < |states| == |ws| && |m.justice| > 0
    requires j < |m.fairness| && Matches(Canon(m, ws, roles), m, ws[t], states[t])
    ensures |states[t].fairness| == |m.fairness|
    ensures var cur := states[t].fairness[j];
      && Holds(Canon(m, ws, roles), cur.sat) == SeenInLoop(m, ws, m.fairness[j], t)
      && Holds(Canon(m, ws, roles), cur.lit) == LitAt(ws, m.fairness[j], t)
  {
    FrameFairLit(m, roles, join, states, t, j);
    CanonVar(m, ws, roles, states[t].fairness[j].sat, FairVar(t, j));
    MatchesLit(Canon(m, ws, roles), m, ws[t], states[t], m.fairness[j]);
  }

  lemma CanonFairLit(m: Model, ws: seq<Valuation>, roles: seq<Role>, join: seq<int>, states: seq<State>, t: nat, j: nat)
    requires Encoded(m, roles, join, states) && Run(m, ws) && t < |states| == |ws| && |m.justice| > 0
    requires j < |m.fairness|
    requires Matches(Canon(m, ws, roles), m, ws[t], states[t])
    ensures |states[t].fairness| == |m.fairness| && (t > 0 ==> |states[t - 1].fairness| == |m.fairness|)
    ensures TrackClauses(Canon(m, ws, roles), PrevSat(PrevFair(Prev(states, t)), j), states[t].fairness[j], states[t].loop)
  {
    CanonFairVar(m, ws, roles, join, states, t, j);
    CanonLoopLits(m, ws, roles, join, states, t);
    if t > 0 {
      CanonMatches(m, ws, roles, join, states, t - 1);
      CanonFairVar(m, ws, roles, join, states, t - 1, j);
    }
    TrackHolds(Canon(m, ws, roles), m, ws, m.fairness[j], t, PrevSat(PrevFair(Prev(states, t)), j),
               states[t].fairness[j], states[t].loop);
  }

  lemma CanonAllFair(m: Model, ws: seq<Valuation>, roles: seq<Role>, join: seq<int>, states: seq<State>, t: nat)
    requires Encoded(m, roles, join, states) && Run(m, ws) && t < |states| == |ws| && |m.justice| > 0
    requires |m.fairness| > 0 && Matches(Canon(m, ws, roles), m, ws[t], states[t])
    ensures Holds(Canon(m, ws, roles), states[t].allfair) == AllSeenInLoop(m, ws, m.fairness, t)
  {
    FrameFair(m, roles, join, states, t);
    if |m.fairness| > 1 {
      CanonVar(m, ws, roles, states[t].allfair, AllFairVar(t));
    } else {
      CanonFairVar(m, ws, roles, join, states, t, 0);
    }
  }

  lemma CanonFair(m: Model, ws: seq<Valuation>, roles: seq<Role>, join: seq<int>, states: seq<State>, t: nat)
    requires Encoded(m, roles, join, states) && Run(m, ws) && t < |states| == |ws| && |m.justice| > 0
    requires |m.fairness| > 0
    requires Matches(Canon(m, ws, roles), m, ws[t], states[t]) && ShapeAt(m, states, t)
    ensures FairClauses(Canon(m, ws, roles), Prev(states, t), states[t])
  {
    var a, st := Canon(m, ws, roles), states[t];
    forall j | 0 <= j < |st.fairness|
      ensures TrackClauses(a, PrevSat(PrevFair(Prev(states, t)), j), st.fairness[j], st.loop)
    {
      CanonFairLit(m, ws, roles, join, states, t, j);
    }
    CanonAllFair(m, ws, roles, join, states, t);
    forall j | 0 <= j < |st.fairness| && Holds(a, st.allfair)
      ensures Holds(a, Sats(st.fairness)[j])
    {
      CanonFairVar(m, ws, roles, join, states, t, j);
    }
    CanonOneJustified(m, ws, roles, join, states, t);
  }

  /** A fair lasso shows every tracked literal inside the loop. */
  lemma LassoSeenInLoop(m: Model, ws: seq<Valuation>, lits: seq<nat>, l: nat)
    requires InRange(m) && Run(m, ws) && AllBelow(lits, m.maxvar + 1) && l < |ws|
    requires LoopsBackTo(m, ws, l) && AllSeenSince(m, ws, lits, l)
    ensures AllSeenInLoop(m, ws, lits, |ws| - 1)
  {
    forall j | 0 <= j < |lits| ensures SeenInLoop(m, ws, lits[j], |ws| - 1) {
      assert SeenSince(ws, lits[j], l);
      var t :| l <= t < |ws| && LitVal(ws[t], lits[j]);
      assert LoopedBy(m, ws, t) && LitAt(ws, lits[j], t);
    }
  }

  lemma AcceptedIsDone(m: Model, ws: seq<Valuation>, p: nat)
    requires InRange(m) && Run(m, ws) && p < |m.justice| && Accepted(m, ws, p)
    ensures SomeJusticeDone(m, ws, |ws| - 1) && AllSeenInLoop(m, ws, m.fairness, |ws| - 1)
  {
    if !Ungrounded(m, p) {
      var l :| 0 <= l < |ws| && LoopsBackTo(m, ws, l)
               && AllSeenSince(m, ws, m.justice[p], l) && AllSeenSince(m, ws, m.fairness, l);
      LassoSeenInLoop(m, ws, m.justice[p], l);
      LassoSeenInLoop(m, ws, m.fairness, l);
    }
    assert JusticeDone(m, ws, p, |ws| - 1);
  }

  lemma CanonGoal(m: Model, ws: seq<Valuation>, roles: seq<Role>, join: seq<int>, states: seq<State>, t: nat)
    requires Encoded(m, roles, join, states) && Run(m, ws) && t < |states| == |ws|
    requires Matches(Canon(m, ws, roles), m, ws[t], states[t]) && Reported(m, ws)
    ensures GoalClause(Canon(m, ws, roles), m, states[t])
  {
    FrameInputs(m, roles, join, states, t);
    CanonVar(m, ws, roles, states[t].assumption, AssumeVar(t));
    if t == |ws| - 1 {
      if BadAtEnd(m, ws) {
        var i :| 0 <= i < |m.bad| && LitVal(ws[t], m.bad[i]);
        assert LitAt(ws, m.bad[i], t);
        CanonBad(m, ws, roles, join, states, t);
      } else {
        var p :| 0 <= p < |m.justice| && Accepted(m, ws, p);
        AcceptedIsDone(m, ws, p);
        CanonOneJustified(m, ws, roles, join, states, t);
      }
    }
  }

  lemma CanonFrame(m: Model, ws: seq<Valuation>, roles: seq<Role>, join: seq<int>, states: seq<State>, t: nat)
    requires Encoded(m, roles, join, states) && t < |states| == |ws| && Reported(m, ws)
    ensures Frame(Canon(m, ws, roles), m, roles, join, states, t)
  {
    var a := Canon(m, ws, roles);
    LayoutShape(m, roles, join, states, t);
    CanonMatches(m, ws, roles, join, states, t);
    forall i | 0 <= i < |m.ands|
      ensures CanImport(m, states[t], m.ands[i].rhs0) && CanImport(m, states[t], m.ands[i].rhs1)
      ensures Holds(a, states[t].ands[i]) <==>
              Holds(a, Import(m, states[t], m.ands[i].rhs0)) && Holds(a, Import(m, states[t], m.ands[i].rhs1))
    {
      CanonGates(m, ws, roles, join, states, t, i);
    }
    CanonBad(m, ws, roles, join, states, t);
    CanonSane(m, ws, roles, join, states, t);
    if |m.justice| > 0 {
      CanonLoop(m, ws, roles, join, states, t);
      CanonJustice(m, ws, roles, join, states, t);
      CanonOneJustified(m, ws, roles, join, states, t);
      if |m.fairness| > 0 { CanonFair(m, ws, roles, join, states, t); }
    }
    CanonGoal(m, ws, roles, join, states, t);
  }

  /** Completeness of the encoding. */
  lemma ReportedRunSatisfies(m: Model, ws: seq<Valuation>, roles: seq<Role>, join: seq<int>, states: seq<State>, k: nat)
    requires Encoded(m, roles, join, states) && |states| == |ws| == k + 1 && Reported(m, ws)
    ensures AllClauses(Canon(m, ws, roles), m, roles, join, states, k)
    ensures Holds(Canon(m, ws, roles), states[k].assumption)
  {
    var a := Canon(m, ws, roles);
    forall t | 0 <= t < |states| ensures Frame(a, m, roles, join, states, t) {
      CanonFrame(m, ws, roles, join, states, t);
    }
    forall t | 0 <= t < |states| ensures Holds(a, states[t].assumption) == (t == k) {
      FrameInputs(m, roles, join, states, t);
      CanonVar(m, ws, roles, states[t].assumption, AssumeVar(t));
    }
    forall t | 0 <= t < k ensures Negated(a, states, t) {}
  }

  /** The clauses of frames 0..k, with the earlier assumptions negated, are satisfiable under
      the assumption of frame k exactly when some run of k + 1 frames is reported. */
  lemma EncodingExact(m: Model, roles: seq<Role>, join: seq<int>, states: seq<State>, k: nat)
    requires Encoded(m, roles, join, states) && |states| == k + 1
    ensures (exists a :: AllClauses(a, m, roles, join, states, k) && Holds(a, states[k].assumption)) <==>
            (exists ws :: |ws| == k + 1 && Reported(m, ws))
  {
    if a :| AllClauses(a, m, roles, join, states, k) && Holds(a, states[k].assumption) {
      SatisfyingRunReported(a, m, roles, join, states, k);
      assert |ExtractRun(a, m, states)| == k + 1;
    }
    if ws :| |ws| == k + 1 && Reported(m, ws) {
      ReportedRunSatisfies(m, ws, roles, join, states, k);
    }
  }
}
