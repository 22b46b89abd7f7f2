/** The meaning of the clauses that `aigbmc` emits for one time frame, and the proof that all
    frames together are satisfiable exactly for the runs of `BmcSpec.Reported`. */
module BmcEncoding {
  import opened Aiger
  import opened BmcSpec
  import opened Cnf

  datatype Option<T> = None | Some(value: T)

  /** A literal of the model in one frame, and the variable that tracks it along the lasso. */
  datatype Tracked = Tracked(lit: int, sat: int)
  datatype Justice = Justice(lits: seq<Tracked>, sat: int)

  /** The solver literals of one time frame. */
  datatype State = State(
    inputs: seq<int>,
    latches: seq<int>,
    nexts: seq<int>,
    ands: seq<int>,
    assumption: int,
    bad: seq<int>,
    onebad: int,
    constraints: seq<int>,
    sane: int,
    join: int,
    loop: int,
    justice: seq<Justice>,
    onejustified: int,
    fairness: seq<Tracked>,
    allfair: int)

  /** What each solver variable was allocated for. */
  datatype Role =
    | One
    | JoinVar(i: nat)
    | ResetVar(i: nat)
    | InputVar(t: nat, i: nat)
    | AndVar(t: nat, i: nat)
    | AssumeVar(t: nat)
    | OneBadVar(t: nat)
    | SaneVar(t: nat)
    | JoinedVar(t: nat)
    | LoopVar(t: nat)
    | JusticeLitVar(t: nat, i: nat, j: nat)
    | JusticeSatVar(t: nat, i: nat)
    | OneJustifiedVar(t: nat)
    | FairVar(t: nat, i: nat)
    | AllFairVar(t: nat)

  predicate IsVar(roles: seq<Role>, l: int, r: Role) {
    1 <= l <= |roles| && roles[l - 1] == r
  }

  // ----- Importing a model literal into a frame ------------------------------------------

  predicate HasVar(m: Model, st: State, idx: nat) {
    && |st.inputs| == |m.inputs|
    && |st.latches| == |m.latches|
    && idx < FirstAnd(m) + |st.ands|
  }

  predicate CanImport(m: Model, st: State, ulit: nat) {
    HasVar(m, st, ulit / 2)
  }

  function ImportVar(m: Model, st: State, idx: nat): int
    requires HasVar(m, st, idx)
  {
    if idx == 0 then -1
    else if idx < FirstLatch(m) then st.inputs[idx - 1]
    else if idx < FirstAnd(m) then st.latches[idx - FirstLatch(m)]
    else st.ands[idx - FirstAnd(m)]
  }

  function Import(m: Model, st: State, ulit: nat): int
    requires CanImport(m, st, ulit)
  {
    if ulit % 2 == 1 then -ImportVar(m, st, ulit / 2) else ImportVar(m, st, ulit / 2)
  }

  ghost predicate ImportsAll(m: Model, st: State, ulits: seq<nat>, lits: seq<int>) {
    && |lits| == |ulits|
    && forall i :: 0 <= i < |ulits| ==> CanImport(m, st, ulits[i]) && lits[i] == Import(m, st, ulits[i])
  }

  // ----- Which literal is which -----------------------------------------------------------

  ghost predicate JoinLayout(m: Model, roles: seq<Role>, join: seq<int>) {
    && |roles| > 0 && roles[0] == One
    && (|m.justice| > 0 ==>
          && |join| == |m.latches|
          && forall i :: 0 <= i < |join| ==> IsVar(roles, join[i], JoinVar(i)))
  }

  ghost predicate LatchLayout(m: Model, roles: seq<Role>, prev: Option<State>, st: State) {
    && |st.latches| == |m.latches|
    && match prev
       case Some(p) => st.latches == p.nexts
       case None =>
         forall i :: 0 <= i < |m.latches| ==>
                       if m.latches[i].reset == 0 then st.latches[i] == -1
                       else if m.latches[i].reset == 1 then st.latches[i] == 1
                       else IsVar(roles, st.latches[i], ResetVar(i))
  }

  ghost predicate InputLayout(m: Model, roles: seq<Role>, t: nat, st: State, n: nat) {
    && |st.inputs| == n
    && forall i :: 0 <= i < n ==> IsVar(roles, st.inputs[i], InputVar(t, i))
  }

  ghost predicate AndLayout(m: Model, roles: seq<Role>, t: nat, st: State, n: nat) {
    && |st.ands| == n
    && forall i :: 0 <= i < n ==> IsVar(roles, st.ands[i], AndVar(t, i))
  }

  ghost predicate BadLayout(m: Model, roles: seq<Role>, t: nat, st: State) {
    && ImportsAll(m, st, m.bad, st.bad)
    && (|m.bad| == 1 ==> st.onebad == st.bad[0])
    && (|m.bad| > 1 ==> IsVar(roles, st.onebad, OneBadVar(t)))
  }

  ghost predicate ConstraintLayout(m: Model, roles: seq<Role>, t: nat, st: State) {
    && ImportsAll(m, st, m.constraints, st.constraints)
    && (|m.constraints| > 0 ==> IsVar(roles, st.sane, SaneVar(t)))
  }

  ghost predicate LoopLayout(roles: seq<Role>, t: nat, st: State) {
    && IsVar(roles, st.join, JoinedVar(t))
    && (t == 0 ==> st.loop == st.join)
    && (t > 0 ==> IsVar(roles, st.loop, LoopVar(t)))
  }

  ghost predicate JusticeLitsLayout(m: Model, roles: seq<Role>, t: nat, st: State, i: nat, lits: seq<Tracked>, n: nat)
    requires i < |m.justice| && n <= |m.justice[i]|
  {
    && |lits| == n
    && forall j :: 0 <= j < n ==>
                     && CanImport(m, st, m.justice[i][j])
                     && lits[j].lit == Import(m, st, m.justice[i][j])
                     && IsVar(roles, lits[j].sat, JusticeLitVar(t, i, j))
  }

  ghost predicate JusticeLayout(m: Model, roles: seq<Role>, t: nat, st: State, n: nat)
    requires n <= |m.justice|
  {
    && |st.justice| == n
    && forall i :: 0 <= i < n ==>
                     && JusticeLitsLayout(m, roles, t, st, i, st.justice[i].lits, |m.justice[i]|)
                     && IsVar(roles, st.justice[i].sat, JusticeSatVar(t, i))
  }

  ghost predicate OneJustifiedLayout(m: Model, roles: seq<Role>, t: nat, st: State)
    requires |st.justice| == |m.justice|
  {
    && (|m.justice| == 1 ==> st.onejustified == st.justice[0].sat)
    && (|m.justice| > 1 ==> IsVar(roles, st.onejustified, OneJustifiedVar(t)))
  }

  ghost predicate FairLayout(m: Model, roles: seq<Role>, t: nat, st: State, n: nat)
    requires n <= |m.fairness|
  {
    && |st.fairness| == n
    && forall i :: 0 <= i < n ==>
                     && CanImport(m, st, m.fairness[i])
                     && st.fairness[i].lit == Import(m, st, m.fairness[i])
                     && IsVar(roles, st.fairness[i].sat, FairVar(t, i))
  }

  ghost predicate AllFairLayout(m: Model, roles: seq<Role>, t: nat, st: State)
    requires |st.fairness| == |m.fairness|
  {
    && (|m.fairness| == 1 ==> st.allfair == st.fairness[0].sat)
    && (|m.fairness| > 1 ==> IsVar(roles, st.allfair, AllFairVar(t)))
  }

  ghost predicate LivenessLayout(m: Model, roles: seq<Role>, t: nat, st: State) {
    |m.justice| > 0 ==>
      && LoopLayout(roles, t, st)
      && JusticeLayout(m, roles, t, st, |m.justice|)
      && OneJustifiedLayout(m, roles, t, st)
      && (|m.fairness| > 0 ==>
            FairLayout(m, roles, t, st, |m.fairness|) && AllFairLayout(m, roles, t, st))
  }

  ghost predicate CircuitLayout(m: Model, roles: seq<Role>, t: nat, prev: Option<State>, st: State) {
    && (t == 0 <==> prev.None?)
    && LatchLayout(m, roles, prev, st)
    && InputLayout(m, roles, t, st, |m.inputs|)
    && AndLayout(m, roles, t, st, |m.ands|)
    && |st.nexts| == |m.latches|
    && (forall i :: 0 <= i < |m.latches| ==>
          CanImport(m, st, m.latches[i].next) && st.nexts[i] == Import(m, st, m.latches[i].next))
    && IsVar(roles, st.assumption, AssumeVar(t))
  }

  ghost predicate FrameLayout(m: Model, roles: seq<Role>, t: nat, prev: Option<State>, st: State) {
    && CircuitLayout(m, roles, t, prev, st)
    && BadLayout(m, roles, t, st)
    && ConstraintLayout(m, roles, t, st)
    && LivenessLayout(m, roles, t, st)
  }

  function Prev(states: seq<State>, t: nat): Option<State>
    requires t <= |states|
  {
    if t == 0 then None else Some(states[t - 1])
  }

  ghost predicate Layout(m: Model, roles: seq<Role>, join: seq<int>, states: seq<State>) {
    && JoinLayout(m, roles, join)
    && forall t :: 0 <= t < |states| ==> FrameAt(m, roles, states, t)
  }

  ghost predicate FrameAt(m: Model, roles: seq<Role>, states: seq<State>, t: nat)
    requires t < |states|
  {
    FrameLayout(m, roles, t, Prev(states, t), states[t])
  }

  ghost predicate ShapeAt(m: Model, states: seq<State>, t: nat)
    requires t < |states|
  {
    FrameShape(m, Prev(states, t), states[t])
  }

  // ----- What the clauses of one frame say ------------------------------------------------

  ghost predicate GateClauses(a: Assignment, m: Model, st: State, n: nat)
    requires n <= |m.ands| && n <= |st.ands|
    requires forall i :: 0 <= i < n ==> CanImport(m, st, m.ands[i].rhs0) && CanImport(m, st, m.ands[i].rhs1)
  {
    forall i :: 0 <= i < n ==>
                  (Holds(a, st.ands[i]) <==>
                   Holds(a, Import(m, st, m.ands[i].rhs0)) && Holds(a, Import(m, st, m.ands[i].rhs1)))
  }

  ghost predicate AnyHolds(a: Assignment, ls: seq<int>) {
    ClauseHolds(a, ls)
  }

  ghost predicate AllHold(a: Assignment, ls: seq<int>) {
    forall i :: 0 <= i < |ls| ==> Holds(a, ls[i])
  }

  ghost predicate BadClauses(a: Assignment, st: State) {
    |st.bad| > 1 && Holds(a, st.onebad) ==> AnyHolds(a, st.bad)
  }

  ghost predicate SaneClauses(a: Assignment, prev: Option<State>, st: State) {
    |st.constraints| > 0 ==>
      && (Holds(a, st.sane) ==> AllHold(a, st.constraints))
      && (Holds(a, st.sane) && prev.Some? ==> Holds(a, prev.value.sane))
      && (Holds(a, st.assumption) ==> Holds(a, st.sane))
  }

  ghost predicate SameState(a: Assignment, join: seq<int>, lits: seq<int>)
    requires |join| == |lits|
  {
    forall i :: 0 <= i < |join| ==> (Holds(a, join[i]) <==> Holds(a, lits[i]))
  }

  ghost predicate LoopClauses(a: Assignment, join: seq<int>, prev: Option<State>, st: State)
    requires |join| == |st.latches| == |st.nexts|
  {
    && (prev.Some? && Holds(a, st.loop) ==> Holds(a, st.join) || Holds(a, prev.value.loop))
    && (Holds(a, st.join) ==> SameState(a, join, st.latches))
    && (Holds(a, st.assumption) ==> SameState(a, join, st.nexts))
  }

  /** A tracked literal is satisfied when it already was, or holds now inside the loop. */
  ghost predicate TrackClauses(a: Assignment, prev: Option<int>, cur: Tracked, loop: int) {
    Holds(a, cur.sat) ==>
      (prev.Some? && Holds(a, prev.value)) || (Holds(a, cur.lit) && Holds(a, loop))
  }

  function Sats(ls: seq<Tracked>): (r: seq<int>)
    ensures |r| == |ls|
    ensures forall i :: 0 <= i < |ls| ==> r[i] == ls[i].sat
  {
    seq(|ls|, i requires 0 <= i < |ls| => ls[i].sat)
  }

  function JusticeSats(ls: seq<Justice>): (r: seq<int>)
    ensures |r| == |ls|
    ensures forall i :: 0 <= i < |ls| ==> r[i] == ls[i].sat
  {
    seq(|ls|, i requires 0 <= i < |ls| => ls[i].sat)
  }

  function PrevSat(prev: Option<seq<Tracked>>, j: nat): Option<int>
    requires prev.Some? ==> j < |prev.value|
  {
    match prev case None => None case Some(ls) => Some(ls[j].sat)
  }

  ghost predicate TrackAllClauses(a: Assignment, prev: Option<seq<Tracked>>, lits: seq<Tracked>, loop: int)
    requires prev.Some? ==> |lits| <= |prev.value|
  {
    forall j :: 0 <= j < |lits| ==> TrackClauses(a, PrevSat(prev, j), lits[j], loop)
  }

  function PrevLits(prev: Option<State>, i: nat): Option<seq<Tracked>>
    requires prev.Some? ==> i < |prev.value.justice|
  {
    match prev case None => None case Some(p) => Some(p.justice[i].lits)
  }

  function PrevFair(prev: Option<State>): Option<seq<Tracked>> {
    match prev case None => None case Some(p) => Some(p.fairness)
  }

  ghost predicate JusticeClauses(a: Assignment, prev: Option<State>, st: State)
    requires prev.Some? ==> |st.justice| <= |prev.value.justice|
    requires prev.Some? ==> forall i :: 0 <= i < |st.justice| ==> |st.justice[i].lits| <= |prev.value.justice[i].lits|
  {
    forall i :: 0 <= i < |st.justice| ==>
                  && TrackAllClauses(a, PrevLits(prev, i), st.justice[i].lits, st.loop)
                  && (Holds(a, st.justice[i].sat) ==> AllHold(a, Sats(st.justice[i].lits)))
  }

  ghost predicate OneJustifiedClauses(a: Assignment, st: State) {
    |st.justice| > 1 && Holds(a, st.onejustified) ==> AnyHolds(a, JusticeSats(st.justice))
  }

  ghost predicate FairClauses(a: Assignment, prev: Option<State>, st: State)
    requires prev.Some? ==> |st.fairness| <= |prev.value.fairness|
  {
    && TrackAllClauses(a, PrevFair(prev), st.fairness, st.loop)
    && (|st.fairness| > 1 && Holds(a, st.allfair) ==> AllHold(a, Sats(st.fairness)))
    && (Holds(a, st.onejustified) ==> Holds(a, st.allfair))
  }

  ghost predicate GoalClause(a: Assignment, m: Model, st: State) {
    Holds(a, st.assumption) ==>
      (|m.bad| > 0 && Holds(a, st.onebad)) || (|m.justice| > 0 && Holds(a, st.onejustified))
  }

  ghost predicate FrameShape(m: Model, prev: Option<State>, st: State) {
    && |st.inputs| == |m.inputs|
    && |st.ands| == |m.ands|
    && |st.latches| == |st.nexts| == |m.latches|
    && |st.bad| == |m.bad| && |st.constraints| == |m.constraints|
    && (|m.justice| > 0 ==>
          && JusticeShape(m, st)
          && (prev.Some? ==> JusticeShape(m, prev.value))
          && (|m.fairness| > 0 ==> |st.fairness| == |m.fairness| && (prev.Some? ==> |prev.value.fairness| == |m.fairness|)))
  }

  ghost predicate JusticeShape(m: Model, st: State) {
    && |st.justice| == |m.justice|
    && forall i :: 0 <= i < |m.justice| ==> |st.justice[i].lits| == |m.justice[i]|
  }

  /** A re-encoded model and the literals allocated for its first frames. */
  ghost predicate Encoded(m: Model, roles: seq<Role>, join: seq<int>, states: seq<State>) {
    && Reencoded(m)
    && InRange(m)
    && (forall i :: 0 <= i < |m.latches| ==> LegalReset(m.latches[i]))
    && Layout(m, roles, join, states)
  }

  lemma LayoutShape(m: Model, roles: seq<Role>, join: seq<int>, states: seq<State>, t: nat)
    requires Encoded(m, roles, join, states) && t < |states|
    ensures ShapeAt(m, states, t)
  {
    assert FrameAt(m, roles, states, t);
    if t > 0 {
      assert FrameAt(m, roles, states, t - 1);
    }
  }

  ghost predicate LivenessClauses(a: Assignment, m: Model, join: seq<int>, prev: Option<State>, st: State)
    requires |join| == |st.latches| == |st.nexts|
    requires JusticeShape(m, st) && (prev.Some? ==> JusticeShape(m, prev.value))
    requires |m.fairness| > 0 ==> prev.Some? ==> |st.fairness| <= |prev.value.fairness|
  {
    && LoopClauses(a, join, prev, st)
    && JusticeClauses(a, prev, st)
    && OneJustifiedClauses(a, st)
    && (|m.fairness| > 0 ==> FairClauses(a, prev, st))
  }

  ghost predicate FrameClauses(a: Assignment, m: Model, join: seq<int>, prev: Option<State>, st: State)
    requires Reencoded(m)
    requires FrameShape(m, prev, st) && (|m.justice| > 0 ==> |join| == |m.latches|)
  {
    && GateClauses(a, m, st, |m.ands|)
    && BadClauses(a, st)
    && SaneClauses(a, prev, st)
    && (|m.justice| > 0 ==> LivenessClauses(a, m, join, prev, st))
    && GoalClause(a, m, st)
  }

  /** All clauses of frames 0..|states|-1, the unit clause of variable 1, and the negated
      assumptions of the first `k` frames. */
  ghost predicate AllClauses(a: Assignment, m: Model, roles: seq<Role>, join: seq<int>, states: seq<State>, k: nat)
    requires Encoded(m, roles, join, states) && k <= |states|
  {
    && a(1)
    && (forall t :: 0 <= t < |states| ==> Frame(a, m, roles, join, states, t))
    && (forall t :: 0 <= t < k ==> Negated(a, states, t))
  }

  ghost predicate Negated(a: Assignment, states: seq<State>, t: nat)
    requires t < |states|
  {
    !Holds(a, states[t].assumption)
  }

  ghost predicate Frame(a: Assignment, m: Model, roles: seq<Role>, join: seq<int>, states: seq<State>, t: nat)
    requires Encoded(m, roles, join, states) && t < |states|
  {
    LayoutShape(m, roles, join, states, t);
    FrameClauses(a, m, join, Prev(states, t), states[t])
  }

  // ----- Reading facts off a frame --------------------------------------------------------

  lemma FrameSizes(m: Model, roles: seq<Role>, join: seq<int>, states: seq<State>, t: nat)
    requires Encoded(m, roles, join, states) && t < |states|
    ensures var st := states[t];
      && |st.inputs| == |m.inputs| && |st.latches| == |st.nexts| == |m.latches| && |st.ands| == |m.ands|
      && (forall i :: 0 <= i < |st.inputs| ==> st.inputs[i] > 0)
      && (forall i :: 0 <= i < |st.ands| ==> st.ands[i] > 0)
      && HasVar(m, st, NumVars(m) - 1)
  {
    assert FrameAt(m, roles, states, t);
  }

  lemma FrameInputs(m: Model, roles: seq<Role>, join: seq<int>, states: seq<State>, t: nat)
    requires Encoded(m, roles, join, states) && t < |states|
    ensures InputLayout(m, roles, t, states[t], |m.inputs|)
    ensures AndLayout(m, roles, t, states[t], |m.ands|)
    ensures IsVar(roles, states[t].assumption, AssumeVar(t))
  {
    assert FrameAt(m, roles, states, t);
  }

  lemma FrameLatches(m: Model, roles: seq<Role>, join: seq<int>, states: seq<State>, t: nat)
    requires Encoded(m, roles, join, states) && t < |states|
    ensures LatchLayout(m, roles, Prev(states, t), states[t])
  {
    assert FrameAt(m, roles, states, t);
  }

  lemma FrameNexts(m: Model, roles: seq<Role>, join: seq<int>, states: seq<State>, t: nat)
    requires Encoded(m, roles, join, states) && t < |states|
    ensures |states[t].nexts| == |m.latches|
    ensures forall i :: 0 <= i < |m.latches| ==>
      CanImport(m, states[t], m.latches[i].next) && states[t].nexts[i] == Import(m, states[t], m.latches[i].next)
  {
    assert FrameAt(m, roles, states, t);
  }

  lemma FrameProperties(m: Model, roles: seq<Role>, join: seq<int>, states: seq<State>, t: nat)
    requires Encoded(m, roles, join, states) && t < |states|
    ensures BadLayout(m, roles, t, states[t])
    ensures ConstraintLayout(m, roles, t, states[t])
  {
    assert FrameAt(m, roles, states, t);
  }

  lemma FrameLiveness(m: Model, roles: seq<Role>, join: seq<int>, states: seq<State>, t: nat)
    requires Encoded(m, roles, join, states) && t < |states|
    ensures LivenessLayout(m, roles, t, states[t])
  {
    assert FrameAt(m, roles, states, t);
  }

  lemma FrameLoop(m: Model, roles: seq<Role>, join: seq<int>, states: seq<State>, t: nat)
    requires Encoded(m, roles, join, states) && t < |states| && |m.justice| > 0
    ensures LoopLayout(roles, t, states[t])
  {
    FrameLiveness(m, roles, join, states, t);
  }

  lemma FrameJustice(m: Model, roles: seq<Role>, join: seq<int>, states: seq<State>, t: nat)
    requires Encoded(m, roles, join, states) && t < |states| && |m.justice| > 0
    ensures JusticeShape(m, states[t])
    ensures forall i :: 0 <= i < |m.justice| ==> IsVar(roles, states[t].justice[i].sat, JusticeSatVar(t, i))
    ensures OneJustifiedLayout(m, roles, t, states[t])
  {
    FrameLiveness(m, roles, join, states, t);
    forall i | 0 <= i < |m.justice| ensures |states[t].justice[i].lits| == |m.justice[i]| {
      assert JusticeLitsLayout(m, roles, t, states[t], i, states[t].justice[i].lits, |m.justice[i]|);
    }
  }

  lemma FrameJusticeLit(m: Model, roles: seq<Role>, join: seq<int>, states: seq<State>, t: nat, i: nat, j: nat)
    requires Encoded(m, roles, join, states) && t < |states|
    requires i < |m.justice| && j < |m.justice[i]|
    ensures |states[t].justice| == |m.justice| && |states[t].justice[i].lits| == |m.justice[i]|
    ensures CanImport(m, states[t], m.justice[i][j]) && m.justice[i][j] / 2 < NumVars(m)
    ensures states[t].justice[i].lits[j].lit == Import(m, states[t], m.justice[i][j])
    ensures IsVar(roles, states[t].justice[i].lits[j].sat, JusticeLitVar(t, i, j))
  {
    FrameLiveness(m, roles, join, states, t);
    assert JusticeLitsLayout(m, roles, t, states[t], i, states[t].justice[i].lits, |m.justice[i]|);
    assert AllBelow(m.justice[i], NumVars(m));
  }

  lemma FrameFair(m: Model, roles: seq<Role>, join: seq<int>, states: seq<State>, t: nat)
    requires Encoded(m, roles, join, states) && t < |states| && |m.justice| > 0 && |m.fairness| > 0
    ensures |states[t].fairness| == |m.fairness|
    ensures AllFairLayout(m, roles, t, states[t])
  {
    FrameLiveness(m, roles, join, states, t);
  }

  lemma FrameFairLit(m: Model, roles: seq<Role>, join: seq<int>, states: seq<State>, t: nat, j: nat)
    requires Encoded(m, roles, join, states) && t < |states| && |m.justice| > 0 && j < |m.fairness|
    ensures |states[t].fairness| == |m.fairness|
    ensures CanImport(m, states[t], m.fairness[j]) && m.fairness[j] / 2 < NumVars(m)
    ensures states[t].fairness[j].lit == Import(m, states[t], m.fairness[j])
    ensures IsVar(roles, states[t].fairness[j].sat, FairVar(t, j))
  {
    FrameLiveness(m, roles, join, states, t);
  }

  // ----- Reading facts off the clauses -----------------------------------------------------

  lemma GatesAt(a: Assignment, m: Model, roles: seq<Role>, join: seq<int>, states: seq<State>, k: nat, t: nat, i: nat)
    requires Encoded(m, roles, join, states) && k <= |states|
    requires AllClauses(a, m, roles, join, states, k) && t < |states| && i < |m.ands|
    ensures |states[t].ands| == |m.ands|
    ensures CanImport(m, states[t], m.ands[i].rhs0) && CanImport(m, states[t], m.ands[i].rhs1)
    ensures Holds(a, states[t].ands[i]) <==>
            Holds(a, Import(m, states[t], m.ands[i].rhs0)) && Holds(a, Import(m, states[t], m.ands[i].rhs1))
  {
    LayoutShape(m, roles, join, states, t);
    assert Frame(a, m, roles, join, states, t);
  }

  lemma BadAt(a: Assignment, m: Model, roles: seq<Role>, join: seq<int>, states: seq<State>, k: nat, t: nat)
    requires Encoded(m, roles, join, states) && k <= |states|
    requires AllClauses(a, m, roles, join, states, k) && t < |states|
    ensures ShapeAt(m, states, t)
    ensures BadClauses(a, states[t])
  {
    LayoutShape(m, roles, join, states, t);
    assert Frame(a, m, roles, join, states, t);
  }

  lemma SaneAt(a: Assignment, m: Model, roles: seq<Role>, join: seq<int>, states: seq<State>, k: nat, t: nat)
    requires Encoded(m, roles, join, states) && k <= |states|
    requires AllClauses(a, m, roles, join, states, k) && t < |states|
    ensures ShapeAt(m, states, t)
    ensures SaneClauses(a, Prev(states, t), states[t])
  {
    LayoutShape(m, roles, join, states, t);
    assert Frame(a, m, roles, join, states, t);
  }

  lemma LoopAt(a: Assignment, m: Model, roles: seq<Role>, join: seq<int>, states: seq<State>, k: nat, t: nat)
    requires Encoded(m, roles, join, states) && k <= |states|
    requires AllClauses(a, m, roles, join, states, k) && t < |states|
    requires |m.justice| > 0
    ensures ShapeAt(m, states, t)
    ensures |join| == |m.latches| && LoopClauses(a, join, Prev(states, t), states[t])
  {
    LayoutShape(m, roles, join, states, t);
    assert Frame(a, m, roles, join, states, t);
  }

  lemma JusticeAt(a: Assignment, m: Model, roles: seq<Role>, join: seq<int>, states: seq<State>, k: nat, t: nat)
    requires Encoded(m, roles, join, states) && k <= |states|
    requires AllClauses(a, m, roles, join, states, k) && t < |states|
    requires |m.justice| > 0
    ensures ShapeAt(m, states, t)
    ensures JusticeClauses(a, Prev(states, t), states[t])
  {
    LayoutShape(m, roles, join, states, t);
    assert Frame(a, m, roles, join, states, t);
  }

  lemma OneJustifiedAt(a: Assignment, m: Model, roles: seq<Role>, join: seq<int>, states: seq<State>, k: nat, t: nat)
    requires Encoded(m, roles, join, states) && k <= |states|
    requires AllClauses(a, m, roles, join, states, k) && t < |states|
    requires |m.justice| > 0
    ensures ShapeAt(m, states, t)
    ensures OneJustifiedClauses(a, states[t])
  {
    LayoutShape(m, roles, join, states, t);
    assert Frame(a, m, roles, join, states, t);
  }

  lemma FairAt(a: Assignment, m: Model, roles: seq<Role>, join: seq<int>, states: seq<State>, k: nat, t: nat)
    requires Encoded(m, roles, join, states) && k <= |states|
    requires AllClauses(a, m, roles, join, states, k) && t < |states|
    requires |m.justice| > 0
    requires |m.fairness| > 0
    ensures ShapeAt(m, states, t)
    ensures FairClauses(a, Prev(states, t), states[t])
  {
    LayoutShape(m, roles, join, states, t);
    assert Frame(a, m, roles, join, states, t);
  }

  lemma GoalAt(a: Assignment, m: Model, roles: seq<Role>, join: seq<int>, states: seq<State>, k: nat, t: nat)
    requires Encoded(m, roles, join, states) && k <= |states|
    requires AllClauses(a, m, roles, join, states, k) && t < |states|
    ensures ShapeAt(m, states, t)
    ensures GoalClause(a, m, states[t])
  {
    LayoutShape(m, roles, join, states, t);
    assert Frame(a, m, roles, join, states, t);
  }
}
