/** The bound loop of `aigbmc` and the witness it prints. */
module BmcMain {
  import opened Aiger
  import opened BmcSpec
  import opened Cnf
  import opened BmcEncoding
  import opened BmcSoundness
  import opened BmcCompleteness
  import opened Bmc

  /** The SAT solver, as an oracle: a model of the formula, or none when it has none. */
  type Oracle = seq<Clause> -> Option<Assignment>

  ghost predicate Correct(solve: Oracle) {
    forall cs :: match solve(cs) case Some(a) => Satisfies(a, cs) case None => !Satisfiable(cs)
  }

  datatype Outcome =
    | NoProperties
    | Unsupported
    | NoWitness
    | Found(k: nat, bad: seq<nat>, justice: seq<nat>, init: seq<bool>, inputs: seq<seq<bool>>)

  // ----- The meaning of the formula between two solver calls -------------------------------

  /** The formula is exactly the clauses of the encoded frames, with `k` assumptions negated. */
  ghost predicate Means(clauses: seq<Clause>, m: Model, roles: seq<Role>, join: seq<int>, states: seq<State>, k: nat)
    requires k <= |states|
  {
    if |states| == 0 then
      forall a :: Satisfies(a, clauses) <==> a(1)
    else
      && Encoded(m, roles, join, states)
      && forall a :: Satisfies(a, clauses) <==> AllClauses(a, m, roles, join, states, k)
  }

  lemma AllClausesGrow(a: Assignment, m: Model, r: seq<Role>, r': seq<Role>, join: seq<int>, states: seq<State>, states': seq<State>)
    requires |states'| == |states| + 1 && states'[..|states|] == states
    requires Encoded(m, r', join, states') && (|states| > 0 ==> Encoded(m, r, join, states))
    ensures AllClauses(a, m, r', join, states', |states|) <==>
      && (if |states| == 0 then a(1) else AllClauses(a, m, r, join, states, |states|))
      && Frame(a, m, r', join, states', |states|)
  {
    var n := |states|;
    forall t | 0 <= t < n
      ensures Frame(a, m, r, join, states, t) <==> Frame(a, m, r', join, states', t)
      ensures Negated(a, states, t) <==> Negated(a, states', t)
    {
      assert states[t] == states'[t];
      assert Prev(states, t) == Prev(states', t);
    }
  }

  lemma MeansGrow(c: seq<Clause>, c': seq<Clause>, m: Model, r: seq<Role>, r': seq<Role>, join: seq<int>,
                  states: seq<State>, states': seq<State>)
    requires |states'| == |states| + 1 && states'[..|states|] == states
    requires Means(c, m, r, join, states, |states|) && Encoded(m, r', join, states')
    requires forall a :: Satisfies(a, c') <==> Satisfies(a, c) && Frame(a, m, r', join, states', |states|)
    ensures Means(c', m, r', join, states', |states|)
  {
    forall a ensures Satisfies(a, c') <==> AllClauses(a, m, r', join, states', |states|) {
      AllClausesGrow(a, m, r, r', join, states, states');
    }
  }

  lemma MeansNegated(c: seq<Clause>, c': seq<Clause>, m: Model, roles: seq<Role>, join: seq<int>, states: seq<State>, k: nat)
    requires k < |states| && Means(c, m, roles, join, states, k)
    requires states[k].assumption > 0
    requires forall a :: Satisfies(a, c') <==> Satisfies(a, c) && Holds(a, -states[k].assumption)
    ensures Means(c', m, roles, join, states, k + 1)
  {
    forall a ensures Satisfies(a, c') <==> AllClauses(a, m, roles, join, states, k + 1) {
      assert Satisfies(a, c') <==> AllClauses(a, m, roles, join, states, k) && Negated(a, states, k);
    }
  }

  /** No model of the formula under the assumption: no reported run of this length. */
  lemma UnsatMeansNoRun(c: seq<Clause>, m: Model, roles: seq<Role>, join: seq<int>, states: seq<State>, k: nat)
    requires |states| == k + 1 && Means(c, m, roles, join, states, k)
    requires !Satisfiable(c + [[states[k].assumption]])
    ensures forall ws :: |ws| == k + 1 ==> !Reported(m, ws)
  {
    EncodingExact(m, roles, join, states, k);
    forall a ensures !(AllClauses(a, m, roles, join, states, k) && Holds(a, states[k].assumption)) {
      SatisfiesSnoc(a, c, [states[k].assumption]);
      ClauseHolds1(a, states[k].assumption);
    }
  }

  lemma SatMeansClauses(a: Assignment, c: seq<Clause>, m: Model, roles: seq<Role>, join: seq<int>, states: seq<State>, k: nat)
    requires |states| == k + 1 && Means(c, m, roles, join, states, k)
    requires Satisfies(a, c + [[states[k].assumption]])
    ensures AllClauses(a, m, roles, join, states, k) && Holds(a, states[k].assumption)
  {
    SatisfiesSnoc(a, c, [states[k].assumption]);
    ClauseHolds1(a, states[k].assumption);
  }

  // ----- The printed witness ---------------------------------------------------------------

  /** The run starts in the printed latch state and reads the printed inputs. */
  ghost predicate Replays(m: Model, ws: seq<Valuation>, init: seq<bool>, inputs: seq<seq<bool>>)
    requires Reencoded(m) && InRange(m) && Run(m, ws)
  {
    && |init| == |m.latches| && |inputs| == |ws|
    && (forall i :: 0 <= i < |m.latches| ==> init[i] == LitVal(ws[0], m.latches[i].lit))
    && (forall t :: 0 <= t < |ws| ==> ReplaysFrame(m, ws[t], inputs[t]))
  }

  ghost predicate ReplaysFrame(m: Model, w: Valuation, ins: seq<bool>)
    requires InRange(m) && |w| == m.maxvar + 1
  {
    |ins| == |m.inputs| && forall i :: 0 <= i < |m.inputs| ==> ins[i] == LitVal(w, m.inputs[i])
  }

  /** The literals of justice property `p` alone recur on a loop; fairness is not required. */
  ghost predicate OwnLasso(m: Model, ws: seq<Valuation>, p: nat)
    requires InRange(m) && Run(m, ws) && p < |m.justice|
  {
    m.justice[p] == [] || exists l :: 0 <= l < |ws| && LoopsBackTo(m, ws, l) && AllSeenSince(m, ws, m.justice[p], l)
  }

  /** What the `b` and `j` lines of the witness mean for a run. */
  ghost predicate HonestReport(m: Model, ws: seq<Valuation>, bad: seq<nat>, justice: seq<nat>)
    requires InRange(m) && Run(m, ws)
  {
    && |bad| + |justice| > 0
    && (forall i :: i in bad <==> 0 <= i < |m.bad| && LitVal(ws[|ws| - 1], m.bad[i]))
    && (forall p :: p in justice ==> p < |m.justice| && OwnLasso(m, ws, p))
    && (bad == [] || |m.justice| == 1 ==> forall p :: p in justice ==> p < |m.justice| && Accepted(m, ws, p))
  }

  lemma {:induction false} ReplayUnique(m: Model, ws: seq<Valuation>, ws': seq<Valuation>, init: seq<bool>, inputs: seq<seq<bool>>)
    requires Reencoded(m) && InRange(m) && Run(m, ws) && Run(m, ws')
    requires Replays(m, ws, init, inputs) && Replays(m, ws', init, inputs)
    ensures |ws| == |ws'|
    ensures forall t, v :: 0 <= t < |ws| && 0 <= v < NumVars(m) ==> ws[t][v] == ws'[t][v]
  {
    forall t, v | 0 <= t < |ws| && 1 <= v < FirstLatch(m) ensures ws[t][v] == ws'[t][v] {
      assert ReplaysFrame(m, ws[t], inputs[t]) && ReplaysFrame(m, ws'[t], inputs[t]);
      assert m.inputs[v - 1] == 2 * v;
    }
    forall v | FirstLatch(m) <= v < FirstAnd(m) ensures ws[0][v] == ws'[0][v] {
      var i := v - FirstLatch(m);
      assert m.latches[i].lit == 2 * v;
      assert init[i] == LitVal(ws[0], m.latches[i].lit) == LitVal(ws'[0], m.latches[i].lit);
    }
    RunDeterministic(m, ws, ws', |ws|);
  }

  ghost predicate Agree(m: Model, ws: seq<Valuation>, ws': seq<Valuation>)
    requires InRange(m) && Run(m, ws) && Run(m, ws')
  {
    |ws| == |ws'| && forall t, l :: 0 <= t < |ws| && 0 <= l < 2 * NumVars(m) && l <= 2 * m.maxvar + 1 ==>
      LitVal(ws[t], l) == LitVal(ws'[t], l)
  }

  lemma SeenAgree(m: Model, ws: seq<Valuation>, ws': seq<Valuation>, lits: seq<nat>, l: nat)
    requires Reencoded(m) && InRange(m) && Run(m, ws) && Run(m, ws') && Agree(m, ws, ws')
    requires AllBelow(lits, NumVars(m)) && AllSeenSince(m, ws, lits, l)
    ensures AllSeenSince(m, ws', lits, l)
  {
    forall j | 0 <= j < |lits| ensures SeenSince(ws', lits[j], l) {
      assert SeenSince(ws, lits[j], l);
      var t :| l <= t < |ws| && LitVal(ws[t], lits[j]);
      assert LitVal(ws'[t], lits[j]);
    }
  }

  lemma LoopAgree(m: Model, ws: seq<Valuation>, ws': seq<Valuation>, l: nat)
    requires Reencoded(m) && InRange(m) && Run(m, ws) && Run(m, ws') && Agree(m, ws, ws')
    requires l < |ws| && LoopsBackTo(m, ws, l)
    ensures LoopsBackTo(m, ws', l)
  {
    forall i | 0 <= i < |m.latches|
      ensures LitVal(ws'[l], m.latches[i].lit) == LitVal(ws'[|ws'| - 1], m.latches[i].next)
    {
      assert m.latches[i].lit == 2 * (FirstLatch(m) + i);
      assert LitVal(ws[l], m.latches[i].lit) == LitVal(ws'[l], m.latches[i].lit);
      assert LitVal(ws[|ws| - 1], m.latches[i].next) == LitVal(ws'[|ws| - 1], m.latches[i].next);
    }
  }

  lemma AcceptedAgree(m: Model, ws: seq<Valuation>, ws': seq<Valuation>, p: nat)
    requires Reencoded(m) && InRange(m) && Run(m, ws) && Run(m, ws') && Agree(m, ws, ws')
    requires p < |m.justice| && Accepted(m, ws, p)
    ensures Accepted(m, ws', p)
  {
    if !Ungrounded(m, p) {
      var l :| 0 <= l < |ws| && LoopsBackTo(m, ws, l)
               && AllSeenSince(m, ws, m.justice[p], l) && AllSeenSince(m, ws, m.fairness, l);
      LoopAgree(m, ws, ws', l);
      SeenAgree(m, ws, ws', m.justice[p], l);
      SeenAgree(m, ws, ws', m.fairness, l);
      assert FairLasso(m, ws', p);
    }
  }

  /** Every run that replays a reported trace is itself reported. */
  lemma ReplayReported(m: Model, ws: seq<Valuation>, ws': seq<Valuation>, init: seq<bool>, inputs: seq<seq<bool>>)
    requires Reencoded(m) && InRange(m) && Run(m, ws) && Run(m, ws')
    requires Replays(m, ws, init, inputs) && Replays(m, ws', init, inputs)
    requires Reported(m, ws)
    ensures Reported(m, ws')
  {
    ReplayUnique(m, ws, ws', init, inputs);
    assert Agree(m, ws, ws');
    forall t, i | 0 <= t < |ws'| && 0 <= i < |m.constraints| ensures LitVal(ws'[t], m.constraints[i]) {
      assert LitVal(ws[t], m.constraints[i]);
    }
    if BadAtEnd(m, ws) {
      var i :| 0 <= i < |m.bad| && LitVal(ws[|ws| - 1], m.bad[i]);
      assert LitVal(ws'[|ws| - 1], m.bad[i]);
    } else {
      var p :| 0 <= p < |m.justice| && Accepted(m, ws, p);
      AcceptedAgree(m, ws, ws', p);
    }
  }

  // ----- What may be reported ---------------------------------------------------------------

  /** A reported justice property closes its own loop; with fairness unless the reason of the
      report is a bad state and several justice properties compete. */
  lemma ReportedJusticeHonest(a: Assignment, m: Model, roles: seq<Role>, join: seq<int>, states: seq<State>, k: nat, p: nat)
    requires Encoded(m, roles, join, states) && |states| == k + 1
    requires AllClauses(a, m, roles, join, states, k) && Holds(a, states[k].assumption)
    requires forall t :: 0 <= t < |states| ==> Usable(m, states[t])
    requires Run(m, ExtractRun(a, m, states)) && p < |m.justice|
    requires JusticeShape(m, states[k]) && Holds(a, states[k].justice[p].sat)
    ensures OwnLasso(m, ExtractRun(a, m, states), p)
    ensures Holds(a, states[k].onejustified) ==> Accepted(m, ExtractRun(a, m, states), p)
  {
    JusticeSatMeansMet(a, m, roles, join, states, k, p);
    if m.justice[p] != [] {
      var s := JusticeWasSeen(a, m, roles, join, states, k, k, p, 0);
      var u := LoopWasJoined(a, m, roles, join, states, k, s);
      var l := FirstJoined(a, states, u);
      JoinClosesLoop(a, m, roles, join, states, k, l);
      JusticeSeenSince(a, m, roles, join, states, k, p, l);
    }
    if Holds(a, states[k].onejustified) {
      var q := OneJustifiedIsFair(a, m, roles, join, states, k);
      TrackedLasso(a, m, roles, join, states, k, p);
    }
  }

  /** With several justice properties the solver is free to report any property whose own
      literals recur, next to a genuine reason: fairness is not checked for it. */
  lemma UnfairJusticeMayBeReported(m: Model, ws: seq<Valuation>, roles: seq<Role>, join: seq<int>, states: seq<State>, k: nat, p: nat)
    requires Encoded(m, roles, join, states) && |states| == |ws| == k + 1 && Reported(m, ws)
    requires |m.justice| > 1 && p < |m.justice| && OwnLasso(m, ws, p)
    ensures exists a ::
      && AllClauses(a, m, roles, join, states, k) && Holds(a, states[k].assumption)
      && |states[k].justice| == |m.justice| && Holds(a, states[k].justice[p].sat)
      && forall t :: 0 <= t <= k ==> Matches(a, m, ws[t], states[t])
  {
    var a := Canon(m, ws, roles);
    ReportedRunSatisfies(m, ws, roles, join, states, k);
    if m.justice[p] != [] {
      var l :| 0 <= l < |ws| && LoopsBackTo(m, ws, l) && AllSeenSince(m, ws, m.justice[p], l);
      LassoSeenInLoop(m, ws, m.justice[p], l);
    }
    CanonJusticeSat(m, ws, roles, join, states, k, p);
    forall t | 0 <= t <= k ensures Matches(a, m, ws[t], states[t]) {
      CanonMatches(m, ws, roles, join, states, t);
    }
  }

  /** A bad literal that always holds, two justice properties, and a fairness literal that never does. */
  function UnfairModel(): Model {
    Model(0, [], [], [], [], [1], [], [[1], [1]], [0])
  }

  lemma UnfairModelRuns()
    ensures Reencoded(UnfairModel()) && InRange(UnfairModel())
    ensures Run(UnfairModel(), [[false]])
  {}

  /** The bad state of this model is reported together with a justice property that is not fair. */
  lemma UnfairReportExists()
    ensures Reencoded(UnfairModel()) && InRange(UnfairModel()) && Run(UnfairModel(), [[false]])
    ensures Reported(UnfairModel(), [[false]])
    ensures OwnLasso(UnfairModel(), [[false]], 0)
    ensures !Accepted(UnfairModel(), [[false]], 0)
  {
    var m, ws := UnfairModel(), [[false]];
    UnfairModelRuns();
    assert LitVal(ws[0], m.bad[0]);
    assert BadAtEnd(m, ws);
    assert LoopsBackTo(m, ws, 0);
    assert SeenSince(ws, 1, 0) by { assert LitVal(ws[0], 1); }
    assert AllSeenSince(m, ws, m.justice[0], 0);
    forall l | 0 <= l < |ws| ensures !AllSeenSince(m, ws, m.fairness, l) {
      assert !SeenSince(ws, m.fairness[0], l);
    }
  }

  // ----- The bound loop ---------------------------------------------------------------------

  /** Allocates the constant-true variable and the shared join variables. */
  method Start(m: Model) returns (enc: Encoder)
    requires Reencoded(m)
    ensures fresh(enc) && enc.m == m && enc.Ready() && enc.states == []
    ensures Means(enc.clauses, m, enc.roles, enc.join, [], 0)
  {
    ReencodedInRange(m);
    enc := new Encoder(m);
    var one := enc.NewVar(One);
    enc.Unit(one);
    if |m.justice| > 0 {
      for i := 0 to |m.latches|
        invariant enc.Counted() && enc.pending == [] && enc.states == [] && |enc.roles| > 0 && enc.roles[0] == One
        invariant |enc.join| == i && forall j :: 0 <= j < i ==> IsVar(enc.roles, enc.join[j], JoinVar(j))
        invariant forall a :: Satisfies(a, enc.clauses) <==> a(1)
      {
        var v := enc.NewVar(JoinVar(i));
        enc.join := enc.join + [v];
      }
    }
  }

  function Deref(a: Assignment, lits: seq<int>): (vals: seq<bool>)
    ensures |vals| == |lits|
    ensures forall i :: 0 <= i < |lits| ==> vals[i] == Holds(a, lits[i])
  {
    seq(|lits|, i requires 0 <= i < |lits| => Holds(a, lits[i]))
  }

  /** Collects the indices of the literals that hold. */
  method TrueOnes(a: Assignment, lits: seq<int>) returns (idxs: seq<nat>)
    ensures forall i :: i in idxs <==> 0 <= i < |lits| && Holds(a, lits[i])
  {
    idxs := [];
    for i := 0 to |lits|
      invariant forall j :: j in idxs <==> 0 <= j < i && Holds(a, lits[j])
    {
      if Holds(a, lits[i]) {
        idxs := idxs + [i];
      }
    }
  }

  /** Reads the witness off a satisfying assignment. */
  method Print(a: Assignment, m: Model, ghost roles: seq<Role>, ghost join: seq<int>, states: seq<State>, k: nat)
    returns (r: Outcome)
    requires Encoded(m, roles, join, states) && |states| == k + 1
    requires AllClauses(a, m, roles, join, states, k) && Holds(a, states[k].assumption)
    ensures r.Found? && r.k == k && Prints(a, m, states, k, r) && AnsweredBy(a, m, roles, join, states, r)
    ensures exists ws :: |ws| == k + 1 && GenuineOutcome(m, ws, r)
  {
    hide Encoded, AllClauses, GenuineOutcome;
    var bad := TrueOnes(a, states[k].bad);
    var justice := [];
    if |m.justice| > 0 {
      FrameJustice(m, roles, join, states, k);
      justice := TrueOnes(a, JusticeSats(states[k].justice));
    }
    var inputs := [];
    for t := 0 to k + 1
      invariant |inputs| == t
      invariant forall u :: 0 <= u < t ==> inputs[u] == Deref(a, states[u].inputs)
    {
      inputs := inputs + [Deref(a, states[t].inputs)];
    }
    r := Found(k, bad, justice, Deref(a, states[0].latches), inputs);
    PrintsGenuine(a, m, roles, join, states, k, r);
  }

  /** The witness that belongs to an assignment: true bad literals, satisfied justice properties,
      first latch values and the inputs of all frames. */
  ghost predicate Prints(a: Assignment, m: Model, states: seq<State>, k: nat, r: Outcome)
    requires |states| == k + 1
  {
    && r.Found? && r.k == k
    && (forall i :: i in r.bad <==> 0 <= i < |states[k].bad| && Holds(a, states[k].bad[i]))
    && (if |m.justice| == 0 then r.justice == []
        else forall p :: p in r.justice <==> 0 <= p < |states[k].justice| && Holds(a, states[k].justice[p].sat))
    && r.init == Deref(a, states[0].latches)
    && |r.inputs| == k + 1 && forall t :: 0 <= t <= k ==> r.inputs[t] == Deref(a, states[t].inputs)
  }

  /** The witness is the one of a satisfying answer for the frames up to its bound. */
  ghost predicate AnsweredBy(a: Assignment, m: Model, roles: seq<Role>, join: seq<int>, states: seq<State>, r: Outcome) {
    && r.Found? && Encoded(m, roles, join, states) && |states| == r.k + 1
    && AllClauses(a, m, roles, join, states, r.k) && Holds(a, states[r.k].assumption)
    && Prints(a, m, states, r.k, r)
  }

  lemma PrintsGenuine(a: Assignment, m: Model, roles: seq<Role>, join: seq<int>, states: seq<State>, k: nat, r: Outcome)
    requires Encoded(m, roles, join, states) && |states| == k + 1
    requires AllClauses(a, m, roles, join, states, k) && Holds(a, states[k].assumption)
    requires Prints(a, m, states, k, r)
    ensures forall t :: 0 <= t < |states| ==> Usable(m, states[t])
    ensures GenuineOutcome(m, ExtractRun(a, m, states), r)
  {
    SatisfyingRunReported(a, m, roles, join, states, k);
    var ws := ExtractRun(a, m, states);
    forall t | 0 <= t <= k ensures ReplaysFrame(m, ws[t], r.inputs[t]) {
      ExtractedInputs(a, m, roles, join, states, t);
    }
    ExtractedInit(a, m, roles, join, states);
    assert Replays(m, ws, r.init, r.inputs);
    FrameProperties(m, roles, join, states, k);
    if |m.justice| > 0 { FrameJustice(m, roles, join, states, k); }
    HonestBad(a, m, roles, join, states, k, r.bad);
    HonestJustice(a, m, roles, join, states, k, r.bad, r.justice);
  }

  /** The run is reported, the printed trace replays it, and the printed properties are honest. */
  ghost predicate GenuineOutcome(m: Model, ws: seq<Valuation>, r: Outcome)
    requires r.Found?
  {
    && Reencoded(m)
    && Reported(m, ws)
    && Replays(m, ws, r.init, r.inputs)
    && HonestReport(m, ws, r.bad, r.justice)
  }

  lemma ExtractedInputs(a: Assignment, m: Model, roles: seq<Role>, join: seq<int>, states: seq<State>, t: nat)
    requires Encoded(m, roles, join, states) && t < |states| && Usable(m, states[t])
    ensures ReplaysFrame(m, Extract(a, m, states[t]), Deref(a, states[t].inputs))
  {
    FrameSizes(m, roles, join, states, t);
    forall i | 0 <= i < |m.inputs|
      ensures Holds(a, states[t].inputs[i]) == LitVal(Extract(a, m, states[t]), m.inputs[i])
    {
      ExtractLit(a, m, states[t], m.inputs[i]);
      assert m.inputs[i] == 2 * (1 + i);
    }
  }

  lemma ExtractedInit(a: Assignment, m: Model, roles: seq<Role>, join: seq<int>, states: seq<State>)
    requires Encoded(m, roles, join, states) && |states| > 0 && Usable(m, states[0])
    ensures |states[0].latches| == |m.latches|
    ensures forall i :: 0 <= i < |m.latches| ==>
      Deref(a, states[0].latches)[i] == LitVal(Extract(a, m, states[0]), m.latches[i].lit)
  {
    forall i | 0 <= i < |m.latches|
      ensures Deref(a, states[0].latches)[i] == LitVal(Extract(a, m, states[0]), m.latches[i].lit)
    {
      ExtractLatch(a, m, states[0], i);
    }
  }

  lemma HonestBad(a: Assignment, m: Model, roles: seq<Role>, join: seq<int>, states: seq<State>, k: nat, bad: seq<nat>)
    requires Encoded(m, roles, join, states) && |states| == k + 1 && Usable(m, states[k])
    requires forall i :: i in bad <==> 0 <= i < |states[k].bad| && Holds(a, states[k].bad[i])
    ensures |states[k].bad| == |m.bad|
    ensures forall i :: i in bad <==> 0 <= i < |m.bad| && LitVal(Extract(a, m, states[k]), m.bad[i])
  {
    FrameProperties(m, roles, join, states, k);
    forall i | 0 <= i < |m.bad| ensures LitVal(Extract(a, m, states[k]), m.bad[i]) == Holds(a, states[k].bad[i]) {
      BadIsGenuine(a, m, roles, join, states, k, i);
    }
  }

  lemma NoBadMeansJustified(a: Assignment, m: Model, roles: seq<Role>, join: seq<int>, states: seq<State>, k: nat)
    requires Encoded(m, roles, join, states) && |states| == k + 1
    requires AllClauses(a, m, roles, join, states, k) && Holds(a, states[k].assumption)
    requires forall i :: 0 <= i < |states[k].bad| ==> !Holds(a, states[k].bad[i])
    ensures |m.justice| > 0 && Holds(a, states[k].onejustified)
  {
    GoalAt(a, m, roles, join, states, k, k);
    BadAt(a, m, roles, join, states, k, k);
    FrameProperties(m, roles, join, states, k);
  }

  lemma SomethingReported(a: Assignment, m: Model, roles: seq<Role>, join: seq<int>, states: seq<State>, k: nat,
                          bad: seq<nat>, justice: seq<nat>)
    requires Encoded(m, roles, join, states) && |states| == k + 1
    requires AllClauses(a, m, roles, join, states, k) && Holds(a, states[k].assumption)
    requires forall i :: i in bad <==> 0 <= i < |states[k].bad| && Holds(a, states[k].bad[i])
    requires |m.justice| > 0 ==> JusticeShape(m, states[k])
    requires |m.justice| > 0 ==> forall p :: p in justice <==> 0 <= p < |m.justice| && Holds(a, states[k].justice[p].sat)
    requires |m.justice| == 0 ==> justice == []
    ensures |bad| + |justice| > 0
  {
    if bad == [] {
      NoBadMeansJustified(a, m, roles, join, states, k);
      var p := SomeJusticeSat(a, m, roles, join, states, k);
      assert p in justice;
    }
  }

  lemma HonestJustice(a: Assignment, m: Model, roles: seq<Role>, join: seq<int>, states: seq<State>, k: nat,
                      bad: seq<nat>, justice: seq<nat>)
    requires Encoded(m, roles, join, states) && |states| == k + 1
    requires AllClauses(a, m, roles, join, states, k) && Holds(a, states[k].assumption)
    requires forall t :: 0 <= t < |states| ==> Usable(m, states[t])
    requires Run(m, ExtractRun(a, m, states))
    requires forall i :: i in bad <==> 0 <= i < |states[k].bad| && Holds(a, states[k].bad[i])
    requires forall i :: i in bad <==> 0 <= i < |m.bad| && LitVal(Extract(a, m, states[k]), m.bad[i])
    requires |m.justice| > 0 ==> JusticeShape(m, states[k])
    requires |m.justice| > 0 ==> forall p :: p in justice <==> 0 <= p < |m.justice| && Holds(a, states[k].justice[p].sat)
    requires |m.justice| == 0 ==> justice == []
    ensures HonestReport(m, ExtractRun(a, m, states), bad, justice)
  {
    var ws := ExtractRun(a, m, states);
    SomethingReported(a, m, roles, join, states, k, bad, justice);
    forall p | p in justice
      ensures p < |m.justice| && OwnLasso(m, ws, p)
      ensures bad == [] || |m.justice| == 1 ==> Accepted(m, ws, p)
    {
      ReportedJusticeHonest(a, m, roles, join, states, k, p);
      if bad == [] {
        NoBadMeansJustified(a, m, roles, join, states, k);
      } else if |m.justice| == 1 {
        FrameJustice(m, roles, join, states, k);
      }
    }
  }

  /** One more frame and one solver call. */
  method TryBound(enc: Encoder, solve: Oracle) returns (ok: bool, model: Option<Assignment>)
    requires enc.Ready() && Correct(solve)
    requires Means(enc.clauses, enc.m, enc.roles, enc.join, enc.states, |enc.states|)
    modifies enc
    ensures ok ==> enc.Ready() && enc.join == old(enc.join) && |enc.states| == |old(enc.states)| + 1
    ensures !ok <==> old(enc.states) == [] && exists i :: 0 <= i < |enc.m.latches| && !LegalReset(enc.m.latches[i])
    ensures ok && model.Some? ==>
      && AllClauses(model.value, enc.m, enc.roles, enc.join, enc.states, |enc.states| - 1)
      && Holds(model.value, enc.states[|enc.states| - 1].assumption)
    ensures ok && model.None? ==>
      && Means(enc.clauses, enc.m, enc.roles, enc.join, enc.states, |enc.states|)
      && forall ws :: |ws| == |enc.states| ==> !Reported(enc.m, ws)
  {
    hide Reencoded, InRange, JoinLayout, Encoded, Means, AllClauses, Reported, Frame, Satisfies, LegalReset;
    hide InputLayout, AndLayout;
    model := None;
    var k := |enc.states|;
    ghost var c0, r0, s0 := enc.clauses, enc.roles, enc.states;
    ok := enc.Encode();
    if !ok {
      return;
    }
    MeansGrow(c0, enc.clauses, enc.m, r0, enc.roles, enc.join, s0, enc.states);
    FrameInputs(enc.m, enc.roles, enc.join, enc.states, k);
    var lit := enc.states[k].assumption;
    model := solve(enc.clauses + [[lit]]);
    if model.Some? {
      SatMeansClauses(model.value, enc.clauses, enc.m, enc.roles, enc.join, enc.states, k);
    } else {
      UnsatMeansNoRun(enc.clauses, enc.m, enc.roles, enc.join, enc.states, k);
      ghost var c1 := enc.clauses;
      enc.Unit(-lit);
      MeansNegated(c1, enc.clauses, enc.m, enc.roles, enc.join, enc.states, k);
    }
  }

  /** For a model that is not grounded, frame 0 decides: a report if some legal start exists, otherwise none ever. */
  ghost predicate StopsAtOnce(m: Model, r: Outcome) {
    !Grounded(m) ==> if exists w :: LegalStart(m, w) then r.Found? && r.k == 0 else r.NoWitness?
  }

  lemma AtOnce(m: Model, maxk: nat)
    ensures m.bad == [] && m.justice == [] ==> StopsAtOnce(m, NoProperties)
    ensures (forall ws :: 0 < |ws| <= maxk + 1 ==> !Reported(m, ws)) ==> StopsAtOnce(m, NoWitness)
    ensures forall r: Outcome, ws ::
      (r.Found? && GenuineOutcome(m, ws, r) && (forall ws' :: 0 < |ws'| <= r.k ==> !Reported(m, ws')) ==> StopsAtOnce(m, r))
  {
    if !Grounded(m) {
      ReportedAtOnce(m);
      if w :| LegalStart(m, w) { assert Reported(m, [w]) && |[w]| == 1; }
    }
  }

  /** `aigbmc`: the least bound with a reported run, or none up to `maxk`. */
  method BoundedModelCheck(m: Model, maxk: nat, solve: Oracle) returns (r: Outcome)
    requires Reencoded(m) && Correct(solve)
    ensures r.NoProperties? <==> m.bad == [] && m.justice == []
    ensures r.Unsupported? <==>
      (m.bad != [] || m.justice != []) && exists i :: 0 <= i < |m.latches| && !LegalReset(m.latches[i])
    ensures r.NoWitness? ==> forall ws :: 0 < |ws| <= maxk + 1 ==> !Reported(m, ws)
    ensures r.Found? ==>
      && r.k <= maxk
      && (forall ws :: 0 < |ws| <= r.k ==> !Reported(m, ws))
      && (exists ws :: |ws| == r.k + 1 && GenuineOutcome(m, ws, r))
      && exists a, roles, join, states :: AnsweredBy(a, m, roles, join, states, r)
    ensures !r.Unsupported? ==> StopsAtOnce(m, r)
  {
    hide Reencoded, Correct, Means, AllClauses, Encoded, Reported, LegalReset, Satisfies, GenuineOutcome, StopsAtOnce, AnsweredBy, Prints;
    AtOnce(m, maxk);
    if |m.bad| == 0 && |m.justice| == 0 {
      return NoProperties;
    }
    var enc := Start(m);
    for k := 0 to maxk + 1
      invariant enc.m == m && enc.Ready() && |enc.states| == k
      invariant fresh(enc)
      invariant Means(enc.clauses, m, enc.roles, enc.join, enc.states, k)
      invariant forall ws :: 0 < |ws| <= k ==> !Reported(m, ws)
      invariant k > 0 ==> forall i :: 0 <= i < |m.latches| ==> LegalReset(m.latches[i])
    {
      var ok, model := TryBound(enc, solve);
      if !ok {
        return Unsupported;
      }
      if model.Some? {
        r := Print(model.value, m, enc.roles, enc.join, enc.states, k);
        return;
      }
    }
    return NoWitness;
  }
}
