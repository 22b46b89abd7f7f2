/** Which justice properties a witness of `aigbmc` may list next to the reason of its report. */
module BmcListing {
  import opened Aiger
  import opened BmcSpec
  import opened Cnf
  import opened BmcEncoding
  import opened BmcSoundness
  import opened BmcCompleteness
  import opened BmcMain

  /** A model of the formula from which the solver reads exactly this run. */
  ghost predicate Reads(a: Assignment, m: Model, ws: seq<Valuation>, roles: seq<Role>, join: seq<int>, states: seq<State>, k: nat)
    requires Encoded(m, roles, join, states) && |states| == |ws| == k + 1
  {
    && AllClauses(a, m, roles, join, states, k) && Holds(a, states[k].assumption)
    && forall t :: 0 <= t <= k ==> Matches(a, m, ws[t], states[t])
  }

  ghost predicate ListedBy(a: Assignment, m: Model, states: seq<State>, k: nat, p: nat) {
    k < |states| && p < |m.justice| == |states[k].justice| && Holds(a, states[k].justice[p].sat)
  }

  /** Several properties: own literals on a loop suffice.  A single one shares its variable with the
      justification and has to be fair. */
  ghost predicate MayBeListed(m: Model, ws: seq<Valuation>, p: nat)
    requires InRange(m) && Run(m, ws) && p < |m.justice|
  {
    if |m.justice| > 1 then OwnLasso(m, ws, p) else Accepted(m, ws, p)
  }

  lemma OwnLassoAgree(m: Model, ws: seq<Valuation>, ws': seq<Valuation>, p: nat)
    requires Reencoded(m) && InRange(m) && Run(m, ws) && Run(m, ws') && Agree(m, ws, ws')
    requires p < |m.justice| && OwnLasso(m, ws, p)
    ensures OwnLasso(m, ws', p)
  {
    if m.justice[p] != [] {
      var l :| 0 <= l < |ws| && LoopsBackTo(m, ws, l) && AllSeenSince(m, ws, m.justice[p], l);
      LoopAgree(m, ws, ws', l);
      SeenAgree(m, ws, ws', m.justice[p], l);
    }
  }

  lemma ReadRunAgrees(a: Assignment, m: Model, ws: seq<Valuation>, roles: seq<Role>, join: seq<int>, states: seq<State>, k: nat)
    requires Encoded(m, roles, join, states) && |states| == |ws| == k + 1 && Run(m, ws)
    requires Reads(a, m, ws, roles, join, states, k)
    ensures forall t :: 0 <= t < |states| ==> Usable(m, states[t])
    ensures Run(m, ExtractRun(a, m, states)) && Agree(m, ExtractRun(a, m, states), ws)
  {
    ExtractedRun(a, m, roles, join, states, k);
    forall t, l: nat | 0 <= t <= k && l < 2 * NumVars(m)
      ensures LitVal(Extract(a, m, states[t]), l) == LitVal(ws[t], l)
    {
      assert Matches(a, m, ws[t], states[t]);
    }
  }

  lemma ListedMeansAllowed(a: Assignment, m: Model, ws: seq<Valuation>, roles: seq<Role>, join: seq<int>, states: seq<State>, k: nat, p: nat)
    requires Encoded(m, roles, join, states) && |states| == |ws| == k + 1 && Run(m, ws)
    requires Reads(a, m, ws, roles, join, states, k) && p < |m.justice| && ListedBy(a, m, states, k, p)
    ensures MayBeListed(m, ws, p)
  {
    ReadRunAgrees(a, m, ws, roles, join, states, k);
    FrameJustice(m, roles, join, states, k);
    ReportedJusticeHonest(a, m, roles, join, states, k, p);
    if |m.justice| > 1 {
      OwnLassoAgree(m, ExtractRun(a, m, states), ws, p);
    } else {
      AcceptedAgree(m, ExtractRun(a, m, states), ws, p);
    }
  }

  lemma AllowedCanBeListed(m: Model, ws: seq<Valuation>, roles: seq<Role>, join: seq<int>, states: seq<State>, k: nat, p: nat)
    requires Encoded(m, roles, join, states) && |states| == |ws| == k + 1 && Reported(m, ws)
    requires p < |m.justice| && MayBeListed(m, ws, p)
    ensures exists a :: Reads(a, m, ws, roles, join, states, k) && ListedBy(a, m, states, k, p)
  {
    if |m.justice| > 1 {
      UnfairJusticeMayBeReported(m, ws, roles, join, states, k, p);
      var a :|
        && AllClauses(a, m, roles, join, states, k) && Holds(a, states[k].assumption)
        && |states[k].justice| == |m.justice| && Holds(a, states[k].justice[p].sat)
        && forall t :: 0 <= t <= k ==> Matches(a, m, ws[t], states[t]);
      assert Reads(a, m, ws, roles, join, states, k) && ListedBy(a, m, states, k, p);
    } else {
      var a := Canon(m, ws, roles);
      ReportedRunSatisfies(m, ws, roles, join, states, k);
      AcceptedIsDone(m, ws, p);
      CanonJusticeSat(m, ws, roles, join, states, k, p);
      forall t | 0 <= t <= k ensures Matches(a, m, ws[t], states[t]) {
        CanonMatches(m, ws, roles, join, states, t);
      }
      assert Reads(a, m, ws, roles, join, states, k) && ListedBy(a, m, states, k, p);
    }
  }

  /** For every reported run: some answer of the solver lists property `p` exactly when it may be listed. */
  lemma ListedExactly(m: Model, ws: seq<Valuation>, roles: seq<Role>, join: seq<int>, states: seq<State>, k: nat, p: nat)
    requires Encoded(m, roles, join, states) && |states| == |ws| == k + 1 && Reported(m, ws) && p < |m.justice|
    ensures (exists a :: Reads(a, m, ws, roles, join, states, k) && ListedBy(a, m, states, k, p)) <==> MayBeListed(m, ws, p)
  {
    if a :| Reads(a, m, ws, roles, join, states, k) && ListedBy(a, m, states, k, p) {
      ListedMeansAllowed(a, m, ws, roles, join, states, k, p);
    }
    if MayBeListed(m, ws, p) {
      AllowedCanBeListed(m, ws, roles, join, states, k, p);
    }
  }

  ghost predicate SomeLoop(m: Model, ws: seq<Valuation>, lits: seq<nat>, l: nat)
    requires InRange(m) && Run(m, ws) && AllBelow(lits, m.maxvar + 1)
  {
    l < |ws| && LoopsBackTo(m, ws, l) && AllSeenSince(m, ws, lits, l)
  }

  lemma SeenEarlier(m: Model, ws: seq<Valuation>, lits: seq<nat>, l: nat, l': nat)
    requires InRange(m) && Run(m, ws) && AllBelow(lits, m.maxvar + 1) && l' <= l && AllSeenSince(m, ws, lits, l)
    ensures AllSeenSince(m, ws, lits, l')
  {
    forall j | 0 <= j < |lits| ensures SeenSince(ws, lits[j], l') { assert SeenSince(ws, lits[j], l); }
  }

  /** Literals that recur on two loops recur together on the longer one. */
  lemma OneLoop(m: Model, ws: seq<Valuation>, xs: seq<nat>, ys: seq<nat>)
    requires InRange(m) && Run(m, ws) && AllBelow(xs, m.maxvar + 1) && AllBelow(ys, m.maxvar + 1)
    requires exists l :: SomeLoop(m, ws, xs, l)
    requires exists l :: SomeLoop(m, ws, ys, l)
    ensures exists l: nat :: l < |ws| && LoopsBackTo(m, ws, l) && AllSeenSince(m, ws, xs, l) && AllSeenSince(m, ws, ys, l)
  {
    var i :| SomeLoop(m, ws, xs, i);
    var j :| SomeLoop(m, ws, ys, j);
    var l := if i < j then i else j;
    SeenEarlier(m, ws, xs, i, l);
    SeenEarlier(m, ws, ys, j, l);
    assert LoopsBackTo(m, ws, l);
  }

  /** No run of the model can be reported with a justice property that is not fair: decided on the
      model alone. */
  ghost predicate ListsOnlyFair(m: Model) {
    Grounded(m) && (m.bad == [] || |m.justice| <= 1 || m.fairness == [])
  }

  lemma OnlyFairListed(m: Model, ws: seq<Valuation>, p: nat)
    requires Reported(m, ws) && p < |m.justice| && MayBeListed(m, ws, p) && ListsOnlyFair(m)
    ensures FairLasso(m, ws, p)
  {
    assert !Ungrounded(m, p);
    if |m.justice| > 1 {
      if m.justice[p] != [] {
        var l :| 0 <= l < |ws| && LoopsBackTo(m, ws, l) && AllSeenSince(m, ws, m.justice[p], l);
        assert SomeLoop(m, ws, m.justice[p], l);
        if m.fairness == [] { assert SomeLoop(m, ws, m.fairness, l); }
      }
      if m.fairness != [] {
        var q :| 0 <= q < |m.justice| && Accepted(m, ws, q);
        var l :| 0 <= l < |ws| && LoopsBackTo(m, ws, l) && AllSeenSince(m, ws, m.fairness, l);
        assert SomeLoop(m, ws, m.fairness, l);
        if m.justice[p] == [] { assert SomeLoop(m, ws, m.justice[p], l); }
      }
      OneLoop(m, ws, m.justice[p], m.fairness);
    }
  }
}
