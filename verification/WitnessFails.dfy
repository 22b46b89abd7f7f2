/** A witness of `aigbmc` that `aigsim` does not let pass. */
module WitnessFails {
  import opened Aiger
  import opened BmcSpec
  import opened Cnf
  import opened BmcEncoding
  import opened BmcSoundness
  import B = BmcMain
  import G = BmcListing
  import W = WitnessCheck

  /** Frame 0 of `BmcMain.UnfairModel` and the purposes of its solver variables. */
  function Roles(): seq<Role> {
    [One, AssumeVar(0), JoinedVar(0), JusticeLitVar(0, 0, 0), JusticeSatVar(0, 0),
     JusticeLitVar(0, 1, 0), JusticeSatVar(0, 1), OneJustifiedVar(0), FairVar(0, 0)]
  }

  function Properties(): seq<Justice> {
    [Justice([Tracked(1, 4)], 5), Justice([Tracked(1, 6)], 7)]
  }

  function Frame0(): State {
    State([], [], [], [], 2, [1], 1, [], 0, 3, 3, Properties(), 8, [Tracked(-1, 9)], 9)
  }

  lemma ConstantImport(l: nat)
    requires l <= 1
    ensures CanImport(B.UnfairModel(), Frame0(), l) && Import(B.UnfairModel(), Frame0(), l) == if l == 1 then 1 else -1
  {}

  lemma JusticePart(i: nat)
    requires i < 2
    ensures JusticeLitsLayout(B.UnfairModel(), Roles(), 0, Frame0(), i, Properties()[i].lits, 1)
    ensures IsVar(Roles(), Properties()[i].sat, JusticeSatVar(0, i))
  {
    ConstantImport(1);
    assert B.UnfairModel().justice[i] == [1];
    assert Properties()[i] == if i == 0 then Justice([Tracked(1, 4)], 5) else Justice([Tracked(1, 6)], 7);
  }

  lemma LivenessPart()
    ensures LivenessLayout(B.UnfairModel(), Roles(), 0, Frame0())
  {
    var m := B.UnfairModel();
    forall i | 0 <= i < |m.justice|
      ensures |m.justice[i]| == 1
      ensures JusticeLitsLayout(m, Roles(), 0, Frame0(), i, Properties()[i].lits, 1)
      ensures IsVar(Roles(), Properties()[i].sat, JusticeSatVar(0, i))
    {
      JusticePart(i);
    }
    ConstantImport(0);
  }

  lemma CircuitPart()
    ensures CircuitLayout(B.UnfairModel(), Roles(), 0, None, Frame0())
  {}

  lemma PropertiesPart()
    ensures BadLayout(B.UnfairModel(), Roles(), 0, Frame0()) && ConstraintLayout(B.UnfairModel(), Roles(), 0, Frame0())
  {
    ConstantImport(1);
  }

  lemma IsEncoded()
    ensures Encoded(B.UnfairModel(), Roles(), [], [Frame0()])
  {
    var m, states := B.UnfairModel(), [Frame0()];
    B.UnfairModelRuns();
    CircuitPart();
    PropertiesPart();
    LivenessPart();
    hide CircuitLayout, BadLayout, ConstraintLayout, LivenessLayout, Reencoded, InRange;
    assert FrameAt(m, Roles(), states, 0);
  }

  /** The single frame of this model has one valuation. */
  lemma OnlyRun(ws: seq<Valuation>)
    requires |ws| == 1 && InRange(B.UnfairModel()) && Run(B.UnfairModel(), ws)
    ensures ws == [[false]]
  {
    assert Consistent(B.UnfairModel(), ws[0]);
    assert ws[0] == [false];
  }

  /** Every run that this witness can stand for leaves the listed property 0 unfair. */
  lemma NeverFair(ws: seq<Valuation>)
    requires |ws| == 1 && InRange(B.UnfairModel()) && Run(B.UnfairModel(), ws)
    ensures !FairLasso(B.UnfairModel(), ws, 0)
  {
    OnlyRun(ws);
    B.UnfairReportExists();
  }

  /** A correct answer of the solver for this model in which property 0 is satisfied. */
  lemma Answer() returns (a: Assignment)
    ensures Encoded(B.UnfairModel(), Roles(), [], [Frame0()])
    ensures AllClauses(a, B.UnfairModel(), Roles(), [], [Frame0()], 0) && Holds(a, Frame0().assumption)
    ensures Holds(a, 5) && a(1)
  {
    var m, states, ws := B.UnfairModel(), [Frame0()], [[false]];
    IsEncoded();
    B.UnfairReportExists();
    assert G.MayBeListed(m, ws, 0);
    G.ListedExactly(m, ws, Roles(), [], states, 0, 0);
    hide Encoded, Reported, B.OwnLasso, Accepted, Frame;
    a :| G.Reads(a, m, ws, Roles(), [], states, 0) && G.ListedBy(a, m, states, 0, 0);
  }

  /** The witness printed from an answer that satisfies property 0. */
  function Printed(a: Assignment): B.Outcome {
    B.Found(0, [0], if Holds(a, 7) then [0, 1] else [0], [], [[]])
  }

  lemma PrintedFrom(a: Assignment)
    requires Holds(a, 5) && a(1)
    ensures B.Prints(a, B.UnfairModel(), [Frame0()], 0, Printed(a))
  {
    assert Properties()[0].sat == 5 && Properties()[1].sat == 7;
    assert B.Deref(a, []) == [];
  }

  /** The witness is genuine, and `aigsim` refuses it. */
  lemma UnfairWitnessFails() returns (a: Assignment, r: B.Outcome)
    ensures Encoded(B.UnfairModel(), Roles(), [], [Frame0()])
    ensures AllClauses(a, B.UnfairModel(), Roles(), [], [Frame0()], 0) && Holds(a, Frame0().assumption)
    ensures Holds(a, Frame0().justice[0].sat)
    ensures B.Prints(a, B.UnfairModel(), [Frame0()], 0, r) && 0 in r.justice
    ensures exists ws :: |ws| == 1 && B.GenuineOutcome(B.UnfairModel(), ws, r)
    ensures forall ws, c :: |ws| == 1 && B.GenuineOutcome(B.UnfairModel(), ws, r) && W.Confirms(B.UnfairModel(), ws, r, c) ==> !c.pass
  {
    a := Answer();
    r := Printed(a);
    PrintedFrom(a);
    var m := B.UnfairModel();
    hide Encoded, AllClauses;
    B.PrintsGenuine(a, m, Roles(), [], [Frame0()], 0, r);
    assert |ExtractRun(a, m, [Frame0()])| == 1;
    forall ws, c | |ws| == 1 && B.GenuineOutcome(m, ws, r) && W.Confirms(m, ws, r, c) ensures !c.pass {
      NeverFair(ws);
    }
  }
}
