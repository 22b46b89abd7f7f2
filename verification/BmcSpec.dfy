/** What bounded model checking looks for: bad states and fair lassos in runs of a model. */
module BmcSpec {
  import opened Aiger

  /** All environment constraints hold in every frame of the run. */
  ghost predicate Constrained(m: Model, ws: seq<Valuation>)
    requires InRange(m) && Run(m, ws)
  {
    forall t, i :: 0 <= t < |ws| && 0 <= i < |m.constraints| ==> LitVal(ws[t], m.constraints[i])
  }

  ghost predicate BadAtEnd(m: Model, ws: seq<Valuation>)
    requires InRange(m) && Run(m, ws)
  {
    exists i :: 0 <= i < |m.bad| && LitVal(ws[|ws| - 1], m.bad[i])
  }

  /** The successor of the last frame has the latch state of frame `l`. */
  ghost predicate LoopsBackTo(m: Model, ws: seq<Valuation>, l: nat)
    requires InRange(m) && Run(m, ws) && l < |ws|
  {
    forall i :: 0 <= i < |m.latches| ==>
                  LitVal(ws[l], m.latches[i].lit) == LitVal(ws[|ws| - 1], m.latches[i].next)
  }

  ghost predicate SeenSince(ws: seq<Valuation>, lit: nat, l: nat)
    requires forall t :: 0 <= t < |ws| ==> lit / 2 < |ws[t]|
  {
    exists t :: l <= t < |ws| && LitVal(ws[t], lit)
  }

  ghost predicate AllSeenSince(m: Model, ws: seq<Valuation>, lits: seq<nat>, l: nat)
    requires InRange(m) && Run(m, ws) && AllBelow(lits, m.maxvar + 1)
  {
    forall j :: 0 <= j < |lits| ==> SeenSince(ws, lits[j], l)
  }

  /** The run closes a lasso on which justice property `p` and every fairness literal hold
      infinitely often. */
  ghost predicate FairLasso(m: Model, ws: seq<Valuation>, p: nat)
    requires InRange(m) && Run(m, ws) && p < |m.justice|
  {
    exists l :: 0 <= l < |ws| && LoopsBackTo(m, ws, l)
                && AllSeenSince(m, ws, m.justice[p], l) && AllSeenSince(m, ws, m.fairness, l)
  }

  /** The witness the AIGER 1.9 format asks for. */
  ghost predicate Witness(m: Model, ws: seq<Valuation>) {
    && InRange(m)
    && Run(m, ws)
    && Constrained(m, ws)
    && (BadAtEnd(m, ws) || exists p :: 0 <= p < |m.justice| && FairLasso(m, ws, p))
  }

  /** A justice property without literals, in a model without fairness: nothing in the encoding
      ties it to a lasso. */
  predicate Ungrounded(m: Model, p: nat)
    requires p < |m.justice|
  {
    m.justice[p] == [] && m.fairness == []
  }

  /** What the encoding accepts as evidence for justice property `p`. */
  ghost predicate Accepted(m: Model, ws: seq<Valuation>, p: nat)
    requires InRange(m) && Run(m, ws) && p < |m.justice|
  {
    Ungrounded(m, p) || FairLasso(m, ws, p)
  }

  ghost predicate Reported(m: Model, ws: seq<Valuation>) {
    && InRange(m)
    && Run(m, ws)
    && Constrained(m, ws)
    && (BadAtEnd(m, ws) || exists p :: 0 <= p < |m.justice| && Accepted(m, ws, p))
  }

  /** Every justice property is tied to a lasso; decidable before the tool is called. */
  ghost predicate Grounded(m: Model) {
    forall p :: 0 <= p < |m.justice| ==> !Ungrounded(m, p)
  }

  /** For grounded models the encoding accepts exactly the genuine witnesses; otherwise it
      accepts every run that meets the constraints, lasso or not. */
  lemma ReportedMeaning(m: Model, ws: seq<Valuation>)
    ensures Grounded(m) ==> (Reported(m, ws) <==> Witness(m, ws))
    ensures !Grounded(m) ==> (Reported(m, ws) <==> InRange(m) && Run(m, ws) && Constrained(m, ws))
  {
    if InRange(m) && Run(m, ws) {
      if !Grounded(m) {
        var p :| 0 <= p < |m.justice| && Ungrounded(m, p);
        assert Accepted(m, ws, p);
      } else {
        forall p | 0 <= p < |m.justice|
          ensures Accepted(m, ws, p) <==> FairLasso(m, ws, p)
        {}
      }
    }
  }

  /** A reported run is no witness exactly when the model is not grounded and the run neither
      ends in a bad state nor closes any loop. */
  lemma SpuriousExactly(m: Model, ws: seq<Valuation>)
    requires InRange(m) && Run(m, ws) && Constrained(m, ws)
    ensures Reported(m, ws) && !Witness(m, ws) <==>
            !Grounded(m) && !BadAtEnd(m, ws) && forall l :: 0 <= l < |ws| ==> !LoopsBackTo(m, ws, l)
  {
    ReportedMeaning(m, ws);
    if !Grounded(m) {
      var p :| 0 <= p < |m.justice| && Ungrounded(m, p);
      if l :| 0 <= l < |ws| && LoopsBackTo(m, ws, l) {
        assert FairLasso(m, ws, p);
      }
    }
  }

  // ----- What this means for the first frame ---------------------------------------------------

  /** A reset state with inputs under which all constraints hold. */
  ghost predicate LegalStart(m: Model, w: Valuation) {
    && InRange(m)
    && Consistent(m, w)
    && Initial(m, w)
    && forall i :: 0 <= i < |m.constraints| ==> LitVal(w, m.constraints[i])
  }

  ghost predicate BadIn(m: Model, w: Valuation)
    requires InRange(m) && |w| == m.maxvar + 1
  {
    exists i :: 0 <= i < |m.bad| && LitVal(w, m.bad[i])
  }

  /** No latch is about to change. */
  ghost predicate Rests(m: Model, w: Valuation)
    requires InRange(m) && |w| == m.maxvar + 1
  {
    forall i :: 0 <= i < |m.latches| ==> LitVal(w, m.latches[i].lit) == LitVal(w, m.latches[i].next)
  }

  /** Without groundedness a report begins with a legal start, and every legal start is reported. */
  lemma ReportedAtOnce(m: Model)
    requires !Grounded(m)
    ensures forall w :: LegalStart(m, w) <==> Reported(m, [w])
    ensures forall ws :: Reported(m, ws) ==> LegalStart(m, ws[0])
  {
    forall w ensures LegalStart(m, w) <==> Reported(m, [w]) {
      var ws := [w];
      ReportedMeaning(m, ws);
      if LegalStart(m, w) {
        assert Run(m, ws);
        assert Constrained(m, ws);
      }
      if Reported(m, ws) { StartOfReported(m, ws); }
    }
    forall ws | Reported(m, ws) ensures LegalStart(m, ws[0]) { StartOfReported(m, ws); }
  }

  lemma StartOfReported(m: Model, ws: seq<Valuation>)
    requires Reported(m, ws)
    ensures LegalStart(m, ws[0])
  {
    assert Consistent(m, ws[0]);
    forall i | 0 <= i < |m.constraints| ensures LitVal(ws[0], m.constraints[i]) {}
  }

  /** All reports of a model that is not grounded are genuine exactly when every legal start is
      bad or at rest. */
  lemma GenuineAtOnce(m: Model)
    requires !Grounded(m)
    ensures (forall w :: Reported(m, [w]) ==> Witness(m, [w])) <==> (forall w :: LegalStart(m, w) ==> BadIn(m, w) || Rests(m, w))
  {
    ReportedAtOnce(m);
    forall w | LegalStart(m, w) ensures Witness(m, [w]) <==> BadIn(m, w) || Rests(m, w) {
      var ws := [w];
      assert Reported(m, ws) && ws[0] == w && |ws| == 1;
      SpuriousExactly(m, ws);
      assert LoopsBackTo(m, ws, 0) <==> Rests(m, w);
      assert BadAtEnd(m, ws) <==> BadIn(m, w);
    }
  }

  /** One latch that leaves its reset state for good, and one justice property without literals. */
  function EscapingLatch(): Model {
    Model(1, [], [Latch(2, 1, 0)], [], [], [], [], [[]], [])
  }

  /** The smallest ungrounded model: frame 0 alone is reported although it is no witness. */
  lemma UngroundedReportIsSpurious()
    ensures Reencoded(EscapingLatch())
    ensures Reported(EscapingLatch(), [[false, false]])
    ensures !Witness(EscapingLatch(), [[false, false]])
  {
    var m, ws := EscapingLatch(), [[false, false]];
    assert InRange(m);
    assert Run(m, ws);
    assert Ungrounded(m, 0);
    assert Accepted(m, ws, 0);
    forall l | 0 <= l < |ws| ensures !LoopsBackTo(m, ws, l) {
      assert LitVal(ws[l], m.latches[0].lit) != LitVal(ws[|ws| - 1], m.latches[0].next);
    }
  }
}
