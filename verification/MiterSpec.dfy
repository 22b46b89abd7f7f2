/** The export of literals into a miter, and how its frames consist of frames of the two models. */
module MiterSpec {
  import opened Aiger
  import opened AigerBuild

  // ----- Exported literals ---------------------------------------------------------------------------

  /** Where the latches and the gates of the second model start in the miter. */
  datatype Offsets = Offsets(latches2: nat, ands2: nat)

  function OffsetsOf(m1: Model, m2: Model, combinational: bool): Offsets {
    if combinational then Offsets(FirstLatch(m1), m1.maxvar + 1)
    else Offsets(m1.maxvar + 1, m1.maxvar + 1 + |m2.latches|)
  }

  /** Constant and inputs are shared. */
  function ExportVar(m2: Model, off: Offsets, v: nat): nat {
    if v < FirstLatch(m2) then v
    else if v < FirstAnd(m2) then v - FirstLatch(m2) + off.latches2
    else v - FirstAnd(m2) + off.ands2
  }

  function Export(m2: Model, off: Offsets, l: nat): nat {
    2 * ExportVar(m2, off, l / 2) + l % 2
  }

  ghost predicate Pair(m1: Model, m2: Model, combinational: bool) {
    && Reencoded(m1) && Reencoded(m2) && |m1.inputs| == |m2.inputs| && |m1.outputs| == |m2.outputs|
    && (combinational ==> |m1.latches| == |m2.latches|)
  }

  /** A variable of the second model lands on one of the first only if it is shared, and no two
      variables of the second model land on the same. */
  lemma NoCollision(m1: Model, m2: Model, combinational: bool, u: nat, v: nat)
    requires Pair(m1, m2, combinational) && u < NumVars(m2) && v < NumVars(m2)
    ensures var off := OffsetsOf(m1, m2, combinational);
      && (u != v ==> ExportVar(m2, off, u) != ExportVar(m2, off, v))
      && (ExportVar(m2, off, u) <= m1.maxvar ==>
            ExportVar(m2, off, u) == u < (if combinational then FirstAnd(m1) else FirstLatch(m1)))
  {}

  // ----- Frames ----------------------------------------------------------------------------------------

  function ExportGate(m2: Model, off: Offsets, g: Gate): Gate {
    Gate(Export(m2, off, g.lhs), Export(m2, off, g.rhs0), Export(m2, off, g.rhs1))
  }

  function ExportGates(m2: Model, off: Offsets, gs: seq<Gate>): (r: seq<Gate>)
    ensures |r| == |gs| && forall i :: 0 <= i < |gs| ==> r[i] == ExportGate(m2, off, gs[i])
  {
    seq(|gs|, i requires 0 <= i < |gs| => ExportGate(m2, off, gs[i]))
  }

  predicate VarSame(w: Valuation, x: nat, w': Valuation, v: nat) {
    x < |w| && v < |w'| && w[x] == w'[v]
  }

  /** The miter frame consists of a frame of each model. */
  ghost predicate Joint(m1: Model, m2: Model, off: Offsets, w: Valuation, w1: Valuation, w2: Valuation) {
    && (forall v: nat :: v < NumVars(m1) ==> VarSame(w, v, w1, v))
    && (forall v: nat :: v < NumVars(m2) ==> VarSame(w, ExportVar(m2, off, v), w2, v))
  }

  lemma JointLit1(m1: Model, m2: Model, off: Offsets, w: Valuation, w1: Valuation, w2: Valuation, l: nat)
    requires Joint(m1, m2, off, w, w1, w2) && l / 2 < NumVars(m1)
    ensures l / 2 < |w| && l / 2 < |w1| && LitVal(w, l) == LitVal(w1, l)
  {
    assert VarSame(w, l / 2, w1, l / 2);
  }

  lemma JointLit2(m1: Model, m2: Model, off: Offsets, w: Valuation, w1: Valuation, w2: Valuation, l: nat)
    requires Joint(m1, m2, off, w, w1, w2) && l / 2 < NumVars(m2)
    ensures Export(m2, off, l) / 2 < |w| && l / 2 < |w2| && LitVal(w, Export(m2, off, l)) == LitVal(w2, l)
  {
    assert VarSame(w, ExportVar(m2, off, l / 2), w2, l / 2);
    ExportParts(m2, off, l);
  }

  lemma ExportParts(m2: Model, off: Offsets, l: nat)
    ensures Export(m2, off, l) / 2 == ExportVar(m2, off, l / 2) && Export(m2, off, l) % 2 == l % 2
  {}

  /** Gates of re-encoded models are about defined variables. */
  lemma GateDefined(m: Model, i: nat)
    requires Reencoded(m) && i < |m.ands|
    ensures m.ands[i].lhs / 2 < NumVars(m) && m.ands[i].rhs0 / 2 < NumVars(m) && m.ands[i].rhs1 / 2 < NumVars(m)
  {
    assert m.ands[i].lhs == 2 * (FirstAnd(m) + i);
  }

  lemma JointGates1(m1: Model, m2: Model, off: Offsets, w: Valuation, w1: Valuation, w2: Valuation)
    requires Reencoded(m1) && InRange(m1) && Joint(m1, m2, off, w, w1, w2) && |w1| == m1.maxvar + 1 && |w| > 0
    ensures GatesWithin(m1.ands, |w| - 1)
    ensures !w[0] && GatesHold(w, m1.ands) <==> Consistent(m1, w1)
  {
    assert VarSame(w, 0, w1, 0);
    forall i | 0 <= i < |m1.ands|
      ensures GateWithin(m1.ands[i], |w| - 1) && (GateHolds(w, m1.ands[i]) <==> GateHolds(w1, m1.ands[i]))
    {
      GateDefined(m1, i);
      JointLit1(m1, m2, off, w, w1, w2, m1.ands[i].lhs);
      JointLit1(m1, m2, off, w, w1, w2, m1.ands[i].rhs0);
      JointLit1(m1, m2, off, w, w1, w2, m1.ands[i].rhs1);
    }
  }

  lemma JointGates2(m1: Model, m2: Model, off: Offsets, w: Valuation, w1: Valuation, w2: Valuation)
    requires Reencoded(m2) && InRange(m2) && Joint(m1, m2, off, w, w1, w2) && |w2| == m2.maxvar + 1 && |w| > 0
    ensures GatesWithin(ExportGates(m2, off, m2.ands), |w| - 1)
    ensures !w[0] && GatesHold(w, ExportGates(m2, off, m2.ands)) <==> Consistent(m2, w2)
  {
    var gs := ExportGates(m2, off, m2.ands);
    assert VarSame(w, ExportVar(m2, off, 0), w2, 0);
    forall i | 0 <= i < |m2.ands|
      ensures GateWithin(gs[i], |w| - 1) && (GateHolds(w, gs[i]) <==> GateHolds(w2, m2.ands[i]))
    {
      GateDefined(m2, i);
      JointLit2(m1, m2, off, w, w1, w2, m2.ands[i].lhs);
      JointLit2(m1, m2, off, w, w1, w2, m2.ands[i].rhs0);
      JointLit2(m1, m2, off, w, w1, w2, m2.ands[i].rhs1);
    }
  }

  /** The exported gates hold in a miter frame iff the original ones hold in its two parts. */
  lemma JointGates(m1: Model, m2: Model, off: Offsets, w: Valuation, w1: Valuation, w2: Valuation)
    requires Reencoded(m1) && Reencoded(m2) && Joint(m1, m2, off, w, w1, w2)
    requires InRange(m1) && InRange(m2) && |w1| == m1.maxvar + 1 && |w2| == m2.maxvar + 1 && |w| > 0
    ensures GatesWithin(m1.ands + ExportGates(m2, off, m2.ands), |w| - 1)
    ensures !w[0] && GatesHold(w, m1.ands + ExportGates(m2, off, m2.ands)) <==> Consistent(m1, w1) && Consistent(m2, w2)
  {
    JointGates1(m1, m2, off, w, w1, w2);
    JointGates2(m1, m2, off, w, w1, w2);
    GatesConcat(w, m1.ands, ExportGates(m2, off, m2.ands));
  }

  /** Putting two frames that agree on the shared variables side by side. */
  function JoinBit(m1: Model, m2: Model, off: Offsets, w1: Valuation, w2: Valuation, x: nat): bool
    requires NumVars(m1) <= |w1| && NumVars(m2) <= |w2|
  {
    if x < NumVars(m1) then w1[x]
    else if off.latches2 <= x < off.latches2 + |m2.latches| then w2[x - off.latches2 + FirstLatch(m2)]
    else if off.ands2 <= x < off.ands2 + |m2.ands| then w2[x - off.ands2 + FirstAnd(m2)]
    else false
  }

  lemma {:induction false} JoinFrames(m1: Model, m2: Model, combinational: bool, w1: Valuation, w2: Valuation, size: nat) returns (w: Valuation)
    requires Pair(m1, m2, combinational) && InRange(m1) && InRange(m2) && Consistent(m1, w1) && Consistent(m2, w2)
    requires forall v :: 0 <= v < (if combinational then FirstAnd(m1) else FirstLatch(m1)) ==> w1[v] == w2[v]
    requires size >= NumVars(m1) && forall v: nat :: v < NumVars(m2) ==> ExportVar(m2, OffsetsOf(m1, m2, combinational), v) < size
    ensures |w| == size && Joint(m1, m2, OffsetsOf(m1, m2, combinational), w, w1, w2)
  {
    var off := OffsetsOf(m1, m2, combinational);
    w := seq(size, x requires 0 <= x < size => JoinBit(m1, m2, off, w1, w2, x));
    forall v: nat | v < NumVars(m2) ensures VarSame(w, ExportVar(m2, off, v), w2, v) {
      NoCollision(m1, m2, combinational, v, v);
    }
  }
}
