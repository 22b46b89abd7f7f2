/** `aigmiter` as a whole: the miter's runs are pairs of runs of the two models under the same
    inputs, and its output tells them apart. */
module MiterTool {
  import opened Aiger
  import opened AigerBuild
  import opened MiterSpec
  import opened Miter

  function ExportLits(m2: Model, off: Offsets, ls: seq<nat>): (r: seq<nat>)
    ensures |r| == |ls| && forall i :: 0 <= i < |ls| ==> r[i] == Export(m2, off, ls[i])
  {
    seq(|ls|, i requires 0 <= i < |ls| => Export(m2, off, ls[i]))
  }

  function ExportLatches(m2: Model, off: Offsets): (r: seq<Latch>)
    ensures |r| == |m2.latches| && forall i :: 0 <= i < |r| ==> r[i] == ExportLatch(m2, off, m2.latches[i])
  {
    seq(|m2.latches|, i requires 0 <= i < |m2.latches| => ExportLatch(m2, off, m2.latches[i]))
  }

  function ExportLatch(m2: Model, off: Offsets, q: Latch): Latch {
    Latch(Export(m2, off, q.lit), Export(m2, off, q.next), Export(m2, off, q.reset))
  }

  function LatchLits(m: Model): (r: seq<nat>)
    ensures |r| == |m.latches| && forall i :: 0 <= i < |r| ==> r[i] == m.latches[i].lit
  {
    seq(|m.latches|, i requires 0 <= i < |m.latches| => m.latches[i].lit)
  }

  function NextLits(m: Model): (r: seq<nat>)
    ensures |r| == |m.latches| && forall i :: 0 <= i < |r| ==> r[i] == m.latches[i].next
  {
    seq(|m.latches|, i requires 0 <= i < |m.latches| => m.latches[i].next)
  }

  /** What is compared: the outputs, and before them the next states in combinational mode. */
  function Compared(m: Model, combinational: bool): seq<nat> {
    (if combinational then NextLits(m) else []) + m.outputs
  }

  /** Every defined variable of the two models lies below the added gates. */
  ghost predicate Covers(m1: Model, m2: Model, off: Offsets, first: nat) {
    NumVars(m1) <= first && forall v: nat :: v < NumVars(m2) ==> ExportVar(m2, off, v) < first
  }

  ghost predicate MiterOf(m1: Model, m2: Model, combinational: bool, e: Model, first: nat, out: nat)
    requires Pair(m1, m2, combinational)
  {
    var off := OffsetsOf(m1, m2, combinational);
    var base := m1.ands + ExportGates(m2, off, m2.ands);
    && e.inputs == m1.inputs + (if combinational then LatchLits(m1) else [])
    && e.latches == (if combinational then [] else m1.latches + ExportLatches(m2, off))
    && base <= e.ands && Fresh(e.ands[|base|..], first) && e.maxvar + 1 == first + |e.ands| - |base|
    && Covers(m1, m2, off, first) && InRange(e)
    && e.outputs == [Not(out)] && e.bad == [] && e.constraints == [] && e.justice == [] && e.fairness == []
    && OutMeans(e.ands[|base|..], first, Compared(m1, combinational), ExportLits(m2, off, Compared(m2, combinational)),
                |Compared(m1, combinational)|, out)
  }

  // ----- Construction ------------------------------------------------------------------------------------

  lemma ComparedDefined(m: Model, combinational: bool)
    requires Reencoded(m)
    ensures forall i :: 0 <= i < |Compared(m, combinational)| ==> Compared(m, combinational)[i] / 2 < NumVars(m)
  {}

  lemma FirstCovered(m1: Model, first: nat)
    requires Reencoded(m1) && first > 0
    requires forall i :: 0 <= i < |m1.inputs| ==> m1.inputs[i] / 2 < first
    requires forall i :: 0 <= i < |m1.latches| ==> m1.latches[i].lit / 2 < first
    requires GatesWithin(m1.ands, first - 1)
    ensures NumVars(m1) <= first
  {
    if |m1.ands| > 0 {
      assert GateWithin(m1.ands[|m1.ands| - 1], first - 1);
      assert m1.ands[|m1.ands| - 1].lhs == 2 * (FirstAnd(m1) + |m1.ands| - 1);
    } else if |m1.latches| > 0 {
      assert m1.latches[|m1.latches| - 1].lit == 2 * (FirstLatch(m1) + |m1.latches| - 1);
    } else if |m1.inputs| > 0 {
      assert m1.inputs[|m1.inputs| - 1] == 2 * (1 + |m1.inputs| - 1);
    }
  }

  lemma SecondCovered(m1: Model, m2: Model, combinational: bool, first: nat, v: nat)
    requires Pair(m1, m2, combinational) && NumVars(m1) <= first && v < NumVars(m2)
    requires GatesWithin(ExportGates(m2, OffsetsOf(m1, m2, combinational), m2.ands), first - 1)
    requires !combinational ==> forall i :: 0 <= i < |m2.latches| ==>
      LatchWithin(ExportLatches(m2, OffsetsOf(m1, m2, combinational))[i], first - 1)
    ensures ExportVar(m2, OffsetsOf(m1, m2, combinational), v) < first
  {
    var off := OffsetsOf(m1, m2, combinational);
    if v >= FirstAnd(m2) {
      var i := v - FirstAnd(m2);
      assert GateWithin(ExportGates(m2, off, m2.ands)[i], first - 1) && m2.ands[i].lhs == 2 * v;
      ExportParts(m2, off, m2.ands[i].lhs);
    } else if v >= FirstLatch(m2) && !combinational {
      var i := v - FirstLatch(m2);
      assert LatchWithin(ExportLatches(m2, off)[i], first - 1) && m2.latches[i].lit == 2 * v;
      ExportParts(m2, off, m2.latches[i].lit);
    }
  }

  lemma AllCovered(m1: Model, m2: Model, combinational: bool, first: nat)
    requires Pair(m1, m2, combinational) && first > 0
    requires forall i :: 0 <= i < |m1.inputs| ==> m1.inputs[i] / 2 < first
    requires forall i :: 0 <= i < |m1.latches| ==> m1.latches[i].lit / 2 < first
    requires GatesWithin(m1.ands, first - 1) && GatesWithin(ExportGates(m2, OffsetsOf(m1, m2, combinational), m2.ands), first - 1)
    requires !combinational ==> forall i :: 0 <= i < |m2.latches| ==>
      LatchWithin(ExportLatches(m2, OffsetsOf(m1, m2, combinational))[i], first - 1)
    ensures Covers(m1, m2, OffsetsOf(m1, m2, combinational), first)
  {
    FirstCovered(m1, first);
    forall v: nat | v < NumVars(m2) ensures ExportVar(m2, OffsetsOf(m1, m2, combinational), v) < first {
      SecondCovered(m1, m2, combinational, first, v);
    }
  }

  /** What the later theorems take as the miter, for some first new variable and some output. */
  ghost predicate IsMiter(m1: Model, m2: Model, combinational: bool, e: Model)
    requires Pair(m1, m2, combinational)
  {
    exists first: nat, out: nat :: MiterOf(m1, m2, combinational, e, first, out)
  }

  method Build(m1: Model, m2: Model, combinational: bool) returns (e: Model)
    requires Pair(m1, m2, combinational)
    ensures IsMiter(m1, m2, combinational, e)
  {
    var miter := new Builder();
    ExportBoth(m1, m2, combinational, miter);
    ghost var first := miter.maxvar + 1;
    ghost var out: nat;
    e, out := Finish(m1, m2, combinational, miter, first);
    assert MiterOf(m1, m2, combinational, e, first, out);
  }

  /** Inputs and gates of both models, then the latches. */
  method ExportBoth(m1: Model, m2: Model, combinational: bool, miter: Builder)
    requires Pair(m1, m2, combinational) && miter.inputs == [] && miter.ands == [] && miter.latches == []
    modifies miter
    ensures Covers(m1, m2, OffsetsOf(m1, m2, combinational), miter.maxvar + 1)
    ensures miter.ands == m1.ands + ExportGates(m2, OffsetsOf(m1, m2, combinational), m2.ands)
    ensures miter.inputs == m1.inputs + (if combinational then LatchLits(m1) else [])
    ensures miter.latches == if combinational then [] else m1.latches + ExportLatches(m2, OffsetsOf(m1, m2, combinational))
  {
    var off := OffsetsOf(m1, m2, combinational);
    AddBase(m1, m2, off, miter);
    ghost var maxvar := miter.maxvar;
    if combinational {
      miter.AddInputs(LatchLits(m1));
      assert forall i :: 0 <= i < |m1.latches| ==> LatchLits(m1)[i] / 2 <= miter.maxvar;
    } else {
      AddBothLatches(m1, m2, off, miter);
    }
    BaseGrows(m1, m2, off, maxvar, miter.maxvar);
    AllCovered(m1, m2, combinational, miter.maxvar + 1);
  }

  ghost predicate BaseWithin(m1: Model, m2: Model, off: Offsets, maxvar: nat) {
    && (forall i :: 0 <= i < |m1.inputs| ==> m1.inputs[i] / 2 < maxvar + 1)
    && GatesWithin(m1.ands, maxvar) && GatesWithin(ExportGates(m2, off, m2.ands), maxvar)
  }

  lemma BaseGrows(m1: Model, m2: Model, off: Offsets, maxvar: nat, maxvar': nat)
    requires BaseWithin(m1, m2, off, maxvar) && maxvar <= maxvar'
    ensures BaseWithin(m1, m2, off, maxvar')
  {
    forall i | 0 <= i < |m1.ands| ensures GateWithin(m1.ands[i], maxvar') { assert GateWithin(m1.ands[i], maxvar); }
    var gs := ExportGates(m2, off, m2.ands);
    forall i | 0 <= i < |gs| ensures GateWithin(gs[i], maxvar') { assert GateWithin(gs[i], maxvar); }
  }

  method AddBase(m1: Model, m2: Model, off: Offsets, miter: Builder)
    requires miter.inputs == [] && miter.ands == []
    modifies miter`maxvar, miter`inputs, miter`ands
    ensures BaseWithin(m1, m2, off, miter.maxvar)
    ensures miter.ands == m1.ands + ExportGates(m2, off, m2.ands) && miter.inputs == m1.inputs
  {
    miter.AddInputs(m1.inputs);
    miter.AddAnds(m1.ands);
    ghost var maxvar := miter.maxvar;
    miter.AddAnds(ExportGates(m2, off, m2.ands));
    forall i | 0 <= i < |m1.ands| ensures GateWithin(m1.ands[i], miter.maxvar) { assert GateWithin(m1.ands[i], maxvar); }
  }

  method AddBothLatches(m1: Model, m2: Model, off: Offsets, miter: Builder)
    requires miter.latches == []
    modifies miter`maxvar, miter`latches
    ensures old(miter.maxvar) <= miter.maxvar && miter.latches == m1.latches + ExportLatches(m2, off)
    ensures forall i :: 0 <= i < |m1.latches| ==> m1.latches[i].lit / 2 < miter.maxvar + 1
    ensures forall i :: 0 <= i < |m2.latches| ==> LatchWithin(ExportLatches(m2, off)[i], miter.maxvar)
  {
    miter.AddLatches(m1.latches);
    assert forall i :: 0 <= i < |m1.latches| ==> LatchWithin(m1.latches[i], miter.maxvar);
    miter.AddLatches(ExportLatches(m2, off));
  }

  method Finish(m1: Model, m2: Model, combinational: bool, miter: Builder, ghost first: nat) returns (e: Model, ghost out: nat)
    requires Pair(m1, m2, combinational) && Covers(m1, m2, OffsetsOf(m1, m2, combinational), first) && first == miter.maxvar + 1
    requires miter.ands == m1.ands + ExportGates(m2, OffsetsOf(m1, m2, combinational), m2.ands)
    requires miter.inputs == m1.inputs + (if combinational then LatchLits(m1) else [])
    requires miter.latches == if combinational then [] else m1.latches + ExportLatches(m2, OffsetsOf(m1, m2, combinational))
    modifies miter
    ensures MiterOf(m1, m2, combinational, e, first, out)
  {
    var off := OffsetsOf(m1, m2, combinational);
    ghost var base := miter.ands;
    var xs, ys := Compared(m1, combinational), ExportLits(m2, off, Compared(m2, combinational));
    ComparedDefined(m1, combinational);
    ComparedDefined(m2, combinational);
    forall i | 0 <= i < |ys| ensures ys[i] / 2 < first {
      ExportParts(m2, off, Compared(m2, combinational)[i]);
    }
    assert miter.ands[|base|..] == [];
    var o := AllEqual(miter, xs, ys, base, first);
    out := o;
    e := Model(miter.maxvar, miter.inputs, miter.latches, miter.ands, [Not(o)], [], [], [], []);
    MiterInRange(m1, m2, combinational, e, first);
  }

  lemma MiterInRange(m1: Model, m2: Model, combinational: bool, e: Model, first: nat)
    requires Pair(m1, m2, combinational) && Covers(m1, m2, OffsetsOf(m1, m2, combinational), first)
    requires var base := m1.ands + ExportGates(m2, OffsetsOf(m1, m2, combinational), m2.ands);
      base <= e.ands && Fresh(e.ands[|base|..], first) && e.maxvar + 1 == first + |e.ands| - |base|
    requires e.inputs == m1.inputs + (if combinational then LatchLits(m1) else [])
    requires e.latches == if combinational then [] else m1.latches + ExportLatches(m2, OffsetsOf(m1, m2, combinational))
    requires AllBelow(e.outputs, e.maxvar + 1) && e.bad == [] && e.constraints == [] && e.justice == [] && e.fairness == []
    ensures InRange(e)
  {
    var off := OffsetsOf(m1, m2, combinational);
    var base := m1.ands + ExportGates(m2, off, m2.ands);
    forall i | 0 <= i < |e.ands| ensures GateWithin(e.ands[i], e.maxvar) {
      if i < |m1.ands| {
        GateDefined(m1, i);
        assert base[i] == m1.ands[i];
      } else if i < |base| {
        GateDefined(m2, i - |m1.ands|);
        assert base[i] == ExportGate(m2, off, m2.ands[i - |m1.ands|]);
        ExportedGateWithin(m1, m2, off, first, m2.ands[i - |m1.ands|]);
      } else {
        assert FreshAt(e.ands[|base|..], first, i - |base|);
      }
    }
    forall i | 0 <= i < |e.latches| ensures LatchWithin(e.latches[i], e.maxvar) {
      if i >= |m1.latches| {
        var q := m2.latches[i - |m1.latches|];
        ExportParts(m2, off, q.lit);
        ExportParts(m2, off, q.next);
        ExportParts(m2, off, q.reset);
      }
    }
  }

  lemma ExportedGateWithin(m1: Model, m2: Model, off: Offsets, first: nat, g: Gate)
    requires Covers(m1, m2, off, first) && g.lhs / 2 < NumVars(m2) && g.rhs0 / 2 < NumVars(m2) && g.rhs1 / 2 < NumVars(m2)
    ensures first > 0 && GateWithin(ExportGate(m2, off, g), first - 1)
  {
    ExportParts(m2, off, g.lhs);
    ExportParts(m2, off, g.rhs0);
    ExportParts(m2, off, g.rhs1);
  }

  // ----- Frames of the miter ---------------------------------------------------------------------------------

  lemma ConsistentParts(m1: Model, m2: Model, combinational: bool, e: Model, first: nat, out: nat, w: Valuation)
    requires Pair(m1, m2, combinational) && MiterOf(m1, m2, combinational, e, first, out) && |w| == e.maxvar + 1
    ensures var base := m1.ands + ExportGates(m2, OffsetsOf(m1, m2, combinational), m2.ands);
      && GatesWithin(base, |w| - 1) && GatesWithin(e.ands[|base|..], |w| - 1)
      && (Consistent(e, w) <==> !w[0] && GatesHold(w, base) && GatesHold(w, e.ands[|base|..]))
  {
    var base := m1.ands + ExportGates(m2, OffsetsOf(m1, m2, combinational), m2.ands);
    var extra := e.ands[|base|..];
    assert e.ands == base + extra;
    forall i | 0 <= i < |base| ensures GateWithin(base[i], |w| - 1) { assert e.ands[i] == base[i]; }
    forall i | 0 <= i < |extra| ensures GateWithin(extra[i], |w| - 1) { assert e.ands[|base| + i] == extra[i]; }
    GatesConcat(w, base, extra);
  }

  /** The part of a miter frame that belongs to the first model. */
  function Part1(m1: Model, w: Valuation): (r: Valuation)
    requires NumVars(m1) <= |w|
    ensures |r| == m1.maxvar + 1 && forall v :: 0 <= v < |r| ==> r[v] == (v < NumVars(m1) && w[v])
  {
    seq(m1.maxvar + 1, v requires 0 <= v => v < NumVars(m1) && w[v])
  }

  function Part2(m2: Model, off: Offsets, w: Valuation): (r: Valuation)
    ensures |r| == m2.maxvar + 1 && forall v :: 0 <= v < |r| ==> r[v] == Part2Bit(m2, off, w, v)
  {
    seq(m2.maxvar + 1, v requires 0 <= v => Part2Bit(m2, off, w, v))
  }

  function Part2Bit(m2: Model, off: Offsets, w: Valuation, v: nat): bool {
    v < NumVars(m2) && ExportVar(m2, off, v) < |w| && w[ExportVar(m2, off, v)]
  }

  /** Every frame of the miter consists of a frame of each model. */
  lemma SplitFrame(m1: Model, m2: Model, combinational: bool, e: Model, first: nat, out: nat, w: Valuation) returns (w1: Valuation, w2: Valuation)
    requires Pair(m1, m2, combinational) && InRange(m1) && InRange(m2) && MiterOf(m1, m2, combinational, e, first, out)
    requires Consistent(e, w)
    ensures Consistent(m1, w1) && Consistent(m2, w2) && Joint(m1, m2, OffsetsOf(m1, m2, combinational), w, w1, w2)
  {
    var off := OffsetsOf(m1, m2, combinational);
    w1, w2 := Part1(m1, w), Part2(m2, off, w);
    ConsistentParts(m1, m2, combinational, e, first, out, w);
    JointGates(m1, m2, off, w, w1, w2);
  }

  /** Frames that agree on what is shared make a frame of the miter. */
  lemma JoinFrame(m1: Model, m2: Model, combinational: bool, e: Model, first: nat, out: nat, w1: Valuation, w2: Valuation) returns (w: Valuation)
    requires Pair(m1, m2, combinational) && InRange(m1) && InRange(m2) && MiterOf(m1, m2, combinational, e, first, out)
    requires Consistent(m1, w1) && Consistent(m2, w2)
    requires forall v :: 0 <= v < (if combinational then FirstAnd(m1) else FirstLatch(m1)) ==> w1[v] == w2[v]
    ensures Consistent(e, w) && Joint(m1, m2, OffsetsOf(m1, m2, combinational), w, w1, w2)
  {
    var off := OffsetsOf(m1, m2, combinational);
    var base := m1.ands + ExportGates(m2, off, m2.ands);
    var w0 := JoinFrames(m1, m2, combinational, w1, w2, e.maxvar + 1);
    w := EvaluateFresh(e.ands[|base|..], first, w0);
    forall v: nat | v < NumVars(m1) ensures VarSame(w, v, w1, v) { assert VarSame(w0, v, w1, v); }
    forall v: nat | v < NumVars(m2) ensures VarSame(w, ExportVar(m2, off, v), w2, v) {
      assert VarSame(w0, ExportVar(m2, off, v), w2, v);
    }
    JointGates(m1, m2, off, w, w1, w2);
    ConsistentParts(m1, m2, combinational, e, first, out, w);
  }

  /** The output of the miter is true iff some compared pair differs. */
  lemma OutputTellsApart(m1: Model, m2: Model, combinational: bool, e: Model, first: nat, out: nat,
                         w: Valuation, w1: Valuation, w2: Valuation)
    requires Pair(m1, m2, combinational) && MiterOf(m1, m2, combinational, e, first, out) && Consistent(e, w)
    requires Joint(m1, m2, OffsetsOf(m1, m2, combinational), w, w1, w2)
    ensures LitVal(w, e.outputs[0]) <==> !AllAgree(Compared(m1, combinational), w1, Compared(m2, combinational), w2)
  {
    var off := OffsetsOf(m1, m2, combinational);
    var base := m1.ands + ExportGates(m2, off, m2.ands);
    var xs, zs := Compared(m1, combinational), Compared(m2, combinational);
    var ys := ExportLits(m2, off, zs);
    ConsistentParts(m1, m2, combinational, e, first, out, w);
    assert Respects(w, e.ands[|base|..], first);
    assert OutIs(w, xs, ys, |xs|, out);
    NotVal(w, out);
    ComparedDefined(m1, combinational);
    ComparedDefined(m2, combinational);
    forall i | 0 <= i < |xs| ensures PairEqual(w, xs[i], ys[i]) <==> LitsAgree(w1, xs[i], w2, zs[i]) {
      JointLit1(m1, m2, off, w, w1, w2, xs[i]);
      JointLit2(m1, m2, off, w, w1, w2, zs[i]);
    }
  }

  predicate LitsAgree(w1: Valuation, l1: nat, w2: Valuation, l2: nat) {
    l1 / 2 < |w1| && l2 / 2 < |w2| && LitVal(w1, l1) == LitVal(w2, l2)
  }

  ghost predicate AllAgree(ls1: seq<nat>, w1: Valuation, ls2: seq<nat>, w2: Valuation) {
    |ls1| == |ls2| && forall i :: 0 <= i < |ls1| ==> LitsAgree(w1, ls1[i], w2, ls2[i])
  }

  ghost predicate OutputDiffers(m1: Model, m2: Model, w1: Valuation, w2: Valuation)
    requires InRange(m1) && InRange(m2) && |w1| == m1.maxvar + 1 && |w2| == m2.maxvar + 1 && |m1.outputs| == |m2.outputs|
  {
    exists i :: 0 <= i < |m1.outputs| && LitVal(w1, m1.outputs[i]) != LitVal(w2, m2.outputs[i])
  }

  ghost predicate NextDiffers(m1: Model, m2: Model, w1: Valuation, w2: Valuation)
    requires InRange(m1) && InRange(m2) && |w1| == m1.maxvar + 1 && |w2| == m2.maxvar + 1 && |m1.latches| == |m2.latches|
  {
    exists i :: 0 <= i < |m1.latches| && LitVal(w1, m1.latches[i].next) != LitVal(w2, m2.latches[i].next)
  }

  lemma ComparedMeans(m1: Model, m2: Model, combinational: bool, w1: Valuation, w2: Valuation)
    requires Pair(m1, m2, combinational) && InRange(m1) && InRange(m2) && |w1| == m1.maxvar + 1 && |w2| == m2.maxvar + 1
    ensures !AllAgree(Compared(m1, combinational), w1, Compared(m2, combinational), w2) <==>
      OutputDiffers(m1, m2, w1, w2) || (combinational && NextDiffers(m1, m2, w1, w2))
  {
    OutputsCompared(m1, m2, w1, w2);
    if combinational {
      NextsCompared(m1, m2, w1, w2);
      AgreeConcat(NextLits(m1), m1.outputs, w1, NextLits(m2), m2.outputs, w2);
    } else {
      assert Compared(m1, combinational) == m1.outputs && Compared(m2, combinational) == m2.outputs;
    }
    hide AllAgree, OutputDiffers, NextDiffers, InRange, Reencoded;
  }

  lemma AgreeConcat(a1: seq<nat>, b1: seq<nat>, w1: Valuation, a2: seq<nat>, b2: seq<nat>, w2: Valuation)
    requires |a1| == |a2|
    ensures AllAgree(a1 + b1, w1, a2 + b2, w2) <==> AllAgree(a1, w1, a2, w2) && AllAgree(b1, w1, b2, w2)
  {
    var n, c1, c2 := |a1|, a1 + b1, a2 + b2;
    hide LitsAgree;
    if AllAgree(c1, w1, c2, w2) {
      forall i | 0 <= i < n ensures LitsAgree(w1, a1[i], w2, a2[i]) { assert LitsAgree(w1, c1[i], w2, c2[i]); }
      forall i | 0 <= i < |b1| ensures LitsAgree(w1, b1[i], w2, b2[i]) { assert LitsAgree(w1, c1[n + i], w2, c2[n + i]); }
    }
  }

  lemma OutputsCompared(m1: Model, m2: Model, w1: Valuation, w2: Valuation)
    requires InRange(m1) && InRange(m2) && |w1| == m1.maxvar + 1 && |w2| == m2.maxvar + 1 && |m1.outputs| == |m2.outputs|
    ensures !AllAgree(m1.outputs, w1, m2.outputs, w2) <==> OutputDiffers(m1, m2, w1, w2)
  {}

  lemma NextsCompared(m1: Model, m2: Model, w1: Valuation, w2: Valuation)
    requires InRange(m1) && InRange(m2) && |w1| == m1.maxvar + 1 && |w2| == m2.maxvar + 1 && |m1.latches| == |m2.latches|
    ensures !AllAgree(NextLits(m1), w1, NextLits(m2), w2) <==> NextDiffers(m1, m2, w1, w2)
  {
    forall i | 0 <= i < |m1.latches|
      ensures LitsAgree(w1, NextLits(m1)[i], w2, NextLits(m2)[i]) <==> LitVal(w1, m1.latches[i].next) == LitVal(w2, m2.latches[i].next)
    {}
  }

  /** The miter's output is 1 iff some output differs or, in combinational mode, some next state. */
  lemma OutputMeans(m1: Model, m2: Model, combinational: bool, e: Model, first: nat, out: nat, w: Valuation, w1: Valuation, w2: Valuation)
    requires Pair(m1, m2, combinational) && InRange(m1) && InRange(m2) && MiterOf(m1, m2, combinational, e, first, out)
    requires Consistent(e, w) && |w1| == m1.maxvar + 1 && |w2| == m2.maxvar + 1
    requires Joint(m1, m2, OffsetsOf(m1, m2, combinational), w, w1, w2)
    ensures e.outputs[0] / 2 < |w|
    ensures LitVal(w, e.outputs[0]) <==>
      || (exists i :: 0 <= i < |m1.outputs| && LitVal(w1, m1.outputs[i]) != LitVal(w2, m2.outputs[i]))
      || (combinational && exists i :: 0 <= i < |m1.latches| && LitVal(w1, m1.latches[i].next) != LitVal(w2, m2.latches[i].next))
  {
    OutputTellsApart(m1, m2, combinational, e, first, out, w, w1, w2);
    ComparedMeans(m1, m2, combinational, w1, w2);
    assert e.outputs[0] / 2 < |w|;
    hide MiterOf, Joint, Compared, AllAgree, Reencoded;
  }

  /** The two parts of a frame have the inputs in common, and in combinational mode the latches. */
  lemma SharedAgree(m1: Model, m2: Model, combinational: bool, w: Valuation, w1: Valuation, w2: Valuation)
    requires Pair(m1, m2, combinational) && |w1| >= NumVars(m1) && |w2| >= NumVars(m2)
    requires Joint(m1, m2, OffsetsOf(m1, m2, combinational), w, w1, w2)
    ensures forall v :: 0 <= v < (if combinational then FirstAnd(m1) else FirstLatch(m1)) ==> w1[v] == w2[v]
  {
    forall v: nat | v < (if combinational then FirstAnd(m1) else FirstLatch(m1)) ensures w1[v] == w2[v] {
      assert VarSame(w, v, w1, v) && VarSame(w, ExportVar(m2, OffsetsOf(m1, m2, combinational), v), w2, v);
    }
  }

  /** The combinational miter can be 1 iff, for some inputs and some state, the models differ in an
      output or in the next value of a latch. */
  lemma CombinationalMiter(m1: Model, m2: Model, e: Model, first: nat, out: nat)
    requires Pair(m1, m2, true) && InRange(m1) && InRange(m2) && MiterOf(m1, m2, true, e, first, out)
    ensures (exists w :: Consistent(e, w) && LitVal(w, e.outputs[0])) <==>
      exists w1, w2 :: Consistent(m1, w1) && Consistent(m2, w2)
                       && (forall v :: 0 <= v < FirstAnd(m1) ==> v < |w1| && v < |w2| && w1[v] == w2[v])
                       && (OutputDiffers(m1, m2, w1, w2) || NextDiffers(m1, m2, w1, w2))
  {
    hide MiterOf, OutputDiffers, NextDiffers;
    OneOutput(m1, m2, e, first, out);
    if w :| Consistent(e, w) && LitVal(w, e.outputs[0]) {
      var w1, w2 := SplitFrame(m1, m2, true, e, first, out, w);
      SharedAgree(m1, m2, true, w, w1, w2);
      CombinationalFrame(m1, m2, e, first, out, w, w1, w2);
    }
    if w1, w2 :| Consistent(m1, w1) && Consistent(m2, w2)
                 && (forall v :: 0 <= v < FirstAnd(m1) ==> v < |w1| && v < |w2| && w1[v] == w2[v])
                 && (OutputDiffers(m1, m2, w1, w2) || NextDiffers(m1, m2, w1, w2)) {
      var w := JoinFrame(m1, m2, true, e, first, out, w1, w2);
      CombinationalFrame(m1, m2, e, first, out, w, w1, w2);
    }
  }

  /** The inputs are the shared variables: those of the first model, and its latches in combinational mode. */
  lemma MiterInterface(m1: Model, m2: Model, combinational: bool, e: Model, first: nat, out: nat)
    requires Pair(m1, m2, combinational) && MiterOf(m1, m2, combinational, e, first, out)
    ensures |e.inputs| == |m1.inputs| + (if combinational then |m1.latches| else 0)
    ensures |e.latches| == if combinational then 0 else |m1.latches| + |m2.latches|
    ensures forall i :: 0 <= i < |e.inputs| ==> e.inputs[i] == 2 * (1 + i)
    ensures forall i :: 0 <= i < |e.latches| && i < |m1.latches| ==> e.latches[i] == m1.latches[i]
  {
    forall i | 0 <= i < |e.inputs| ensures e.inputs[i] == 2 * (1 + i) {
      if i >= |m1.inputs| { assert m1.latches[i - |m1.inputs|].lit == 2 * (FirstLatch(m1) + (i - |m1.inputs|)); }
    }
  }

  lemma OneOutput(m1: Model, m2: Model, e: Model, first: nat, out: nat)
    requires Pair(m1, m2, true) && MiterOf(m1, m2, true, e, first, out)
    ensures InRange(e) && |e.outputs| == 1
  {}

  lemma CombinationalFrame(m1: Model, m2: Model, e: Model, first: nat, out: nat, w: Valuation, w1: Valuation, w2: Valuation)
    requires Pair(m1, m2, true) && InRange(m1) && InRange(m2) && MiterOf(m1, m2, true, e, first, out)
    requires Consistent(e, w) && Consistent(m1, w1) && Consistent(m2, w2)
    requires Joint(m1, m2, OffsetsOf(m1, m2, true), w, w1, w2)
    ensures e.outputs[0] / 2 < |w| && (LitVal(w, e.outputs[0]) <==> OutputDiffers(m1, m2, w1, w2) || NextDiffers(m1, m2, w1, w2))
  {
    OutputMeans(m1, m2, true, e, first, out, w, w1, w2);
  }

  // ----- Runs in sequential mode ------------------------------------------------------------------------------

  lemma ExportReset(m2: Model, off: Offsets, l: nat)
    requires off.latches2 > 0 && off.ands2 > 0
    ensures Export(m2, off, l) <= 1 <==> l <= 1
    ensures l <= 1 ==> Export(m2, off, l) == l
  {
    ExportParts(m2, off, l);
  }

  lemma JointInitial(m1: Model, m2: Model, e: Model, first: nat, out: nat, w: Valuation, w1: Valuation, w2: Valuation)
    requires Pair(m1, m2, false) && InRange(m1) && InRange(m2) && MiterOf(m1, m2, false, e, first, out)
    requires |w| == e.maxvar + 1 && |w1| == m1.maxvar + 1 && |w2| == m2.maxvar + 1
    requires Joint(m1, m2, OffsetsOf(m1, m2, false), w, w1, w2)
    ensures Initial(e, w) <==> Initial(m1, w1) && Initial(m2, w2)
  {
    var off := OffsetsOf(m1, m2, false);
    var n := |m1.latches|;
    forall i | 0 <= i < n ensures e.latches[i] == m1.latches[i] && LitVal(w, m1.latches[i].lit) == LitVal(w1, m1.latches[i].lit) {
      JointLit1(m1, m2, off, w, w1, w2, m1.latches[i].lit);
    }
    forall i | 0 <= i < |m2.latches|
      ensures e.latches[n + i] == ExportLatch(m2, off, m2.latches[i])
      ensures LitVal(w, e.latches[n + i].lit) == LitVal(w2, m2.latches[i].lit)
      ensures e.latches[n + i].reset <= 1 <==> m2.latches[i].reset <= 1
      ensures m2.latches[i].reset <= 1 ==> e.latches[n + i].reset == m2.latches[i].reset
    {
      JointLit2(m1, m2, off, w, w1, w2, m2.latches[i].lit);
      ExportReset(m2, off, m2.latches[i].reset);
    }
    if Initial(m1, w1) && Initial(m2, w2) {
      forall i | 0 <= i < |e.latches| && e.latches[i].reset <= 1 ensures LitVal(w, e.latches[i].lit) == (e.latches[i].reset == 1) {
        if i >= n { assert e.latches[n + (i - n)] == e.latches[i]; }
      }
    }
    if Initial(e, w) {
      forall i | 0 <= i < |m2.latches| && m2.latches[i].reset <= 1
        ensures LitVal(w2, m2.latches[i].lit) == (m2.latches[i].reset == 1)
      {
        assert LitVal(w, e.latches[n + i].lit) == (e.latches[n + i].reset == 1);
      }
    }
  }

  lemma JointStep(m1: Model, m2: Model, e: Model, first: nat, out: nat,
                  w: Valuation, w1: Valuation, w2: Valuation, v: Valuation, v1: Valuation, v2: Valuation)
    requires Pair(m1, m2, false) && InRange(m1) && InRange(m2) && MiterOf(m1, m2, false, e, first, out)
    requires |w| == |v| == e.maxvar + 1 && |w1| == |v1| == m1.maxvar + 1 && |w2| == |v2| == m2.maxvar + 1
    requires Joint(m1, m2, OffsetsOf(m1, m2, false), w, w1, w2) && Joint(m1, m2, OffsetsOf(m1, m2, false), v, v1, v2)
    ensures Step(e, w, v) <==> Step(m1, w1, v1) && Step(m2, w2, v2)
  {
    var off := OffsetsOf(m1, m2, false);
    var n := |m1.latches|;
    forall i | 0 <= i < n
      ensures e.latches[i] == m1.latches[i]
      ensures LitVal(v, e.latches[i].lit) == LitVal(v1, m1.latches[i].lit) && LitVal(w, e.latches[i].next) == LitVal(w1, m1.latches[i].next)
    {
      JointLit1(m1, m2, off, v, v1, v2, m1.latches[i].lit);
      JointLit1(m1, m2, off, w, w1, w2, m1.latches[i].next);
    }
    forall i | 0 <= i < |m2.latches|
      ensures e.latches[n + i] == ExportLatch(m2, off, m2.latches[i])
      ensures LitVal(v, e.latches[n + i].lit) == LitVal(v2, m2.latches[i].lit)
      ensures LitVal(w, e.latches[n + i].next) == LitVal(w2, m2.latches[i].next)
    {
      JointLit2(m1, m2, off, v, v1, v2, m2.latches[i].lit);
      JointLit2(m1, m2, off, w, w1, w2, m2.latches[i].next);
    }
    if Step(m1, w1, v1) && Step(m2, w2, v2) {
      forall i | 0 <= i < |e.latches| ensures LitVal(v, e.latches[i].lit) == LitVal(w, e.latches[i].next) {
        if i >= n { assert e.latches[n + (i - n)] == e.latches[i]; }
      }
    }
    if Step(e, w, v) {
      forall i | 0 <= i < |m2.latches| ensures LitVal(v2, m2.latches[i].lit) == LitVal(w2, m2.latches[i].next) {
        assert LitVal(v, e.latches[n + i].lit) == LitVal(w, e.latches[n + i].next);
      }
    }
  }

  ghost predicate JointFrames(m1: Model, m2: Model, e: Model, w: Valuation, w1: Valuation, w2: Valuation)
    requires InRange(m1) && InRange(m2) && InRange(e)
  {
    && Consistent(e, w) && Consistent(m1, w1) && Consistent(m2, w2)
    && Joint(m1, m2, OffsetsOf(m1, m2, false), w, w1, w2)
  }

  ghost predicate JointRun(m1: Model, m2: Model, e: Model, ws: seq<Valuation>, ws1: seq<Valuation>, ws2: seq<Valuation>)
    requires InRange(m1) && InRange(m2) && InRange(e)
  {
    |ws| == |ws1| == |ws2| && forall t :: 0 <= t < |ws| ==> JointFrames(m1, m2, e, ws[t], ws1[t], ws2[t])
  }

  lemma JointRuns(m1: Model, m2: Model, e: Model, first: nat, out: nat, ws: seq<Valuation>, ws1: seq<Valuation>, ws2: seq<Valuation>)
    requires Pair(m1, m2, false) && InRange(m1) && InRange(m2) && MiterOf(m1, m2, false, e, first, out)
    requires JointRun(m1, m2, e, ws, ws1, ws2) && |ws| > 0
    ensures Run(e, ws) <==> Run(m1, ws1) && Run(m2, ws2)
  {
    assert JointFrames(m1, m2, e, ws[0], ws1[0], ws2[0]);
    JointInitial(m1, m2, e, first, out, ws[0], ws1[0], ws2[0]);
    forall t | 0 <= t < |ws| - 1 ensures Step(e, ws[t], ws[t + 1]) <==> Step(m1, ws1[t], ws1[t + 1]) && Step(m2, ws2[t], ws2[t + 1]) {
      assert JointFrames(m1, m2, e, ws[t], ws1[t], ws2[t]) && JointFrames(m1, m2, e, ws[t + 1], ws1[t + 1], ws2[t + 1]);
      JointStep(m1, m2, e, first, out, ws[t], ws1[t], ws2[t], ws[t + 1], ws1[t + 1], ws2[t + 1]);
    }
    forall t | 0 <= t < |ws| ensures Consistent(e, ws[t]) && Consistent(m1, ws1[t]) && Consistent(m2, ws2[t]) {
      assert JointFrames(m1, m2, e, ws[t], ws1[t], ws2[t]);
    }
  }

  /** Every run of the miter is a pair of runs, and its output is 1 exactly when some outputs differ. */
  lemma {:induction false} MiterRun(m1: Model, m2: Model, e: Model, first: nat, out: nat, ws: seq<Valuation>)
    returns (ws1: seq<Valuation>, ws2: seq<Valuation>)
    requires Pair(m1, m2, false) && InRange(m1) && InRange(m2) && MiterOf(m1, m2, false, e, first, out) && Run(e, ws)
    ensures Run(m1, ws1) && Run(m2, ws2) && JointRun(m1, m2, e, ws, ws1, ws2)
    ensures forall t, v :: 0 <= t < |ws| && 1 <= v < FirstLatch(m1) ==> ws1[t][v] == ws2[t][v]
    ensures forall t :: 0 <= t < |ws| ==> (LitVal(ws[t], e.outputs[0]) <==> OutputDiffers(m1, m2, ws1[t], ws2[t]))
  {
    ws1, ws2 := [], [];
    for n := 0 to |ws|
      invariant |ws1| == |ws2| == n && forall t :: 0 <= t < n ==> JointFrames(m1, m2, e, ws[t], ws1[t], ws2[t])
    {
      var w1, w2 := SplitFrame(m1, m2, false, e, first, out, ws[n]);
      ws1, ws2 := ws1 + [w1], ws2 + [w2];
    }
    JointRuns(m1, m2, e, first, out, ws, ws1, ws2);
    MiterOutputs(m1, m2, e, first, out, ws, ws1, ws2);
  }

  lemma {:induction false} MiterOutputs(m1: Model, m2: Model, e: Model, first: nat, out: nat, ws: seq<Valuation>, ws1: seq<Valuation>, ws2: seq<Valuation>)
    requires Pair(m1, m2, false) && InRange(m1) && InRange(m2) && MiterOf(m1, m2, false, e, first, out)
    requires JointRun(m1, m2, e, ws, ws1, ws2)
    ensures forall t :: 0 <= t < |ws| ==>
      |ws[t]| == e.maxvar + 1 && (LitVal(ws[t], e.outputs[0]) <==> OutputDiffers(m1, m2, ws1[t], ws2[t]))
    ensures forall t, v :: 0 <= t < |ws| && 1 <= v < FirstLatch(m1) ==> ws1[t][v] == ws2[t][v]
  {
    forall t | 0 <= t < |ws|
      ensures |ws[t]| == e.maxvar + 1 && (LitVal(ws[t], e.outputs[0]) <==> OutputDiffers(m1, m2, ws1[t], ws2[t]))
      ensures forall v :: 1 <= v < FirstLatch(m1) ==> ws1[t][v] == ws2[t][v]
    {
      assert JointFrames(m1, m2, e, ws[t], ws1[t], ws2[t]);
      OutputMeans(m1, m2, false, e, first, out, ws[t], ws1[t], ws2[t]);
      SharedAgree(m1, m2, false, ws[t], ws1[t], ws2[t]);
    }
  }

  /** Any two runs under the same inputs, whatever their uninitialised latches, make a run of the miter. */
  lemma {:induction false} PairOfRuns(m1: Model, m2: Model, e: Model, first: nat, out: nat, ws1: seq<Valuation>, ws2: seq<Valuation>)
    returns (ws: seq<Valuation>)
    requires Pair(m1, m2, false) && InRange(m1) && InRange(m2) && MiterOf(m1, m2, false, e, first, out)
    requires Run(m1, ws1) && Run(m2, ws2) && |ws1| == |ws2|
    requires forall t, v :: 0 <= t < |ws1| && 1 <= v < FirstLatch(m1) ==> ws1[t][v] == ws2[t][v]
    ensures Run(e, ws) && JointRun(m1, m2, e, ws, ws1, ws2)
    ensures forall t :: 0 <= t < |ws| ==> (LitVal(ws[t], e.outputs[0]) <==> OutputDiffers(m1, m2, ws1[t], ws2[t]))
  {
    ws := [];
    for n := 0 to |ws1|
      invariant |ws| == n && forall t :: 0 <= t < n ==> JointFrames(m1, m2, e, ws[t], ws1[t], ws2[t])
    {
      assert Consistent(m1, ws1[n]) && Consistent(m2, ws2[n]);
      var w := JoinFrame(m1, m2, false, e, first, out, ws1[n], ws2[n]);
      ws := ws + [w];
    }
    JointRuns(m1, m2, e, first, out, ws, ws1, ws2);
    MiterOutputs(m1, m2, e, first, out, ws, ws1, ws2);
  }
}
