/** `aigmove`: environment constraints are folded into a latch and a chain of gates, so that bad
    states become ordinary outputs. */
module Move {
  import opened Aiger
  import opened AigerBuild

  // ----- The gates that are added -----------------------------------------------------------------------

  /** A chain of conjunctions that starts with `prev`. */
  function ChainGates(prev: nat, lo: nat, cs: seq<nat>): (r: seq<Gate>)
    ensures |r| == |cs| && forall j :: 0 <= j < |cs| ==> r[j] == ChainGate(prev, lo, cs, j)
  {
    seq(|cs|, j requires 0 <= j < |cs| => ChainGate(prev, lo, cs, j))
  }

  function ChainGate(prev: nat, lo: nat, cs: seq<nat>, j: nat): Gate
    requires j < |cs|
  {
    Gate(2 * (lo + j), ChainLit(prev, lo, j), cs[j])
  }

  /** The literal that is the conjunction of `prev` and the first `n` constraints. */
  function ChainLit(prev: nat, lo: nat, n: nat): nat {
    if n == 0 then prev else 2 * (lo + n - 1)
  }

  function BadGates(valid: nat, lo: nat, bads: seq<nat>): (r: seq<Gate>)
    ensures |r| == |bads| && forall k :: 0 <= k < |bads| ==> r[k] == Gate(2 * (lo + k), valid, bads[k])
  {
    seq(|bads|, k requires 0 <= k < |bads| => Gate(2 * (lo + k), valid, bads[k]))
  }

  function BadLits(lo: nat, n: nat): (r: seq<nat>)
    ensures |r| == n && forall k :: 0 <= k < n ==> r[k] == 2 * (lo + k)
  {
    seq(n, k requires 0 <= k < n => 2 * (lo + k))
  }

  ghost predicate AllTrue(w: Valuation, ls: seq<nat>) {
    forall i :: 0 <= i < |ls| ==> LitIs(w, ls[i], true)
  }

  lemma {:induction false} ChainValue(w: Valuation, prev: nat, lo: nat, cs: seq<nat>, n: nat)
    requires |w| > 0 && GatesWithin(ChainGates(prev, lo, cs), |w| - 1) && GatesHold(w, ChainGates(prev, lo, cs))
    requires prev / 2 < |w| && n <= |cs|
    ensures ChainLit(prev, lo, n) / 2 < |w|
    ensures LitVal(w, ChainLit(prev, lo, n)) <==> LitVal(w, prev) && AllTrue(w, cs[..n])
  {
    if n > 0 {
      ChainValue(w, prev, lo, cs, n - 1);
      var g := ChainGates(prev, lo, cs)[n - 1];
      assert GateWithin(g, |w| - 1) && GateHolds(w, g);
      assert cs[..n] == cs[..n - 1] + [cs[n - 1]];
      assert AllTrue(w, cs[..n]) <==> AllTrue(w, cs[..n - 1]) && LitIs(w, cs[n - 1], true) by {
        assert forall i :: 0 <= i < n - 1 ==> cs[..n][i] == cs[..n - 1][i];
        assert cs[..n][n - 1] == cs[n - 1];
      }
    }
  }

  /** All gates `aigmove` adds: the chain from `prev` over the constraints, then one gate per bad
      literal. */
  function Folded(prev: nat, lo: nat, cs: seq<nat>, bads: seq<nat>): seq<Gate> {
    ChainGates(prev, lo, cs) + BadGates(ChainLit(prev, lo, |cs|), lo + |cs|, bads)
  }

  lemma FoldedFresh(prev: nat, lo: nat, cs: seq<nat>, bads: seq<nat>)
    requires prev / 2 < lo && AllBelow(cs, lo) && AllBelow(bads, lo)
    ensures Fresh(Folded(prev, lo, cs, bads), lo)
  {
    var extra := Folded(prev, lo, cs, bads);
    forall k | 0 <= k < |extra| ensures FreshAt(extra, lo, k) {
      if k < |cs| { assert extra[k] == ChainGate(prev, lo, cs, k); }
    }
  }

  /** The gate of a bad literal is true iff the literal, `prev` and all constraints are. */
  lemma FoldedValue(w: Valuation, prev: nat, lo: nat, cs: seq<nat>, bads: seq<nat>, k: nat)
    requires |w| > 0 && prev / 2 < |w| && k < |bads| && bads[k] / 2 < |w|
    requires GatesWithin(Folded(prev, lo, cs, bads), |w| - 1) && GatesHold(w, Folded(prev, lo, cs, bads))
    ensures lo + |cs| + k < |w|
    ensures LitVal(w, 2 * (lo + |cs| + k)) <==> LitVal(w, prev) && AllTrue(w, cs) && LitVal(w, bads[k])
    ensures ChainLit(prev, lo, |cs|) / 2 < |w| && (LitVal(w, ChainLit(prev, lo, |cs|)) <==> LitVal(w, prev) && AllTrue(w, cs))
  {
    ChainHolds(w, prev, lo, cs, bads);
    ChainValue(w, prev, lo, cs, |cs|);
    assert cs[..|cs|] == cs;
    var g := Folded(prev, lo, cs, bads)[|cs| + k];
    assert GateWithin(g, |w| - 1) && GateHolds(w, g);
  }

  lemma ChainHolds(w: Valuation, prev: nat, lo: nat, cs: seq<nat>, bads: seq<nat>)
    requires |w| > 0 && GatesWithin(Folded(prev, lo, cs, bads), |w| - 1) && GatesHold(w, Folded(prev, lo, cs, bads))
    ensures GatesWithin(ChainGates(prev, lo, cs), |w| - 1) && GatesHold(w, ChainGates(prev, lo, cs))
  {
    var chain, all := ChainGates(prev, lo, cs), Folded(prev, lo, cs, bads);
    forall j | 0 <= j < |chain| ensures GateWithin(chain[j], |w| - 1) && GateHolds(w, chain[j]) {
      assert all[j] == chain[j] && GateWithin(all[j], |w| - 1);
    }
  }

  // ----- The result ---------------------------------------------------------------------------------------

  /** Everything the model mentions lies below `first`. */
  ghost predicate MentionsBelow(m: Model, first: nat) {
    && 0 < first && InRange(m)
    && AllBelow(m.inputs, first) && (forall i :: 0 <= i < |m.latches| ==> LatchWithin(m.latches[i], first - 1))
    && GatesWithin(m.ands, first - 1) && AllBelow(m.outputs, first) && AllBelow(m.bad, first) && AllBelow(m.constraints, first)
  }

  /** With latches: one more latch remembers that a constraint was violated. */
  ghost predicate MovedWithLatch(m: Model, e: Model, first: nat) {
    FoldedIntoLatch(m, e, first) && InRange(e)
  }

  ghost predicate FoldedIntoLatch(m: Model, e: Model, first: nat) {
    && MentionsBelow(m, first) && e.inputs == m.inputs
    && e.latches == m.latches + [Latch(2 * first, Not(2 * (first + |m.constraints|)), 0)]
    && e.ands == m.ands + Folded(Not(2 * first), first + 1, m.constraints, m.bad)
    && e.outputs == m.outputs + BadLits(first + 1 + |m.constraints|, |m.bad|)
    && e.maxvar == first + |m.constraints| + |m.bad| && |m.constraints| > 0
    && e.bad == [] && e.constraints == [] && e.justice == [] && e.fairness == []
  }

  /** Without latches: the constraints are conjoined frame by frame. */
  ghost predicate MovedWithoutLatch(m: Model, e: Model, first: nat) {
    FoldedPerFrame(m, e, first) && InRange(e)
  }

  ghost predicate FoldedPerFrame(m: Model, e: Model, first: nat) {
    && MentionsBelow(m, first) && e.inputs == m.inputs && |m.constraints| > 0
    && e.latches == m.latches == []
    && e.ands == m.ands + Folded(m.constraints[0], first, m.constraints[1..], m.bad)
    && e.outputs == m.outputs + BadLits(first + |m.constraints| - 1, |m.bad|)
    && e.maxvar + 2 == first + |m.constraints| + |m.bad| && |m.bad| > 0
    && e.bad == [] && e.constraints == [] && e.justice == [] && e.fairness == []
  }

  /** Nothing to fold. */
  ghost predicate MovedPlain(m: Model, e: Model) {
    && e == Model(e.maxvar, m.inputs, m.latches, m.ands, m.outputs + m.bad, [], [], [], [])
  }

  lemma GatesInRange(m: Model, e: Model, first: nat, extra: seq<Gate>, lo: nat)
    requires MentionsBelow(m, first) && e.ands == m.ands + extra && first <= e.maxvar + 1
    requires Fresh(extra, lo) && lo > 0 && lo + |extra| <= e.maxvar + 1
    ensures GatesWithin(e.ands, e.maxvar)
  {
    FreshWithin(extra, lo, e.maxvar);
    forall i | 0 <= i < |e.ands| ensures GateWithin(e.ands[i], e.maxvar) {
      if i < |m.ands| {
        assert GateWithin(m.ands[i], first - 1);
      } else {
        assert GateWithin(extra[i - |m.ands|], e.maxvar);
      }
    }
  }

  lemma LatchResultInRange(m: Model, e: Model, first: nat)
    requires FoldedIntoLatch(m, e, first)
    ensures InRange(e)
  {
    FoldedFresh(Not(2 * first), first + 1, m.constraints, m.bad);
    GatesInRange(m, e, first, Folded(Not(2 * first), first + 1, m.constraints, m.bad), first + 1);
    forall i | 0 <= i < |e.ands| ensures GateWithin(e.ands[i], e.maxvar) {}
    forall i | 0 <= i < |e.latches| ensures LatchWithin(e.latches[i], e.maxvar) {
      if i < |m.latches| { assert LatchWithin(m.latches[i], first - 1); }
    }
  }

  lemma FrameResultInRange(m: Model, e: Model, first: nat)
    requires FoldedPerFrame(m, e, first)
    ensures InRange(e)
  {
    FoldedFresh(m.constraints[0], first, m.constraints[1..], m.bad);
    GatesInRange(m, e, first, Folded(m.constraints[0], first, m.constraints[1..], m.bad), first);
    forall i | 0 <= i < |e.ands| ensures GateWithin(e.ands[i], e.maxvar) {}
  }

  // ----- Construction ---------------------------------------------------------------------------------------

  predicate DefinesVar(m: Model, v: nat) {
    || v == 0
    || (exists i :: 0 <= i < |m.inputs| && m.inputs[i] / 2 == v)
    || (exists i :: 0 <= i < |m.latches| && m.latches[i].lit / 2 == v)
    || (exists i :: 0 <= i < |m.ands| && m.ands[i].lhs / 2 == v)
  }

  /** What the reader of the library guarantees. */
  ghost predicate PropertiesDefined(m: Model) {
    && InRange(m)
    && (forall i :: 0 <= i < |m.bad| ==> DefinesVar(m, m.bad[i] / 2))
    && (forall i :: 0 <= i < |m.constraints| ==> DefinesVar(m, m.constraints[i] / 2))
  }

  datatype Options = Options(ignore: bool, reverse: bool)
  datatype Moved = Refused | Moved(model: Model)

  /** The copied part of the new model. */
  method Copy(m: Model, dst: Builder)
    requires dst.maxvar == 0 && dst.inputs == [] && dst.latches == [] && dst.ands == [] && InRange(m)
    modifies dst
    ensures dst.inputs == m.inputs && dst.latches == m.latches && dst.ands == m.ands
    ensures AllBelow(m.inputs, dst.maxvar + 1) && GatesWithin(m.ands, dst.maxvar)
    ensures forall i :: 0 <= i < |m.latches| ==> LatchWithin(m.latches[i], dst.maxvar)
  {
    dst.AddInputs(m.inputs);
    ghost var n1 := dst.maxvar;
    dst.AddLatches(m.latches);
    ghost var n2 := dst.maxvar;
    dst.AddAnds(m.ands);
    forall i | 0 <= i < |m.latches| ensures LatchWithin(m.latches[i], dst.maxvar) { assert LatchWithin(m.latches[i], n2); }
  }

  method AddOutputs(dst: Builder, ls: seq<nat>)
    modifies dst`maxvar
    ensures old(dst.maxvar) <= dst.maxvar && AllBelow(ls, dst.maxvar + 1)
  {
    for i := 0 to |ls|
      invariant old(dst.maxvar) <= dst.maxvar && forall j :: 0 <= j < i ==> ls[j] / 2 < dst.maxvar + 1
    {
      dst.Import(ls[i]);
    }
  }

  lemma PropertiesMentioned(m: Model, maxvar: nat)
    requires PropertiesDefined(m) && AllBelow(m.inputs, maxvar + 1) && GatesWithin(m.ands, maxvar)
    requires forall i :: 0 <= i < |m.latches| ==> LatchWithin(m.latches[i], maxvar)
    ensures AllBelow(m.bad, maxvar + 1) && AllBelow(m.constraints, maxvar + 1)
  {
    forall v: nat | DefinesVar(m, v) ensures v <= maxvar {
      if i :| 0 <= i < |m.ands| && m.ands[i].lhs / 2 == v { assert GateWithin(m.ands[i], maxvar); }
    }
  }

  /** The gates of the bad literals. */
  method AddBadGates(dst: Builder, valid: nat, bads: seq<nat>)
    requires valid / 2 <= dst.maxvar && AllBelow(bads, dst.maxvar + 1)
    modifies dst`maxvar, dst`ands
    ensures dst.maxvar == old(dst.maxvar) + |bads|
    ensures dst.ands == old(dst.ands) + BadGates(valid, old(dst.maxvar) + 1, bads)
  {
    ghost var lo, gs := dst.maxvar + 1, BadGates(valid, dst.maxvar + 1, bads);
    for k := 0 to |bads|
      invariant dst.maxvar == old(dst.maxvar) + k
      invariant dst.ands == old(dst.ands) + gs[..k]
    {
      var bad := 2 * (dst.maxvar + 1);
      dst.AddAnd(Gate(bad, valid, bads[k]));
      assert gs[..k + 1] == gs[..k] + [gs[k]];
    }
    assert gs[..|bads|] == gs;
  }

  /** The chain of the branch with latches, whose literals were reserved by the latch. */
  method AddReservedChain(dst: Builder, latch: nat, cs: seq<nat>) returns (valid: nat)
    requires latch % 2 == 0 && latch / 2 + |cs| == dst.maxvar && AllBelow(cs, latch / 2)
    modifies dst`maxvar, dst`ands
    ensures valid == ChainLit(Not(latch), latch / 2 + 1, |cs|) && dst.maxvar == old(dst.maxvar)
    ensures dst.ands == old(dst.ands) + ChainGates(Not(latch), latch / 2 + 1, cs)
  {
    ghost var gs := ChainGates(Not(latch), latch / 2 + 1, cs);
    var prev := Not(latch);
    for j := 0 to |cs|
      invariant prev == ChainLit(Not(latch), latch / 2 + 1, j)
      invariant dst.maxvar == old(dst.maxvar) && dst.ands == old(dst.ands) + gs[..j]
    {
      var tmp := latch + 2 * (j + 1);
      dst.AddAnd(Gate(tmp, prev, cs[j]));
      assert gs[j] == Gate(tmp, prev, cs[j]);
      assert gs[..j + 1] == gs[..j] + [gs[j]];
      prev := tmp;
    }
    assert gs[..|cs|] == gs;
    valid := prev;
  }

  /** The chain of the branch without latches. */
  method AddChain(dst: Builder, cs: seq<nat>) returns (valid: nat)
    requires |cs| > 0 && AllBelow(cs, dst.maxvar + 1)
    modifies dst`maxvar, dst`ands
    ensures valid == ChainLit(cs[0], old(dst.maxvar) + 1, |cs| - 1) && dst.maxvar == old(dst.maxvar) + |cs| - 1
    ensures dst.ands == old(dst.ands) + ChainGates(cs[0], old(dst.maxvar) + 1, cs[1..])
  {
    ghost var gs := ChainGates(cs[0], dst.maxvar + 1, cs[1..]);
    valid := cs[0];
    for j := 1 to |cs|
      invariant valid == ChainLit(cs[0], old(dst.maxvar) + 1, j - 1) && valid / 2 <= dst.maxvar
      invariant dst.maxvar == old(dst.maxvar) + j - 1 && dst.ands == old(dst.ands) + gs[..j - 1]
    {
      var tmp := 2 * (dst.maxvar + 1);
      dst.AddAnd(Gate(tmp, valid, cs[j]));
      assert gs[j - 1] == Gate(tmp, valid, cs[j]);
      assert gs[..j] == gs[..j - 1] + [gs[j - 1]];
      valid := tmp;
    }
    assert gs[..|cs| - 1] == gs;
  }

  method MoveModel(m: Model, opts: Options) returns (r: Moved, ghost first: nat)
    requires PropertiesDefined(m)
    ensures r.Refused? <==>
      || (!opts.ignore && (|m.justice| > 0 || |m.fairness| > 0))
      || (!opts.reverse && |m.outputs| > 0 && |m.bad| == |m.constraints| == |m.justice| == |m.fairness| == 0)
    ensures r.Moved? && opts.reverse ==> r.model == Model(r.model.maxvar, m.inputs, m.latches, m.ands, [], m.outputs, [], [], [])
    ensures r.Moved? && !opts.reverse ==>
      if |m.bad| == 0 || |m.constraints| == 0 then MovedPlain(m, r.model)
      else if |m.latches| > 0 then MovedWithLatch(m, r.model, first)
      else MovedWithoutLatch(m, r.model, first)
  {
    first := 1;
    if !opts.ignore && |m.justice| > 0 { return Refused, first; }
    if !opts.ignore && |m.fairness| > 0 { return Refused, first; }
    if !opts.reverse && |m.outputs| > 0 && |m.bad| == 0 && |m.constraints| == 0 && |m.justice| == 0 && |m.fairness| == 0 {
      return Refused, first;
    }
    var dst := new Builder();
    Copy(m, dst);
    PropertiesMentioned(m, dst.maxvar);
    if opts.reverse {
      AddOutputs(dst, m.outputs);
      return Moved(Model(dst.maxvar, dst.inputs, dst.latches, dst.ands, [], m.outputs, [], [], [])), first;
    }
    ghost var copied := dst.maxvar;
    AddOutputs(dst, m.outputs);
    first := dst.maxvar + 1;
    MentionsGrow(m, copied, dst.maxvar);
    var e;
    if |m.bad| > 0 && |m.constraints| > 0 {
      if |m.latches| > 0 {
        e := FoldWithLatch(m, dst);
      } else {
        e := FoldWithoutLatch(m, dst);
      }
    } else {
      AddOutputs(dst, m.bad);
      e := Model(dst.maxvar, dst.inputs, dst.latches, dst.ands, m.outputs + m.bad, [], [], [], []);
    }
    r := Moved(e);
  }

  lemma MentionsGrow(m: Model, maxvar: nat, maxvar': nat)
    requires InRange(m) && maxvar <= maxvar' && AllBelow(m.inputs, maxvar + 1) && GatesWithin(m.ands, maxvar)
    requires forall i :: 0 <= i < |m.latches| ==> LatchWithin(m.latches[i], maxvar)
    requires AllBelow(m.bad, maxvar + 1) && AllBelow(m.constraints, maxvar + 1) && AllBelow(m.outputs, maxvar' + 1)
    ensures MentionsBelow(m, maxvar' + 1)
  {
    forall i | 0 <= i < |m.latches| ensures LatchWithin(m.latches[i], maxvar') { assert LatchWithin(m.latches[i], maxvar); }
    forall i | 0 <= i < |m.ands| ensures GateWithin(m.ands[i], maxvar') { assert GateWithin(m.ands[i], maxvar); }
  }

  method FoldWithLatch(m: Model, dst: Builder) returns (e: Model)
    requires MentionsBelow(m, dst.maxvar + 1) && |m.constraints| > 0
    requires dst.inputs == m.inputs && dst.latches == m.latches && dst.ands == m.ands
    modifies dst
    ensures MovedWithLatch(m, e, old(dst.maxvar) + 1)
  {
    hide InRange;
    ghost var first := dst.maxvar + 1;
    var latch := 2 * (dst.maxvar + 1);
    var valid := latch + 2 * |m.constraints|;
    dst.AddLatches([Latch(latch, Not(valid), 0)]);
    var prev := AddReservedChain(dst, latch, m.constraints);
    var lo := dst.maxvar + 1;
    AddBadGates(dst, valid, m.bad);
    e := Model(dst.maxvar, dst.inputs, dst.latches, dst.ands, m.outputs + BadLits(lo, |m.bad|), [], [], [], []);
    LatchResultInRange(m, e, first);
  }

  method FoldWithoutLatch(m: Model, dst: Builder) returns (e: Model)
    requires MentionsBelow(m, dst.maxvar + 1) && |m.constraints| > 0 && |m.bad| > 0 && m.latches == []
    requires dst.inputs == m.inputs && dst.latches == m.latches && dst.ands == m.ands
    modifies dst
    ensures MovedWithoutLatch(m, e, old(dst.maxvar) + 1)
  {
    hide InRange;
    ghost var first := dst.maxvar + 1;
    var valid := AddChain(dst, m.constraints);
    var lo := dst.maxvar + 1;
    AddBadGates(dst, valid, m.bad);
    e := Model(dst.maxvar, dst.inputs, dst.latches, dst.ands, m.outputs + BadLits(lo, |m.bad|), [], [], [], []);
    FrameResultInRange(m, e, first);
  }
}
