/** The output of `aigunroll`: the copy of the expanded graph as a combinational model, and the tool
    as a whole. */
module UnrollTool {
  import opened Aiger
  import opened SimpSpec
  import opened SimpCounts
  import opened SimpAig
  import opened UnrollSpec
  import opened Unroll

  // ----- Copying -----------------------------------------------------------------------------------

  /** The AIGER literal of an indexed reference. */
  function UnsignedIndex(idx: map<nat, nat>, r: Ref): nat {
    2 * (if r.node in idx then idx[r.node] else 0) + (if r.neg then 1 else 0)
  }

  function CopyGate(nodes: seq<Node>, idx: map<nat, nat>, i: nat): Gate
    requires i < |nodes| && nodes[i].And? && i in idx
  {
    Gate(2 * idx[i], UnsignedIndex(idx, nodes[i].c0), UnsignedIndex(idx, nodes[i].c1))
  }

  predicate InputFor(nodes: seq<Node>, idx: map<nat, nat>, inputs: seq<nat>, timed: seq<Timed>, i: nat, p: nat)
    requires i < |nodes| && i in idx
  {
    && nodes[i].Variable? && p < |inputs| && p < |timed|
    && inputs[p] == 2 * idx[i] && timed[p] == Timed(nodes[i].name, nodes[i].slice)
  }

  /** The node is in the copy, and so are its children. */
  ghost predicate NodeCopied(nodes: seq<Node>, idx: map<nat, nat>, copied: set<nat>, inputs: seq<nat>, timed: seq<Timed>,
                             ands: seq<Gate>, i: nat)
  {
    && 0 < i < |nodes| && i in idx
    && (if nodes[i].And? then
          nodes[i].c0.node in copied && nodes[i].c1.node in copied && CopyGate(nodes, idx, i) in ands
        else exists p :: InputFor(nodes, idx, inputs, timed, i, p))
  }

  ghost predicate GateFrom(nodes: seq<Node>, idx: map<nat, nat>, copied: set<nat>, g: Gate) {
    exists i :: i in copied && i < |nodes| && i in idx && nodes[i].And? && g == CopyGate(nodes, idx, i)
  }

  ghost predicate InputFrom(nodes: seq<Node>, idx: map<nat, nat>, copied: set<nat>, inputs: seq<nat>, timed: seq<Timed>, p: nat) {
    exists i :: i in copied && i < |nodes| && i in idx && InputFor(nodes, idx, inputs, timed, i, p)
  }

  ghost predicate Copied(nodes: seq<Node>, idx: map<nat, nat>, copied: set<nat>, inputs: seq<nat>, timed: seq<Timed>, ands: seq<Gate>) {
    && |inputs| == |timed|
    && (forall i :: i in copied ==> NodeCopied(nodes, idx, copied, inputs, timed, ands, i))
    && (forall g :: g in ands ==> GateFrom(nodes, idx, copied, g))
    && (forall p :: 0 <= p < |inputs| ==> InputFrom(nodes, idx, copied, inputs, timed, p))
  }

  lemma CopiedInput(nodes: seq<Node>, idx: map<nat, nat>, copied: set<nat>, inputs: seq<nat>, timed: seq<Timed>, ands: seq<Gate>, i: nat)
    requires Copied(nodes, idx, copied, inputs, timed, ands) && 0 < i < |nodes| && i in idx && nodes[i].Variable?
    ensures Copied(nodes, idx, copied + {i}, inputs + [2 * idx[i]], timed + [Timed(nodes[i].name, nodes[i].slice)], ands)
  {
    var copied', inputs', timed' := copied + {i}, inputs + [2 * idx[i]], timed + [Timed(nodes[i].name, nodes[i].slice)];
    assert InputFor(nodes, idx, inputs', timed', i, |inputs|);
    forall n | n in copied' ensures NodeCopied(nodes, idx, copied', inputs', timed', ands, n) {
      if n in copied {
        assert NodeCopied(nodes, idx, copied, inputs, timed, ands, n);
        if !nodes[n].And? {
          var p :| InputFor(nodes, idx, inputs, timed, n, p);
          assert InputFor(nodes, idx, inputs', timed', n, p);
        }
      }
    }
    forall g | g in ands ensures GateFrom(nodes, idx, copied', g) {
      assert GateFrom(nodes, idx, copied, g);
    }
    forall p | 0 <= p < |inputs'| ensures InputFrom(nodes, idx, copied', inputs', timed', p) {
      if p < |inputs| {
        assert InputFrom(nodes, idx, copied, inputs, timed, p);
        var n :| n in copied && n < |nodes| && n in idx && InputFor(nodes, idx, inputs, timed, n, p);
        assert n in copied' && InputFor(nodes, idx, inputs', timed', n, p);
      } else {
        assert i in copied';
      }
    }
  }

  lemma CopiedAnd(nodes: seq<Node>, idx: map<nat, nat>, copied: set<nat>, inputs: seq<nat>, timed: seq<Timed>, ands: seq<Gate>, i: nat)
    requires Copied(nodes, idx, copied, inputs, timed, ands) && 0 < i < |nodes| && i in idx && nodes[i].And?
    requires nodes[i].c0.node in copied && nodes[i].c1.node in copied
    ensures Copied(nodes, idx, copied + {i}, inputs, timed, ands + [CopyGate(nodes, idx, i)])
  {
    var copied', ands' := copied + {i}, ands + [CopyGate(nodes, idx, i)];
    forall n | n in copied' ensures NodeCopied(nodes, idx, copied', inputs, timed, ands', n) {
      if n in copied { assert NodeCopied(nodes, idx, copied, inputs, timed, ands, n); }
    }
    forall g | g in ands' ensures GateFrom(nodes, idx, copied', g) {
      if g in ands {
        assert GateFrom(nodes, idx, copied, g);
      } else {
        assert i in copied';
      }
    }
    forall p | 0 <= p < |inputs| ensures InputFrom(nodes, idx, copied', inputs, timed, p) {
      assert InputFrom(nodes, idx, copied, inputs, timed, p);
    }
  }

  // ----- One definition a variable ---------------------------------------------------------------------

  /** Every variable is an input or the left side of a gate, and only once. */
  ghost predicate DefinedOnce(inputs: seq<nat>, ands: seq<Gate>) {
    && (forall p, q :: 0 <= p < q < |inputs| ==> inputs[p] != inputs[q])
    && (forall a, b :: 0 <= a < b < |ands| ==> ands[a].lhs != ands[b].lhs)
    && (forall p, a :: 0 <= p < |inputs| && 0 <= a < |ands| ==> inputs[p] != ands[a].lhs)
  }

  ghost predicate Injective(idx: map<nat, nat>) {
    forall i, j :: i in idx && j in idx && idx[i] == idx[j] ==> i == j
  }

  /** A node that is not in the copy has no variable there. */
  lemma NotYetDefined(nodes: seq<Node>, idx: map<nat, nat>, copied: set<nat>, inputs: seq<nat>, timed: seq<Timed>, ands: seq<Gate>, i: nat)
    requires Copied(nodes, idx, copied, inputs, timed, ands) && Injective(idx) && i in idx && i !in copied
    ensures forall p :: 0 <= p < |inputs| ==> inputs[p] != 2 * idx[i]
    ensures forall a :: 0 <= a < |ands| ==> ands[a].lhs != 2 * idx[i]
  {
    forall p | 0 <= p < |inputs| ensures inputs[p] != 2 * idx[i] {
      assert InputFrom(nodes, idx, copied, inputs, timed, p);
    }
    forall a | 0 <= a < |ands| ensures ands[a].lhs != 2 * idx[i] {
      assert GateFrom(nodes, idx, copied, ands[a]);
    }
  }

  class Copier {
    const nodes: seq<Node>
    const idx: map<nat, nat>
    var inputs: seq<nat>
    var ands: seq<Gate>
    /** The nodes met so far, whose copying may not be finished. */
    var aigs: set<nat>
    ghost var timed: seq<Timed>
    ghost var copied: set<nat>

    constructor (nodes: seq<Node>, idx: map<nat, nat>)
      ensures this.nodes == nodes && this.idx == idx
      ensures inputs == [] && ands == [] && aigs == {} && timed == [] && copied == {}
    {
      this.nodes, this.idx := nodes, idx;
      inputs, ands, aigs, timed, copied := [], [], {}, [], {};
    }

    ghost predicate Sane()
      reads this
    {
      && WellFormed(nodes) && (forall i :: i in idx ==> Closed(nodes, idx, i)) && Copied(nodes, idx, copied, inputs, timed, ands)
      && Injective(idx) && DefinedOnce(inputs, ands)
    }

    /** Copies a node after its children.  `above` are the nodes being copied. */
    method CopyAig(i: nat, ghost above: set<nat>, ghost within: set<Timed>)
      requires Sane() && 0 < i < |nodes| && i in idx && aigs == copied + above
      requires forall n :: n in above ==> n > i && n !in copied
      requires Support(nodes, i) <= within && forall n :: n in copied ==> n < |nodes| && Support(nodes, n) <= within
      modifies this
      ensures Sane() && i in copied && aigs == copied + above && old(copied) <= copied
      ensures forall n :: n in copied ==> n in old(copied) || n <= i
      ensures forall n :: n in copied ==> n < |nodes| && Support(nodes, n) <= within
      decreases i
    {
      hide Copied, DefinedOnce, Injective;
      if i in aigs { return; }
      aigs := aigs + {i};
      assert NodeOk(nodes[i], i) && Closed(nodes, idx, i);
      if nodes[i].And? {
        CopyAig(nodes[i].c0.node, above + {i}, within);
        CopyAig(nodes[i].c1.node, above + {i}, within);
      }
      AddNode(i);
    }

    /** Adds the gate or the input of a node. */
    method AddNode(i: nat)
      requires Sane() && 0 < i < |nodes| && i in idx && i !in copied
      requires nodes[i].And? ==> nodes[i].c0.node in copied && nodes[i].c1.node in copied
      modifies `inputs, `ands, `timed, `copied
      ensures Sane() && copied == old(copied) + {i}
    {
      NotYetDefined(nodes, idx, copied, inputs, timed, ands, i);
      if nodes[i].And? {
        CopiedAnd(nodes, idx, copied, inputs, timed, ands, i);
        ands := ands + [CopyGate(nodes, idx, i)];
      } else {
        CopiedInput(nodes, idx, copied, inputs, timed, ands, i);
        inputs := inputs + [2 * idx[i]];
        timed := timed + [Timed(nodes[i].name, nodes[i].slice)];
      }
      hide Copied;
      copied := copied + {i};
    }
  }

  /** Each variable has one index. */
  ghost predicate OneIndexed(nodes: seq<Node>, idx: map<nat, nat>) {
    forall i, j :: i in idx && j in idx && i < |nodes| && j < |nodes| && nodes[i].Variable? && nodes[i] == nodes[j] ==> i == j
  }

  lemma IndexedOnce(nodes: seq<Node>, refs: seq<nat>, held: multiset<nat>, base: multiset<nat>, idx: map<nat, nat>, list: seq<nat>)
    requires Counted(nodes, refs, held) && OneEach(nodes, Stored(refs, {})) && Indexed(nodes, idx, list)
    requires held == base + multiset(list)
    ensures OneIndexed(nodes, idx)
  {
    forall i | i in idx ensures i in Stored(refs, {}) {
      assert IndexAt(nodes, idx, list, idx[i] - 1);
      assert i in multiset(list);
      HeldUsable(nodes, refs, held, Ref(i, false));
      assert Less(i, |refs|);
    }
  }

  // ----- The value of the copy ------------------------------------------------------------------------

  ghost predicate IsCopy(nodes: seq<Node>, idx: map<nat, nat>, list: seq<nat>, copied: set<nat>, timed: seq<Timed>, e: Model, r: Ref)
  {
    && WellFormed(nodes) && Indexed(nodes, idx, list) && r.node < |nodes| && 0 !in idx
    && Copied(nodes, idx, copied, e.inputs, timed, e.ands)
    && OneIndexed(nodes, idx) && DefinedOnce(e.inputs, e.ands)
    && (r.node != 0 ==> r.node in copied)
    && e == Model(|list|, e.inputs, [], e.ands, [UnsignedIndex(idx, r)], [], [], [], [])
  }

  ghost predicate OperandsBelow(e: Model) {
    forall g :: g in e.ands ==> g.lhs % 2 == 0 && g.rhs0 / 2 < g.lhs / 2 && g.rhs1 / 2 < g.lhs / 2
  }

  lemma CopyInRange(nodes: seq<Node>, idx: map<nat, nat>, list: seq<nat>, copied: set<nat>, timed: seq<Timed>, e: Model, r: Ref)
    requires IsCopy(nodes, idx, list, copied, timed, e, r)
    ensures InRange(e)
    ensures OperandsBelow(e)
  {
    forall g | g in e.ands
      ensures g.lhs / 2 <= e.maxvar && g.lhs % 2 == 0 && g.rhs0 / 2 < g.lhs / 2 && g.rhs1 / 2 < g.lhs / 2
    {
      assert GateFrom(nodes, idx, copied, g);
    }
    forall p | 0 <= p < |e.inputs| ensures e.inputs[p] / 2 <= e.maxvar {
      assert InputFrom(nodes, idx, copied, e.inputs, timed, p);
    }
  }

  /** The inputs of the copy have the values of their variables. */
  ghost predicate InputsMatch(e: Model, timed: seq<Timed>, w: Valuation, env: Env) {
    forall p :: 0 <= p < |e.inputs| ==> InputMatches(e, timed, w, env, p)
  }

  predicate InputMatches(e: Model, timed: seq<Timed>, w: Valuation, env: Env, p: nat)
    requires p < |e.inputs|
  {
    p < |timed| && e.inputs[p] / 2 < |w| && w[e.inputs[p] / 2] == env(timed[p].name, timed[p].slice)
  }

  lemma {:induction false} CopyValue(nodes: seq<Node>, idx: map<nat, nat>, list: seq<nat>, copied: set<nat>, timed: seq<Timed>, e: Model,
                                     r: Ref, w: Valuation, env: Env, i: nat)
    requires IsCopy(nodes, idx, list, copied, timed, e, r) && InRange(e) && Consistent(e, w) && InputsMatch(e, timed, w, env)
    requires i in copied
    ensures i in idx && i < |nodes| && idx[i] < |w| && w[idx[i]] == NodeVal(nodes, i, env)
    decreases i
  {
    hide DefinedOnce, OneIndexed;
    assert NodeCopied(nodes, idx, copied, e.inputs, timed, e.ands, i);
    assert NodeOk(nodes[i], i);
    if nodes[i].And? {
      CopyValue(nodes, idx, list, copied, timed, e, r, w, env, nodes[i].c0.node);
      CopyValue(nodes, idx, list, copied, timed, e, r, w, env, nodes[i].c1.node);
      CopiedGateHolds(nodes, idx, e, w, i);
    } else {
      var p :| InputFor(nodes, idx, e.inputs, timed, i, p);
      assert InputMatches(e, timed, w, env, p);
    }
  }

  lemma CopiedGateHolds(nodes: seq<Node>, idx: map<nat, nat>, e: Model, w: Valuation, i: nat)
    requires InRange(e) && Consistent(e, w) && i < |nodes| && i in idx && nodes[i].And?
    requires nodes[i].c0.node in idx && nodes[i].c1.node in idx && CopyGate(nodes, idx, i) in e.ands
    ensures idx[i] < |w| && idx[nodes[i].c0.node] < |w| && idx[nodes[i].c1.node] < |w|
    ensures w[idx[i]] == ((w[idx[nodes[i].c0.node]] != nodes[i].c0.neg) && (w[idx[nodes[i].c1.node]] != nodes[i].c1.neg))
  {
    var j :| 0 <= j < |e.ands| && e.ands[j] == CopyGate(nodes, idx, i);
    assert GateHolds(w, e.ands[j]);
  }

  lemma {:induction false} CopyOutput(nodes: seq<Node>, idx: map<nat, nat>, list: seq<nat>, copied: set<nat>, timed: seq<Timed>, e: Model,
                                      r: Ref, w: Valuation, env: Env)
    requires IsCopy(nodes, idx, list, copied, timed, e, r) && InRange(e) && Consistent(e, w) && InputsMatch(e, timed, w, env)
    ensures LitVal(w, e.outputs[0]) == Val(nodes, r, env)
  {
    if r.node != 0 {
      CopyValue(nodes, idx, list, copied, timed, e, r, w, env, r.node);
    }
  }

  /** Indexes, copies, and forgets the indices again. */
  method Expand(mgr: Manager, r: Ref, ghost base: multiset<nat>)
    returns (e: Model, ghost timed: seq<Timed>, ghost idx: map<nat, nat>, ghost list: seq<nat>, ghost copied: set<nat>)
    requires mgr.Valid() && mgr.dying == {} && mgr.index.Empty() && mgr.held == base
    requires Usable(mgr.refs, r) && r.node < |mgr.nodes|
    modifies mgr, mgr.index
    ensures mgr.Valid() && mgr.dying == {} && mgr.nodes == old(mgr.nodes) && mgr.held == base
    ensures IsCopy(mgr.nodes, idx, list, copied, timed, e, r)
    ensures CopiedWithin(mgr.nodes, copied, r.node)
  {
    hide TableOk, Counted, Copied, CopiedWithin, Indexed, OneEach, OneIndexed, Stored;
    IndexCone(mgr, r, base);
    idx, list := mgr.index.idx, mgr.index.list;
    NoIndexOfFalse(mgr.nodes, idx, list);
    StoredOnce(mgr.nodes, Stored(mgr.refs, {}), mgr.hash, mgr.table, mgr.count);
    IndexedOnce(mgr.nodes, mgr.refs, mgr.held, base, idx, list);
    e, timed, copied := CopyFrom(mgr.nodes, mgr.index.idx, |mgr.index.list|, r);
    mgr.ResetIndices(base);
  }

  lemma StoredOnce(nodes: seq<Node>, stored: set<nat>, hash: Node -> nat, table: seq<seq<nat>>, count: nat)
    requires TableOk(nodes, stored, hash, table, count)
    ensures OneEach(nodes, stored)
  {}

  lemma NoIndexOfFalse(nodes: seq<Node>, idx: map<nat, nat>, list: seq<nat>)
    requires Indexed(nodes, idx, list)
    ensures 0 !in idx && Injective(idx) && forall i :: i in idx ==> Closed(nodes, idx, i)
  {
    forall i | i in idx ensures i > 0 {
      assert IndexAt(nodes, idx, list, idx[i] - 1);
    }
  }

  method IndexCone(mgr: Manager, r: Ref, ghost base: multiset<nat>)
    requires mgr.Valid() && mgr.dying == {} && mgr.index.Empty() && mgr.held == base
    requires Usable(mgr.refs, r) && r.node < |mgr.nodes|
    modifies mgr, mgr.index
    ensures mgr.Indexing(base) && mgr.nodes == old(mgr.nodes) && (r.node != 0 ==> r.node in mgr.index.idx)
  {
    assert mgr.held == base + multiset(mgr.index.list);
    if r.node != 0 { mgr.AssignIndicesRec(r.node, base); }
  }

  ghost predicate CopiedWithin(nodes: seq<Node>, copied: set<nat>, i: nat) {
    WellFormed(nodes) && i < |nodes| && forall n :: n in copied ==> n < |nodes| && Support(nodes, n) <= Support(nodes, i)
  }

  method CopyFrom(nodes: seq<Node>, idx: map<nat, nat>, maxvar: nat, r: Ref)
    returns (e: Model, ghost timed: seq<Timed>, ghost copied: set<nat>)
    requires WellFormed(nodes) && r.node < |nodes| && (r.node != 0 ==> r.node in idx)
    requires Injective(idx) && forall i :: i in idx ==> Closed(nodes, idx, i)
    ensures DefinedOnce(e.inputs, e.ands)
    ensures Copied(nodes, idx, copied, e.inputs, timed, e.ands) && (r.node != 0 ==> r.node in copied)
    ensures e == Model(maxvar, e.inputs, [], e.ands, [UnsignedIndex(idx, r)], [], [], [], [])
    ensures CopiedWithin(nodes, copied, r.node)
  {
    var copier := new Copier(nodes, idx);
    if r.node != 0 { copier.CopyAig(r.node, {}, Support(nodes, r.node)); }
    timed, copied := copier.timed, copier.copied;
    e := Model(maxvar, copier.inputs, [], copier.ands, [UnsignedIndex(idx, r)], [], [], [], []);
  }

  // ----- What is expanded -------------------------------------------------------------------------------

  datatype Expansion = Refused | Expansion(model: Model)

  /** The inputs of the combinational model are the inputs of the run, slice by slice, and its
      uninitialised latches. */
  ghost predicate InputsFromRun(e: Model, timed: seq<Timed>, ws: seq<Valuation>, w: Valuation) {
    forall p :: 0 <= p < |e.inputs| ==> InputFromRun(e, timed, ws, w, p)
  }

  predicate InputFromRun(e: Model, timed: seq<Timed>, ws: seq<Valuation>, w: Valuation, p: nat)
    requires p < |e.inputs|
  {
    && p < |timed| && e.inputs[p] / 2 < |w| && 0 <= timed[p].slice < |ws| && timed[p].name < |ws[timed[p].slice]|
    && w[e.inputs[p] / 2] == ws[timed[p].slice][timed[p].name]
  }

  /** A combinational model over inputs at slices 0 to `k` and uninitialised latches at slice 0
      which is true iff simulation makes the output true at some slice. */
  ghost predicate ExpansionOf(m: Model, k: nat, e: Model, timed: seq<Timed>)
    requires InRange(m) && |m.outputs| == 1
  {
    && InRange(e) && e.latches == [] && |e.outputs| == 1 && |timed| == |e.inputs|
    && DefinedOnce(e.inputs, e.ands) && AllDefined(e)
    && OperandsBelow(e) && InputsFree(m, k, e, timed)
    && EveryRunFits(m, k, e, timed) && TellsOutcome(m, k, e, timed)
  }

  /** One input for every free variable that the output depends on. */
  ghost predicate InputsFree(m: Model, k: nat, e: Model, timed: seq<Timed>) {
    && |timed| == |e.inputs|
    && (forall p :: 0 <= p < |timed| ==> FreeVar(m, k, timed[p]))
    && (forall p, q :: 0 <= p < |timed| && 0 <= q < |timed| && timed[p] == timed[q] ==> e.inputs[p] == e.inputs[q])
  }

  ghost predicate EveryRunFits(m: Model, k: nat, e: Model, timed: seq<Timed>)
    requires InRange(m) && InRange(e)
  {
    forall ws: seq<Valuation> :: Run(m, ws) && |ws| == k + 1 ==> exists w :: FrameOfRun(e, timed, ws, w)
  }

  /** Under the inputs of a run, the output tells whether simulation makes the source output true. */
  ghost predicate TellsOutcome(m: Model, k: nat, e: Model, timed: seq<Timed>)
    requires InRange(m) && InRange(e) && |m.outputs| == 1 && |e.outputs| == 1
  {
    forall ws: seq<Valuation>, w: Valuation ::
      Run(m, ws) && |ws| == k + 1 && FrameOfRun(e, timed, ws, w) ==> SameOutcome(m, k, e, ws, w)
  }

  /** The variable is the constant, an input, or the left side of a gate. */
  predicate Defines(e: Model, l: nat) {
    l / 2 == 0 || 2 * (l / 2) in e.inputs || exists a :: 0 <= a < |e.ands| && e.ands[a].lhs == 2 * (l / 2)
  }

  /** Nothing undefined is used. */
  ghost predicate AllDefined(e: Model) {
    && (forall i :: 0 <= i < |e.outputs| ==> Defines(e, e.outputs[i]))
    && forall g :: g in e.ands ==> Defines(e, g.rhs0) && Defines(e, g.rhs1)
  }

  lemma CopiedDefines(nodes: seq<Node>, idx: map<nat, nat>, copied: set<nat>, timed: seq<Timed>, e: Model, r: Ref)
    requires Copied(nodes, idx, copied, e.inputs, timed, e.ands) && r.node in copied
    ensures Defines(e, UnsignedIndex(idx, r))
  {
    var i := r.node;
    assert NodeCopied(nodes, idx, copied, e.inputs, timed, e.ands, i);
    assert UnsignedIndex(idx, r) / 2 == idx[i];
    if nodes[i].And? {
      var a :| 0 <= a < |e.ands| && e.ands[a] == CopyGate(nodes, idx, i);
    } else {
      assert exists p :: InputFor(nodes, idx, e.inputs, timed, i, p);
      var p: nat :| InputFor(nodes, idx, e.inputs, timed, i, p);
      assert e.inputs[p] == 2 * idx[i];
    }
  }

  lemma CopyDefined(nodes: seq<Node>, idx: map<nat, nat>, list: seq<nat>, copied: set<nat>, timed: seq<Timed>, e: Model, r: Ref)
    requires IsCopy(nodes, idx, list, copied, timed, e, r)
    ensures AllDefined(e)
  {
    hide Indexed, OneIndexed, DefinedOnce, WellFormed, Defines;
    if r.node != 0 { CopiedDefines(nodes, idx, copied, timed, e, r); } else { ZeroDefined(idx, e, r); }
    forall g | g in e.ands ensures Defines(e, g.rhs0) && Defines(e, g.rhs1) {
      assert GateFrom(nodes, idx, copied, g);
      var i :| i in copied && i < |nodes| && i in idx && nodes[i].And? && g == CopyGate(nodes, idx, i);
      assert NodeCopied(nodes, idx, copied, e.inputs, timed, e.ands, i);
      CopiedDefines(nodes, idx, copied, timed, e, nodes[i].c0);
      CopiedDefines(nodes, idx, copied, timed, e, nodes[i].c1);
    }
  }

  lemma ZeroDefined(idx: map<nat, nat>, e: Model, r: Ref)
    requires r.node !in idx
    ensures Defines(e, UnsignedIndex(idx, r))
  {}

  ghost predicate FrameOfRun(e: Model, timed: seq<Timed>, ws: seq<Valuation>, w: Valuation)
    requires InRange(e)
  {
    Consistent(e, w) && InputsFromRun(e, timed, ws, w)
  }

  ghost predicate SameOutcome(m: Model, k: nat, e: Model, ws: seq<Valuation>, w: Valuation)
    requires |m.outputs| == 1 && |e.outputs| == 1 && e.outputs[0] / 2 < |w|
    requires forall t :: 0 <= t < |ws| ==> m.outputs[0] / 2 < |ws[t]|
  {
    LitVal(w, e.outputs[0]) <==> exists t :: 0 <= t <= k && t < |ws| && LitVal(ws[t], m.outputs[0])
  }

  function RunEnv(ws: seq<Valuation>): Env {
    (v: nat, s: int) => 0 <= s < |ws| && v < |ws[s]| && ws[s][v]
  }

  lemma CopyInputs(m: Model, k: nat, nodes: seq<Node>, idx: map<nat, nat>, list: seq<nat>, copied: set<nat>,
                   timed: seq<Timed>, e: Model, r: Ref)
    requires Reencoded(m) && InRange(m) && |m.outputs| == 1 && WellFormed(nodes)
    requires Expanded(m, k, nodes, m.outputs[0], r)
    requires IsCopy(nodes, idx, list, copied, timed, e, r) && CopiedWithin(nodes, copied, r.node)
    ensures InputsFree(m, k, e, timed)
  {
    forall p | 0 <= p < |timed| ensures FreeVar(m, k, timed[p]) {
      assert InputFrom(nodes, idx, copied, e.inputs, timed, p);
      var i :| i in copied && i < |nodes| && i in idx && InputFor(nodes, idx, e.inputs, timed, i, p);
      assert timed[p] in Support(nodes, i);
    }
    forall p, q | 0 <= p < |timed| && 0 <= q < |timed| && timed[p] == timed[q] ensures e.inputs[p] == e.inputs[q] {
      assert InputFrom(nodes, idx, copied, e.inputs, timed, p);
      assert InputFrom(nodes, idx, copied, e.inputs, timed, q);
    }
  }

  lemma {:induction false} CopyExpands(m: Model, k: nat, nodes: seq<Node>, idx: map<nat, nat>, list: seq<nat>, copied: set<nat>,
                                       timed: seq<Timed>, e: Model, r: Ref)
    requires Reencoded(m) && InRange(m) && |m.outputs| == 1 && WellFormed(nodes)
    requires Expanded(m, k, nodes, m.outputs[0], r)
    requires IsCopy(nodes, idx, list, copied, timed, e, r) && CopiedWithin(nodes, copied, r.node)
    ensures ExpansionOf(m, k, e, timed)
  {
    assert e.latches == [] && |e.outputs| == 1 && DefinedOnce(e.inputs, e.ands);
    hide *;
    CopyInRange(nodes, idx, list, copied, timed, e, r);
    CopyDefined(nodes, idx, list, copied, timed, e, r);
    CopyInputs(m, k, nodes, idx, list, copied, timed, e, r);
    CopyFits(m, k, nodes, idx, list, copied, timed, e, r);
    CopySimulates(m, k, nodes, idx, list, copied, timed, e, r);
    IsExpansion(m, k, e, timed);
  }

  lemma IsExpansion(m: Model, k: nat, e: Model, timed: seq<Timed>)
    requires InRange(m) && |m.outputs| == 1 && InRange(e) && e.latches == [] && |e.outputs| == 1
    requires DefinedOnce(e.inputs, e.ands) && AllDefined(e) && OperandsBelow(e) && InputsFree(m, k, e, timed)
    requires EveryRunFits(m, k, e, timed) && TellsOutcome(m, k, e, timed)
    ensures ExpansionOf(m, k, e, timed)
  {
    hide InRange, DefinedOnce, AllDefined, OperandsBelow, EveryRunFits, TellsOutcome;
  }

  lemma CopyFits(m: Model, k: nat, nodes: seq<Node>, idx: map<nat, nat>, list: seq<nat>, copied: set<nat>,
                 timed: seq<Timed>, e: Model, r: Ref)
    requires Reencoded(m) && InRange(m) && InRange(e) && IsCopy(nodes, idx, list, copied, timed, e, r)
    requires InputsFree(m, k, e, timed)
    ensures EveryRunFits(m, k, e, timed)
  {
    hide IsCopy, FrameOfRun;
    forall ws: seq<Valuation> | Run(m, ws) && |ws| == k + 1 ensures exists w :: FrameOfRun(e, timed, ws, w) {
      var w := EvaluateCopy(m, k, nodes, idx, list, copied, timed, e, r, ws);
    }
  }

  lemma CopySimulates(m: Model, k: nat, nodes: seq<Node>, idx: map<nat, nat>, list: seq<nat>, copied: set<nat>,
                      timed: seq<Timed>, e: Model, r: Ref)
    requires Reencoded(m) && InRange(m) && InRange(e) && |m.outputs| == 1 && |e.outputs| == 1 && WellFormed(nodes)
    requires Expanded(m, k, nodes, m.outputs[0], r) && IsCopy(nodes, idx, list, copied, timed, e, r)
    ensures TellsOutcome(m, k, e, timed)
  {
    hide IsCopy, Expanded, WellFormed, Reencoded;
    forall ws: seq<Valuation>, w: Valuation | Run(m, ws) && |ws| == k + 1 && FrameOfRun(e, timed, ws, w)
      ensures e.outputs[0] / 2 < |w| && forall t :: 0 <= t < |ws| ==> m.outputs[0] / 2 < |ws[t]|
      ensures SameOutcome(m, k, e, ws, w)
    {
      CopyOutcome(m, k, nodes, idx, list, copied, timed, e, r, ws, w);
    }
  }

  lemma CopyOutcome(m: Model, k: nat, nodes: seq<Node>, idx: map<nat, nat>, list: seq<nat>, copied: set<nat>,
                    timed: seq<Timed>, e: Model, r: Ref, ws: seq<Valuation>, w: Valuation)
    requires Reencoded(m) && InRange(m) && |m.outputs| == 1 && WellFormed(nodes) && InRange(e)
    requires Expanded(m, k, nodes, m.outputs[0], r)
    requires IsCopy(nodes, idx, list, copied, timed, e, r)
    requires Run(m, ws) && |ws| == k + 1 && FrameOfRun(e, timed, ws, w)
    ensures e.outputs[0] / 2 < |w| && forall t :: 0 <= t < |ws| ==> m.outputs[0] / 2 < |ws[t]|
    ensures SameOutcome(m, k, e, ws, w)
  {
    RunMatches(m, k, ws);
    forall p | 0 <= p < |e.inputs| ensures InputMatches(e, timed, w, RunEnv(ws), p) {
      assert InputFromRun(e, timed, ws, w, p);
    }
    CopyOutput(nodes, idx, list, copied, timed, e, r, w, RunEnv(ws));
    assert DisjunctionAt(nodes, ws, RunEnv(ws), m.outputs[0], k + 1, r);
    OutcomeIs(ws, m.outputs[0], k);
  }

  /** The copy under the inputs of a run: every node has its value. */
  lemma EvaluateCopy(m: Model, k: nat, nodes: seq<Node>, idx: map<nat, nat>, list: seq<nat>, copied: set<nat>,
                     timed: seq<Timed>, e: Model, r: Ref, ws: seq<Valuation>) returns (w: Valuation)
    requires Reencoded(m) && InRange(m) && InRange(e) && IsCopy(nodes, idx, list, copied, timed, e, r)
    requires Run(m, ws) && |ws| == k + 1 && |timed| == |e.inputs| && forall p :: 0 <= p < |timed| ==> FreeVar(m, k, timed[p])
    ensures FrameOfRun(e, timed, ws, w)
  {
    hide Indexed, OneIndexed, GateHolds, CopyGate, InputFor, FreeVar, InputFromRun;
    w := CopyValues(nodes, list, RunEnv(ws));
    forall j | 0 <= j < |e.ands| ensures GateHolds(w, e.ands[j]) {
      assert e.ands[j] in e.ands && GateFrom(nodes, idx, copied, e.ands[j]);
      var i :| i in copied && i < |nodes| && i in idx && nodes[i].And? && e.ands[j] == CopyGate(nodes, idx, i);
      GateEvaluates(nodes, idx, list, RunEnv(ws), i);
    }
    forall p | 0 <= p < |e.inputs| ensures InputFromRun(e, timed, ws, w, p) {
      assert InputFrom(nodes, idx, copied, e.inputs, timed, p);
      var i :| i in copied && i < |nodes| && i in idx && InputFor(nodes, idx, e.inputs, timed, i, p);
      InputEvaluates(m, k, nodes, idx, list, timed, e, ws, i, p);
    }
  }

  lemma GateEvaluates(nodes: seq<Node>, idx: map<nat, nat>, list: seq<nat>, env: Env, i: nat)
    requires WellFormed(nodes) && Indexed(nodes, idx, list) && i in idx && i < |nodes| && nodes[i].And?
    ensures var g, w := CopyGate(nodes, idx, i), CopyValues(nodes, list, env);
      g.lhs / 2 < |w| && g.rhs0 / 2 < |w| && g.rhs1 / 2 < |w| && GateHolds(w, g)
  {
    hide CopyValues, UnsignedIndex, IndexAt;
    assert Closed(nodes, idx, i) && NodeOk(nodes[i], i);
    RefEvaluates(nodes, idx, list, env, Ref(i, false));
    RefEvaluates(nodes, idx, list, env, nodes[i].c0);
    RefEvaluates(nodes, idx, list, env, nodes[i].c1);
  }

  lemma RefEvaluates(nodes: seq<Node>, idx: map<nat, nat>, list: seq<nat>, env: Env, r: Ref)
    requires WellFormed(nodes) && Indexed(nodes, idx, list) && r.node in idx
    ensures r.node < |nodes| && UnsignedIndex(idx, r) / 2 < |CopyValues(nodes, list, env)|
    ensures LitVal(CopyValues(nodes, list, env), UnsignedIndex(idx, r)) == (NodeVal(nodes, r.node, env) != r.neg)
    ensures UnsignedIndex(idx, Ref(r.node, false)) == 2 * idx[r.node]
  {
    hide WellFormed, Indexed, NodeVal, UnsignedIndex;
    IndexedValue(nodes, idx, list, env, r.node);
    IndexParts(idx, r);
  }

  lemma IndexParts(idx: map<nat, nat>, r: Ref)
    requires r.node in idx
    ensures UnsignedIndex(idx, r) / 2 == idx[r.node] && (UnsignedIndex(idx, r) % 2 == 1 <==> r.neg)
    ensures UnsignedIndex(idx, Ref(r.node, false)) == 2 * idx[r.node]
  {}

  lemma InputEvaluates(m: Model, k: nat, nodes: seq<Node>, idx: map<nat, nat>, list: seq<nat>, timed: seq<Timed>, e: Model,
                       ws: seq<Valuation>, i: nat, p: nat)
    requires Reencoded(m) && InRange(m) && WellFormed(nodes) && Indexed(nodes, idx, list)
    requires Run(m, ws) && |ws| == k + 1 && i in idx && i < |nodes| && InputFor(nodes, idx, e.inputs, timed, i, p)
    requires FreeVar(m, k, timed[p])
    ensures InputFromRun(e, timed, ws, CopyValues(nodes, list, RunEnv(ws)), p)
  {
    IndexedValue(nodes, idx, list, RunEnv(ws), i);
    assert Consistent(m, ws[timed[p].slice]);
  }

  ghost function CopyValues(nodes: seq<Node>, list: seq<nat>, env: Env): (w: Valuation)
    requires WellFormed(nodes)
    ensures |w| == |list| + 1 && !w[0]
    ensures forall x :: 0 <= x < |list| ==> w[x + 1] == (list[x] < |nodes| && NodeVal(nodes, list[x], env))
  {
    [false] + seq(|list|, x requires 0 <= x < |list| => list[x] < |nodes| && NodeVal(nodes, list[x], env))
  }

  lemma IndexedValue(nodes: seq<Node>, idx: map<nat, nat>, list: seq<nat>, env: Env, i: nat)
    requires WellFormed(nodes) && Indexed(nodes, idx, list) && i in idx
    ensures i < |nodes| && 1 <= idx[i] <= |list| && CopyValues(nodes, list, env)[idx[i]] == NodeVal(nodes, i, env)
  {
    assert IndexAt(nodes, idx, list, idx[i] - 1);
  }

  lemma OutcomeIs(ws: seq<Valuation>, l: nat, k: nat)
    requires forall t :: 0 <= t < |ws| ==> l / 2 < |ws[t]|
    ensures TrueBefore(ws, l, k + 1) <==> exists t :: 0 <= t <= k && t < |ws| && LitVal(ws[t], l)
  {
    if TrueBefore(ws, l, k + 1) {
      var t :| 0 <= t < k + 1 && t < |ws| && LitVal(ws[t], l);
      assert 0 <= t <= k;
    }
    if t :| 0 <= t <= k && t < |ws| && LitVal(ws[t], l) {
      assert 0 <= t < k + 1;
    }
  }

  lemma RunMatches(m: Model, k: nat, ws: seq<Valuation>)
    requires InRange(m) && Run(m, ws) && |ws| == k + 1
    ensures FreeAgrees(m, k, ws, RunEnv(ws))
  {
    forall v: nat, t: nat | t < |ws| && t <= k && Leaf(m, v) && !Bound(m, v, t) ensures LeafMatches(ws[t], RunEnv(ws), v, t) {
      assert Consistent(m, ws[t]);
    }
  }

  // ----- Runs from frames ------------------------------------------------------------------------------------

  /** The value the frame gives to a variable of a slice; false if it has no input. */
  ghost predicate Given(e: Model, timed: seq<Timed>, w: Valuation, x: Timed) {
    exists p :: 0 <= p < |timed| && p < |e.inputs| && timed[p] == x && e.inputs[p] / 2 < |w| && w[e.inputs[p] / 2]
  }

  ghost predicate StartBit(m: Model, e: Model, timed: seq<Timed>, w: Valuation, before: seq<Valuation>, v: nat)
    requires Reencoded(m) && InRange(m) && forall t :: 0 <= t < |before| ==> |before[t]| == m.maxvar + 1
  {
    if !IsLatchVar(m, v) then Given(e, timed, w, Timed(v, |before|))
    else if |before| > 0 then LitVal(before[|before| - 1], LatchOf(m, v).next)
    else if LatchOf(m, v).reset <= 1 then LatchOf(m, v).reset == 1
    else Given(e, timed, w, Timed(v, 0))
  }

  /** The free variables of slice `t` have the values of the frame of the expansion. */
  ghost predicate Follows(m: Model, e: Model, timed: seq<Timed>, w: Valuation, frame: Valuation, t: nat) {
    forall v: nat :: 1 <= v < FirstAnd(m) && (v < FirstLatch(m) || (t == 0 && LatchOf(m, v).reset > 1)) ==>
      FollowsAt(e, timed, w, frame, t, v)
  }

  ghost predicate FollowsAt(e: Model, timed: seq<Timed>, w: Valuation, frame: Valuation, t: nat, v: nat) {
    v < |frame| && frame[v] == Given(e, timed, w, Timed(v, t))
  }

  lemma NextFrame(m: Model, e: Model, timed: seq<Timed>, w: Valuation, before: seq<Valuation>) returns (frame: Valuation)
    requires Reencoded(m) && InRange(m) && forall t :: 0 <= t < |before| ==> |before[t]| == m.maxvar + 1
    ensures Consistent(m, frame) && Follows(m, e, timed, w, frame, |before|)
    ensures if |before| == 0 then Initial(m, frame) else Step(m, before[|before| - 1], frame)
  {
    var base := seq(m.maxvar + 1, v requires 0 <= v => StartBit(m, e, timed, w, before, v));
    frame := ConsistentExists(m, base, |m.ands|);
    forall i | 0 <= i < |m.latches| ensures LitVal(frame, m.latches[i].lit) == StartBit(m, e, timed, w, before, FirstLatch(m) + i) {
      assert m.latches[i].lit == 2 * (FirstLatch(m) + i);
    }
  }

  /** Simulation under the inputs of a frame of the expansion. */
  lemma {:induction false} Simulated(m: Model, e: Model, timed: seq<Timed>, w: Valuation, n: nat) returns (ws: seq<Valuation>)
    requires Reencoded(m) && InRange(m)
    ensures |ws| == n + 1 && Run(m, ws) && forall t :: 0 <= t <= n ==> Follows(m, e, timed, w, ws[t], t)
  {
    hide Follows, Reencoded, InRange, Initial, Step;
    var before: seq<Valuation> := [];
    if n > 0 { before := Simulated(m, e, timed, w, n - 1); }
    var frame := NextFrame(m, e, timed, w, before);
    ws := before + [frame];
    assert n > 0 ==> ws[0] == before[0] && ws[n - 1] == before[n - 1];
  }

  /** Every frame of the expansion comes from a run. */
  lemma RunOfFrame(m: Model, k: nat, e: Model, timed: seq<Timed>, w: Valuation) returns (ws: seq<Valuation>)
    requires Reencoded(m) && InRange(m) && |m.outputs| == 1 && ExpansionOf(m, k, e, timed) && Consistent(e, w)
    ensures Run(m, ws) && |ws| == k + 1 && FrameOfRun(e, timed, ws, w)
  {
    ws := Simulated(m, e, timed, w, k);
    forall p | 0 <= p < |e.inputs| ensures InputFromRun(e, timed, ws, w, p) {
      assert FreeVar(m, k, timed[p]);
      assert Given(e, timed, w, timed[p]) <==> w[e.inputs[p] / 2];
      assert Follows(m, e, timed, w, ws[timed[p].slice], timed[p].slice);
      assert FollowsAt(e, timed, w, ws[timed[p].slice], timed[p].slice, timed[p].name);
    }
  }

  /** The expanded model has a satisfying input iff some run makes the output true within `k` steps. */
  lemma ExpansionExact(m: Model, k: nat, e: Model, timed: seq<Timed>)
    requires Reencoded(m) && InRange(m) && |m.outputs| == 1 && ExpansionOf(m, k, e, timed)
    ensures (exists w :: Consistent(e, w) && LitVal(w, e.outputs[0])) <==>
            (exists ws: seq<Valuation> :: Run(m, ws) && |ws| == k + 1 && TrueBefore(ws, m.outputs[0], k + 1))
  {
    if w :| Consistent(e, w) && LitVal(w, e.outputs[0]) {
      var ws := RunOfFrame(m, k, e, timed, w);
      assert SameOutcome(m, k, e, ws, w);
      OutcomeIs(ws, m.outputs[0], k);
    }
    if ws: seq<Valuation> :| Run(m, ws) && |ws| == k + 1 && TrueBefore(ws, m.outputs[0], k + 1) {
      var w :| FrameOfRun(e, timed, ws, w);
      assert SameOutcome(m, k, e, ws, w);
      OutcomeIs(ws, m.outputs[0], k);
    }
  }

  // ----- The tool --------------------------------------------------------------------------------------------

  /** Builds, unrolls, substitutes, copies and cleans up; `left` is the number of nodes that are
      alive at the end. */
  method UnrollModel(m: Model, k: nat, hash: Node -> nat) returns (res: Expansion, left: nat, ghost timed: seq<Timed>)
    requires Reencoded(m)
    ensures InRange(m)
    ensures res.Refused? <==> |m.bad| > 0 || |m.constraints| > 0 || |m.outputs| != 1
    ensures left == 0
    ensures res.Expansion? ==> ExpansionOf(m, k, res.model, timed)
  {
    ReencodedInRange(m);
    timed := [];
    if |m.bad| > 0 || |m.constraints| > 0 || |m.outputs| != 1 {
      return Refused, 0, timed;
    }
    var u := new Unroller(m, hash);
    var r := BuildOutput(u, k);
    var e;
    ghost var idx, list, copied;
    e, timed, idx, list, copied := ExpandOutput(u, r, k);
    CopyExpands(m, k, u.mgr.nodes, idx, list, copied, timed, e, r);
    res := Expansion(e);
    left := DropAll(u, r);
  }

  method BuildOutput(u: Unroller, k: nat) returns (r: Ref)
    requires u.Ready() && u.Holds(multiset{}) && u.lois == [] && u.mgr.rhs.Empty() && |u.m.outputs| == 1
    modifies u, u.mgr, u.mgr.cache, u.mgr.rhs
    ensures u.Solved(k, r, multiset{})
  {
    u.BuildAll();
    u.AssignInitial();
    u.AssignSlices(k);
    var res := u.Disjoin(k);
    r := u.Solve(k, res);
  }

  method ExpandOutput(u: Unroller, r: Ref, ghost k: nat)
    returns (e: Model, ghost timed: seq<Timed>, ghost idx: map<nat, nat>, ghost list: seq<nat>, ghost copied: set<nat>)
    requires u.Solved(k, r, multiset{}) && u.mgr.index.Empty()
    modifies u.mgr, u.mgr.index
    ensures u.mgr.Valid() && u.mgr.dying == {} && WellFormed(u.mgr.nodes) && u.mgr.held == NodesOf(u.lois) + multiset{r.node}
    ensures |u.m.outputs| == 1 && Reencoded(u.m) && InRange(u.m) && u.m.outputs[0] / 2 <= u.m.maxvar
    ensures Expanded(u.m, k, u.mgr.nodes, u.m.outputs[0], r)
    ensures IsCopy(u.mgr.nodes, idx, list, copied, timed, e, r) && CopiedWithin(u.mgr.nodes, copied, r.node)
  {
    assert u.mgr.held == NodesOf(u.lois) + multiset{r.node};
    HeldUsable(u.mgr.nodes, u.mgr.refs, u.mgr.held, r);
    e, timed, idx, list, copied := Expand(u.mgr, r, u.mgr.held);
  }

  method DropAll(u: Unroller, r: Ref) returns (left: nat)
    requires u.mgr.Valid() && u.mgr.dying == {} && u.mgr.held == NodesOf(u.lois) + multiset{r.node}
    modifies u, u.mgr
    ensures left == 0
  {
    u.mgr.Dec(r.node);
    assert u.mgr.held == NodesOf(u.lois);
    left := u.Release();
  }
}
