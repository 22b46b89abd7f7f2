/** `aigunroll`: time-frame expansion of a sequential model into a combinational one. */
module Unroll {
  import opened Aiger
  import opened SimpSpec
  import opened SimpCounts
  import opened SimpJobs
  import opened SimpAig
  import opened UnrollSpec

  ghost function NodesOf(rs: seq<Ref>): multiset<nat> {
    if |rs| == 0 then multiset{} else NodesOf(rs[..|rs| - 1]) + multiset{rs[|rs| - 1].node}
  }

  lemma {:induction false} NodesOfContain(rs: seq<Ref>, i: nat)
    requires i < |rs|
    ensures rs[i].node in NodesOf(rs)
  {
    if i < |rs| - 1 { NodesOfContain(rs[..|rs| - 1], i); }
  }

  lemma Regrouped(a: multiset<nat>, b: multiset<nat>, c: multiset<nat>, i: nat, j: nat)
    ensures (a + b + c) + multiset{i} + multiset{j} == a + (b + multiset{i} + multiset{j}) + c
  {}

  class Unroller {
    const m: Model
    const mgr: Manager
    /** The reference of every variable at slice 0. */
    var lois: seq<Ref>

    ghost predicate Ready()
      reads this, mgr, mgr.cache, mgr.rhs
    {
      && Reencoded(m) && InRange(m)
      && mgr.Valid() && mgr.dying == {} && mgr.cache != mgr.rhs && mgr.cache.Empty() && mgr.rhs.Ok()
      && Built(m, mgr.nodes, lois)
    }

    /** All references are those to the variables, those of the assignment, and `extra`. */
    ghost predicate Holds(extra: multiset<nat>)
      reads this, mgr, mgr.rhs
    {
      mgr.rhs.Ok() && mgr.held == NodesOf(lois) + mgr.rhs.Refs() + extra
    }

    constructor (m: Model, hash: Node -> nat)
      requires Reencoded(m)
      ensures this.m == m && fresh(mgr) && fresh(mgr.cache) && fresh(mgr.rhs) && fresh(mgr.index)
      ensures Ready() && Holds(multiset{}) && lois == [] && mgr.rhs.Empty() && mgr.index.Empty()
    {
      this.m := m;
      mgr := new Manager(hash);
      lois := [];
      new;
      ReencodedInRange(m);
    }

    lemma LoiUsable(l: nat, extra: multiset<nat>)
      requires Ready() && Holds(extra) && l / 2 < |lois|
      ensures LitRef(lois, l).node < |mgr.nodes| && Usable(mgr.refs, LitRef(lois, l))
    {
      NodesOfContain(lois, l / 2);
      HeldUsable(mgr.nodes, mgr.refs, mgr.held, LitRef(lois, l));
    }

    /** Makes the node of a variable.  `build_rec` is called for the variables in increasing order,
        so that its recursive calls always find the operands built. */
    method Make(v: nat) returns (r: Ref)
      requires Ready() && Holds(multiset{}) && v == |lois| <= m.maxvar
      modifies mgr
      ensures mgr.Valid() && mgr.dying == {} && old(mgr.nodes) <= mgr.nodes
      ensures mgr.held == old(mgr.held) + multiset{r.node} && NextVar(m, mgr.nodes, lois, r)
    {
      if v == 0 {
        r := mgr.Inc(FALSE);
      } else if FirstAnd(m) <= v < NumVars(m) {
        GateOperands(m, v);
        var g := m.ands[v - FirstAnd(m)];
        LoiUsable(g.rhs0, multiset{});
        LoiUsable(g.rhs1, multiset{});
        r := mgr.AndOf(LitRef(lois, g.rhs0), LitRef(lois, g.rhs1));
      } else {
        r := mgr.Variable(v, 0);
      }
    }

    method BuildNext()
      requires Ready() && Holds(multiset{}) && |lois| <= m.maxvar
      modifies this, mgr
      ensures Ready() && Holds(multiset{}) && |lois| == |old(lois)| + 1
    {
      ghost var nodes0 := mgr.nodes;
      var r := Make(|lois|);
      BuiltExtend(m, nodes0, mgr.nodes, lois);
      BuiltPush(m, mgr.nodes, lois, r);
      assert (lois + [r])[..|lois|] == lois;
      lois := lois + [r];
    }

    method BuildAll()
      requires Ready() && Holds(multiset{}) && lois == []
      modifies this, mgr
      ensures Ready() && Holds(multiset{}) && |lois| == m.maxvar + 1
    {
      while |lois| <= m.maxvar
        invariant Ready() && Holds(multiset{}) && |lois| <= m.maxvar + 1
        decreases m.maxvar + 1 - |lois|
      {
        BuildNext();
      }
    }

    ghost predicate Assigning(i: int, j: nat, extra: multiset<nat>)
      reads this, mgr, mgr.cache, mgr.rhs
    {
      && Ready() && Holds(extra) && |lois| == m.maxvar + 1
      && Assignment(m, mgr.nodes, lois, mgr.rhs.entry, i, j)
    }

    /** A literal, `t` slices later. */
    method ShiftLit(l: nat, t: nat, ghost i: int, ghost j: nat, ghost extra: multiset<nat>) returns (r: Ref)
      requires Assigning(i, j, extra) && l / 2 < |lois|
      modifies mgr, mgr.cache
      ensures Assigning(i, j, extra + multiset{r.node}) && old(mgr.nodes) <= mgr.nodes
      ensures Later(mgr.nodes, lois, l, t, r)
    {
      ghost var nodes0, held0 := mgr.nodes, mgr.held;
      LoiUsable(l, extra);
      r := mgr.Shift(LitRef(lois, l), t);
      SupportExtend(nodes0, mgr.nodes, LitRef(lois, l).node);
      BuiltExtend(m, nodes0, mgr.nodes, lois);
      AssignmentExtend(m, nodes0, mgr.nodes, lois, mgr.rhs.entry, i, j);
      assert mgr.held == NodesOf(lois) + mgr.rhs.Refs() + (extra + multiset{r.node});
    }

    method Drop(n: nat, ghost i: int, ghost j: nat, ghost extra: multiset<nat>)
      requires Assigning(i, j, extra + multiset{n})
      modifies mgr
      ensures Assigning(i, j, extra) && mgr.nodes == old(mgr.nodes)
    {
      assert n in extra + multiset{n};
      mgr.Dec(n);
      assert mgr.held == NodesOf(lois) + mgr.rhs.Refs() + extra;
    }

    /** Latch `j` of slice `i` is assigned `r`. */
    method AssignLatch(lhs: Ref, r: Ref, i: nat, j: nat, ghost extra: multiset<nat>)
      requires Assigning(i, j, extra) && j < |m.latches| && Bound(m, FirstLatch(m) + j, i)
      requires lhs.node < |mgr.nodes| && !lhs.neg && mgr.nodes[lhs.node] == Variable(FirstLatch(m) + j, i)
      requires lhs.node in mgr.held && r.node in mgr.held
      requires if i == 0 then r == (if m.latches[j].reset == 1 then TRUE else FALSE) else Later(mgr.nodes, lois, m.latches[j].next, i - 1, r)
      modifies mgr, mgr.rhs
      ensures Assigning(i, j + 1, extra) && mgr.nodes == old(mgr.nodes)
    {
      hide Built, Reencoded, InRange, TableOk, Counted, Assignment, EntryOk, Later, WellFormed, Pairs, NodesOf;
      AssignmentPush(m, mgr.nodes, lois, mgr.rhs.entry, i, j, lhs.node, r);
      HeldUsable(mgr.nodes, mgr.refs, mgr.held, lhs);
      HeldUsable(mgr.nodes, mgr.refs, mgr.held, r);
      Regrouped(NodesOf(lois), mgr.rhs.Refs(), extra, lhs.node, r.node);
      mgr.Assign(lhs, r);
    }

    /** Initialised latches are constants at slice 0. */
    method AssignInitial()
      requires Assigning(0, 0, multiset{})
      modifies mgr, mgr.cache, mgr.rhs
      ensures Assigning(1, 0, multiset{})
    {
      hide *;
      for j := 0 to |m.latches|
        invariant Assigning(0, j, multiset{})
      {
        AssignConstant(j);
      }
      ToNextSlice(0, multiset{});
    }

    lemma ToNextSlice(i: int, extra: multiset<nat>)
      requires Assigning(i, |m.latches|, extra)
      ensures Assigning(i + 1, 0, extra)
    {
      NextSlice(m, mgr.nodes, lois, mgr.rhs.entry, i);
    }

    method AssignConstant(j: nat)
      requires Assigning(0, j, multiset{}) && j < |m.latches|
      modifies mgr, mgr.rhs
      ensures Assigning(0, j + 1, multiset{})
    {
      var q := m.latches[j];
      hide Built, Reencoded, InRange, TableOk, Counted, Holds;
      if q.reset > 1 {
        AssignmentSkip(m, mgr.nodes, lois, mgr.rhs.entry, j);
        return;
      }
      LatchBuilt(j, 0, j, multiset{});
      var r := TakeConstant(if q.reset == 1 then TRUE else FALSE, 0, j, multiset{});
      AssignLatch(LitRef(lois, q.lit), r, 0, j, multiset{} + multiset{r.node});
      Drop(r.node, 0, j + 1, multiset{});
    }

    /** The reference of a latch is its variable at slice 0. */
    lemma LatchBuilt(j: nat, i0: int, j0: nat, extra: multiset<nat>)
      requires Assigning(i0, j0, extra) && j < |m.latches|
      ensures m.latches[j].lit / 2 < |lois|
      ensures var r := LitRef(lois, m.latches[j].lit);
        !r.neg && r.node < |mgr.nodes| && mgr.nodes[r.node] == Variable(FirstLatch(m) + j, 0) && r.node in mgr.held
    {
      assert m.latches[j].lit == 2 * (FirstLatch(m) + j);
      assert BuiltAt(m, mgr.nodes, lois, FirstLatch(m) + j);
      NodesOfContain(lois, FirstLatch(m) + j);
    }

    method TakeConstant(c: Ref, ghost i: int, ghost j: nat, ghost extra: multiset<nat>) returns (r: Ref)
      requires Assigning(i, j, extra) && c.node == 0
      modifies mgr
      ensures Assigning(i, j, extra + multiset{r.node}) && mgr.nodes == old(mgr.nodes) && r == c
    {
      r := mgr.Inc(c);
      assert mgr.held == NodesOf(lois) + mgr.rhs.Refs() + (extra + multiset{r.node});
    }

    /** At slice `i` a latch is its next state function of the slice before. */
    method AssignNext(i: nat, j: nat)
      requires Assigning(i, j, multiset{}) && 0 < i && j < |m.latches|
      modifies mgr, mgr.cache, mgr.rhs
      ensures Assigning(i, j + 1, multiset{})
    {
      LatchBuilt(j, i, j, multiset{});
      var lhs := ShiftLit(m.latches[j].lit, i, i, j, multiset{});
      NextBuilt(j, i, j, multiset{} + multiset{lhs.node});
      var r := ShiftNext(j, i, lhs, multiset{});
      Together(NodesOf(lois) + mgr.rhs.Refs(), multiset{}, lhs.node, r.node);
      AssignLatch(lhs, r, i, j, multiset{} + multiset{lhs.node} + multiset{r.node});
      Drop(r.node, i, j + 1, multiset{} + multiset{lhs.node});
      Drop(lhs.node, i, j + 1, multiset{});
    }

    lemma NextBuilt(j: nat, i0: int, j0: nat, extra: multiset<nat>)
      requires Assigning(i0, j0, extra) && j < |m.latches|
      ensures m.latches[j].next / 2 < |lois| && m.latches[j].lit / 2 < |lois|
    {}

    /** The right hand side for `lhs`, which stays the latch variable of slice `i`. */
    method ShiftNext(j: nat, i: nat, lhs: Ref, ghost extra: multiset<nat>) returns (r: Ref)
      requires Assigning(i, j, extra + multiset{lhs.node}) && 0 < i && j < |m.latches|
      requires m.latches[j].next / 2 < |lois| && m.latches[j].lit / 2 < |lois|
      requires Later(mgr.nodes, lois, m.latches[j].lit, i, lhs)
      modifies mgr, mgr.cache
      ensures Assigning(i, j, extra + multiset{lhs.node} + multiset{r.node})
      ensures Later(mgr.nodes, lois, m.latches[j].next, i - 1, r)
      ensures lhs.node < |mgr.nodes| && !lhs.neg && mgr.nodes[lhs.node] == Variable(FirstLatch(m) + j, i)
    {
      hide TableOk, Counted, Image, Built, Reencoded, InRange, Assignment;
      LatchBuilt(j, i, j, extra + multiset{lhs.node});
      ghost var nodes0 := mgr.nodes;
      ShiftedVariable(nodes0, lois, m.latches[j].lit, i, lhs);
      r := ShiftLit(m.latches[j].next, i - 1, i, j, extra + multiset{lhs.node});
      assert mgr.nodes[lhs.node] == nodes0[lhs.node];
    }

    method AssignSlices(k: nat)
      requires Assigning(1, 0, multiset{})
      modifies mgr, mgr.cache, mgr.rhs
      ensures Assigning(k + 1, 0, multiset{})
    {
      hide *;
      for i := 1 to k + 1
        invariant Assigning(i, 0, multiset{})
      {
        for j := 0 to |m.latches|
          invariant Assigning(i, j, multiset{})
        {
          AssignNext(i, j);
        }
        ToNextSlice(i, multiset{});
      }
    }

    ghost predicate Disjoining(k: nat, n: nat, r: Ref)
      reads this, mgr, mgr.cache, mgr.rhs
    {
      && |m.outputs| == 1 && Assigning(k + 1, 0, multiset{r.node})
      && Disjunction(m, k, mgr.nodes, m.outputs[0], n, r)
    }

    /** The output is true at one of the slices 0 to `k`. */
    method Disjoin(k: nat) returns (res: Ref)
      requires Assigning(k + 1, 0, multiset{}) && |m.outputs| == 1
      modifies mgr, mgr.cache
      ensures Disjoining(k, k + 1, res)
    {
      hide *;
      res := StartDisjunction(k);
      for n := 0 to k + 1
        invariant Disjoining(k, n, res)
      {
        res := OrSlice(k, n, res);
      }
    }

    method StartDisjunction(k: nat) returns (res: Ref)
      requires Assigning(k + 1, 0, multiset{}) && |m.outputs| == 1
      modifies mgr
      ensures Disjoining(k, 0, res)
    {
      DisjunctionStart(m, k, mgr.nodes, m.outputs[0]);
      res := TakeConstant(FALSE, k + 1, 0, multiset{});
      assert multiset{} + multiset{res.node} == multiset{res.node};
    }

    method OrSlice(k: nat, n: nat, res: Ref) returns (tmp: Ref)
      requires Disjoining(k, n, res) && n <= k
      modifies mgr, mgr.cache
      ensures Disjoining(k, n + 1, tmp)
    {
      ghost var nodes0 := mgr.nodes;
      var shifted := ShiftLit(m.outputs[0], n, k + 1, 0, multiset{res.node});
      DisjunctionExtend(m, k, nodes0, mgr.nodes, m.outputs[0], n, res);
      tmp := OrTwo(k, n, res, shifted);
      Drop(shifted.node, k + 1, 0, multiset{tmp.node} + multiset{res.node});
      Drop(res.node, k + 1, 0, multiset{tmp.node});
    }

    method OrTwo(k: nat, n: nat, res: Ref, shifted: Ref) returns (tmp: Ref)
      requires Assigning(k + 1, 0, multiset{res.node} + multiset{shifted.node}) && n <= k && |m.outputs| == 1
      requires Disjunction(m, k, mgr.nodes, m.outputs[0], n, res) && Later(mgr.nodes, lois, m.outputs[0], n, shifted)
      modifies mgr
      ensures Assigning(k + 1, 0, multiset{tmp.node} + multiset{res.node} + multiset{shifted.node})
      ensures Disjunction(m, k, mgr.nodes, m.outputs[0], n + 1, tmp)
    {
      hide Reencoded, InRange, TableOk, Counted, Built, Assignment, Disjunction, Later, WellFormed;
      ghost var nodes0 := mgr.nodes;
      OutputDefined();
      Together(NodesOf(lois) + mgr.rhs.Refs(), multiset{}, res.node, shifted.node);
      assert multiset{} + multiset{res.node} + multiset{shifted.node} == multiset{res.node} + multiset{shifted.node};
      HeldUsable(mgr.nodes, mgr.refs, mgr.held, res);
      HeldUsable(mgr.nodes, mgr.refs, mgr.held, shifted);
      tmp := mgr.Or(res, shifted);
      BuiltExtend(m, nodes0, mgr.nodes, lois);
      AssignmentExtend(m, nodes0, mgr.nodes, lois, mgr.rhs.entry, k + 1, 0);
      DisjunctionStep(m, k, nodes0, mgr.nodes, lois, m.outputs[0], n, res, shifted, tmp);
      assert mgr.held == NodesOf(lois) + mgr.rhs.Refs() + (multiset{tmp.node} + multiset{res.node} + multiset{shifted.node});
    }

    ghost predicate Solved(k: nat, r: Ref, extra: multiset<nat>)
      reads this, mgr, mgr.cache, mgr.rhs
    {
      && Ready() && mgr.rhs.Empty() && mgr.held == NodesOf(lois) + multiset{r.node} + extra
      && |m.outputs| == 1 && m.outputs[0] / 2 <= m.maxvar && Expanded(m, k, mgr.nodes, m.outputs[0], r)
    }

    /** Eliminates all latches but the uninitialised ones of slice 0. */
    method Solve(k: nat, res: Ref) returns (r: Ref)
      requires Disjoining(k, k + 1, res)
      modifies mgr, mgr.cache, mgr.rhs
      ensures Solved(k, r, multiset{})
    {
      hide Disjoining, Disjunction, Assigning, Sound, Built, WellFormed, Expanded, Reencoded, InRange, NodesOf;
      r := SubstituteOutput(k, res);
      LastDropped(NodesOf(lois) + multiset{r.node}, res.node);
      mgr.Dec(res.node);
    }

    method SubstituteOutput(k: nat, res: Ref) returns (r: Ref)
      requires Disjoining(k, k + 1, res)
      modifies mgr, mgr.cache, mgr.rhs
      ensures Solved(k, r, multiset{res.node})
    {
      hide TableOk, Counted, Built, Assignment, Disjunction, Image, Levels, Expanded, JobOk, Reencoded, NodesOf, Pairs;
      ghost var nodes0, entry, refs0 := mgr.nodes, mgr.rhs.entry, mgr.rhs.Refs();
      OutputDefined();
      AssignmentJob(m, nodes0, lois, entry, k);
      DisjunctionIn(m, k, nodes0, m.outputs[0], k + 1, res);
      HeldUsable(mgr.nodes, mgr.refs, mgr.held, res);
      ghost var held0 := mgr.held;
      Exchanged(NodesOf(lois), refs0, res.node);
      r := mgr.Substitute(res, Frames(m, k), LevelsOf(nodes0));
      BuiltExtend(m, nodes0, mgr.nodes, lois);
      assert mgr.held == NodesOf(lois) + multiset{r.node} + multiset{res.node} by {
        assert mgr.held == held0 - refs0 + multiset{r.node};
      }
      SubstitutionExpands(m, k, nodes0, mgr.nodes, lois, entry, m.outputs[0], res, r);
    }

    /** Drops the references to the variables; no node is left. */
    method Release() returns (left: nat)
      requires mgr.Valid() && mgr.dying == {} && mgr.held == NodesOf(lois)
      modifies this, mgr
      ensures left == 0
    {
      while |lois| > 0
        invariant mgr.Valid() && mgr.dying == {} && mgr.held == NodesOf(lois)
        decreases |lois|
      {
        var r := lois[|lois| - 1];
        lois := lois[..|lois| - 1];
        mgr.Dec(r.node);
      }
      forall i | 0 <= i < |mgr.refs| ensures mgr.refs[i] == 0 {
        NothingReferenced(mgr.nodes, mgr.refs, i);
      }
      assert Stored(mgr.refs, mgr.dying) == {};
      left := mgr.CurrentNodes();
    }

    lemma OutputDefined()
      requires Reencoded(m) && |m.outputs| == 1
      ensures m.outputs[0] / 2 < NumVars(m) <= m.maxvar + 1
    {}
  }

  lemma LastDropped(a: multiset<nat>, i: nat)
    ensures i in a + multiset{i} && a + multiset{i} - multiset{i} == a + multiset{}
  {}

  lemma Exchanged(a: multiset<nat>, refs: multiset<nat>, i: nat)
    ensures refs <= a + refs + multiset{i} && a + refs + multiset{i} - refs == a + multiset{i}
    ensures i in a + refs + multiset{i}
  {}

  lemma Together(a: multiset<nat>, extra: multiset<nat>, i: nat, j: nat)
    ensures i in a + (extra + multiset{i} + multiset{j}) && j in a + (extra + multiset{i} + multiset{j})
  {}

  lemma ShiftedVariable(nodes: seq<Node>, lois: seq<Ref>, l: nat, t: int, r: Ref)
    requires WellFormed(nodes) && Later(nodes, lois, l, t, r) && nodes[LitRef(lois, l).node].Variable?
    ensures r.node < |nodes| && r.neg == LitRef(lois, l).neg
    ensures nodes[r.node] == Variable(nodes[LitRef(lois, l).node].name, nodes[LitRef(lois, l).node].slice + t)
  {}
}
