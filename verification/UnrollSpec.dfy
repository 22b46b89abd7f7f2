/** What time-frame expansion has to build, and why substituting it gives sequential simulation. */
module UnrollSpec {
  import opened Aiger
  import opened SimpSpec
  import opened SimpJobs
  import opened SimpAig

  // ----- The graph of slice 0 ---------------------------------------------------------------------

  /** Inputs, latches and undefined variables become variables. */
  predicate Leaf(m: Model, v: nat) {
    1 <= v <= m.maxvar && !(FirstAnd(m) <= v < NumVars(m))
  }

  function LitRef(lois: seq<Ref>, l: nat): Ref
    requires l / 2 < |lois|
  {
    if l % 2 == 1 then Neg(lois[l / 2]) else lois[l / 2]
  }

  ghost predicate BuiltAt(m: Model, nodes: seq<Node>, lois: seq<Ref>, v: nat)
    requires Reencoded(m) && WellFormed(nodes) && v < |lois| <= m.maxvar + 1
  {
    && lois[v].node < |nodes|
    && (if v == 0 then lois[v] == FALSE
        else if Leaf(m, v) then !lois[v].neg && nodes[lois[v].node] == Variable(v, 0)
        else GateBuilt(m, nodes, lois, v))
  }

  ghost predicate GateBuilt(m: Model, nodes: seq<Node>, lois: seq<Ref>, v: nat)
    requires Reencoded(m) && v < |lois| && FirstAnd(m) <= v < NumVars(m)
  {
    var g := m.ands[v - FirstAnd(m)];
    g.rhs0 / 2 < v && g.rhs1 / 2 < v && AndResult(nodes, LitRef(lois, g.rhs0), LitRef(lois, g.rhs1), lois[v])
  }

  ghost predicate Built(m: Model, nodes: seq<Node>, lois: seq<Ref>)
    requires Reencoded(m)
  {
    && WellFormed(nodes) && |lois| <= m.maxvar + 1
    && forall v :: 0 <= v < |lois| ==> BuiltAt(m, nodes, lois, v)
  }

  lemma GateOperands(m: Model, v: nat)
    requires Reencoded(m) && FirstAnd(m) <= v < NumVars(m)
    ensures var g := m.ands[v - FirstAnd(m)]; g.lhs == 2 * v && g.rhs0 / 2 < v && g.rhs1 / 2 < v
  {}

  lemma BuiltExtend(m: Model, nodes: seq<Node>, nodes': seq<Node>, lois: seq<Ref>)
    requires Reencoded(m) && Built(m, nodes, lois) && WellFormed(nodes') && nodes <= nodes'
    ensures Built(m, nodes', lois)
  {
    forall v | 0 <= v < |lois| ensures BuiltAt(m, nodes', lois, v) {
      assert BuiltAt(m, nodes, lois, v);
    }
  }

  /** `r` is the next variable to be built. */
  ghost predicate NextVar(m: Model, nodes: seq<Node>, lois: seq<Ref>, r: Ref)
    requires Reencoded(m) && |lois| <= m.maxvar
  {
    var v := |lois|;
    && r.node < |nodes|
    && (if v == 0 then r == FALSE
        else if Leaf(m, v) then !r.neg && nodes[r.node] == Variable(v, 0)
        else
          var g := m.ands[v - FirstAnd(m)];
          g.rhs0 / 2 < v && g.rhs1 / 2 < v && AndResult(nodes, LitRef(lois, g.rhs0), LitRef(lois, g.rhs1), r))
  }

  lemma BuiltPush(m: Model, nodes: seq<Node>, lois: seq<Ref>, r: Ref)
    requires Reencoded(m) && Built(m, nodes, lois) && |lois| <= m.maxvar && NextVar(m, nodes, lois, r)
    ensures Built(m, nodes, lois + [r])
  {
    var lois' := lois + [r];
    forall v | 0 <= v < |lois'| ensures BuiltAt(m, nodes, lois', v) {
      if v < |lois| {
        assert BuiltAt(m, nodes, lois, v);
        if v > 0 && !Leaf(m, v) {
          var g := m.ands[v - FirstAnd(m)];
          assert LitRef(lois', g.rhs0) == LitRef(lois, g.rhs0) && LitRef(lois', g.rhs1) == LitRef(lois, g.rhs1);
        }
      }
    }
  }

  /** The variables of slice `t` have the values of the frame. */
  ghost predicate MatchesAt(m: Model, w: Valuation, env: Env, t: int)
    requires |w| == m.maxvar + 1
  {
    forall v: nat :: Leaf(m, v) ==> LeafMatches(w, env, v, t)
  }

  predicate LeafMatches(w: Valuation, env: Env, v: nat, t: int) {
    v < |w| && w[v] == env(v, t)
  }

  lemma {:induction false} BuiltValue(m: Model, nodes: seq<Node>, lois: seq<Ref>, v: nat, w: Valuation, env: Env)
    requires Reencoded(m) && InRange(m) && Built(m, nodes, lois) && v < |lois|
    requires Consistent(m, w) && MatchesAt(m, w, env, 0)
    ensures BuiltAt(m, nodes, lois, v) && Val(nodes, lois[v], env) == w[v]
    decreases v, 0
  {
    assert BuiltAt(m, nodes, lois, v);
    if Leaf(m, v) {
      assert LeafMatches(w, env, v, 0);
    } else if v > 0 {
      GateOperands(m, v);
      var g := m.ands[v - FirstAnd(m)];
      BuiltLit(m, nodes, lois, g.rhs0, w, env);
      BuiltLit(m, nodes, lois, g.rhs1, w, env);
      AndSound(nodes, LitRef(lois, g.rhs0), LitRef(lois, g.rhs1), lois[v]);
      assert GateHolds(w, g);
    }
  }

  lemma {:induction false} BuiltLit(m: Model, nodes: seq<Node>, lois: seq<Ref>, l: nat, w: Valuation, env: Env)
    requires Reencoded(m) && InRange(m) && Built(m, nodes, lois) && l / 2 < |lois|
    requires Consistent(m, w) && MatchesAt(m, w, env, 0)
    ensures LitRef(lois, l).node < |nodes| && Val(nodes, LitRef(lois, l), env) == LitVal(w, l)
    decreases l / 2, 1
  {
    BuiltValue(m, nodes, lois, l / 2, w, env);
  }

  /** Defined variables depend on inputs and latches of slice 0 only. */
  ghost predicate Now(m: Model, s: set<Timed>) {
    forall x :: x in s ==> 1 <= x.name < FirstAnd(m) && x.slice == 0
  }

  lemma {:induction false} BuiltSupport(m: Model, nodes: seq<Node>, lois: seq<Ref>, v: nat)
    requires Reencoded(m) && Built(m, nodes, lois) && v < |lois| && v < NumVars(m)
    ensures BuiltAt(m, nodes, lois, v) && Now(m, Support(nodes, lois[v].node))
    decreases v
  {
    assert BuiltAt(m, nodes, lois, v);
    if v > 0 && !Leaf(m, v) {
      GateOperands(m, v);
      var g := m.ands[v - FirstAnd(m)];
      BuiltSupport(m, nodes, lois, g.rhs0 / 2);
      BuiltSupport(m, nodes, lois, g.rhs1 / 2);
      AndSound(nodes, LitRef(lois, g.rhs0), LitRef(lois, g.rhs1), lois[v]);
    }
  }

  // ----- Shifted literals ---------------------------------------------------------------------------

  /** `r` is the literal `l`, `t` slices later. */
  ghost predicate Later(nodes: seq<Node>, lois: seq<Ref>, l: nat, t: int, r: Ref)
    requires WellFormed(nodes)
  {
    && l / 2 < |lois| && LitRef(lois, l).node < |nodes|
    && Image(nodes, Shifting(Support(nodes, LitRef(lois, l).node), t), LitRef(lois, l), r)
  }

  lemma LaterExtend(nodes: seq<Node>, nodes': seq<Node>, lois: seq<Ref>, l: nat, t: int, r: Ref)
    requires WellFormed(nodes) && WellFormed(nodes') && nodes <= nodes' && Later(nodes, lois, l, t, r)
    ensures Later(nodes', lois, l, t, r)
  {
    SupportExtend(nodes, nodes', LitRef(lois, l).node);
    ImageExtend(nodes, nodes', Shifting(Support(nodes, LitRef(lois, l).node), t), LitRef(lois, l), r);
  }

  lemma LaterValue(m: Model, nodes: seq<Node>, lois: seq<Ref>, l: nat, t: int, r: Ref, w: Valuation, env: Env)
    requires Reencoded(m) && InRange(m) && Built(m, nodes, lois) && Later(nodes, lois, l, t, r)
    requires Consistent(m, w) && MatchesAt(m, w, env, t)
    ensures r.node < |nodes| && l / 2 < |w| && Val(nodes, r, env) == LitVal(w, l)
  {
    var job := Shifting(Support(nodes, LitRef(lois, l).node), t);
    var inner: Env := (name: nat, slice: int) => env(name, slice + t);
    assert forall name: nat, slice: int :: Agree(inner, env, name, slice, t);
    assert Linked(job, env, inner);
    assert SameVal(nodes, LitRef(lois, l), inner, r, env);
    forall v: nat | Leaf(m, v) ensures LeafMatches(w, inner, v, 0) {
      assert LeafMatches(w, env, v, t);
    }
    BuiltLit(m, nodes, lois, l, w, inner);
  }

  ghost predicate SliceOnly(m: Model, s: set<Timed>, t: int) {
    forall x :: x in s ==> 1 <= x.name < FirstAnd(m) && x.slice == t
  }

  lemma LaterSupport(m: Model, nodes: seq<Node>, lois: seq<Ref>, l: nat, t: int, r: Ref)
    requires Reencoded(m) && Built(m, nodes, lois) && Later(nodes, lois, l, t, r) && l / 2 < NumVars(m)
    ensures SliceOnly(m, Support(nodes, r.node), t)
  {
    BuiltSupport(m, nodes, lois, l / 2);
    var job := Shifting(Support(nodes, LitRef(lois, l).node), t);
    forall x | x in Support(nodes, r.node) ensures 1 <= x.name < FirstAnd(m) && x.slice == t {
      assert Out(job, x);
    }
  }

  // ----- The assignment --------------------------------------------------------------------------------

  predicate IsLatchVar(m: Model, v: nat) {
    FirstLatch(m) <= v < FirstAnd(m)
  }

  function LatchOf(m: Model, v: nat): Latch
    requires IsLatchVar(m, v)
  {
    m.latches[v - FirstLatch(m)]
  }

  /** Latches after slice 0, and initialised latches at slice 0, get a right hand side. */
  predicate Bound(m: Model, v: nat, s: int) {
    IsLatchVar(m, v) && s >= 0 && (s > 0 || LatchOf(m, v).reset <= 1)
  }

  /** ... of which those up to latch `j` of slice `i` have it already. */
  predicate BoundBefore(m: Model, i: int, j: nat, v: nat, s: int) {
    Bound(m, v, s) && (s < i || (s == i && v < FirstLatch(m) + j))
  }

  ghost predicate EntryOk(m: Model, nodes: seq<Node>, lois: seq<Ref>, entry: map<nat, Ref>, id: nat)
    requires WellFormed(nodes) && id in entry
  {
    && id < |nodes| && nodes[id].Variable? && Bound(m, nodes[id].name, nodes[id].slice)
    && (if nodes[id].slice == 0 then
          entry[id] == (if LatchOf(m, nodes[id].name).reset == 1 then TRUE else FALSE)
        else
          Later(nodes, lois, LatchOf(m, nodes[id].name).next, nodes[id].slice - 1, entry[id]))
  }

  ghost predicate Covered(nodes: seq<Node>, entry: map<nat, Ref>, v: nat, s: int) {
    exists id :: id in entry && id < |nodes| && nodes[id] == Variable(v, s)
  }

  ghost predicate Assignment(m: Model, nodes: seq<Node>, lois: seq<Ref>, entry: map<nat, Ref>, i: int, j: nat)
    requires WellFormed(nodes)
  {
    && (forall id :: id in entry ==>
          EntryOk(m, nodes, lois, entry, id) && BoundBefore(m, i, j, nodes[id].name, nodes[id].slice))
    && (forall v: nat, s: int :: BoundBefore(m, i, j, v, s) ==> Covered(nodes, entry, v, s))
  }

  lemma EntryExtend(m: Model, nodes: seq<Node>, nodes': seq<Node>, lois: seq<Ref>, entry: map<nat, Ref>, id: nat)
    requires WellFormed(nodes) && WellFormed(nodes') && nodes <= nodes'
    requires id in entry && EntryOk(m, nodes, lois, entry, id)
    ensures EntryOk(m, nodes', lois, entry, id) && nodes'[id] == nodes[id]
  {
    if nodes[id].slice != 0 {
      LaterExtend(nodes, nodes', lois, LatchOf(m, nodes[id].name).next, nodes[id].slice - 1, entry[id]);
    }
  }

  lemma AssignmentExtend(m: Model, nodes: seq<Node>, nodes': seq<Node>, lois: seq<Ref>, entry: map<nat, Ref>, i: int, j: nat)
    requires WellFormed(nodes) && WellFormed(nodes') && nodes <= nodes' && Assignment(m, nodes, lois, entry, i, j)
    ensures Assignment(m, nodes', lois, entry, i, j)
  {
    forall id | id in entry
      ensures EntryOk(m, nodes', lois, entry, id) && BoundBefore(m, i, j, nodes'[id].name, nodes'[id].slice)
    {
      assert EntryOk(m, nodes, lois, entry, id);
      EntryExtend(m, nodes, nodes', lois, entry, id);
    }
    forall v: nat, s: int | BoundBefore(m, i, j, v, s) ensures Covered(nodes', entry, v, s) {
      assert Covered(nodes, entry, v, s);
      var id :| id in entry && id < |nodes| && nodes[id] == Variable(v, s);
      assert nodes'[id] == Variable(v, s);
    }
  }

  /** Latch `j` of slice `i` gets its right hand side. */
  lemma AssignmentPush(m: Model, nodes: seq<Node>, lois: seq<Ref>, entry: map<nat, Ref>, i: int, j: nat, id: nat, r: Ref)
    requires WellFormed(nodes) && Assignment(m, nodes, lois, entry, i, j) && j < |m.latches| && i >= 0
    requires id < |nodes| && nodes[id] == Variable(FirstLatch(m) + j, i) && Bound(m, FirstLatch(m) + j, i)
    requires if i == 0 then r == (if m.latches[j].reset == 1 then TRUE else FALSE) else Later(nodes, lois, m.latches[j].next, i - 1, r)
    ensures id !in entry && Assignment(m, nodes, lois, entry[id := r], i, j + 1)
  {
    assert !BoundBefore(m, i, j, nodes[id].name, nodes[id].slice);
    var entry' := entry[id := r];
    forall k | k in entry'
      ensures EntryOk(m, nodes, lois, entry', k) && BoundBefore(m, i, j + 1, nodes[k].name, nodes[k].slice)
    {
      if k != id { assert EntryOk(m, nodes, lois, entry, k); }
    }
    forall v: nat, s: int | BoundBefore(m, i, j + 1, v, s) ensures Covered(nodes, entry', v, s) {
      if BoundBefore(m, i, j, v, s) {
        assert Covered(nodes, entry, v, s);
        var k :| k in entry && k < |nodes| && nodes[k] == Variable(v, s);
        assert k in entry';
      } else {
        assert nodes[id] == Variable(v, s) && id in entry';
      }
    }
  }

  /** Latch `j` of slice 0 is uninitialised. */
  lemma AssignmentSkip(m: Model, nodes: seq<Node>, lois: seq<Ref>, entry: map<nat, Ref>, j: nat)
    requires WellFormed(nodes) && Assignment(m, nodes, lois, entry, 0, j) && j < |m.latches| && m.latches[j].reset > 1
    ensures Assignment(m, nodes, lois, entry, 0, j + 1)
  {
    forall v: nat, s: int | BoundBefore(m, 0, j + 1, v, s) ensures Covered(nodes, entry, v, s) {
      assert BoundBefore(m, 0, j, v, s);
    }
  }

  lemma NextSlice(m: Model, nodes: seq<Node>, lois: seq<Ref>, entry: map<nat, Ref>, i: int)
    requires WellFormed(nodes) && Assignment(m, nodes, lois, entry, i, |m.latches|)
    ensures Assignment(m, nodes, lois, entry, i + 1, 0)
  {
    forall v: nat, s: int | BoundBefore(m, i + 1, 0, v, s) ensures Covered(nodes, entry, v, s) {
      assert BoundBefore(m, i, |m.latches|, v, s);
    }
  }

  // ----- Levels ------------------------------------------------------------------------------------------

  ghost function Level(nodes: seq<Node>, i: nat): nat
    requires WellFormed(nodes) && i < |nodes|
    decreases i
  {
    match nodes[i]
    case False => 0
    case Variable(_, slice) => if slice < 0 then 0 else slice
    case And(c0, c1) =>
      assert NodeOk(nodes[i], i);
      var a, b := Level(nodes, c0.node), Level(nodes, c1.node);
      if a < b then b else a
  }

  lemma {:induction false} LevelBound(nodes: seq<Node>, i: nat, b: nat)
    requires WellFormed(nodes) && i < |nodes|
    requires forall x :: x in Support(nodes, i) ==> x.slice <= b
    ensures Level(nodes, i) <= b
    decreases i
  {
    match nodes[i]
    case Variable(name, slice) => assert Timed(name, slice) in Support(nodes, i);
    case And(c0, c1) =>
      assert NodeOk(nodes[i], i);
      LevelBound(nodes, c0.node, b);
      LevelBound(nodes, c1.node, b);
    case False =>
  }

  ghost function LevelsOf(nodes: seq<Node>): (level: seq<nat>)
    requires WellFormed(nodes)
    ensures |level| == |nodes| && forall i :: 0 <= i < |nodes| ==> level[i] == Level(nodes, i)
  {
    seq(|nodes|, i requires 0 <= i < |nodes| => Level(nodes, i))
  }

  /** Inputs and latches of the slices up to `k`. */
  ghost function Frames(m: Model, k: nat): set<Timed> {
    set v: nat, s: int | 1 <= v < FirstAnd(m) && 0 <= s <= k :: Timed(v, s)
  }

  lemma AssignmentJob(m: Model, nodes: seq<Node>, lois: seq<Ref>, entry: map<nat, Ref>, k: nat)
    requires Reencoded(m) && Built(m, nodes, lois) && |lois| == m.maxvar + 1
    requires Assignment(m, nodes, lois, entry, k + 1, 0)
    ensures var job := Substituting(Frames(m, k), nodes, entry); JobOk(job) && Levels(job, LevelsOf(nodes))
  {
    var job, level := Substituting(Frames(m, k), nodes, entry), LevelsOf(nodes);
    forall i | i in entry ensures RhsOk(job, i) && (entry[i].node != 0 ==> level[entry[i].node] < level[i]) {
      EntryJob(m, nodes, lois, entry, k, i);
    }
    forall i | 0 <= i < |nodes| && nodes[i].And? ensures LevelAt(job, level, i) {
      assert NodeOk(nodes[i], i);
    }
  }

  lemma {:induction false} EntryJob(m: Model, nodes: seq<Node>, lois: seq<Ref>, entry: map<nat, Ref>, k: nat, i: nat)
    requires Reencoded(m) && Built(m, nodes, lois) && |lois| == m.maxvar + 1
    requires Assignment(m, nodes, lois, entry, k + 1, 0) && i in entry
    ensures i < |nodes| && nodes[i].Variable? && entry[i].node < |nodes|
    ensures Support(nodes, entry[i].node) <= Frames(m, k)
    ensures entry[i].node != 0 ==> Level(nodes, entry[i].node) < Level(nodes, i)
  {
    assert EntryOk(m, nodes, lois, entry, i) && BoundBefore(m, k + 1, 0, nodes[i].name, nodes[i].slice);
    var v, s := nodes[i].name, nodes[i].slice;
    if s != 0 {
      NextDefined(m, v);
      LaterJob(m, nodes, lois, LatchOf(m, v).next, s - 1, entry[i], k);
    }
  }

  lemma NextDefined(m: Model, v: nat)
    requires Reencoded(m) && IsLatchVar(m, v)
    ensures LatchOf(m, v).next / 2 < NumVars(m)
  {}

  lemma {:induction false} LaterJob(m: Model, nodes: seq<Node>, lois: seq<Ref>, l: nat, t: nat, r: Ref, k: nat)
    requires Reencoded(m) && Built(m, nodes, lois) && l / 2 < NumVars(m) && t <= k && Later(nodes, lois, l, t, r)
    ensures Support(nodes, r.node) <= Frames(m, k) && Level(nodes, r.node) <= t
  {
    LaterSupport(m, nodes, lois, l, t, r);
    LevelBound(nodes, r.node, t);
  }

  // ----- Simulation ----------------------------------------------------------------------------------------

  /** The environment gives every variable of every slice its value in the run. */
  ghost predicate Simulates(m: Model, k: nat, ws: seq<Valuation>, env: Env)
    requires InRange(m)
  {
    && |ws| == k + 1
    && forall t :: 0 <= t <= k ==> Consistent(m, ws[t]) && MatchesAt(m, ws[t], env, t)
  }

  ghost predicate TrueBefore(ws: seq<Valuation>, l: nat, n: nat)
    requires forall t :: 0 <= t < |ws| ==> l / 2 < |ws[t]|
  {
    exists t :: 0 <= t < n && t < |ws| && LitVal(ws[t], l)
  }

  /** The environment agrees with the run on everything that is not replaced. */
  ghost predicate FreeAgrees(m: Model, k: nat, ws: seq<Valuation>, env: Env) {
    forall v: nat, t: nat :: t < |ws| && t <= k && Leaf(m, v) && !Bound(m, v, t) ==> LeafMatches(ws[t], env, v, t)
  }

  function Inner(m: Model, ws: seq<Valuation>, env: Env): Env {
    (v: nat, s: int) => if Leaf(m, v) && 0 <= s < |ws| && v < |ws[s]| then ws[s][v] else env(v, s)
  }

  /** Simulation solves the equations of the assignment. */
  lemma SimulationLinked(m: Model, k: nat, nodes: seq<Node>, lois: seq<Ref>, entry: map<nat, Ref>, ws: seq<Valuation>, env: Env)
    requires Reencoded(m) && InRange(m) && Built(m, nodes, lois) && |lois| == m.maxvar + 1
    requires Assignment(m, nodes, lois, entry, k + 1, 0)
    requires Run(m, ws) && |ws| == k + 1 && FreeAgrees(m, k, ws, env)
    ensures Simulates(m, k, ws, Inner(m, ws, env))
    ensures JobOk(Substituting(Frames(m, k), nodes, entry))
    ensures Linked(Substituting(Frames(m, k), nodes, entry), env, Inner(m, ws, env))
  {
    var inner := Inner(m, ws, env);
    var job := Substituting(Frames(m, k), nodes, entry);
    InnerSimulates(m, k, ws, env);
    AssignmentJob(m, nodes, lois, entry, k);
    forall i | i in entry ensures RhsOk(job, i) && Solved(job, i, inner) {
      EntrySolved(m, k, nodes, lois, entry, ws, env, i);
    }
    forall name: nat, slice: int | !Replaced(job, name, slice) ensures Agree(inner, env, name, slice, 0) {
      assert BoundBefore(m, k + 1, 0, name, slice) ==> Covered(nodes, entry, name, slice);
      if Leaf(m, name) && 0 <= slice <= k {
        assert LeafMatches(ws[slice], env, name, slice);
      }
    }
  }

  lemma InnerSimulates(m: Model, k: nat, ws: seq<Valuation>, env: Env)
    requires InRange(m) && Run(m, ws) && |ws| == k + 1
    ensures Simulates(m, k, ws, Inner(m, ws, env))
  {
    var inner := Inner(m, ws, env);
    forall t | 0 <= t <= k ensures Consistent(m, ws[t]) && MatchesAt(m, ws[t], inner, t) {
      assert Consistent(m, ws[t]);
      forall v: nat | Leaf(m, v) ensures LeafMatches(ws[t], inner, v, t) {}
    }
  }

  lemma LatchStarts(m: Model, ws: seq<Valuation>, v: nat)
    requires Reencoded(m) && InRange(m) && Run(m, ws) && IsLatchVar(m, v) && LatchOf(m, v).reset <= 1
    ensures v < |ws[0]| && ws[0][v] == (LatchOf(m, v).reset == 1)
  {
    var i := v - FirstLatch(m);
    assert m.latches[i].lit == 2 * v;
    assert LitVal(ws[0], m.latches[i].lit) == (m.latches[i].reset == 1);
  }

  lemma LatchSteps(m: Model, ws: seq<Valuation>, v: nat, t: nat)
    requires Reencoded(m) && InRange(m) && Run(m, ws) && IsLatchVar(m, v) && t + 1 < |ws|
    ensures v < |ws[t + 1]| && LatchOf(m, v).next / 2 < |ws[t]|
    ensures ws[t + 1][v] == LitVal(ws[t], LatchOf(m, v).next)
  {
    var i := v - FirstLatch(m);
    assert m.latches[i].lit == 2 * v;
    assert Step(m, ws[t], ws[t + 1]);
    assert LitVal(ws[t + 1], m.latches[i].lit) == LitVal(ws[t], m.latches[i].next);
  }

  lemma {:induction false} EntrySolved(m: Model, k: nat, nodes: seq<Node>, lois: seq<Ref>, entry: map<nat, Ref>, ws: seq<Valuation>, env: Env, i: nat)
    requires Reencoded(m) && InRange(m) && Built(m, nodes, lois) && |lois| == m.maxvar + 1
    requires Assignment(m, nodes, lois, entry, k + 1, 0) && i in entry
    requires Run(m, ws) && |ws| == k + 1 && Simulates(m, k, ws, Inner(m, ws, env))
    ensures i < |nodes| && nodes[i].Variable? && entry[i].node < |nodes|
    ensures Inner(m, ws, env)(nodes[i].name, nodes[i].slice) == Val(nodes, entry[i], Inner(m, ws, env))
  {
    assert EntryOk(m, nodes, lois, entry, i) && BoundBefore(m, k + 1, 0, nodes[i].name, nodes[i].slice);
    var v, s := nodes[i].name, nodes[i].slice;
    if s == 0 {
      LatchStarts(m, ws, v);
    } else {
      LatchSteps(m, ws, v, s - 1);
      assert MatchesAt(m, ws[s - 1], Inner(m, ws, env), s - 1);
      LaterValue(m, nodes, lois, LatchOf(m, v).next, s - 1, entry[i], ws[s - 1], Inner(m, ws, env));
    }
  }

  // ----- The output ------------------------------------------------------------------------------------------

  /** The disjunction of the output over the first `n` slices. */
  ghost predicate Disjunction(m: Model, k: nat, nodes: seq<Node>, l: nat, n: nat, r: Ref)
    requires InRange(m) && WellFormed(nodes) && l / 2 <= m.maxvar
  {
    && r.node < |nodes| && Support(nodes, r.node) <= Frames(m, k)
    && forall ws: seq<Valuation>, env: Env :: Simulates(m, k, ws, env) ==> DisjunctionAt(nodes, ws, env, l, n, r)
  }

  ghost predicate DisjunctionAt(nodes: seq<Node>, ws: seq<Valuation>, env: Env, l: nat, n: nat, r: Ref)
    requires WellFormed(nodes) && r.node < |nodes| && forall t :: 0 <= t < |ws| ==> l / 2 < |ws[t]|
  {
    Val(nodes, r, env) <==> TrueBefore(ws, l, n)
  }

  lemma {:induction false} DisjunctionExtend(m: Model, k: nat, nodes: seq<Node>, nodes': seq<Node>, l: nat, n: nat, r: Ref)
    requires InRange(m) && WellFormed(nodes) && WellFormed(nodes') && nodes <= nodes' && l / 2 <= m.maxvar
    requires Disjunction(m, k, nodes, l, n, r)
    ensures Disjunction(m, k, nodes', l, n, r)
  {
    ValExtend(nodes, nodes', r);
    SupportExtend(nodes, nodes', r.node);
    forall ws: seq<Valuation>, env: Env | Simulates(m, k, ws, env) ensures DisjunctionAt(nodes', ws, env, l, n, r) {
      assert DisjunctionAt(nodes, ws, env, l, n, r);
      assert Val(nodes', r, env) == Val(nodes, r, env);
    }
  }

  lemma {:induction false} DisjunctionStep(m: Model, k: nat, nodes: seq<Node>, nodes': seq<Node>, lois: seq<Ref>, l: nat, n: nat,
                                           r: Ref, shifted: Ref, r': Ref)
    requires Reencoded(m) && InRange(m) && Built(m, nodes, lois) && |lois| == m.maxvar + 1 && l / 2 < NumVars(m) && n <= k
    requires WellFormed(nodes') && nodes <= nodes'
    requires Disjunction(m, k, nodes, l, n, r) && Later(nodes, lois, l, n, shifted)
    requires AndResult(nodes', Neg(r), Neg(shifted), Neg(r'))
    ensures Disjunction(m, k, nodes', l, n + 1, r')
  {
    ValExtend(nodes, nodes', r);
    ValExtend(nodes, nodes', shifted);
    SupportExtend(nodes, nodes', r.node);
    SupportExtend(nodes, nodes', shifted.node);
    AndSound(nodes', Neg(r), Neg(shifted), Neg(r'));
    LaterJob(m, nodes, lois, l, n, shifted, k);
    forall ws: seq<Valuation>, env: Env | Simulates(m, k, ws, env) ensures DisjunctionAt(nodes', ws, env, l, n + 1, r') {
      assert DisjunctionAt(nodes, ws, env, l, n, r);
      LaterValue(m, nodes, lois, l, n, shifted, ws[n], env);
      TrueStep(ws, l, n);
    }
  }

  lemma DisjunctionIn(m: Model, k: nat, nodes: seq<Node>, l: nat, n: nat, r: Ref)
    requires InRange(m) && WellFormed(nodes) && l / 2 <= m.maxvar && Disjunction(m, k, nodes, l, n, r)
    ensures r.node < |nodes| && Support(nodes, r.node) <= Frames(m, k)
  {}

  lemma TrueStep(ws: seq<Valuation>, l: nat, n: nat)
    requires n < |ws| && forall t :: 0 <= t < |ws| ==> l / 2 < |ws[t]|
    ensures TrueBefore(ws, l, n + 1) <==> TrueBefore(ws, l, n) || LitVal(ws[n], l)
  {
    if TrueBefore(ws, l, n) {
      var t :| 0 <= t < n && t < |ws| && LitVal(ws[t], l);
      assert 0 <= t < n + 1;
    }
  }

  lemma {:induction false} DisjunctionStart(m: Model, k: nat, nodes: seq<Node>, l: nat)
    requires InRange(m) && WellFormed(nodes) && l / 2 <= m.maxvar
    ensures Disjunction(m, k, nodes, l, 0, FALSE)
  {
    forall ws: seq<Valuation>, env: Env | Simulates(m, k, ws, env) ensures DisjunctionAt(nodes, ws, env, l, 0, FALSE) {}
  }

  /** After substitution: true under the inputs and free initial latches of a run iff the output is
      true at some slice of the run; nothing else occurs in it. */
  ghost predicate Expanded(m: Model, k: nat, nodes: seq<Node>, l: nat, r: Ref)
    requires InRange(m) && WellFormed(nodes) && l / 2 <= m.maxvar
  {
    && r.node < |nodes|
    && (forall x :: x in Support(nodes, r.node) ==> FreeVar(m, k, x))
    && forall ws: seq<Valuation>, env: Env :: Run(m, ws) && |ws| == k + 1 && FreeAgrees(m, k, ws, env) ==>
         DisjunctionAt(nodes, ws, env, l, k + 1, r)
  }

  /** Inputs at slices 0 to `k`, and uninitialised latches at slice 0. */
  ghost predicate FreeVar(m: Model, k: nat, x: Timed) {
    && 0 <= x.slice <= k
    && (1 <= x.name < FirstLatch(m) || (IsLatchVar(m, x.name) && x.slice == 0 && LatchOf(m, x.name).reset > 1))
  }

  lemma {:induction false} SubstitutionExpands(m: Model, k: nat, nodes: seq<Node>, nodes': seq<Node>, lois: seq<Ref>, entry: map<nat, Ref>,
                                               l: nat, r: Ref, r': Ref)
    requires Reencoded(m) && InRange(m) && Built(m, nodes, lois) && |lois| == m.maxvar + 1 && l / 2 <= m.maxvar
    requires Assignment(m, nodes, lois, entry, k + 1, 0) && WellFormed(nodes') && nodes <= nodes'
    requires Disjunction(m, k, nodes, l, k + 1, r)
    requires var job := Substituting(Frames(m, k), nodes, entry); JobOk(job) && Image(nodes', job, r, r')
    ensures Expanded(m, k, nodes', l, r')
  {
    var job := Substituting(Frames(m, k), nodes, entry);
    forall x | x in Support(nodes', r'.node) ensures FreeVar(m, k, x) {
      assert Out(job, x) && x in Frames(m, k);
      assert BoundBefore(m, k + 1, 0, x.name, x.slice) ==> Covered(nodes, entry, x.name, x.slice);
    }
    forall ws: seq<Valuation>, env: Env | Run(m, ws) && |ws| == k + 1 && FreeAgrees(m, k, ws, env)
      ensures DisjunctionAt(nodes', ws, env, l, k + 1, r')
    {
      var inner := Inner(m, ws, env);
      SimulationLinked(m, k, nodes, lois, entry, ws, env);
      assert DisjunctionAt(nodes, ws, inner, l, k + 1, r);
      ValExtend(nodes, nodes', r);
      assert Val(nodes', r, inner) == Val(nodes, r, inner);
      assert SameVal(nodes', r, inner, r', env);
    }
  }
}
