/** The cone of influence of `blimc`: the worklist that marks it, and why the part of the model
    inside it is enough. */
module Coi {
  import opened Aiger
  import opened Graph
  import opened ReencodeRuns

  // ----- Dependencies ---------------------------------------------------------------------------------

  /** What the variable depends on directly: the operands of a gate, the next state of a latch. */
  function Depends(m: Model, types: seq<Kind>, v: nat): (ls: seq<nat>) {
    if v >= |types| then [] else
    match types[v]
    case LatchKind(i) => if i < |m.latches| then [m.latches[i].next] else []
    case AndKind(i) => if i < |m.ands| then [m.ands[i].rhs0, m.ands[i].rhs1] else []
    case _ => []
  }

  predicate DependsOn(m: Model, types: seq<Kind>, v: nat, u: nat) {
    exists i :: 0 <= i < |Depends(m, types, v)| && Depends(m, types, v)[i] / 2 == u
  }

  /** A gate depends on its two operands, a latch on its next state, and nothing else depends on anything. */
  lemma DependsOnMeans(m: Model, types: seq<Kind>, v: nat, u: nat)
    requires Typed(m, types)
    ensures DependsOn(m, types, v, u) <==>
      || (exists i :: 0 <= i < |m.ands| && m.ands[i].lhs / 2 == v && (m.ands[i].rhs0 / 2 == u || m.ands[i].rhs1 / 2 == u))
      || (exists i :: 0 <= i < |m.latches| && m.latches[i].lit / 2 == v && m.latches[i].next / 2 == u)
  {
    var ls := Depends(m, types, v);
    if v < |types| {
      assert KindInRange(m, types[v], v);
      match types[v]
      case AndKind(i) => assert ls[0] == m.ands[i].rhs0 && ls[1] == m.ands[i].rhs1;
      case LatchKind(i) => assert ls[0] == m.latches[i].next;
      case _ =>
    }
  }

  ghost predicate Chain(m: Model, types: seq<Kind>, path: seq<nat>) {
    |path| > 0 && forall i :: 0 <= i < |path| - 1 ==> DependsOn(m, types, path[i], path[i + 1])
  }

  /** `v` influences `root`, in any number of steps. */
  ghost predicate Influences(m: Model, types: seq<Kind>, root: nat, v: nat) {
    exists path: seq<nat> :: Chain(m, types, path) && path[0] == root && path[|path| - 1] == v
  }

  lemma InfluencesSelf(m: Model, types: seq<Kind>, root: nat)
    ensures Influences(m, types, root, root)
  {
    assert Chain(m, types, [root]);
  }

  lemma InfluencesStep(m: Model, types: seq<Kind>, root: nat, v: nat, u: nat)
    requires Influences(m, types, root, v) && DependsOn(m, types, v, u)
    ensures Influences(m, types, root, u)
  {
    var path: seq<nat> :| Chain(m, types, path) && path[0] == root && path[|path| - 1] == v;
    var longer := path + [u];
    forall i | 0 <= i < |longer| - 1 ensures DependsOn(m, types, longer[i], longer[i + 1]) {
      if i < |path| - 1 { assert DependsOn(m, types, path[i], path[i + 1]); }
    }
    assert Chain(m, types, longer);
  }

  ghost predicate Closed(m: Model, types: seq<Kind>, s: set<nat>) {
    forall v: nat, u: nat :: v in s && DependsOn(m, types, v, u) ==> u in s
  }

  lemma {:induction false} ClosedHolds(m: Model, types: seq<Kind>, s: set<nat>, path: seq<nat>)
    requires Closed(m, types, s) && Chain(m, types, path) && path[0] in s
    ensures path[|path| - 1] in s
    decreases |path|
  {
    if |path| > 1 {
      assert DependsOn(m, types, path[0], path[1]);
      var rest := path[1..];
      forall i | 0 <= i < |rest| - 1 ensures DependsOn(m, types, rest[i], rest[i + 1]) {
        assert DependsOn(m, types, path[i + 1], path[i + 2]);
      }
      ClosedHolds(m, types, s, rest);
    }
  }

  // ----- The worklist -----------------------------------------------------------------------------------

  /** All literals the traversal may meet are defined. */
  ghost predicate DependsDefined(m: Model, types: seq<Kind>) {
    forall v: nat, i :: v < |types| && 0 <= i < |Depends(m, types, v)| ==> Depends(m, types, v)[i] / 2 < |types|
  }

  /** The marks number the variables of `order` from 1; all but the first are on the stack. */
  ghost predicate Marks(coi: seq<nat>, stack: seq<nat>, order: seq<nat>) {
    && 1 <= |order| <= |coi| == |stack|
    && (forall i :: 0 <= i < |order| ==> order[i] < |coi| && coi[order[i]] == i + 1)
    && (forall v :: 0 <= v < |coi| && coi[v] != 0 ==> v in order)
    && (forall i :: 1 <= i < |order| ==> stack[i] / 2 == order[i])
  }

  lemma {:induction false} Pigeonhole(order: seq<nat>, n: nat)
    requires forall i :: 0 <= i < |order| ==> order[i] < n
    requires forall i, j :: 0 <= i < j < |order| ==> order[i] != order[j]
    ensures |order| <= n
  {
    var s := Elements(order);
    var bound := Numbers(n);
    assert s <= bound;
    Subset(s, bound);
  }

  lemma {:induction false} Subset(s: set<nat>, t: set<nat>)
    requires s <= t
    ensures |s| <= |t|
  {
    if s != {} {
      var x :| x in s;
      Subset(s - {x}, t - {x});
    }
  }

  ghost function Numbers(n: nat): (s: set<nat>)
    ensures |s| == n && forall x: nat :: x in s <==> x < n
  {
    if n == 0 then {} else Numbers(n - 1) + {n - 1}
  }

  ghost function Elements(order: seq<nat>): (s: set<nat>)
    requires forall i, j :: 0 <= i < j < |order| ==> order[i] != order[j]
    ensures |s| == |order| && forall x: nat :: x in s <==> x in order
  {
    if |order| == 0 then {}
    else
      var n := |order| - 1;
      assert order == order[..n] + [order[n]];
      assert forall i, j :: 0 <= i < j < n ==> order[..n][i] != order[..n][j];
      Elements(order[..n]) + {order[n]}
  }

  /** There is room on the stack as long as a variable is unmarked. */
  lemma RoomLeft(coi: seq<nat>, stack: seq<nat>, order: seq<nat>, v: nat)
    requires Marks(coi, stack, order) && v < |coi| && coi[v] == 0
    ensures |order| < |stack| && v !in order
  {
    var more := order + [v];
    forall i, j | 0 <= i < j < |more| ensures more[i] != more[j] {
      if j < |order| { assert coi[order[i]] == i + 1 && coi[order[j]] == j + 1; }
    }
    Pigeonhole(more, |coi|);
  }

  /** The marked variables are exactly those that influence the root. */
  ghost predicate ConeMarked(m: Model, types: seq<Kind>, coi: seq<nat>, root: nat) {
    |coi| == |types| && forall v: nat :: v < |types| ==> (coi[v] != 0 <==> Influences(m, types, root, v))
  }

  function Marked(coi: seq<nat>): (s: set<nat>)
    ensures forall v :: v in s <==> 0 <= v < |coi| && coi[v] != 0
  {
    set v: nat | v < |coi| && coi[v] != 0
  }

  /** What is marked is closed under dependencies. */
  lemma MarkedIsClosed(m: Model, types: seq<Kind>, coi: seq<nat>, root: nat)
    requires DependsDefined(m, types) && ConeMarked(m, types, coi, root) && root < |types|
    ensures Closed(m, types, Marked(coi)) && root in Marked(coi) && forall v :: v in Marked(coi) ==> v < |types|
  {
    InfluencesSelf(m, types, root);
    forall v: nat, u: nat | v in Marked(coi) && DependsOn(m, types, v, u) ensures u in Marked(coi) {
      InfluencesStep(m, types, root, v, u);
      var i :| 0 <= i < |Depends(m, types, v)| && Depends(m, types, v)[i] / 2 == u;
    }
  }

  class Marker {
    const m: Model
    const types: seq<Kind>
    const coi: array<nat>
    const stack: array<nat>
    var top: nat
    ghost var order: seq<nat>

    ghost predicate Valid(root: nat)
      reads this, coi, stack
    {
      && Typed(m, types) && DependsDefined(m, types) && coi.Length == stack.Length == |types| && coi != stack
      && Marks(coi[..], stack[..], order) && top == |order|
      && forall i :: 0 <= i < |order| ==> Influences(m, types, root, order[i])
    }

    constructor (m: Model, types: seq<Kind>, root: nat)
      requires Typed(m, types) && DependsDefined(m, types) && root < |types|
      ensures this.m == m && this.types == types && fresh(coi) && fresh(stack)
      ensures Valid(root) && order == [root]
    {
      this.m, this.types := m, types;
      coi := new nat[|types|](_ => 0);
      stack := new nat[|types|](_ => 0);
      top, order := 1, [root];
      new;
      coi[root] := 1;
      InfluencesSelf(m, types, root);
    }

    /** Marks and stacks the variable of a literal unless it is marked. */
    method Visit(lit: nat, ghost v: nat, ghost root: nat)
      requires Valid(root) && lit / 2 < |types| && v in order && DependsOn(m, types, v, lit / 2)
      modifies coi, stack, `top, `order
      ensures Valid(root) && old(order) <= order && lit / 2 in order
    {
      if coi[lit / 2] == 0 {
        ghost var k :| 0 <= k < |order| && order[k] == v;
        assert Influences(m, types, root, order[k]);
        InfluencesStep(m, types, root, v, lit / 2);
        hide Typed, Influences, DependsDefined, Marks;
        Mark(lit);
      } else {
        assert lit / 2 in order;
      }
    }

    method Mark(lit: nat)
      requires coi.Length == stack.Length && coi != stack && Marks(coi[..], stack[..], order) && top == |order|
      requires lit / 2 < coi.Length && coi[lit / 2] == 0
      modifies coi, stack, `top, `order
      ensures Marks(coi[..], stack[..], order) && top == |order| && order == old(order) + [lit / 2]
    {
      var idx := lit / 2;
      RoomLeft(coi[..], stack[..], order, idx);
      MarkOne(coi[..], stack[..], order, lit);
      ghost var coi0: seq<nat>, stack0: seq<nat> := coi[..], stack[..];
      stack[top] := lit;
      top := top + 1;
      coi[idx] := top;
      assert stack[..] == stack0[|order| := lit];
      assert coi[..] == coi0[idx := |order| + 1];
      order := order + [idx];
    }

    /** Marks exactly the variables that influence the literal. */
    method Traverse(lit0: nat)
      requires Valid(lit0 / 2) && order == [lit0 / 2]
      modifies coi, stack, `top, `order
      ensures Valid(lit0 / 2)
      ensures ConeMarked(m, types, coi[..], lit0 / 2)
    {
      hide ConeMarked, Influences, Typed, DependsDefined;
      ghost var root := lit0 / 2;
      var next, lit := 1, lit0;
      while true
        invariant Valid(root) && 1 <= next <= top && order[0] == root
        invariant lit / 2 == order[next - 1]
        invariant forall i, u: nat :: 0 <= i < next - 1 && DependsOn(m, types, order[i], u) ==> u in order
        decreases |types| - next
      {
        ghost var v := lit / 2;
        ghost var order0 := order;
        Expand(lit, root);
        forall i, u: nat | 0 <= i < next && DependsOn(m, types, order[i], u) ensures u in order {
          assert order[i] == order0[i];
          if i < next - 1 { assert u in order0; }
        }
        if next == top { break; }
        lit := stack[next];
        next := next + 1;
      }
      MarkedExactly(m, types, coi[..], stack[..], order, root);
    }

    method Expand(lit: nat, ghost root: nat)
      requires Valid(root) && lit / 2 in order && lit / 2 < |types|
      modifies coi, stack, `top, `order
      ensures Valid(root) && old(order) <= order
      ensures forall u: nat :: DependsOn(m, types, lit / 2, u) ==> u in order
    {
      var v := lit / 2;
      var ls := Depends(m, types, v);
      for i := 0 to |ls|
        invariant Valid(root) && old(order) <= order
        invariant forall j :: 0 <= j < i ==> ls[j] / 2 in order
      {
        assert DependsOn(m, types, v, ls[i] / 2);
        Visit(ls[i], v, root);
      }
    }
  }

  lemma MarkOne(coi: seq<nat>, stack: seq<nat>, order: seq<nat>, lit: nat)
    requires Marks(coi, stack, order) && lit / 2 < |coi| && coi[lit / 2] == 0 && |order| < |stack| && lit / 2 !in order
    ensures Marks(coi[lit / 2 := |order| + 1], stack[|order| := lit], order + [lit / 2])
  {}

  lemma MarkedExactly(m: Model, types: seq<Kind>, coi: seq<nat>, stack: seq<nat>, order: seq<nat>, root: nat)
    requires Marks(coi, stack, order) && |coi| == |types| && order[0] == root
    requires forall i :: 0 <= i < |order| ==> Influences(m, types, root, order[i])
    requires forall i, u: nat :: 0 <= i < |order| && DependsOn(m, types, order[i], u) ==> u in order
    ensures ConeMarked(m, types, coi, root)
  {
    var s := set v | v in order;
    forall v: nat | v < |types| ensures coi[v] != 0 <==> Influences(m, types, root, v) {
      if Influences(m, types, root, v) {
        var path: seq<nat> :| Chain(m, types, path) && path[0] == root && path[|path| - 1] == v;
        forall a: nat, u: nat | a in s && DependsOn(m, types, a, u) ensures u in s {
          var i :| 0 <= i < |order| && order[i] == a;
        }
        ClosedHolds(m, types, s, path);
        var i :| 0 <= i < |order| && order[i] == v;
      }
    }
  }

  // ----- Slices --------------------------------------------------------------------------------------------

  /** Only the gates inside the cone are constrained. */
  ghost predicate SliceFrame(m: Model, s: set<nat>, w: Valuation)
    requires InRange(m)
  {
    && |w| == m.maxvar + 1 && !w[0]
    && forall i :: 0 <= i < |m.ands| && m.ands[i].lhs / 2 in s ==> GateHolds(w, m.ands[i])
  }

  ghost predicate SliceInitial(m: Model, s: set<nat>, w: Valuation)
    requires InRange(m) && |w| == m.maxvar + 1
  {
    forall i :: 0 <= i < |m.latches| && m.latches[i].lit / 2 in s && m.latches[i].reset <= 1 ==>
                  LitVal(w, m.latches[i].lit) == (m.latches[i].reset == 1)
  }

  ghost predicate SliceStep(m: Model, s: set<nat>, w: Valuation, w': Valuation)
    requires InRange(m) && |w| == |w'| == m.maxvar + 1
  {
    forall i :: 0 <= i < |m.latches| && m.latches[i].lit / 2 in s ==> LitVal(w', m.latches[i].lit) == LitVal(w, m.latches[i].next)
  }

  /** What `blimc` gives to the solver: frames that are constrained inside the cone only. */
  ghost predicate SliceRun(m: Model, s: set<nat>, ws: seq<Valuation>)
    requires InRange(m)
  {
    && |ws| > 0
    && (forall t :: 0 <= t < |ws| ==> SliceFrame(m, s, ws[t]))
    && SliceInitial(m, s, ws[0])
    && (forall t :: 0 <= t < |ws| - 1 ==> SliceStep(m, s, ws[t], ws[t + 1]))
  }

  lemma RunIsSliceRun(m: Model, s: set<nat>, ws: seq<Valuation>)
    requires InRange(m) && Run(m, ws)
    ensures SliceRun(m, s, ws)
  {
    forall t | 0 <= t < |ws| ensures SliceFrame(m, s, ws[t]) { assert Consistent(m, ws[t]); }
    forall t | 0 <= t < |ws| - 1 ensures SliceStep(m, s, ws[t], ws[t + 1]) { assert Step(m, ws[t], ws[t + 1]); }
  }

  predicate Same(w: Valuation, w': Valuation, v: nat) {
    v < |w| && v < |w'| && w[v] == w'[v]
  }

  /** The frames agree on the cone. */
  ghost predicate AgreeOn(s: set<nat>, w: Valuation, w': Valuation) {
    forall v :: v in s ==> Same(w, w', v)
  }

  /** ... on its inputs, latches and undefined variables. */
  ghost predicate AgreeOnLeaves(types: seq<Kind>, s: set<nat>, w: Valuation, w': Valuation) {
    forall v :: v in s && v < |types| && !types[v].AndKind? && v != 0 ==> Same(w, w', v)
  }

  /** Inside a closed set, the leaves determine the gates. */
  lemma {:induction false} LeavesDetermine(m: Model, types: seq<Kind>, rank: seq<nat>, s: set<nat>, w: Valuation, w': Valuation, v: nat)
    requires Typed(m, types) && Ranked(m, types, rank) && Closed(m, types, s)
    requires SliceFrame(m, s, w) && SliceFrame(m, s, w') && AgreeOnLeaves(types, s, w, w')
    requires v in s && v < |types|
    ensures Same(w, w', v)
    decreases rank[v]
  {
    if v != 0 && types[v].AndKind? {
      assert KindInRange(m, types[v], v);
      var g := m.ands[types[v].idx];
      var ls := Depends(m, types, v);
      assert ls[0] == g.rhs0 && ls[1] == g.rhs1;
      assert DependsOn(m, types, v, g.rhs0 / 2) && DependsOn(m, types, v, g.rhs1 / 2);
      if g.rhs0 / 2 != 0 {
        assert Child(m, types, v, g.rhs0 / 2);
        LeavesDetermine(m, types, rank, s, w, w', g.rhs0 / 2);
      }
      if g.rhs1 / 2 != 0 {
        assert Child(m, types, v, g.rhs1 / 2);
        LeavesDetermine(m, types, rank, s, w, w', g.rhs1 / 2);
      }
      assert GateHolds(w, g) && GateHolds(w', g);
    }
  }

  lemma FrameAgrees(m: Model, types: seq<Kind>, rank: seq<nat>, s: set<nat>, w: Valuation, w': Valuation)
    requires Typed(m, types) && Ranked(m, types, rank) && Closed(m, types, s) && forall v :: v in s ==> v < |types|
    requires SliceFrame(m, s, w) && SliceFrame(m, s, w') && AgreeOnLeaves(types, s, w, w')
    ensures AgreeOn(s, w, w')
  {
    forall v | v in s ensures Same(w, w', v) {
      LeavesDetermine(m, types, rank, s, w, w', v);
    }
  }

  /** Marked variables that are neither gates nor latches. */
  ghost predicate AgreeOnInputs(types: seq<Kind>, s: set<nat>, w: Valuation, w': Valuation) {
    forall v :: v in s && v < |types| && !types[v].AndKind? && !types[v].LatchKind? ==> Same(w, w', v)
  }

  /** Any two runs that agree on marked inputs and marked initial latches agree on the whole cone at
      every step. */
  lemma {:induction false} RunsAgree(m: Model, types: seq<Kind>, rank: seq<nat>, s: set<nat>, ws: seq<Valuation>, ws': seq<Valuation>, t: nat)
    requires Typed(m, types) && Ranked(m, types, rank) && Closed(m, types, s) && forall v :: v in s ==> v < |types|
    requires SliceRun(m, s, ws) && SliceRun(m, s, ws') && t < |ws| && t < |ws'|
    requires forall i :: 0 <= i <= t ==> AgreeOnInputs(types, s, ws[i], ws'[i])
    requires AgreeOnLeaves(types, s, ws[0], ws'[0])
    ensures AgreeOn(s, ws[t], ws'[t])
  {
    if t > 0 {
      RunsAgree(m, types, rank, s, ws, ws', t - 1);
      assert SliceStep(m, s, ws[t - 1], ws[t - 1 + 1]) && SliceStep(m, s, ws'[t - 1], ws'[t - 1 + 1]);
      forall v | v in s && v < |types| && !types[v].AndKind? && v != 0 ensures Same(ws[t], ws'[t], v) {
        if types[v].LatchKind? {
          LatchAgrees(m, types, s, ws[t - 1], ws[t], ws'[t - 1], ws'[t], v);
        } else {
          assert AgreeOnInputs(types, s, ws[t], ws'[t]);
        }
      }
    }
    FrameAgrees(m, types, rank, s, ws[t], ws'[t]);
  }

  lemma LatchAgrees(m: Model, types: seq<Kind>, s: set<nat>, u: Valuation, w: Valuation, u': Valuation, w': Valuation, v: nat)
    requires Typed(m, types) && Closed(m, types, s) && v in s && v < |types| && types[v].LatchKind?
    requires |u| == |w| == |u'| == |w'| == m.maxvar + 1
    requires SliceStep(m, s, u, w) && SliceStep(m, s, u', w') && AgreeOn(s, u, u')
    ensures Same(w, w', v)
  {
    assert KindInRange(m, types[v], v);
    var i := types[v].idx;
    assert Depends(m, types, v)[0] == m.latches[i].next;
    assert DependsOn(m, types, v, m.latches[i].next / 2);
    assert Same(u, u', m.latches[i].next / 2);
    assert m.latches[i].lit == 2 * v;
    assert LitVal(w, m.latches[i].lit) == LitVal(u, m.latches[i].next);
    assert LitVal(w', m.latches[i].lit) == LitVal(u', m.latches[i].next);
  }

  // ----- Completing a slice ---------------------------------------------------------------------------------

  /** The inputs of the slice, and latch values that continue the completed run. */
  ghost function BaseBit(m: Model, types: seq<Kind>, s: set<nat>, w: Valuation, before: seq<Valuation>, v: nat): bool
    requires Typed(m, types) && v < |types| == |w| && forall t :: 0 <= t < |before| ==> |before[t]| == |w|
  {
    match types[v]
    case LatchKind(i) =>
      if i >= |m.latches| then false
      else if |before| > 0 then LitVal(before[|before| - 1], m.latches[i].next)
      else if v in s then w[v] else m.latches[i].reset == 1
    case _ => w[v]
  }

  /** Every slice run is the part inside the cone of a run of the whole model. */
  lemma {:induction false} SliceCompletes(m: Model, types: seq<Kind>, rank: seq<nat>, s: set<nat>, ws: seq<Valuation>)
    returns (full: seq<Valuation>)
    requires Typed(m, types) && Ranked(m, types, rank) && Closed(m, types, s) && forall v :: v in s ==> v < |types|
    requires SliceRun(m, s, ws)
    ensures Run(m, full) && |full| == |ws| && forall t :: 0 <= t < |ws| ==> AgreeOn(s, ws[t], full[t])
  {
    full := [];
    for n := 0 to |ws|
      invariant |full| == n && (forall t :: 0 <= t < n ==> Consistent(m, full[t]) && AgreeOn(s, ws[t], full[t]))
      invariant n > 0 ==> Initial(m, full[0])
      invariant forall t :: 0 <= t < n - 1 ==> Step(m, full[t], full[t + 1])
    {
      var w := CompleteFrame(m, types, rank, s, ws, full, n);
      if n > 0 { assert (full + [w])[n - 1] == full[n - 1]; }
      full := full + [w];
    }
  }

  lemma {:induction false} CompleteFrame(m: Model, types: seq<Kind>, rank: seq<nat>, s: set<nat>, ws: seq<Valuation>, full: seq<Valuation>, n: nat)
    returns (w: Valuation)
    requires Typed(m, types) && Ranked(m, types, rank) && Closed(m, types, s) && forall v :: v in s ==> v < |types|
    requires SliceRun(m, s, ws) && n == |full| < |ws|
    requires forall t :: 0 <= t < n ==> Consistent(m, full[t]) && AgreeOn(s, ws[t], full[t])
    ensures Consistent(m, w) && AgreeOn(s, ws[n], w)
    ensures n == 0 ==> Initial(m, w)
    ensures n > 0 ==> |full[n - 1]| == |w| == m.maxvar + 1 && Step(m, full[n - 1], w)
  {
    assert SliceFrame(m, s, ws[n]);
    var base: Valuation := seq(|types|, v requires 0 <= v < |types| => BaseBit(m, types, s, ws[n], full, v));
    w := AcyclicConsistent(m, types, rank, base);
    forall i | 0 <= i < |m.latches|
      ensures n > 0 ==> LitVal(w, m.latches[i].lit) == LitVal(full[n - 1], m.latches[i].next)
      ensures n == 0 && m.latches[i].reset <= 1 ==> LitVal(w, m.latches[i].lit) == (m.latches[i].reset == 1)
    {
      var v := m.latches[i].lit / 2;
      assert types[v] == LatchKind(i) && w[v] == base[v];
    }
    forall v | v in s && v < |types| && !types[v].AndKind? && v != 0 ensures Same(ws[n], w, v) {
      assert w[v] == base[v];
      if types[v].LatchKind? && n > 0 {
        assert SliceStep(m, s, ws[n - 1], ws[n - 1 + 1]);
        RunStepIsSliceStep(m, s, full[n - 1], w);
        LatchAgrees(m, types, s, ws[n - 1], ws[n], full[n - 1], w, v);
      }
    }
    FrameAgrees(m, types, rank, s, ws[n], w);
  }

  lemma RunStepIsSliceStep(m: Model, s: set<nat>, w: Valuation, w': Valuation)
    requires InRange(m) && |w| == |w'| == m.maxvar + 1 && Step(m, w, w')
    ensures SliceStep(m, s, w, w')
  {}

  /** The literal can be true at step `k` of a run iff it can in the slice. */
  lemma SliceIsEnough(m: Model, types: seq<Kind>, rank: seq<nat>, s: set<nat>, l: nat, k: nat)
    requires Typed(m, types) && Ranked(m, types, rank) && Closed(m, types, s) && forall v :: v in s ==> v < |types|
    requires l / 2 in s
    ensures (exists ws :: Run(m, ws) && |ws| == k + 1 && LitVal(ws[k], l)) <==>
            (exists ws :: SliceRun(m, s, ws) && |ws| == k + 1 && LitVal(ws[k], l))
  {
    if ws :| Run(m, ws) && |ws| == k + 1 && LitVal(ws[k], l) {
      RunIsSliceRun(m, s, ws);
    }
    if ws :| SliceRun(m, s, ws) && |ws| == k + 1 && LitVal(ws[k], l) {
      var full := SliceCompletes(m, types, rank, s, ws);
      assert Same(ws[k], full[k], l / 2);
      assert Run(m, full) && LitVal(full[k], l);
    }
  }

  // ----- The marked cone --------------------------------------------------------------------------------------

  /** Two runs with the same marked inputs and marked initial latches agree on the bad literal at every step. */
  lemma ConeDecides(m: Model, types: seq<Kind>, rank: seq<nat>, coi: seq<nat>, bad: nat, ws: seq<Valuation>, ws': seq<Valuation>, t: nat)
    requires Typed(m, types) && Ranked(m, types, rank) && DependsDefined(m, types)
    requires bad / 2 < |types| && ConeMarked(m, types, coi, bad / 2)
    requires Run(m, ws) && Run(m, ws') && t < |ws| && t < |ws'|
    requires forall i :: 0 <= i <= t ==> AgreeOnInputs(types, Marked(coi), ws[i], ws'[i])
    requires AgreeOnLeaves(types, Marked(coi), ws[0], ws'[0])
    ensures bad / 2 < |ws[t]| && bad / 2 < |ws'[t]| && LitVal(ws[t], bad) == LitVal(ws'[t], bad)
  {
    MarkedIsClosed(m, types, coi, bad / 2);
    RunIsSliceRun(m, Marked(coi), ws);
    RunIsSliceRun(m, Marked(coi), ws');
    RunsAgree(m, types, rank, Marked(coi), ws, ws', t);
    assert Same(ws[t], ws'[t], bad / 2);
  }

  /** The bad literal can be true at step `k` of a run iff it can when only marked variables are constrained. */
  lemma ConeIsEnough(m: Model, types: seq<Kind>, rank: seq<nat>, coi: seq<nat>, bad: nat, k: nat)
    requires Typed(m, types) && Ranked(m, types, rank) && DependsDefined(m, types)
    requires bad / 2 < |types| && ConeMarked(m, types, coi, bad / 2)
    ensures (exists ws :: Run(m, ws) && |ws| == k + 1 && LitVal(ws[k], bad)) <==>
            (exists ws :: SliceRun(m, Marked(coi), ws) && |ws| == k + 1 && LitVal(ws[k], bad))
  {
    MarkedIsClosed(m, types, coi, bad / 2);
    SliceIsEnough(m, types, rank, Marked(coi), bad, k);
  }
}
