/** `aiger_reencode`: topological renumbering with an explicit stack. */
module Reencode {
  import opened Aiger
  import opened Graph
  import opened CycleCheck
  import opened ReencodeSpec

  // ----- The search for one literal ----------------------------------------------------------

  /** Ranks fall from every gate being expanded to everything above it. */
  ghost predicate Descends(rank: seq<nat>, stack: seq<nat>) {
    forall j, k :: Marker(stack, j) && j < k < |stack| && stack[k] != 0 ==> DescendsAt(rank, stack[j - 1], stack[k])
  }

  predicate DescendsAt(rank: seq<nat>, p: nat, c: nat) {
    p < |rank| && c < |rank| && rank[c] < rank[p]
  }

  ghost predicate GatesOnly(types: seq<Kind>, stack: seq<nat>) {
    forall k :: 0 <= k < |stack| && stack[k] != 0 ==> stack[k] < |types| && types[stack[k]].AndKind?
  }

  /** The flag is set exactly for the gates being expanded, none of which is numbered yet. */
  ghost predicate Expanding(onstack: seq<bool>, stack: seq<nat>, order: seq<nat>) {
    && (forall j :: Marker(stack, j) ==>
          stack[j - 1] < |onstack| && onstack[stack[j - 1]] && stack[j - 1] !in order)
    && (forall v :: 0 <= v < |onstack| && onstack[v] ==> exists j :: Marker(stack, j) && stack[j - 1] == v)
  }

  ghost predicate Needed(m: Model, types: seq<Kind>, root: nat, v: nat) {
    v == root || Reaches(m, types, root, v)
  }

  ghost predicate AllNeeded(m: Model, types: seq<Kind>, root: nat, vs: seq<nat>) {
    forall i :: 0 <= i < |vs| && vs[i] != 0 ==> Needed(m, types, root, vs[i])
  }

  lemma NeededChild(m: Model, types: seq<Kind>, root: nat, p: nat, c: nat)
    requires Needed(m, types, root, p) && Child(m, types, p, c)
    ensures Needed(m, types, root, c)
  {
    if p == root { ReachesChild(m, types, p, c); } else { ReachesStep(m, types, root, p, c); }
  }

  ghost predicate StackOk(m: Model, types: seq<Kind>, rank: seq<nat>, onstack: seq<bool>, stack: seq<nat>, order: seq<nat>, root: nat) {
    && |onstack| == |types| == m.maxvar + 1
    && Shape(m, stack)
    && GatesOnly(types, stack)
    && Descends(rank, stack)
    && Expanding(onstack, stack, order)
    && Pending(m, types, stack, order)
    && AllNeeded(m, types, root, stack)
  }

  /** In an acyclic graph the entry on top is never being expanded already. */
  lemma TopIsFresh(m: Model, types: seq<Kind>, rank: seq<nat>, onstack: seq<bool>, stack: seq<nat>, order: seq<nat>, root: nat)
    requires StackOk(m, types, rank, onstack, stack, order, root)
    requires |stack| > 0 && stack[|stack| - 1] != 0
    ensures !onstack[stack[|stack| - 1]]
  {
    var v := stack[|stack| - 1];
    forall j | Marker(stack, j) ensures stack[j - 1] != v {
      assert DescendsAt(rank, stack[j - 1], v);
    }
  }

  lemma StartOk(m: Model, types: seq<Kind>, rank: seq<nat>, onstack: seq<bool>, order: seq<nat>, v: nat)
    requires |onstack| == |types| == m.maxvar + 1 && 0 < v < |types| && types[v].AndKind?
    requires forall u :: 0 <= u < |onstack| ==> !onstack[u]
    ensures StackOk(m, types, rank, onstack, [v], order, v)
  {}

  lemma Skip(m: Model, types: seq<Kind>, rank: seq<nat>, onstack: seq<bool>, stack: seq<nat>, order: seq<nat>, root: nat)
    requires StackOk(m, types, rank, onstack, stack, order, root)
    requires |stack| > 0 && stack[|stack| - 1] != 0 && stack[|stack| - 1] in order
    ensures StackOk(m, types, rank, onstack, stack[..|stack| - 1], order, root)
  {
    var n := |stack| - 1;
    var rest := stack[..n];
    PrefixMarkers(stack, n);
    SkipExpanding(onstack, stack, order);
    SkipPending(m, types, stack, order);
    SkipDescends(rank, stack);
  }

  lemma SkipDescends(rank: seq<nat>, stack: seq<nat>)
    requires Descends(rank, stack) && |stack| > 0
    ensures Descends(rank, stack[..|stack| - 1])
  {
    PrefixMarkers(stack, |stack| - 1);
  }

  lemma SkipExpanding(onstack: seq<bool>, stack: seq<nat>, order: seq<nat>)
    requires Expanding(onstack, stack, order) && |stack| > 0 && stack[|stack| - 1] != 0
    ensures Expanding(onstack, stack[..|stack| - 1], order)
  {
    var rest := stack[..|stack| - 1];
    PrefixMarkers(stack, |stack| - 1);
    forall j | Marker(rest, j)
      ensures rest[j - 1] < |onstack| && onstack[rest[j - 1]] && rest[j - 1] !in order
    {
      assert Marker(stack, j);
    }
    forall v | 0 <= v < |onstack| && onstack[v] ensures exists j :: Marker(rest, j) && rest[j - 1] == v {
      var j :| Marker(stack, j) && stack[j - 1] == v;
      assert Marker(rest, j) && rest[j - 1] == v;
    }
  }

  lemma SkipPending(m: Model, types: seq<Kind>, stack: seq<nat>, order: seq<nat>)
    requires Pending(m, types, stack, order) && |stack| > 0 && stack[|stack| - 1] in order
    ensures Pending(m, types, stack[..|stack| - 1], order)
  {
    var rest := stack[..|stack| - 1];
    PrefixMarkers(stack, |stack| - 1);
    forall j: nat, c: nat | Marker(rest, j) && Child(m, types, rest[j - 1], c) && c < |types| && types[c].AndKind?
      ensures c in order || Above(rest, j, c)
    {
      assert Marker(stack, j);
      if c !in order {
        var k :| j < k < |stack| && stack[k] == c;
        assert rest[k] == c;
      }
    }
  }

  /** The operands to push: gates only, the greater variable first. */
  function GateOperands(types: seq<Kind>, onstack: seq<bool>, x: nat, y: nat): seq<nat> {
    var big, small := Greater(x, y), Smaller(x, y);
    (if Pushes(types, onstack, big) then [big] else []) + (if Pushes(types, onstack, small) then [small] else [])
  }

  predicate Pushes(types: seq<Kind>, onstack: seq<bool>, c: nat) {
    c != 0 && c < |types| && !types[c].InputKind? && !types[c].LatchKind? && c < |onstack| && !onstack[c]
  }

  lemma Open(m: Model, types: seq<Kind>, rank: seq<nat>, onstack: seq<bool>, stack: seq<nat>, order: seq<nat>, root: nat)
    requires Typed(m, types) && GatesDefined(m, types) && Ranked(m, types, rank)
    requires StackOk(m, types, rank, onstack, stack, order, root)
    requires |stack| > 0 && stack[|stack| - 1] != 0 && stack[|stack| - 1] !in order
    requires types[stack[|stack| - 1]].idx < |m.ands|
    ensures var v := stack[|stack| - 1]; var g := m.ands[types[v].idx]; var onstack' := onstack[v := true];
      StackOk(m, types, rank, onstack', stack + [0] + GateOperands(types, onstack', g.rhs0 / 2, g.rhs1 / 2), order, root)
  {
    var v := stack[|stack| - 1];
    var g, onstack' := m.ands[types[v].idx], onstack[v := true];
    var ops := GateOperands(types, onstack', g.rhs0 / 2, g.rhs1 / 2);
    forall c: nat | Child(m, types, v, c) && c < |types| && types[c].AndKind? ensures c in ops {
      ChildNotOpen(m, types, rank, onstack, stack, order, root, c);
    }
    OperandsAreGates(m, types, onstack', v);
    ExpandMarkers(stack, ops);
    ExpandShape(m, stack, ops);
    ExpandPending(m, types, stack, order, ops);
    OpenDescends(m, types, rank, stack, ops);
    OpenExpanding(onstack, stack, order, ops);
    forall i | 0 <= i < |stack + [0] + ops| && (stack + [0] + ops)[i] != 0
      ensures Needed(m, types, root, (stack + [0] + ops)[i])
    {
      if i > |stack| {
        assert (stack + [0] + ops)[i] in ops;
        NeededChild(m, types, root, v, (stack + [0] + ops)[i]);
      }
    }
  }

  lemma ChildNotOpen(m: Model, types: seq<Kind>, rank: seq<nat>, onstack: seq<bool>, stack: seq<nat>, order: seq<nat>, root: nat, c: nat)
    requires Ranked(m, types, rank) && StackOk(m, types, rank, onstack, stack, order, root)
    requires |stack| > 0 && stack[|stack| - 1] != 0
    requires Child(m, types, stack[|stack| - 1], c) && c < |types|
    ensures c != stack[|stack| - 1] && !onstack[c]
  {
    var v := stack[|stack| - 1];
    assert rank[c] < rank[v];
    forall j | Marker(stack, j) ensures stack[j - 1] != c {
      assert DescendsAt(rank, stack[j - 1], v);
    }
  }

  lemma OperandsAreGates(m: Model, types: seq<Kind>, onstack: seq<bool>, v: nat)
    requires Typed(m, types) && GatesDefined(m, types) && v < |types| && types[v].AndKind? && types[v].idx < |m.ands|
    ensures var g := m.ands[types[v].idx];
      forall c :: c in GateOperands(types, onstack, g.rhs0 / 2, g.rhs1 / 2) ==>
        c != 0 && c < |types| && types[c].AndKind? && Child(m, types, v, c)
  {
    var g := m.ands[types[v].idx];
    assert Defined(m, types, g.rhs0) && Defined(m, types, g.rhs1);
  }

  lemma OpenDescends(m: Model, types: seq<Kind>, rank: seq<nat>, stack: seq<nat>, ops: seq<nat>)
    requires Ranked(m, types, rank) && Descends(rank, stack) && |stack| > 0 && stack[|stack| - 1] != 0 && 0 !in ops
    requires stack[|stack| - 1] < |rank|
    requires forall c :: c in ops ==> c < |rank| && Child(m, types, stack[|stack| - 1], c)
    ensures Descends(rank, stack + [0] + ops)
  {
    var s, n, v := stack + [0] + ops, |stack|, stack[|stack| - 1];
    ExpandMarkers(stack, ops);
    forall j, k | Marker(s, j) && j < k < |s| && s[k] != 0 ensures DescendsAt(rank, s[j - 1], s[k]) {
      if k < n {
        assert Marker(stack, j);
        assert DescendsAt(rank, stack[j - 1], stack[k]);
      } else {
        assert s[k] in ops;
        assert rank[s[k]] < rank[v];
        if j != n { assert DescendsAt(rank, stack[j - 1], v); }
      }
    }
  }

  lemma OpenExpanding(onstack: seq<bool>, stack: seq<nat>, order: seq<nat>, ops: seq<nat>)
    requires Expanding(onstack, stack, order) && |stack| > 0 && stack[|stack| - 1] != 0 && 0 !in ops
    requires stack[|stack| - 1] < |onstack| && stack[|stack| - 1] !in order
    ensures Expanding(onstack[stack[|stack| - 1] := true], stack + [0] + ops, order)
  {
    var s, n, v := stack + [0] + ops, |stack|, stack[|stack| - 1];
    var onstack' := onstack[v := true];
    ExpandMarkers(stack, ops);
    forall j | Marker(s, j) ensures s[j - 1] < |onstack'| && onstack'[s[j - 1]] && s[j - 1] !in order {
      if j != n { assert Marker(stack, j); }
    }
    forall u | 0 <= u < |onstack'| && onstack'[u] ensures exists j :: Marker(s, j) && s[j - 1] == u {
      if u == v {
        assert Marker(s, n) && s[n - 1] == v;
      } else {
        var j :| Marker(stack, j) && stack[j - 1] == u;
        assert Marker(s, j) && s[j - 1] == u;
      }
    }
  }

  /** The gate below the marker on top gets the next number. */
  lemma Close(m: Model, types: seq<Kind>, rank: seq<nat>, onstack: seq<bool>, stack: seq<nat>, order: seq<nat>, root: nat)
    requires StackOk(m, types, rank, onstack, stack, order, root) && Finished(m, types, order)
    requires |stack| > 0 && stack[|stack| - 1] == 0
    ensures |stack| >= 2 && 1 <= stack[|stack| - 2] <= m.maxvar
    ensures var v := stack[|stack| - 2];
      && types[v].AndKind? && v !in order && Needed(m, types, root, v) && onstack[v]
      && StackOk(m, types, rank, onstack[v := false], stack[..|stack| - 2], order + [v], root)
      && Finished(m, types, order + [v])
  {
    var n := |stack|;
    assert Marker(stack, n - 1);
    PrefixMarkers(stack, n - 2);
    FinishPending(m, types, stack, order);
    FinishOrder(m, types, stack, order);
    CloseExpanding(rank, onstack, stack, order);
  }

  lemma CloseExpanding(rank: seq<nat>, onstack: seq<bool>, stack: seq<nat>, order: seq<nat>)
    requires Expanding(onstack, stack, order) && Descends(rank, stack) && |stack| >= 2 && Marker(stack, |stack| - 1)
    requires stack[|stack| - 2] < |onstack|
    ensures var v := stack[|stack| - 2]; Expanding(onstack[v := false], stack[..|stack| - 2], order + [v])
  {
    var n := |stack|;
    var v, rest := stack[n - 2], stack[..n - 2];
    var onstack' := onstack[v := false];
    PrefixMarkers(stack, n - 2);
    forall j | Marker(rest, j)
      ensures rest[j - 1] < |onstack'| && onstack'[rest[j - 1]] && rest[j - 1] !in order + [v]
    {
      assert Marker(stack, j);
      assert DescendsAt(rank, stack[j - 1], stack[n - 2]);
    }
    forall u | 0 <= u < |onstack'| && onstack'[u] ensures exists j :: Marker(rest, j) && rest[j - 1] == u {
      var j :| Marker(stack, j) && stack[j - 1] == u;
      assert Marker(rest, j) && rest[j - 1] == u;
    }
  }

  lemma CodeNext(m: Model, code: seq<nat>, order: seq<nat>, v: nat)
    requires Coded(m, code, order) && 1 <= v <= m.maxvar && v !in order
    ensures Coded(m, code[2 * v := 2 * (|order| + 1)][2 * v + 1 := 2 * (|order| + 1) + 1], order + [v])
  {
    var code' := code[2 * v := 2 * (|order| + 1)][2 * v + 1 := 2 * (|order| + 1) + 1];
    var longer := order + [v];
    forall i | 0 <= i < |longer| ensures CodedAt(m, code', longer, i) {
      if i < |order| { assert CodedAt(m, code, order, i); }
    }
  }

  // ----- What is kept ------------------------------------------------------------------------

  /** The literals that keep their cones. */
  ghost predicate IsRoot(m: Model, l: nat) {
    || (exists i :: 0 <= i < |m.latches| && (m.latches[i].next == l || m.latches[i].reset == l))
    || l in m.outputs || l in m.bad || l in m.constraints || l in m.fairness
    || (exists i :: 0 <= i < |m.justice| && l in m.justice[i])
  }

  ghost predicate InCone(m: Model, types: seq<Kind>, v: nat) {
    exists l: nat :: IsRoot(m, l) && Needed(m, types, l / 2, v)
  }

  ghost predicate ConesOnly(m: Model, types: seq<Kind>, order: seq<nat>) {
    forall i :: |m.inputs| + |m.latches| <= i < |order| ==> InCone(m, types, order[i])
  }

  ghost predicate RootsDefined(m: Model, types: seq<Kind>) {
    forall l: nat :: IsRoot(m, l) ==> Defined(m, types, l)
  }

  lemma CodedIff(m: Model, code: seq<nat>, order: seq<nat>, v: nat)
    requires Coded(m, code, order) && 1 <= v <= m.maxvar
    ensures code[2 * v] != 0 <==> v in order
    ensures code[2 * v + 1] != 0 <==> v in order
  {
    if v in order {
      var i :| 0 <= i < |order| && order[i] == v;
      assert CodedAt(m, code, order, i);
    }
  }

  /** A variable without a code that is in use is a gate. */
  lemma UncodedIsGate(m: Model, types: seq<Kind>, order: seq<nat>, l: nat)
    requires Typed(m, types) && OrderOf(m, types, order) && Defined(m, types, l) && l / 2 != 0
    ensures l / 2 in order || types[l / 2].AndKind?
  {
    var v := l / 2;
    assert KindInRange(m, types[v], v);
    match types[v] {
      case InputKind(i) => assert order[i] == v;
      case LatchKind(i) => assert order[|m.inputs| + i] == v;
      case AndKind(_) =>
      case Undefined =>
    }
  }

  lemma CodeStable(m: Model, code: seq<nat>, order: seq<nat>, code': seq<nat>, order': seq<nat>, l: nat)
    requires Coded(m, code, order) && Coded(m, code', order') && order <= order' && HasCode(m, order, l)
    ensures l < |code| && code'[l] == code[l] && HasCode(m, order', l)
  {
    if l / 2 != 0 {
      var i :| 0 <= i < |order| && order[i] == l / 2;
      assert CodedAt(m, code, order, i) && CodedAt(m, code', order', i);
      assert l == 2 * order[i] || l == 2 * order[i] + 1;
    }
  }

  lemma OrderSnoc(m: Model, types: seq<Kind>, order: seq<nat>, v: nat)
    requires OrderOf(m, types, order) && v < |types| && types[v].AndKind?
    ensures OrderOf(m, types, order + [v])
  {}

  /** The order grew by variables the root needs. */
  ghost predicate Grown(m: Model, types: seq<Kind>, root: nat, before: seq<nat>, order: seq<nat>) {
    before <= order && forall i :: |before| <= i < |order| ==> Needed(m, types, root, order[i])
  }

  lemma TouchOne(onstack: seq<bool>, order: seq<nat>, v: nat)
    requires v < |onstack| && !onstack[v] && v !in order
    ensures Untouched(onstack[v := true], order) < Untouched(onstack, order)
  {
    assert v in Untouched(onstack, order) && v !in Untouched(onstack[v := true], order);
  }

  ghost predicate LatchesTranslated(m: Model, code: seq<nat>, order: seq<nat>, latches: seq<Latch>, n: nat) {
    && |code| == 2 * (m.maxvar + 1) && |latches| == |m.latches|
    && forall i :: 0 <= i < n && i < |latches| ==>
         NewLatch(m, code, order, m.latches[i], latches[i])
  }

  ghost predicate NewLatch(m: Model, code: seq<nat>, order: seq<nat>, q: Latch, q': Latch) {
    && HasCode(m, order, q.next) && HasCode(m, order, q.reset) && q.next < |code| && q.reset < |code|
    && q' == Latch(q.lit, code[q.next], code[q.reset])
  }

  lemma LatchesStable(m: Model, code: seq<nat>, order: seq<nat>, code': seq<nat>, order': seq<nat>, latches: seq<Latch>, n: nat)
    requires Coded(m, code, order) && Coded(m, code', order') && order <= order'
    requires LatchesTranslated(m, code, order, latches, n)
    ensures LatchesTranslated(m, code', order', latches, n)
  {
    forall i | 0 <= i < n && i < |latches| ensures NewLatch(m, code', order', m.latches[i], latches[i]) {
      CodeStable(m, code, order, code', order', m.latches[i].next);
      CodeStable(m, code, order, code', order', m.latches[i].reset);
    }
  }

  lemma LatchesExtend(m: Model, code: seq<nat>, order: seq<nat>, latches: seq<Latch>, i: nat, next: nat, reset: nat)
    requires i < |m.latches| && LatchesTranslated(m, code, order, latches, i)
    requires NewLatch(m, code, order, m.latches[i], Latch(m.latches[i].lit, next, reset))
    ensures LatchesTranslated(m, code, order, latches[i := Latch(m.latches[i].lit, next, reset)], i + 1)
  {}

  lemma ListStable(m: Model, code: seq<nat>, order: seq<nat>, code': seq<nat>, order': seq<nat>, ls: seq<nat>, r: seq<nat>)
    requires Coded(m, code, order) && Coded(m, code', order') && order <= order'
    requires ListTranslated(m, code, order, ls, r)
    ensures ListTranslated(m, code', order', ls, r)
  {
    forall i | 0 <= i < |ls| ensures HasCode(m, order', ls[i]) && ls[i] < |code'| && r[i] == code'[ls[i]] {
      CodeStable(m, code, order, code', order', ls[i]);
    }
  }

  lemma ListExtend(m: Model, code: seq<nat>, order: seq<nat>, ls: seq<nat>, r: seq<nat>, i: nat, l: nat)
    requires i < |ls| && ListTranslated(m, code, order, ls[..i], r)
    requires HasCode(m, order, ls[i]) && ls[i] < |code| && l == code[ls[i]]
    ensures ListTranslated(m, code, order, ls[..i + 1], r + [l])
  {}

  /** The variables that are neither numbered nor being expanded. */
  ghost function Untouched(onstack: seq<bool>, order: seq<nat>): set<nat> {
    set v: nat | v < |onstack| && !onstack[v] && v !in order
  }

  // ----- The tool ---------------------------------------------------------------------------

  /** The variable of the next input is not in the order yet. */
  lemma FreshInput(m: Model, types: seq<Kind>, order: seq<nat>, i: nat)
    requires Typed(m, types) && i == |order| < |m.inputs|
    requires forall j :: 0 <= j < i ==> order[j] == m.inputs[j] / 2
    ensures 1 <= m.inputs[i] / 2 <= m.maxvar && m.inputs[i] / 2 !in order
  {
    assert types[m.inputs[i] / 2] == InputKind(i);
    forall j | 0 <= j < i ensures order[j] != m.inputs[i] / 2 { assert types[m.inputs[j] / 2] == InputKind(j); }
  }

  /** Nor is the variable of the next latch. */
  lemma FreshLatch(m: Model, types: seq<Kind>, order: seq<nat>, i: nat)
    requires Typed(m, types) && i < |m.latches| && |order| == |m.inputs| + i
    requires forall j :: 0 <= j < |m.inputs| ==> order[j] == m.inputs[j] / 2
    requires forall j :: 0 <= j < i ==> order[|m.inputs| + j] == m.latches[j].lit / 2
    ensures 1 <= m.latches[i].lit / 2 <= m.maxvar && m.latches[i].lit / 2 !in order
  {
    var v := m.latches[i].lit / 2;
    assert types[v] == LatchKind(i);
    forall j | 0 <= j < |order| ensures order[j] != v {
      if j < |m.inputs| {
        assert types[m.inputs[j] / 2] == InputKind(j);
      } else {
        assert order[|m.inputs| + (j - |m.inputs|)] == m.latches[j - |m.inputs|].lit / 2;
        assert types[m.latches[j - |m.inputs|].lit / 2] == LatchKind(j - |m.inputs|);
      }
    }
  }

  class Reencoder {
    const m: Model
    const types: seq<Kind>
    ghost const rank: seq<nat>
    const code: array<nat>
    const onstack: array<bool>
    var next: nat
    ghost var order: seq<nat>

    ghost predicate Valid()
      reads this, code, onstack
    {
      && Typed(m, types) && GatesDefined(m, types) && Ranked(m, types, rank)
      && code.Length == 2 * (m.maxvar + 1) && onstack.Length == m.maxvar + 1
      && Coded(m, code[..], order) && next == 2 * (|order| + 1)
      && OrderOf(m, types, order) && Finished(m, types, order)
    }

    ghost predicate Idle()
      reads onstack
    {
      forall v :: 0 <= v < onstack.Length ==> !onstack[v]
    }

    /** Numbers inputs and latches first. */
    constructor (m: Model, types: seq<Kind>, ghost rank: seq<nat>)
      requires Typed(m, types) && GatesDefined(m, types) && Ranked(m, types, rank)
      ensures this.m == m && this.types == types && this.rank == rank && Valid() && Idle()
      ensures fresh(code) && fresh(onstack) && |order| == |m.inputs| + |m.latches|
    {
      this.m, this.types, this.rank := m, types, rank;
      code := new nat[2 * (m.maxvar + 1)](i => if i == 1 then 1 else 0);
      onstack := new bool[m.maxvar + 1](_ => false);
      next, order := 2, [];
      new;
      NumberLeaves();
    }

    /** Numbers the inputs, then the latches. */
    method NumberLeaves()
      requires Typed(m, types) && GatesDefined(m, types) && Ranked(m, types, rank)
      requires code.Length == 2 * (m.maxvar + 1) && onstack.Length == m.maxvar + 1 && Idle()
      requires Coded(m, code[..], order) && next == 2 && order == []
      modifies code, `next, `order
      ensures Valid() && Idle() && |order| == |m.inputs| + |m.latches|
    {
      hide Typed, Ranked, GatesDefined, Coded, Finished;
      for i := 0 to |m.inputs|
        invariant Coded(m, code[..], order) && next == 2 * (|order| + 1) && |order| == i
        invariant forall j :: 0 <= j < i ==> order[j] == m.inputs[j] / 2
      {
        FreshInput(m, types, order, i);
        NewCode(m.inputs[i] / 2);
      }
      for i := 0 to |m.latches|
        invariant Coded(m, code[..], order) && next == 2 * (|order| + 1) && |order| == |m.inputs| + i
        invariant forall j :: 0 <= j < |m.inputs| ==> order[j] == m.inputs[j] / 2
        invariant forall j :: 0 <= j < i ==> order[|m.inputs| + j] == m.latches[j].lit / 2
      {
        FreshLatch(m, types, order, i);
        NewCode(m.latches[i].lit / 2);
      }
      CodedDistinct(m, code[..], order);
      LeavesFinished(m, types, order);
    }

    method NewCode(v: nat)
      requires code.Length == 2 * (m.maxvar + 1)
      requires Coded(m, code[..], order) && next == 2 * (|order| + 1) && 1 <= v <= m.maxvar && v !in order
      modifies code, `next, `order
      ensures Coded(m, code[..], order) && next == 2 * (|order| + 1) && order == old(order) + [v]
    {
      CodeNext(m, code[..], order, v);
      ghost var before: seq<nat> := code[..];
      code[2 * v] := next;
      code[2 * v + 1] := next + 1;
      assert code[..] == before[2 * v := 2 * (|order| + 1)][2 * v + 1 := 2 * (|order| + 1) + 1];
      next := next + 2;
      order := order + [v];
    }

    /** The new literal for `lit`, after numbering the gates of its cone in topological order. */
    method ReencodeLit(lit: nat) returns (res: nat)
      requires Valid() && Idle() && Defined(m, types, lit)
      modifies code, onstack, `next, `order
      ensures Valid() && Idle()
      ensures Grown(m, types, lit / 2, old(order), order)
      ensures HasCode(m, order, lit) && lit < code.Length && res == code[lit]
    {
      if lit < 2 { return lit; }
      var v := lit / 2;
      assert lit == 2 * v || lit == 2 * v + 1;
      CodedIff(m, code[..], order, v);
      res := code[lit];
      if res != 0 { return; }
      UncodedIsGate(m, types, order, lit);
      Search(v);
      CodedIff(m, code[..], order, v);
      res := code[lit];
    }

    /** Numbers the gates below `v`, and `v` itself. */
    method Search(v: nat)
      requires Valid() && Idle() && 0 < v <= m.maxvar && types[v].AndKind?
      modifies code, onstack, `next, `order
      ensures Valid() && Idle() && v in order
      ensures Grown(m, types, v, old(order), order)
    {
      var stack: seq<nat> := [v];
      StartOk(m, types, rank, onstack[..], order, v);
      while |stack| > 0
        invariant Valid() && StackOk(m, types, rank, onstack[..], stack, order, v)
        invariant Grown(m, types, v, old(order), order)
        invariant v in order || (|stack| > 0 && stack[0] == v)
        decreases Untouched(onstack[..], order), |stack|
      {
        stack := SearchStep(stack, v);
      }
      assert forall u :: 0 <= u < onstack.Length ==> !onstack[..][u];
    }

    method SearchStep(stack: seq<nat>, ghost root: nat) returns (stack': seq<nat>)
      requires Valid() && StackOk(m, types, rank, onstack[..], stack, order, root)
      requires |stack| > 0
      modifies code, onstack, `next, `order
      ensures Valid() && StackOk(m, types, rank, onstack[..], stack', order, root)
      ensures Grown(m, types, root, old(order), order)
      ensures stack[0] in order || (|stack'| > 0 && stack'[0] == stack[0])
      ensures
        var was, now := old(Untouched(onstack[..], order)), Untouched(onstack[..], order);
        now < was || (now == was && |stack'| < |stack|)
    {
      var top := stack[|stack| - 1];
      if top != 0 {
        CodedIff(m, code[..], order, top);
        TopIsFresh(m, types, rank, onstack[..], stack, order, root);
        if code[2 * top] != 0 || onstack[top] {
          Skip(m, types, rank, onstack[..], stack, order, root);
          stack' := stack[..|stack| - 1];
        } else {
          stack' := Expand(stack, root);
        }
      } else {
        stack' := Number(stack, root);
      }
    }

    /** The variable on top becomes marked and its operand gates are put above it. */
    method Expand(stack: seq<nat>, ghost root: nat) returns (stack': seq<nat>)
      requires Valid() && StackOk(m, types, rank, onstack[..], stack, order, root)
      requires |stack| > 0 && stack[|stack| - 1] != 0 && stack[|stack| - 1] !in order && !onstack[stack[|stack| - 1]]
      modifies onstack
      ensures Valid() && StackOk(m, types, rank, onstack[..], stack', order, root)
      ensures stack <= stack'
      ensures Untouched(onstack[..], order) < old(Untouched(onstack[..], order))
    {
      var v := stack[|stack| - 1];
      assert KindInRange(m, types[v], v);
      Open(m, types, rank, onstack[..], stack, order, root);
      TouchOne(onstack[..], order, v);
      ghost var before: seq<bool> := onstack[..];
      onstack[v] := true;
      assert onstack[..] == before[v := true];
      var g := m.ands[types[v].idx];
      assert Defined(m, types, g.rhs0) && Defined(m, types, g.rhs1);
      stack' := PushOperands(stack + [0], g.rhs0 / 2, g.rhs1 / 2);
    }

    method PushOperands(stack: seq<nat>, x: nat, y: nat) returns (stack': seq<nat>)
      requires x < |types| == onstack.Length && y < |types|
      ensures stack' == stack + GateOperands(types, onstack[..], x, y)
    {
      var child0, child1 := x, y;
      if child0 < child1 { child0, child1 := child1, child0; }
      stack' := stack;
      if child0 != 0 {
        if !types[child0].InputKind? && !types[child0].LatchKind? && !onstack[child0] {
          stack' := stack' + [child0];
        }
      }
      if child1 != 0 {
        if !types[child1].InputKind? && !types[child1].LatchKind? && !onstack[child1] {
          stack' := stack' + [child1];
        }
      }
    }

    /** The marker on top and its variable are popped; the variable gets the next number. */
    method Number(stack: seq<nat>, ghost root: nat) returns (stack': seq<nat>)
      requires Valid() && StackOk(m, types, rank, onstack[..], stack, order, root)
      requires |stack| > 0 && stack[|stack| - 1] == 0
      modifies code, onstack, `next, `order
      ensures Valid() && StackOk(m, types, rank, onstack[..], stack', order, root)
      ensures |stack| >= 2 && stack' == stack[..|stack| - 2]
      ensures order == old(order) + [stack[|stack| - 2]] && Needed(m, types, root, stack[|stack| - 2])
      ensures Untouched(onstack[..], order) == old(Untouched(onstack[..], order))
    {
      Close(m, types, rank, onstack[..], stack, order, root);
      var v := stack[|stack| - 2];
      OrderSnoc(m, types, order, v);
      ghost var before: seq<bool> := onstack[..];
      onstack[v] := false;
      assert onstack[..] == before[v := false];
      NewCode(v);
      assert onstack[..] == before[v := false];
      stack' := stack[..|stack| - 2];
    }

    /** Nothing is being searched, and only gates of cones were numbered. */
    ghost predicate Working()
      reads this, code, onstack
    {
      Valid() && Idle() && ConesOnly(m, types, order)
    }

    method ReencodeRoot(lit: nat) returns (res: nat)
      requires Working() && Defined(m, types, lit) && IsRoot(m, lit)
      modifies code, onstack, `next, `order
      ensures Working() && old(order) <= order
      ensures HasCode(m, order, lit) && lit < code.Length && res == code[lit]
    {
      res := ReencodeLit(lit);
    }

    method ReencodeLatches() returns (latches: seq<Latch>)
      requires Working() && RootsDefined(m, types)
      modifies code, onstack, `next, `order
      ensures Working() && old(order) <= order
      ensures LatchesTranslated(m, code[..], order, latches, |m.latches|)
    {
      latches := m.latches;
      for i := 0 to |m.latches|
        invariant Working() && old(order) <= order
        invariant |latches| == |m.latches| && forall j :: i <= j < |latches| ==> latches[j] == m.latches[j]
        invariant LatchesTranslated(m, code[..], order, latches, i)
      {
        var q := m.latches[i];
        assert IsRoot(m, q.next) && IsRoot(m, q.reset);
        ghost var code0: seq<nat>, order0 := code[..], order;
        var next := ReencodeRoot(q.next);
        ghost var code1: seq<nat>, order1 := code[..], order;
        var reset := ReencodeRoot(q.reset);
        CodeStable(m, code1, order1, code[..], order, q.next);
        LatchesStable(m, code0, order0, code[..], order, latches, i);
        LatchesExtend(m, code[..], order, latches, i, next, reset);
        latches := latches[i := q.(next := next, reset := reset)];
      }
    }

    method ReencodeList(ls: seq<nat>) returns (r: seq<nat>)
      requires Working() && forall i :: 0 <= i < |ls| ==> Defined(m, types, ls[i]) && IsRoot(m, ls[i])
      modifies code, onstack, `next, `order
      ensures Working() && old(order) <= order
      ensures ListTranslated(m, code[..], order, ls, r)
    {
      r := [];
      for i := 0 to |ls|
        invariant Working() && old(order) <= order
        invariant ListTranslated(m, code[..], order, ls[..i], r)
      {
        ghost var code0: seq<nat>, order0 := code[..], order;
        var l := ReencodeRoot(ls[i]);
        ListStable(m, code0, order0, code[..], order, ls[..i], r);
        ListExtend(m, code[..], order, ls, r, i, l);
        r := r + [l];
      }
      assert ls[..|ls|] == ls;
    }

    /** All property lists, one after the other. */
    method ReencodeLists(lists: seq<seq<nat>>) returns (r: seq<seq<nat>>)
      requires Working() && RootsDefined(m, types)
      requires forall k, i :: 0 <= k < |lists| && 0 <= i < |lists[k]| ==> IsRoot(m, lists[k][i])
      modifies code, onstack, `next, `order
      ensures Working() && old(order) <= order
      ensures |r| == |lists| && forall k :: 0 <= k < |lists| ==> ListTranslated(m, code[..], order, lists[k], r[k])
    {
      r := [];
      for i := 0 to |lists|
        invariant Working() && old(order) <= order
        invariant |r| == i && forall k :: 0 <= k < i ==> ListTranslated(m, code[..], order, lists[k], r[k])
      {
        ghost var code0: seq<nat>, order0 := code[..], order;
        var ls := ReencodeList(lists[i]);
        forall k | 0 <= k < i ensures ListTranslated(m, code[..], order, lists[k], r[k]) {
          ListStable(m, code0, order0, code[..], order, lists[k], r[k]);
        }
        r := r + [ls];
      }
    }
  }

  lemma CodedDistinct(m: Model, code: seq<nat>, order: seq<nat>)
    requires Coded(m, code, order)
    ensures forall i, j :: 0 <= i < j < |order| ==> order[i] != order[j]
  {}

  lemma LeavesFinished(m: Model, types: seq<Kind>, order: seq<nat>)
    requires Typed(m, types) && OrderOf(m, types, order) && |order| == |m.inputs| + |m.latches|
    requires forall i, j :: 0 <= i < j < |order| ==> order[i] != order[j]
    ensures Finished(m, types, order)
  {
    forall i: nat, c: nat | i < |order| ensures !Child(m, types, order[i], c) {
      if i < |m.inputs| {
        assert types[m.inputs[i] / 2] == InputKind(i);
      } else {
        assert order[|m.inputs| + (i - |m.inputs|)] == m.latches[i - |m.inputs|].lit / 2;
        assert types[m.latches[i - |m.inputs|].lit / 2] == LatchKind(i - |m.inputs|);
      }
    }
  }
}
