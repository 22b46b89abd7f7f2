/** The whole of `aiger_reencode`: the test for already ordered models, the renumbering of every
    literal, and the compaction and sorting of the gates. */
module ReencodeTool {
  import opened Aiger
  import opened Graph
  import opened CycleCheck
  import opened ReencodeSpec
  import opened Reencode

  // ----- Already ordered models --------------------------------------------------------------

  /** What `aiger_is_reencoded` looks at. */
  ghost predicate Ordered(m: Model) {
    && (forall i :: 0 <= i < |m.inputs| ==> m.inputs[i] == 2 * (1 + i))
    && (forall i :: 0 <= i < |m.latches| ==> m.latches[i].lit == 2 * (FirstLatch(m) + i))
    && (forall i :: 0 <= i < |m.ands| ==> OrderedGate(m, i))
  }

  predicate OrderedGate(m: Model, i: nat)
    requires i < |m.ands|
  {
    m.ands[i].lhs == 2 * (FirstAnd(m) + i) && m.ands[i].lhs >= m.ands[i].rhs0 >= m.ands[i].rhs1
  }

  method MaxInputOrLatch(m: Model) returns (res: nat)
    ensures forall i :: 0 <= i < |m.inputs| ==> m.inputs[i] <= res
    ensures forall i :: 0 <= i < |m.latches| ==> m.latches[i].lit <= res
    ensures res == 0 || res in m.inputs || exists i :: 0 <= i < |m.latches| && m.latches[i].lit == res
  {
    res := 0;
    for i := 0 to |m.inputs|
      invariant forall j :: 0 <= j < i ==> m.inputs[j] <= res
      invariant res == 0 || res in m.inputs
    {
      if m.inputs[i] > res { res := m.inputs[i]; }
    }
    for i := 0 to |m.latches|
      invariant forall j :: 0 <= j < |m.inputs| ==> m.inputs[j] <= res
      invariant forall j :: 0 <= j < i ==> m.latches[j].lit <= res
      invariant res == 0 || res in m.inputs || exists j :: 0 <= j < |m.latches| && m.latches[j].lit == res
    {
      if m.latches[i].lit > res { res := m.latches[i].lit; }
    }
  }

  method IsReencoded(m: Model) returns (b: bool)
    ensures b <==> Ordered(m)
  {
    var max := 0;
    for i := 0 to |m.inputs|
      invariant max == 2 * i && forall j :: 0 <= j < i ==> m.inputs[j] == 2 * (1 + j)
    {
      max := max + 2;
      if max != m.inputs[i] { return false; }
    }
    for i := 0 to |m.latches|
      invariant max == 2 * (|m.inputs| + i)
      invariant forall j :: 0 <= j < i ==> m.latches[j].lit == 2 * (FirstLatch(m) + j)
    {
      max := max + 2;
      if max != m.latches[i].lit { return false; }
    }
    var lhs := MaxInputOrLatch(m);
    assert |m.latches| > 0 ==> m.latches[|m.latches| - 1].lit == max;
    assert |m.latches| == 0 && |m.inputs| > 0 ==> m.inputs[|m.inputs| - 1] == max;
    lhs := lhs + 2;
    for i := 0 to |m.ands|
      invariant lhs == 2 * (FirstAnd(m) + i)
      invariant forall j :: 0 <= j < i ==> OrderedGate(m, j)
    {
      var g := m.ands[i];
      if g.lhs <= max || g.lhs != lhs || g.lhs < g.rhs0 || g.rhs0 < g.rhs1 {
        assert !OrderedGate(m, i);
        return false;
      }
      lhs := lhs + 2;
    }
    return true;
  }

  lemma GateAboveOperands(m: Model, types: seq<Kind>, rank: seq<nat>, i: nat)
    requires Typed(m, types) && Ranked(m, types, rank) && i < |m.ands| && OrderedGate(m, i)
    ensures m.ands[i].lhs > m.ands[i].rhs0
  {
    var v := m.ands[i].lhs / 2;
    assert types[v] == AndKind(i);
    if m.ands[i].rhs0 / 2 == v {
      assert Child(m, types, v, v);
    }
  }

  lemma OrderedFits(m: Model)
    requires InRange(m) && Ordered(m)
    ensures NumVars(m) <= m.maxvar + 1
  {
    if |m.ands| > 0 {
      assert OrderedGate(m, |m.ands| - 1);
    } else if |m.latches| > 0 {
      assert m.latches[|m.latches| - 1].lit == 2 * (FirstLatch(m) + |m.latches| - 1);
    } else if |m.inputs| > 0 {
      assert m.inputs[|m.inputs| - 1] == 2 * (1 + |m.inputs| - 1);
    }
  }

  /** The test admits an AND that is its own operand; without cycles it is the real thing. */
  lemma OrderedIsReencoded(m: Model, types: seq<Kind>, rank: seq<nat>)
    requires Typed(m, types) && RootsDefined(m, types) && Ranked(m, types, rank)
    requires Ordered(m)
    ensures Reencoded(m)
  {
    forall i | 0 <= i < |m.ands|
      ensures m.ands[i].lhs == 2 * (FirstAnd(m) + i) && m.ands[i].lhs > m.ands[i].rhs0 >= m.ands[i].rhs1
    {
      assert OrderedGate(m, i);
      GateAboveOperands(m, types, rank, i);
    }
    OrderedFits(m);
    RootsBelow(m, types);
  }

  /** Between the test and the invariant there is nothing but such a gate. */
  lemma OrderedExactly(m: Model, types: seq<Kind>)
    requires Typed(m, types) && RootsDefined(m, types)
    ensures Reencoded(m) <==> Ordered(m) && forall i :: 0 <= i < |m.ands| ==> m.ands[i].rhs0 != m.ands[i].lhs
  {
    if Ordered(m) && forall i :: 0 <= i < |m.ands| ==> m.ands[i].rhs0 != m.ands[i].lhs {
      forall i | 0 <= i < |m.ands|
        ensures m.ands[i].lhs == 2 * (FirstAnd(m) + i) && m.ands[i].lhs > m.ands[i].rhs0 >= m.ands[i].rhs1
      {
        assert OrderedGate(m, i);
      }
      OrderedFits(m);
      RootsBelow(m, types);
    }
  }

  lemma SelfOperandPasses()
    ensures var m := Model(1, [], [], [Gate(2, 2, 2)], [], [], [], [], []); Ordered(m) && !Reencoded(m)
  {
    var m := Model(1, [], [], [Gate(2, 2, 2)], [], [], [], [], []);
    assert OrderedGate(m, 0);
    assert !(m.ands[0].lhs > m.ands[0].rhs0);
  }

  lemma DefinedBelow(m: Model, types: seq<Kind>, l: nat)
    requires Typed(m, types) && Ordered(m) && Defined(m, types, l)
    ensures l / 2 < NumVars(m)
  {
    var v := l / 2;
    assert KindInRange(m, types[v], v);
    match types[v] {
      case AndKind(i) => assert OrderedGate(m, i);
      case _ =>
    }
  }

  lemma RootsBelow(m: Model, types: seq<Kind>)
    requires Typed(m, types) && Ordered(m) && RootsDefined(m, types)
    ensures PropertiesBelow(m, NumVars(m))
    ensures forall i :: 0 <= i < |m.latches| ==> m.latches[i].next / 2 < NumVars(m) && m.latches[i].reset / 2 < NumVars(m)
  {
    forall l: nat | IsRoot(m, l) ensures l / 2 < NumVars(m) {
      DefinedBelow(m, types, l);
    }
    forall i | 0 <= i < |m.latches| ensures m.latches[i].next / 2 < NumVars(m) && m.latches[i].reset / 2 < NumVars(m) {
      assert IsRoot(m, m.latches[i].next) && IsRoot(m, m.latches[i].reset);
    }
    forall i | 0 <= i < |m.outputs| ensures m.outputs[i] / 2 < NumVars(m) { assert IsRoot(m, m.outputs[i]); }
    forall i | 0 <= i < |m.bad| ensures m.bad[i] / 2 < NumVars(m) { assert IsRoot(m, m.bad[i]); }
    forall i | 0 <= i < |m.constraints| ensures m.constraints[i] / 2 < NumVars(m) { assert IsRoot(m, m.constraints[i]); }
    forall i | 0 <= i < |m.fairness| ensures m.fairness[i] / 2 < NumVars(m) { assert IsRoot(m, m.fairness[i]); }
    forall k | 0 <= k < |m.justice| ensures AllBelow(m.justice[k], NumVars(m)) {
      forall i | 0 <= i < |m.justice[k]| ensures m.justice[k][i] / 2 < NumVars(m) { assert IsRoot(m, m.justice[k][i]); }
    }
  }

  // ----- Cones --------------------------------------------------------------------------------

  lemma {:induction false} WalkNumbered(m: Model, types: seq<Kind>, order: seq<nat>, path: seq<nat>)
    requires Typed(m, types) && Finished(m, types, order)
    requires |path| > 0 && Walk(m, types, path) && path[0] in order
    requires path[|path| - 1] < |types| && types[path[|path| - 1]].AndKind?
    ensures path[|path| - 1] in order
    decreases |path|
  {
    if |path| > 1 {
      assert Child(m, types, path[0], path[1]);
      if |path| > 2 { assert Child(m, types, path[1], path[2]); }
      var i :| 0 <= i < |order| && order[i] == path[0];
      assert path[1] in order[..i];
      var rest := path[1..];
      forall j | 0 <= j < |rest| - 1 ensures Child(m, types, rest[j], rest[j + 1]) {
        assert Child(m, types, path[j + 1], path[j + 2]);
      }
      WalkNumbered(m, types, order, rest);
    }
  }

  lemma LeavesFirst(m: Model, types: seq<Kind>, order: seq<nat>, i: nat)
    requires Typed(m, types) && OrderOf(m, types, order) && i < |order| && order[i] < |types|
    ensures i < |m.inputs| + |m.latches| <==> !types[order[i]].AndKind?
  {
    if i < |m.inputs| {
      assert types[m.inputs[i] / 2] == InputKind(i);
    } else if i < |m.inputs| + |m.latches| {
      assert order[|m.inputs| + (i - |m.inputs|)] == m.latches[i - |m.inputs|].lit / 2;
      assert types[m.latches[i - |m.inputs|].lit / 2] == LatchKind(i - |m.inputs|);
    }
  }

  /** When every root is numbered, exactly the gates of cones are. */
  lemma ExactCones(m: Model, types: seq<Kind>, order: seq<nat>)
    requires Typed(m, types) && OrderOf(m, types, order) && Finished(m, types, order) && ConesOnly(m, types, order)
    requires forall l: nat :: IsRoot(m, l) ==> HasCode(m, order, l)
    ensures ExactlyCones(m, types, order)
  {
    forall v: nat | v < |types| && types[v].AndKind? ensures v in order <==> InCone(m, types, v) {
      if v in order {
        var i :| 0 <= i < |order| && order[i] == v;
        LeavesFirst(m, types, order, i);
      }
      if InCone(m, types, v) {
        var l: nat :| IsRoot(m, l) && Needed(m, types, l / 2, v);
        RootReaches(m, types, order, l, v);
      }
    }
  }

  lemma RootReaches(m: Model, types: seq<Kind>, order: seq<nat>, l: nat, v: nat)
    requires Typed(m, types) && Finished(m, types, order) && HasCode(m, order, l) && Needed(m, types, l / 2, v)
    requires v < |types| && types[v].AndKind?
    ensures v in order
  {
    if v != l / 2 {
      var path :| |path| >= 2 && Walk(m, types, path) && path[0] == l / 2 && path[|path| - 1] == v;
      assert Child(m, types, path[0], path[1]);
      WalkNumbered(m, types, order, path);
    }
  }

  ghost predicate ExactlyCones(m: Model, types: seq<Kind>, order: seq<nat>) {
    forall v: nat :: v < |types| && types[v].AndKind? ==> (v in order <==> InCone(m, types, v))
  }

  // ----- Compaction and sorting ---------------------------------------------------------------

  ghost predicate Tabled(m: Model, code: seq<nat>) {
    InRange(m) && |code| == 2 * (m.maxvar + 1)
  }

  function NewGate(m: Model, code: seq<nat>, j: nat): Gate
    requires j < |m.ands| && Tabled(m, code)
  {
    Translate(code, m.ands[j])
  }

  ghost predicate Comes(m: Model, code: seq<nat>, g: Gate, j: nat, n: nat)
    requires Tabled(m, code) && n <= |m.ands|
  {
    j < n && code[m.ands[j].lhs] != 0 && g == NewGate(m, code, j)
  }

  ghost predicate ComesFrom(m: Model, code: seq<nat>, g: Gate, n: nat)
    requires Tabled(m, code) && n <= |m.ands|
  {
    exists j: nat :: Comes(m, code, g, j, n)
  }

  /** `gs` holds exactly the coded gates among the first `n`, renumbered. */
  ghost predicate Collected(m: Model, code: seq<nat>, gs: seq<Gate>, n: nat)
    requires Tabled(m, code) && n <= |m.ands|
  {
    && (forall k :: 0 <= k < |gs| ==> ComesFrom(m, code, gs[k], n))
    && (forall j :: 0 <= j < n && code[m.ands[j].lhs] != 0 ==> NewGate(m, code, j) in gs)
  }

  /** Left sides are coded injectively, and never to the constant. */
  ghost predicate DistinctCodes(m: Model, code: seq<nat>)
    requires Tabled(m, code)
  {
    forall i, j :: 0 <= i < j < |m.ands| && code[m.ands[i].lhs] != 0 ==> code[m.ands[i].lhs] != code[m.ands[j].lhs]
  }

  ghost predicate DistinctLhs(gs: seq<Gate>) {
    forall i, j :: 0 <= i < j < |gs| ==> gs[i].lhs != gs[j].lhs
  }

  lemma ComesLater(m: Model, code: seq<nat>, g: Gate, n: nat)
    requires Tabled(m, code) && n < |m.ands| && ComesFrom(m, code, g, n)
    ensures ComesFrom(m, code, g, n + 1)
  {
    var j: nat :| Comes(m, code, g, j, n);
    assert Comes(m, code, g, j, n + 1);
  }

  lemma DropOne(m: Model, code: seq<nat>, gs: seq<Gate>, n: nat)
    requires Tabled(m, code) && n < |m.ands| && Collected(m, code, gs, n) && code[m.ands[n].lhs] == 0
    ensures Collected(m, code, gs, n + 1)
  {
    forall k | 0 <= k < |gs| ensures ComesFrom(m, code, gs[k], n + 1) {
      ComesLater(m, code, gs[k], n);
    }
  }

  lemma CollectOne(m: Model, code: seq<nat>, gs: seq<Gate>, n: nat)
    requires Tabled(m, code) && n < |m.ands| && DistinctCodes(m, code)
    requires Collected(m, code, gs, n) && DistinctLhs(gs) && code[m.ands[n].lhs] != 0
    ensures Collected(m, code, gs + [NewGate(m, code, n)], n + 1)
    ensures DistinctLhs(gs + [NewGate(m, code, n)])
  {
    var g := NewGate(m, code, n);
    var more := gs + [g];
    forall k | 0 <= k < |more| ensures ComesFrom(m, code, more[k], n + 1) {
      if k < |gs| {
        ComesLater(m, code, gs[k], n);
      } else {
        assert Comes(m, code, more[k], n, n + 1);
      }
    }
    forall j | 0 <= j < n + 1 && code[m.ands[j].lhs] != 0 ensures NewGate(m, code, j) in more {
      if j < n { assert NewGate(m, code, j) in gs; }
    }
    forall k | 0 <= k < |gs| ensures gs[k].lhs != g.lhs {
      assert ComesFrom(m, code, gs[k], n);
    }
  }

  /** The gates without a code are dropped; the others are renumbered in place. */
  method Compact(m: Model, code: array<nat>) returns (ands: seq<Gate>)
    requires Tabled(m, code[..]) && DistinctCodes(m, code[..])
    ensures Collected(m, code[..], ands, |m.ands|) && DistinctLhs(ands)
  {
    ands := m.ands;
    var j := 0;
    for i := 0 to |m.ands|
      invariant j <= i && |ands| == |m.ands| && ands[i..] == m.ands[i..]
      invariant Collected(m, code[..], ands[..j], i) && DistinctLhs(ands[..j])
    {
      var g := ands[i];
      assert g == m.ands[i] by { assert ands[i..][0] == m.ands[i..][0]; }
      var lhs := code[g.lhs];
      if lhs == 0 {
        DropOne(m, code[..], ands[..j], i);
      } else {
        CollectOne(m, code[..], ands[..j], i);
        var rhs0, rhs1 := code[g.rhs0], code[g.rhs1];
        if rhs0 < rhs1 { rhs0, rhs1 := rhs1, rhs0; }
        var g' := Gate(lhs, rhs0, rhs1);
        assert g' == NewGate(m, code[..], i);
        ghost var before := ands;
        ands := ands[j := g'];
        assert ands[..j + 1] == before[..j] + [g'];
        j := j + 1;
      }
    }
    ands := ands[..j];
  }

  ghost predicate Sorted(gs: seq<Gate>) {
    forall i, j :: 0 <= i < j < |gs| ==> gs[i].lhs < gs[j].lhs
  }

  ghost predicate SameGates(gs: seq<Gate>, hs: seq<Gate>) {
    forall g :: g in gs <==> g in hs
  }

  /** Insertion sort by left side, for the library's `qsort`. */
  method SortByLhs(gs: seq<Gate>) returns (r: seq<Gate>)
    requires DistinctLhs(gs)
    ensures Sorted(r) && SameGates(r, gs)
  {
    r := [];
    for i := 0 to |gs|
      invariant Sorted(r) && SameGates(r, gs[..i])
    {
      forall k | 0 <= k < |r| ensures r[k].lhs != gs[i].lhs {
        assert r[k] in gs[..i];
      }
      r := Insert(r, gs[i]);
      assert gs[..i + 1] == gs[..i] + [gs[i]];
    }
    assert gs[..|gs|] == gs;
  }

  method Insert(s: seq<Gate>, g: Gate) returns (r: seq<Gate>)
    requires Sorted(s) && forall k :: 0 <= k < |s| ==> s[k].lhs != g.lhs
    ensures Sorted(r) && forall h :: h in r <==> h in s || h == g
  {
    var k := 0;
    while k < |s| && s[k].lhs < g.lhs
      invariant 0 <= k <= |s| && forall i :: 0 <= i < k ==> s[i].lhs < g.lhs
    {
      k := k + 1;
    }
    r := s[..k] + [g] + s[k..];
    assert s == s[..k] + s[k..];
  }

  method CompactAndSort(m: Model, code: array<nat>) returns (ands: seq<Gate>)
    requires Tabled(m, code[..]) && DistinctCodes(m, code[..])
    ensures Collected(m, code[..], ands, |m.ands|) && Sorted(ands)
  {
    var compacted := Compact(m, code);
    ands := SortByLhs(compacted);
    forall k | 0 <= k < |ands| ensures ComesFrom(m, code[..], ands[k], |m.ands|) {
      assert ands[k] in compacted;
    }
  }

  lemma {:induction false} Climbs(s: seq<nat>, a: nat, i: nat)
    requires forall i, j :: 0 <= i < j < |s| ==> s[i] < s[j]
    requires i < |s| && a <= s[0]
    ensures a + i <= s[i]
  {
    if i > 0 { Climbs(s, a, i - 1); }
  }

  /** An increasing sequence that covers an interval lists it. */
  lemma {:induction false} ListsInterval(s: seq<nat>, a: nat, n: nat, k: nat)
    requires forall i, j :: 0 <= i < j < |s| ==> s[i] < s[j]
    requires forall i :: 0 <= i < |s| ==> a <= s[i] < a + n
    requires forall x :: a <= x < a + n ==> x in s
    requires k <= n
    ensures k <= |s| && forall i :: 0 <= i < k ==> s[i] == a + i
    ensures k == n ==> |s| == n
  {
    if k > 0 {
      ListsInterval(s, a, n, k - 1);
      assert a + k - 1 in s;
      var p :| 0 <= p < |s| && s[p] == a + k - 1;
      Climbs(s, a, p);
      assert p == k - 1;
    }
    if |s| > 0 { Climbs(s, a, |s| - 1); }
    assert |s| <= n;
  }

  lemma Halves(gs: seq<Gate>) returns (s: seq<nat>)
    requires Sorted(gs) && forall k :: 0 <= k < |gs| ==> gs[k].lhs % 2 == 0
    ensures |s| == |gs| && (forall k :: 0 <= k < |s| ==> gs[k].lhs == 2 * s[k])
    ensures forall i, j :: 0 <= i < j < |s| ==> s[i] < s[j]
  {
    s := seq(|gs|, k requires 0 <= k < |gs| => gs[k].lhs / 2);
  }

  lemma CodesDistinct(m: Model, types: seq<Kind>, code: seq<nat>, order: seq<nat>)
    requires Typed(m, types) && Coded(m, code, order)
    ensures Tabled(m, code) && DistinctCodes(m, code)
  {
    forall i, j | 0 <= i < j < |m.ands| && code[m.ands[i].lhs] != 0
      ensures code[m.ands[i].lhs] != code[m.ands[j].lhs]
    {
      GateCode(m, types, code, order, i);
      GateCode(m, types, code, order, j);
      assert types[m.ands[i].lhs / 2] == AndKind(i) && types[m.ands[j].lhs / 2] == AndKind(j);
    }
  }

  /** A gate's left side has a code iff its variable is numbered; the code gives the position. */
  lemma GateCode(m: Model, types: seq<Kind>, code: seq<nat>, order: seq<nat>, j: nat)
    requires Typed(m, types) && Coded(m, code, order) && j < |m.ands|
    ensures m.ands[j].lhs < |code|
    ensures code[m.ands[j].lhs] != 0 <==> m.ands[j].lhs / 2 in order
    ensures code[m.ands[j].lhs] != 0 ==>
      && code[m.ands[j].lhs] % 2 == 0 && 1 <= code[m.ands[j].lhs] / 2 <= |order|
      && m.ands[j].lhs == 2 * order[code[m.ands[j].lhs] / 2 - 1]
  {
    var v := m.ands[j].lhs / 2;
    assert types[v] == AndKind(j);
    CodedIff(m, code, order, v);
    if v in order {
      var i :| 0 <= i < |order| && order[i] == v;
      assert CodedAt(m, code, order, i);
    }
  }

  /** After compaction and sorting, gate `k` sits at its position of the order. */
  lemma GatesInPlace(m: Model, types: seq<Kind>, code: seq<nat>, order: seq<nat>, gs: seq<Gate>)
    requires Typed(m, types) && Coded(m, code, order) && OrderOf(m, types, order)
    requires Tabled(m, code) && Collected(m, code, gs, |m.ands|) && Sorted(gs)
    ensures |gs| == |order| - |m.inputs| - |m.latches|
    ensures forall k :: 0 <= k < |gs| ==> gs[k].lhs == 2 * (FirstAnd(m) + k)
  {
    forall k | 0 <= k < |gs| ensures gs[k].lhs % 2 == 0 && FirstAnd(m) <= gs[k].lhs / 2 <= |order| {
      var j: nat :| Comes(m, code, gs[k], j, |m.ands|);
      GateCode(m, types, code, order, j);
      assert types[m.ands[j].lhs / 2] == AndKind(j);
      LeavesFirst(m, types, order, gs[k].lhs / 2 - 1);
    }
    var s := Halves(gs);
    var a, n := FirstAnd(m), |order| - |m.inputs| - |m.latches|;
    forall x | a <= x < a + n ensures x in s {
      var v := order[x - 1];
      assert types[v].AndKind? && KindInRange(m, types[v], v);
      var j := types[v].idx;
      assert CodedAt(m, code, order, x - 1);
      assert NewGate(m, code, j) in gs;
      var k :| 0 <= k < |gs| && gs[k] == NewGate(m, code, j);
      assert s[k] == x;
    }
    ListsInterval(s, a, n, n);
  }

  lemma GatesSourced(m: Model, types: seq<Kind>, m': Model, code: seq<nat>, order: seq<nat>)
    requires Typed(m, types) && GatesDefined(m, types) && Coded(m, code, order)
    requires OrderOf(m, types, order) && Finished(m, types, order)
    requires Tabled(m, code) && Collected(m, code, m'.ands, |m.ands|) && Sorted(m'.ands)
    ensures |m'.ands| == |order| - |m.inputs| - |m.latches|
    ensures forall k :: 0 <= k < |m'.ands| ==> GateSourced(m, types, m', code, order, k)
  {
    GatesInPlace(m, types, code, order, m'.ands);
    forall k | 0 <= k < |m'.ands| ensures GateSourced(m, types, m', code, order, k) {
      var j: nat :| Comes(m, code, m'.ands[k], j, |m.ands|);
      OneSourced(m, types, m', code, order, k, j);
    }
  }

  lemma OneSourced(m: Model, types: seq<Kind>, m': Model, code: seq<nat>, order: seq<nat>, k: nat, j: nat)
    requires Typed(m, types) && GatesDefined(m, types) && Coded(m, code, order)
    requires OrderOf(m, types, order) && Finished(m, types, order)
    requires k < |m'.ands| && |m.inputs| + |m.latches| + k < |order| && m'.ands[k].lhs == 2 * (FirstAnd(m) + k)
    requires Tabled(m, code) && Comes(m, code, m'.ands[k], j, |m.ands|)
    ensures GateSourced(m, types, m', code, order, k)
  {
    hide GatesDefined, Finished, Coded;
    var i := |m.inputs| + |m.latches| + k;
    GateCode(m, types, code, order, j);
    assert types[m.ands[j].lhs / 2] == AndKind(j);
    OperandsEarlier(m, types, order, i, m.ands[j].rhs0);
    OperandsEarlier(m, types, order, i, m.ands[j].rhs1);
  }

  // ----- The tool ------------------------------------------------------------------------------

  /** The property lists in the order in which they are renumbered. */
  function PropertyLists(m: Model): seq<seq<nat>> {
    [m.outputs, m.bad, m.constraints] + m.justice + [m.fairness]
  }

  ghost predicate ListsTranslated(m: Model, code: seq<nat>, order: seq<nat>, r: seq<seq<nat>>) {
    |r| == |PropertyLists(m)| && forall k :: 0 <= k < |r| ==> ListTranslated(m, code, order, PropertyLists(m)[k], r[k])
  }

  lemma ListsAreRoots(m: Model, k: nat, i: nat)
    requires k < |PropertyLists(m)| && i < |PropertyLists(m)[k]|
    ensures IsRoot(m, PropertyLists(m)[k][i])
  {
    if 3 <= k < 3 + |m.justice| { assert PropertyLists(m)[k] == m.justice[k - 3]; }
  }

  lemma RootsCoded(m: Model, code: seq<nat>, order: seq<nat>, latches: seq<Latch>, r: seq<seq<nat>>)
    requires LatchesTranslated(m, code, order, latches, |m.latches|) && ListsTranslated(m, code, order, r)
    ensures forall l: nat :: IsRoot(m, l) ==> HasCode(m, order, l)
  {
    forall l: nat | IsRoot(m, l) ensures HasCode(m, order, l) {
      if i :| 0 <= i < |m.latches| && (m.latches[i].next == l || m.latches[i].reset == l) {
        assert NewLatch(m, code, order, m.latches[i], latches[i]);
      } else if l in m.outputs {
        assert ListTranslated(m, code, order, PropertyLists(m)[0], r[0]);
      } else if l in m.bad {
        assert ListTranslated(m, code, order, PropertyLists(m)[1], r[1]);
      } else if l in m.constraints {
        assert ListTranslated(m, code, order, PropertyLists(m)[2], r[2]);
      } else if l in m.fairness {
        assert ListTranslated(m, code, order, PropertyLists(m)[3 + |m.justice|], r[3 + |m.justice|]);
      } else {
        var i :| 0 <= i < |m.justice| && l in m.justice[i];
        assert PropertyLists(m)[3 + i] == m.justice[i];
        assert ListTranslated(m, code, order, PropertyLists(m)[3 + i], r[3 + i]);
      }
    }
  }

  lemma Assembled(m: Model, m': Model, code: seq<nat>, order: seq<nat>, latches: seq<Latch>, r: seq<seq<nat>>)
    requires LatchesTranslated(m, code, order, latches, |m.latches|) && ListsTranslated(m, code, order, r)
    requires |m'.inputs| == |m.inputs| && |m'.latches| == |m.latches|
    requires forall i :: 0 <= i < |m.latches| ==> m'.latches[i].next == latches[i].next && m'.latches[i].reset == latches[i].reset
    requires m'.outputs == r[0] && m'.bad == r[1] && m'.constraints == r[2]
    requires m'.justice == r[3..3 + |m.justice|] && m'.fairness == r[3 + |m.justice|]
    ensures Translated(m, m', code, order)
  {
    forall i | 0 <= i < |m.latches| ensures LatchTranslated(m, m', code, order, i) {
      assert NewLatch(m, code, order, m.latches[i], latches[i]);
    }
    assert ListTranslated(m, code, order, PropertyLists(m)[0], r[0]);
    assert ListTranslated(m, code, order, PropertyLists(m)[1], r[1]);
    assert ListTranslated(m, code, order, PropertyLists(m)[2], r[2]);
    assert ListTranslated(m, code, order, PropertyLists(m)[3 + |m.justice|], r[3 + |m.justice|]);
    forall i | 0 <= i < |m.justice| ensures ListTranslated(m, code, order, m.justice[i], m'.justice[i]) {
      assert PropertyLists(m)[3 + i] == m.justice[i];
      assert ListTranslated(m, code, order, PropertyLists(m)[3 + i], r[3 + i]);
    }
  }

  lemma LeafCodes(m: Model, types: seq<Kind>, code: seq<nat>, order: seq<nat>)
    requires Typed(m, types) && Coded(m, code, order) && OrderOf(m, types, order)
    ensures forall i :: 0 <= i < |m.inputs| ==> m.inputs[i] < |code| && code[m.inputs[i]] == 2 * (1 + i)
    ensures forall i :: 0 <= i < |m.latches| ==> m.latches[i].lit < |code| && code[m.latches[i].lit] == 2 * (1 + |m.inputs| + i)
  {
    forall i | 0 <= i < |m.inputs| ensures m.inputs[i] < |code| && code[m.inputs[i]] == 2 * (1 + i) {
      assert CodedAt(m, code, order, i);
      assert m.inputs[i] == 2 * order[i];
    }
    forall i | 0 <= i < |m.latches|
      ensures m.latches[i].lit < |code| && code[m.latches[i].lit] == 2 * (1 + |m.inputs| + i)
    {
      assert CodedAt(m, code, order, |m.inputs| + i);
      assert m.latches[i].lit == 2 * order[|m.inputs| + i];
    }
  }

  /** An ordered model is returned as it is; otherwise the result is the renumbered model with
      exactly the gates that some next, reset or property literal needs. */
  method ReencodeModel(m: Model, types: seq<Kind>, ghost rank: seq<nat>)
    returns (m': Model, ghost code: seq<nat>, ghost order: seq<nat>)
    requires Typed(m, types) && GatesDefined(m, types) && RootsDefined(m, types) && Ranked(m, types, rank)
    ensures Reencoded(m')
    ensures Ordered(m) ==> m' == m
    ensures !Ordered(m) ==> ReencodingOf(m, types, m', code, order) && ExactlyCones(m, types, order)
  {
    code, order := [], [];
    var done := IsReencoded(m);
    if done {
      OrderedIsReencoded(m, types, rank);
      return m, code, order;
    }
    m', code, order := Renumbered(m, types, rank);
    ResultIsReencoded(m, types, m', code, order);
  }

  method Renumbered(m: Model, types: seq<Kind>, ghost rank: seq<nat>)
    returns (m': Model, ghost code: seq<nat>, ghost order: seq<nat>)
    requires Typed(m, types) && GatesDefined(m, types) && RootsDefined(m, types) && Ranked(m, types, rank)
    ensures ReencodingOf(m, types, m', code, order) && ExactlyCones(m, types, order)
  {
    var tool := new Reencoder(m, types, rank);
    var latches := tool.ReencodeLatches();
    ghost var code0: seq<nat>, order0 := tool.code[..], tool.order;
    forall k, i | 0 <= k < |PropertyLists(m)| && 0 <= i < |PropertyLists(m)[k]| ensures IsRoot(m, PropertyLists(m)[k][i]) {
      ListsAreRoots(m, k, i);
    }
    var r := tool.ReencodeLists(PropertyLists(m));
    code, order := tool.code[..], tool.order;
    LatchesStable(m, code0, order0, code, order, latches, |m.latches|);
    RootsCoded(m, code, order, latches, r);
    ExactCones(m, types, order);
    CodesDistinct(m, types, code, order);
    var ands := CompactAndSort(m, tool.code);
    var codes: seq<nat> := tool.code[..];
    m' := Assemble(m, types, codes, (tool.next - 1) / 2, latches, r, ands, order);
    GatesSourced(m, types, m', code, order);
  }

  /** Inputs and latches take their codes as literals. */
  method Assemble(m: Model, types: seq<Kind>, code: seq<nat>, maxvar: nat, latches: seq<Latch>, r: seq<seq<nat>>,
                  ands: seq<Gate>, ghost order: seq<nat>)
    returns (m': Model)
    requires Typed(m, types) && Coded(m, code, order) && OrderOf(m, types, order)
    requires LatchesTranslated(m, code, order, latches, |m.latches|) && ListsTranslated(m, code, order, r)
    ensures m'.ands == ands && m'.maxvar == maxvar && Translated(m, m', code, order)
    ensures forall i :: 0 <= i < |m.inputs| ==> m'.inputs[i] == 2 * (1 + i)
    ensures forall i :: 0 <= i < |m.latches| ==> m'.latches[i].lit == 2 * (1 + |m.inputs| + i)
  {
    LeafCodes(m, types, code, order);
    forall i | 0 <= i < |m.latches| ensures latches[i].lit == m.latches[i].lit {
      assert NewLatch(m, code, order, m.latches[i], latches[i]);
    }
    m' := Model(maxvar,
      seq(|m.inputs|, i requires 0 <= i < |m.inputs| => code[m.inputs[i]]),
      seq(|m.latches|, i requires 0 <= i < |m.latches| => latches[i].(lit := code[m.latches[i].lit])),
      ands, r[0], r[1], r[2], r[3..3 + |m.justice|], r[3 + |m.justice|]);
    Assembled(m, m', code, order, latches, r);
  }
}
