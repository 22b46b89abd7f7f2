/** The search tree of `treengeling`: open nodes with their cubes, closed nodes as leaf clauses, and
    the rounds of splitting and flushing.  The solvers are oracles. */
module CubeTree {

  type Cube = seq<int>
  type Assignment = nat -> bool

  // ----- Cubes and assignments ----------------------------------------------------------------------

  predicate LitTrue(a: Assignment, l: int) {
    if l > 0 then a(l) else !a(-l)
  }

  predicate SatCube(a: Assignment, c: Cube) {
    forall i :: 0 <= i < |c| ==> LitTrue(a, c[i])
  }

  predicate SatClause(a: Assignment, c: Cube) {
    exists i :: 0 <= i < |c| && LitTrue(a, c[i])
  }

  ghost predicate SatFormula(a: Assignment, f: seq<Cube>) {
    forall i :: 0 <= i < |f| ==> SatClause(a, f[i])
  }

  function Negated(c: Cube): (r: Cube)
    ensures |r| == |c| && forall i :: 0 <= i < |c| ==> r[i] == -c[i]
  {
    seq(|c|, i requires 0 <= i < |c| => -c[i])
  }

  predicate NonZero(c: Cube) {
    forall i :: 0 <= i < |c| ==> c[i] != 0
  }

  /** The leaf clause of a closed cube excludes exactly that cube. */
  lemma LeafClauseExcludes(a: Assignment, c: Cube)
    requires NonZero(c)
    ensures SatClause(a, Negated(c)) <==> !SatCube(a, c)
  {
    if !SatCube(a, c) {
      var i :| 0 <= i < |c| && !LitTrue(a, c[i]);
      assert LitTrue(a, Negated(c)[i]);
    }
    if SatClause(a, Negated(c)) {
      var i :| 0 <= i < |c| && LitTrue(a, Negated(c)[i]);
      assert !LitTrue(a, c[i]);
    }
  }

  /** A solver that found no model of the formula in the cube. */
  ghost predicate Refuted(f: seq<Cube>, c: Cube) {
    forall a: Assignment :: SatFormula(a, f) ==> !SatCube(a, c)
  }

  ghost predicate Satisfied(f: seq<Cube>, c: Cube) {
    exists a: Assignment :: SatFormula(a, f) && SatCube(a, c)
  }

  // ----- Partitions -----------------------------------------------------------------------------------

  /** How many of the cubes the assignment satisfies. */
  ghost function Hits(cubes: seq<Cube>, a: Assignment): nat {
    if |cubes| == 0 then 0 else Hits(cubes[..|cubes| - 1], a) + (if SatCube(a, cubes[|cubes| - 1]) then 1 else 0)
  }

  lemma {:induction false} HitsUpdate(cubes: seq<Cube>, a: Assignment, i: nat, c: Cube)
    requires i < |cubes|
    ensures Hits(cubes[i := c], a) + (if SatCube(a, cubes[i]) then 1 else 0) == Hits(cubes, a) + (if SatCube(a, c) then 1 else 0)
  {
    var n := |cubes| - 1;
    if i < n {
      assert cubes[i := c][..n] == cubes[..n][i := c];
      HitsUpdate(cubes[..n], a, i, c);
    } else {
      assert cubes[i := c][..n] == cubes[..n];
    }
  }

  lemma HitsSnoc(cubes: seq<Cube>, a: Assignment, c: Cube)
    ensures Hits(cubes + [c], a) == Hits(cubes, a) + (if SatCube(a, c) then 1 else 0)
  {
    assert (cubes + [c])[..|cubes|] == cubes;
  }

  lemma {:induction false} HitsSome(cubes: seq<Cube>, a: Assignment) returns (i: nat)
    requires Hits(cubes, a) > 0
    ensures i < |cubes| && SatCube(a, cubes[i])
  {
    if SatCube(a, cubes[|cubes| - 1]) { i := |cubes| - 1; } else { i := HitsSome(cubes[..|cubes| - 1], a); }
  }

  /** Every assignment satisfies exactly one of the open and closed cubes. */
  ghost predicate Partition(open: seq<Cube>, closed: seq<Cube>) {
    forall a: Assignment :: Exactly(open, closed, a)
  }

  ghost predicate Exactly(open: seq<Cube>, closed: seq<Cube>, a: Assignment) {
    Hits(open, a) + Hits(closed, a) == 1
  }

  lemma PartitionStart()
    ensures Partition([[]], [])
  {
    forall a: Assignment ensures Exactly([[]], [], a) {
      var none: seq<Cube> := [];
      HitsSnoc(none, a, []);
      assert none + [[]] == [[]];
    }
  }

  /** A decision splits a cube in two. */
  lemma PartitionSplit(open: seq<Cube>, closed: seq<Cube>, i: nat, l: int)
    requires Partition(open, closed) && i < |open| && l != 0
    ensures Partition(open[i := open[i] + [l]] + [open[i] + [-l]], closed)
  {
    var yes, no := open[i] + [l], open[i] + [-l];
    var open' := open[i := yes] + [no];
    forall a: Assignment ensures Exactly(open', closed, a) {
      assert Exactly(open, closed, a);
      HitsUpdate(open, a, i, yes);
      HitsSnoc(open[i := yes], a, no);
      SplitCube(a, open[i], l);
      SplitCube(a, open[i], -l);
    }
  }

  lemma SplitCube(a: Assignment, c: Cube, l: int)
    ensures SatCube(a, c + [l]) <==> SatCube(a, c) && LitTrue(a, l)
  {
    if SatCube(a, c + [l]) {
      forall i | 0 <= i < |c| ensures LitTrue(a, c[i]) { assert (c + [l])[i] == c[i]; }
      assert (c + [l])[|c|] == l;
    }
  }

  /** A node is closed; the last node takes its place. */
  lemma PartitionClose(open: seq<Cube>, closed: seq<Cube>, i: nat)
    requires Partition(open, closed) && i < |open|
    ensures Partition(Removed(open, i), closed + [open[i]])
  {
    var open', closed' := Removed(open, i), closed + [open[i]];
    forall a: Assignment ensures Exactly(open', closed', a) {
      assert Exactly(open, closed, a);
      HitsRemoved(open, a, i);
      HitsSnoc(closed, a, open[i]);
    }
  }

  function Removed<T>(s: seq<T>, i: nat): (r: seq<T>)
    requires i < |s|
    ensures |r| == |s| - 1
  {
    s[i := s[|s| - 1]][..|s| - 1]
  }

  lemma HitsRemoved(cubes: seq<Cube>, a: Assignment, i: nat)
    requires i < |cubes|
    ensures Hits(Removed(cubes, i), a) + (if SatCube(a, cubes[i]) then 1 else 0) == Hits(cubes, a)
  {
    var n := |cubes| - 1;
    HitsUpdate(cubes, a, i, cubes[n]);
    assert cubes[i := cubes[n]][n] == cubes[n];
  }

  lemma PartitionSwap(open: seq<Cube>, closed: seq<Cube>, i: nat, j: nat)
    requires Partition(open, closed) && i < |open| && j < |open|
    ensures Partition(open[i := open[j]][j := open[i]], closed)
  {
    var open' := open[i := open[j]][j := open[i]];
    forall a: Assignment ensures Exactly(open', closed, a) {
      assert Exactly(open, closed, a);
      HitsUpdate(open, a, i, open[j]);
      HitsUpdate(open[i := open[j]], a, j, open[i]);
    }
  }

  /** Without open nodes, refuted closed cubes cover all assignments. */
  lemma AllClosedUnsat(f: seq<Cube>, closed: seq<Cube>)
    requires Partition([], closed) && forall i :: 0 <= i < |closed| ==> Refuted(f, closed[i])
    ensures forall a: Assignment :: !SatFormula(a, f)
  {
    forall a: Assignment ensures !SatFormula(a, f) {
      assert Exactly([], closed, a);
      var i := HitsSome(closed, a);
      assert Refuted(f, closed[i]);
    }
  }

  // ----- The tree -------------------------------------------------------------------------------------

  /** `res` is the verdict of the last search (0, 10 or 20), `inconsistent` what the solver of the
      node reports about itself, `lookahead` the literal to split on, or 0. */
  datatype Node = Node(id: nat, pos: nat, depth: nat, cube: Cube, res: int, inconsistent: bool, lookahead: int)

  ghost function Cubes(nodes: seq<Node>): (r: seq<Cube>)
    ensures |r| == |nodes| && forall i :: 0 <= i < |nodes| ==> r[i] == nodes[i].cube
  {
    seq(|nodes|, i requires 0 <= i < |nodes| => nodes[i].cube)
  }

  /** Positions are up to date and identifiers unique. */
  ghost predicate Placed(nodes: seq<Node>, ids: nat) {
    && (forall i :: 0 <= i < |nodes| ==> nodes[i].pos == i && nodes[i].id < ids && NonZero(nodes[i].cube))
    && (forall i, j :: 0 <= i < j < |nodes| ==> nodes[i].id != nodes[j].id)
  }

  predicate Done(n: Node) {
    n.res == 20 || n.inconsistent
  }

  /** The nodes still undecided by refutation, wherever they stand. */
  ghost function Undone(nodes: seq<Node>): set<Node> {
    set i | 0 <= i < |nodes| && !Done(nodes[i]) :: nodes[i].(pos := 0)
  }

  /** A refuted node leaves; the others stay. */
  lemma {:induction false} UndoneRemoved(nodes: seq<Node>, nodes': seq<Node>, i: nat)
    requires i < |nodes| && Done(nodes[i]) && |nodes'| == |nodes| - 1
    requires forall j :: 0 <= j < |nodes'| ==> nodes'[j] == if j == i then nodes[|nodes| - 1].(pos := i) else nodes[j]
    ensures Undone(nodes') == Undone(nodes)
  {
    var n := |nodes| - 1;
    forall x | x in Undone(nodes) ensures x in Undone(nodes') {
      var j :| 0 <= j < |nodes| && !Done(nodes[j]) && x == nodes[j].(pos := 0);
      var k := if j == n then i else j;
      assert nodes'[k].(pos := 0) == x && !Done(nodes'[k]);
    }
    forall x | x in Undone(nodes') ensures x in Undone(nodes) {
      var j :| 0 <= j < |nodes'| && !Done(nodes'[j]) && x == nodes'[j].(pos := 0);
      var k := if j == i then n else j;
      assert nodes[k].(pos := 0) == x && !Done(nodes[k]);
    }
  }

  lemma {:induction false} UndoneNone(nodes: seq<Node>)
    ensures Undone(nodes) == {} <==> forall i :: 0 <= i < |nodes| ==> Done(nodes[i])
    ensures Undone(nodes) == {} <==> forall i :: 0 <= i < |nodes| ==> nodes[i].res == 20 || nodes[i].inconsistent
  {
    if i :| 0 <= i < |nodes| && !Done(nodes[i]) { assert nodes[i].(pos := 0) in Undone(nodes); }
  }

  /** What a correct solver reports about a node. */
  ghost predicate Honest(f: seq<Cube>, n: Node) {
    (Done(n) ==> Refuted(f, n.cube)) && (n.res == 10 ==> Satisfied(f, n.cube))
  }

  /** What a job finds out about a node. */
  datatype Verdict = Verdict(res: int, inconsistent: bool, lookahead: int)

  datatype Phase = Searching | Simplifying | LookingAhead | Splitting

  /** Solvers are oracles: their answers depend on the phase, the round and the cube in any way, but
      are correct. */
  type Solvers = (Phase, nat, Cube) -> Verdict

  ghost predicate Correct(f: seq<Cube>, solvers: Solvers) {
    forall phase: Phase, round: nat, c: Cube :: CorrectAt(f, solvers, phase, round, c)
  }

  ghost predicate CorrectAt(f: seq<Cube>, solvers: Solvers, phase: Phase, round: nat, c: Cube) {
    var v := solvers(phase, round, c);
    && (v.res == 20 || v.inconsistent ==> Refuted(f, c))
    && (v.res == 10 ==> Satisfied(f, c))
  }

  /** The additional parallel solver: its answer in a round, given the leaf clauses it has taken. */
  type Parallel = (nat, seq<Cube>) -> int

  ghost predicate ParallelCorrect(f: seq<Cube>, parallel: Parallel) {
    forall round: nat, cs: seq<Cube> :: Right(f + cs, parallel(round, cs))
  }

  /** 20 means unsatisfiable, 10 satisfiable, 0 unknown. */
  ghost predicate Right(f: seq<Cube>, res: int) {
    && (res == 20 ==> forall a: Assignment :: !SatFormula(a, f))
    && (res == 10 ==> exists a: Assignment :: SatFormula(a, f))
    && (res == 0 || res == 10 || res == 20)
  }

  /** Clauses that the formula implies change no answer. */
  lemma ImpliedHarmless(f: seq<Cube>, cs: seq<Cube>, res: int)
    requires Right(f + cs, res)
    requires forall i, a: Assignment :: 0 <= i < |cs| && SatFormula(a, f) ==> SatClause(a, cs[i])
    ensures Right(f, res)
  {
    forall a: Assignment ensures SatFormula(a, f + cs) <==> SatFormula(a, f) {
      if SatFormula(a, f + cs) {
        forall i | 0 <= i < |f| ensures SatClause(a, f[i]) { assert (f + cs)[i] == f[i]; }
      }
    }
  }

  /** Search and simplification look for a result, lookahead for a literal; any of them may refute. */
  function AfterJob(n: Node, phase: Phase, v: Verdict): Node {
    match phase
    case Searching => n.(res := v.res, inconsistent := v.inconsistent)
    case Simplifying => n.(res := v.res, inconsistent := v.inconsistent)
    case LookingAhead => n.(lookahead := v.lookahead, inconsistent := v.inconsistent)
    case Splitting => n.(inconsistent := v.inconsistent)
  }

  predicate Undecided(n: Node) {
    n.res == 0 && !n.inconsistent
  }

  /** Every node without result has done its job. */
  ghost predicate JobsDone(before: seq<Node>, after: seq<Node>, solvers: Solvers, phase: Phase, round: nat) {
    && |after| == |before|
    && forall i :: 0 <= i < |before| ==>
         after[i] == if Undecided(before[i]) then AfterJob(before[i], phase, solvers(phase, round, before[i].cube)) else before[i]
  }

  /** Lookahead literals of the round before are forgotten, and each node without result may have a new one. */
  ghost predicate LookedAhead(before: seq<Node>, after: seq<Node>, solvers: Solvers, round: nat) {
    && |after| == |before|
    && forall i :: 0 <= i < |before| ==>
         after[i] == if Undecided(before[i]) then AfterJob(before[i], LookingAhead, solvers(LookingAhead, round, before[i].cube))
                     else before[i].(lookahead := 0)
  }

  /** The refuted nodes are gone, and only they. */
  ghost predicate Flushed(before: seq<Node>, after: seq<Node>) {
    Undone(after) == Undone(before) && forall i :: 0 <= i < |after| ==> after[i].res != 20 && !after[i].inconsistent
  }

  /** The nodes at all stages of a round: simplified, flushed, looked ahead, split, simplified, flushed, searched. */
  ghost predicate Stages(solvers: Solvers, round: nat, s0: seq<Node>, s1: seq<Node>, s2: seq<Node>, s3: seq<Node>,
                         s4: seq<Node>, s5: seq<Node>, s6: seq<Node>, s7: seq<Node>)
  {
    && JobsDone(s0, s1, solvers, Simplifying, round) && Flushed(s1, s2) && LookedAhead(s2, s3, solvers, round)
    && SplitUpTo(s3, s4, |s3|)
    && JobsDone(s4, s5, solvers, Splitting, round) && Flushed(s5, s6) && JobsDone(s6, s7, solvers, Searching, round + 1)
  }

  ghost predicate OneRound(solvers: Solvers, round: nat, before: seq<Node>, after: seq<Node>) {
    exists s1, s2, s3, s4, s5, s6 :: Stages(solvers, round, before, s1, s2, s3, s4, s5, s6, after)
  }

  /** A round, and the flush that follows it. */
  ghost predicate NextRound(solvers: Solvers, round: nat, before: seq<Node>, after: seq<Node>) {
    exists mid :: OneRound(solvers, round, before, mid) && Flushed(mid, after)
  }

  predicate Splits(n: Node) {
    n.res == 0 && !n.inconsistent && n.lookahead != 0
  }

  /** The node after the split. */
  function Kept(n: Node): Node {
    n.(cube := n.cube + [n.lookahead])
  }

  /** The cube of its new sibling. */
  function Other(n: Node): Cube {
    n.cube + [-n.lookahead]
  }

  ghost predicate Sibling(nodes: seq<Node>, from: nat, n: Node) {
    exists k :: from <= k < |nodes| && nodes[k].cube == Other(n) && nodes[k].lookahead == 0
  }

  /** The first `i` nodes have been split where called for, and the new nodes are their siblings. */
  ghost predicate SplitUpTo(before: seq<Node>, after: seq<Node>, i: nat) {
    && i <= |before| <= |after| && AllSiblings(before, after, i)
    && forall j :: 0 <= j < |before| ==> InPlace(before[j], after[j], j < i)
  }

  /** A node of the array before the split, and what became of it when its turn was. */
  predicate InPlace(n: Node, n': Node, seen: bool) {
    n' == if seen && Splits(n) then Kept(n) else n
  }

  ghost predicate IsSibling(before: seq<Node>, i: nat, n: Node)
    requires i <= |before|
  {
    !Done(n) && n.res == 0 && exists j :: 0 <= j < i && Splits(before[j]) && n.cube == Other(before[j])
  }

  lemma {:induction false} SplitNone(before: seq<Node>)
    ensures SplitUpTo(before, before, 0)
  {}

  lemma {:induction false} SplitNext(before: seq<Node>, after: seq<Node>, i: nat)
    requires SplitUpTo(before, after, i) && i < |before|
    ensures i < |after| && after[i] == before[i]
  {
    assert InPlace(before[i], after[i], i < i);
  }

  lemma {:induction false} SiblingsSame(before: seq<Node>, after: seq<Node>, i: nat)
    requires AllSiblings(before, after, i) && i < |before| && !Splits(before[i])
    ensures AllSiblings(before, after, i + 1)
  {
    hide Splits, Sibling, IsSibling;
    forall k | |before| <= k < |after| ensures IsSibling(before, i + 1, after[k]) { StillSibling(before, i, after[k]); }
    hide Splits, Sibling, IsSibling;
  }

  lemma {:induction false} SplitLess(before: seq<Node>, after: seq<Node>, i: nat)
    requires SplitUpTo(before, after, i) && i < |before| && !Splits(before[i])
    ensures SplitUpTo(before, after, i + 1)
  {
    hide AllSiblings;
    SiblingsSame(before, after, i);
    forall j | 0 <= j < |before| ensures InPlace(before[j], after[j], j < i + 1) { assert InPlace(before[j], after[j], j < i); }
  }

  /** The step of `SplitNode`: node `i` is extended, a sibling is appended. */
  ghost predicate SplitStep(before: seq<Node>, mid: seq<Node>, after: seq<Node>, i: nat) {
    && i < |before| <= |mid| && Splits(before[i]) && |after| == |mid| + 1
    && after[i] == Kept(before[i]) && (forall j :: 0 <= j < |mid| && j != i ==> after[j] == mid[j])
    && after[|mid|].cube == Other(before[i]) && after[|mid|].lookahead == 0 && !Done(after[|mid|]) && after[|mid|].res == 0
  }

  lemma {:induction false} SiblingKept(before: seq<Node>, mid: seq<Node>, after: seq<Node>, i: nat, n: Node)
    requires SplitStep(before, mid, after, i) && Sibling(mid, |before|, n)
    ensures Sibling(after, |before|, n)
  {
    var k :| |before| <= k < |mid| && mid[k].cube == Other(n) && mid[k].lookahead == 0;
    assert after[k] == mid[k];
  }

  lemma {:induction false} SiblingNew(before: seq<Node>, mid: seq<Node>, after: seq<Node>, i: nat)
    requires SplitStep(before, mid, after, i)
    ensures Sibling(after, |before|, before[i]) && IsSibling(before, i + 1, after[|mid|])
  {}

  lemma {:induction false} StillSibling(before: seq<Node>, i: nat, n: Node)
    requires i < |before| && IsSibling(before, i, n)
    ensures IsSibling(before, i + 1, n)
  {}

  /** After the split: every undecided node with a lookahead literal has been divided in two, the others are as
      they were. */
  lemma SplitMeans(before: seq<Node>, after: seq<Node>, i: nat)
    requires SplitUpTo(before, after, |before|) && i < |before|
    ensures i < |after|
    ensures before[i].res == 0 && !before[i].inconsistent && before[i].lookahead != 0 ==>
      && after[i].cube == before[i].cube + [before[i].lookahead]
      && exists k :: |before| <= k < |after| && after[k].cube == before[i].cube + [-before[i].lookahead]
    ensures !(before[i].res == 0 && !before[i].inconsistent && before[i].lookahead != 0) ==> after[i] == before[i]
  {
    assert InPlace(before[i], after[i], i < |before|);
    if Splits(before[i]) {
      hide IsSibling;
      assert Sibling(after, |before|, before[i]);
    }
  }

  /** Search and simplification yield a result, lookahead a literal; the cube stays. */
  lemma JobMeans(n: Node, phase: Phase, v: Verdict)
    ensures var n' := AfterJob(n, phase, v);
      && n'.cube == n.cube && n'.inconsistent == v.inconsistent
      && n'.res == (if phase == Searching || phase == Simplifying then v.res else n.res)
      && n'.lookahead == (if phase == LookingAhead then v.lookahead else n.lookahead)
  {}

  ghost predicate AllSiblings(before: seq<Node>, after: seq<Node>, i: nat) {
    && i <= |before| <= |after|
    && (forall j :: 0 <= j < i && Splits(before[j]) ==> Sibling(after, |before|, before[j]))
    && (forall k :: |before| <= k < |after| ==> IsSibling(before, i, after[k]))
  }

  lemma {:induction false} SiblingsMore(before: seq<Node>, mid: seq<Node>, after: seq<Node>, i: nat)
    requires AllSiblings(before, mid, i) && SplitStep(before, mid, after, i)
    ensures AllSiblings(before, after, i + 1)
  {
    hide Splits, Sibling, IsSibling, Other, Kept, Done;
    SiblingNew(before, mid, after, i);
    forall j | 0 <= j < i && Splits(before[j]) ensures Sibling(after, |before|, before[j]) {
      SiblingKept(before, mid, after, i, before[j]);
    }
    forall k | |before| <= k < |mid| ensures IsSibling(before, i + 1, after[k]) {
      StillSibling(before, i, mid[k]);
    }
  }

  lemma {:induction false} SplitMore(before: seq<Node>, mid: seq<Node>, after: seq<Node>, i: nat)
    requires SplitUpTo(before, mid, i) && SplitStep(before, mid, after, i)
    ensures SplitUpTo(before, after, i + 1)
  {
    hide AllSiblings;
    SiblingsMore(before, mid, after, i);
    forall j | 0 <= j < |before| ensures InPlace(before[j], after[j], j < i + 1) { assert InPlace(before[j], mid[j], j < i); }
  }

  lemma RoundThenFlush(solvers: Solvers, round: nat, before: seq<Node>, mid: seq<Node>, after: seq<Node>)
    requires OneRound(solvers, round, before, mid) && Flushed(mid, after)
    ensures NextRound(solvers, round, before, after)
  {}

  /** Nothing is decided: some node is open, none refuted or satisfied, and the parallel solver has no answer. */
  ghost predicate Pending(parallel: Parallel, round: nat, taken: seq<Cube>, nodes: seq<Node>) {
    && |nodes| > 0 && (forall i :: 0 <= i < |nodes| ==> nodes[i].res != 10 && nodes[i].res != 20 && !nodes[i].inconsistent)
    && parallel(round, taken) == 0
  }

  /** All rounds so far: undecided before each of them, and each from the nodes the one before left. */
  ghost predicate History(solvers: Solvers, parallel: Parallel, asked: seq<seq<Cube>>, open: seq<seq<Node>>) {
    && |asked| == |open|
    && (forall r :: 0 <= r < |open| ==> Pending(parallel, r, asked[r], open[r]))
    && forall r :: 0 <= r < |open| - 1 ==> Follows(solvers, open, r)
  }

  ghost predicate Follows(solvers: Solvers, open: seq<seq<Node>>, r: nat)
    requires r + 1 < |open|
  {
    NextRound(solvers, r, open[r], open[r + 1])
  }

  lemma HistoryMore(solvers: Solvers, parallel: Parallel, asked: seq<seq<Cube>>, open: seq<seq<Node>>, taken: seq<Cube>, nodes: seq<Node>)
    requires History(solvers, parallel, asked, open) && Pending(parallel, |open|, taken, nodes)
    requires |open| > 0 ==> NextRound(solvers, |open| - 1, open[|open| - 1], nodes)
    ensures History(solvers, parallel, asked + [taken], open + [nodes])
  {
    hide NextRound, Pending;
    var asked', open' := asked + [taken], open + [nodes];
    forall r | 0 <= r < |open'| ensures Pending(parallel, r, asked'[r], open'[r]) {
      if r < |open| { assert asked'[r] == asked[r] && open'[r] == open[r]; }
    }
    forall r | 0 <= r < |open'| - 1 ensures Follows(solvers, open', r) {
      if r < |open| - 1 { assert Follows(solvers, open, r); }
    }
  }

  class Tree {
    ghost const formula: seq<Cube>
    var nodes: seq<Node>
    var ids: nat
    var leafs: seq<Cube>
    ghost var closed: seq<Cube>
    var dequeued: seq<Cube>

    ghost predicate Valid()
      reads this
    {
      && Placed(nodes, ids)
      && Partition(Cubes(nodes), closed)
      && (forall i :: 0 <= i < |closed| ==> NonZero(closed[i]))
      && (forall i :: 0 <= i < |nodes| ==> Honest(formula, nodes[i]))
      && (forall i :: 0 <= i < |closed| ==> Refuted(formula, closed[i]))
      && LeavesOf(dequeued + leafs, closed)
    }

    /** The root node has the empty cube. */
    constructor (ghost formula: seq<Cube>)
      ensures this.formula == formula && Valid() && |nodes| == 1 && nodes[0] == Node(0, 0, 0, [], 0, false, 0)
      ensures leafs == [] && closed == []
    {
      this.formula := formula;
      nodes, ids, leafs := [Node(0, 0, 0, [], 0, false, 0)], 1, [];
      closed, dequeued := [], [];
      PartitionStart();
      new;
      assert Cubes(nodes) == [[]];
    }

    /** A clone of the parent with one more decision. */
    method NewNode(parent: nat, decision: int) returns (child: Node)
      requires parent < |nodes| && Placed(nodes, ids) && decision != 0
      modifies `nodes, `ids
      ensures Placed(nodes, ids) && forall i :: 0 <= i < |old(nodes)| ==> old(nodes)[i].id != child.id
      ensures forall a: Assignment :: SatCube(a, child.cube) <==> SatCube(a, old(nodes)[parent].cube) && LitTrue(a, decision)
      ensures child == Node(old(ids), |old(nodes)|, old(nodes)[parent].depth + 1, old(nodes)[parent].cube + [decision], 0, false, 0)
      ensures nodes == old(nodes) + [child] && ids == old(ids) + 1
    {
      child := Node(ids, |nodes|, nodes[parent].depth + 1, nodes[parent].cube + [decision], 0, false, 0);
      ids := ids + 1;
      nodes := nodes + [child];
      forall a: Assignment
        ensures SatCube(a, child.cube) <==> SatCube(a, old(nodes)[parent].cube) && LitTrue(a, decision)
      {
        SplitCube(a, old(nodes)[parent].cube, decision);
      }
    }

    /** The node keeps the lookahead literal, its new child gets the negation. */
    method SplitNode(i: nat)
      requires Valid() && i < |nodes| && nodes[i].lookahead != 0 && nodes[i].res == 0 && !nodes[i].inconsistent
      modifies `nodes, `ids
      ensures Valid() && |nodes| == |old(nodes)| + 1
      ensures nodes[i] == old(nodes[i]).(cube := old(nodes[i]).cube + [old(nodes[i]).lookahead])
      ensures nodes[|nodes| - 1].cube == old(nodes[i]).cube + [-old(nodes[i]).lookahead]
      ensures nodes[|nodes| - 1].lookahead == 0 && !Done(nodes[|nodes| - 1]) && nodes[|nodes| - 1].res == 0
      ensures forall j :: 0 <= j < |old(nodes)| && j != i ==> nodes[j] == old(nodes[j])
    {
      var l := nodes[i].lookahead;
      ghost var before := nodes;
      PartitionSplit(Cubes(nodes), closed, i, l);
      var child := NewNode(i, -l);
      nodes := nodes[i := nodes[i].(cube := nodes[i].cube + [l])];
      assert Cubes(nodes) == Cubes(before)[i := Cubes(before)[i] + [l]] + [Cubes(before)[i] + [-l]];
    }

    /** The cube of a node is negated into a leaf clause, which excludes exactly the cube. */
    method EnqNewLeafFromNode(i: nat)
      requires i < |nodes| && NonZero(nodes[i].cube)
      modifies `leafs
      ensures |leafs| == |old(leafs)| + 1 && old(leafs) <= leafs
      ensures forall a: Assignment :: SatClause(a, leafs[|leafs| - 1]) <==> !SatCube(a, nodes[i].cube)
      ensures leafs[|leafs| - 1] == Negated(nodes[i].cube)
    {
      leafs := leafs + [Negated(nodes[i].cube)];
      forall a: Assignment ensures SatClause(a, leafs[|leafs| - 1]) <==> !SatCube(a, nodes[i].cube) {
        LeafClauseExcludes(a, nodes[i].cube);
      }
    }

    /** The last node moves to the place of the deleted one. */
    method DelNode(i: nat)
      requires Placed(nodes, ids) && i < |nodes|
      modifies `nodes
      ensures Placed(nodes, ids) && Cubes(nodes) == Removed(Cubes(old(nodes)), i)
      ensures |nodes| == |old(nodes)| - 1 && forall j :: 0 <= j < |nodes| ==>
        nodes[j] == if j == i then old(nodes)[|old(nodes)| - 1].(pos := i) else old(nodes)[j]
    {
      var lastpos := |nodes| - 1;
      var last := nodes[lastpos];
      if i != lastpos {
        nodes := nodes[i := last.(pos := i)];
      }
      nodes := nodes[..lastpos];
      assert Cubes(nodes) == Removed(Cubes(old(nodes)), i);
    }

    method CloseNode(i: nat)
      requires Valid() && i < |nodes| && Done(nodes[i])
      modifies `nodes, `leafs, `closed
      ensures Valid() && closed == old(closed) + [old(nodes[i]).cube]
      ensures |nodes| == |old(nodes)| - 1 && forall j :: 0 <= j < |nodes| ==>
        nodes[j] == if j == i then old(nodes)[|old(nodes)| - 1].(pos := i) else old(nodes)[j]
    {
      ghost var cube := nodes[i].cube;
      PartitionClose(Cubes(nodes), closed, i);
      assert Honest(formula, nodes[i]);
      forall j | 0 <= j < |nodes| ensures Honest(formula, nodes[j].(pos := i)) {
        assert Honest(formula, nodes[j]);
      }
      EnqNewLeafFromNode(i);
      DelNode(i);
      closed := closed + [cube];
      assert dequeued + leafs == (dequeued + old(leafs)) + [Negated(cube)];
    }

    /** Closes every node that was refuted; 20 if none is left. */
    method Flush() returns (res: int)
      requires Valid()
      modifies `nodes, `leafs, `closed
      ensures Valid() && (res == 0 || res == 20) && (res == 20 <==> |nodes| == 0)
      ensures Flushed(old(nodes), nodes)
      ensures res == 20 <==> forall i :: 0 <= i < |old(nodes)| ==> old(nodes)[i].res == 20 || old(nodes)[i].inconsistent
      ensures forall i :: 0 <= i < |nodes| ==> !Done(nodes[i])
      ensures |nodes| + |closed| == |old(nodes)| + |old(closed)| && old(closed) <= closed
      ensures Undone(nodes) == Undone(old(nodes))
      ensures res == 20 <==> forall i :: 0 <= i < |old(nodes)| ==> Done(old(nodes)[i])
      ensures Right(formula, res)
    {
      var i := 0;
      while i < |nodes|
        invariant Valid() && i <= |nodes| && forall j :: 0 <= j < i ==> !Done(nodes[j])
        invariant |nodes| + |closed| == |old(nodes)| + |old(closed)| && old(closed) <= closed
        invariant Undone(nodes) == Undone(old(nodes))
        decreases |nodes| - i
      {
        ghost var before := nodes;
        if nodes[i].res == 20 {
          CloseNode(i);
          UndoneRemoved(before, nodes, i);
        } else if nodes[i].inconsistent {
          CloseNode(i);
          UndoneRemoved(before, nodes, i);
        } else {
          i := i + 1;
        }
      }
      UndoneNone(nodes);
      UndoneNone(old(nodes));
      assert |nodes| > 0 ==> !Done(nodes[0]);
      assert |nodes| > 0 <==> Undone(nodes) != {};
      if |nodes| > 0 {
        res := 0;
      } else {
        res := 20;
        assert Cubes(nodes) == [];
        AllClosedUnsat(formula, closed);
      }
    }

    /** Sorting and random swapping exchange nodes and correct their positions. */
    method SwapNodes(i: nat, j: nat)
      requires Valid() && i < |nodes| && j < |nodes|
      modifies `nodes
      ensures Valid() && |nodes| == |old(nodes)|
      ensures nodes == old(nodes)[i := old(nodes[j]).(pos := i)][j := old(nodes[i]).(pos := j)]
    {
      ghost var before := nodes;
      PartitionSwap(Cubes(nodes), closed, i, j);
      assert Honest(formula, nodes[i]) && Honest(formula, nodes[j]);
      assert Honest(formula, nodes[i].(pos := j)) && Honest(formula, nodes[j].(pos := i));
      nodes := nodes[i := nodes[j].(pos := i)][j := nodes[i].(pos := j)];
      assert Cubes(nodes) == Cubes(before)[i := Cubes(before)[j]][j := Cubes(before)[i]];
    }

    /** What a job reports about its node. */
    method Report(i: nat, n: Node)
      requires Valid() && i < |nodes| && Honest(formula, n)
      requires n.pos == nodes[i].pos && n.id == nodes[i].id && n.cube == nodes[i].cube
      modifies `nodes
      ensures Valid() && nodes == old(nodes)[i := n]
    {
      ghost var before := nodes;
      nodes := nodes[i := n];
      assert Cubes(nodes) == Cubes(before);
    }

    /** Runs a job on every node without result. */
    method RunJobs(solvers: Solvers, phase: Phase, round: nat)
      requires Valid() && Correct(formula, solvers)
      modifies `nodes
      ensures Valid() && |nodes| == |old(nodes)|
      ensures JobsDone(old(nodes), nodes, solvers, phase, round)
    {
      for i := 0 to |nodes|
        invariant Valid() && |nodes| == |old(nodes)| && forall j :: i <= j < |nodes| ==> nodes[j] == old(nodes)[j]
        invariant forall j :: 0 <= j < i ==>
          nodes[j] == if old(nodes)[j].res == 0 && !old(nodes)[j].inconsistent
                      then AfterJob(old(nodes)[j], phase, solvers(phase, round, old(nodes)[j].cube)) else old(nodes)[j]
      {
        if nodes[i].res == 0 && !nodes[i].inconsistent {
          assert CorrectAt(formula, solvers, phase, round, nodes[i].cube);
          Report(i, AfterJob(nodes[i], phase, solvers(phase, round, nodes[i].cube)));
        }
      }
    }

    /** Lookahead literals of the round before are forgotten; then each job may find a new one. */
    method LookAhead(solvers: Solvers, round: nat)
      requires Valid() && Correct(formula, solvers)
      modifies `nodes
      ensures Valid() && |nodes| == |old(nodes)|
      ensures LookedAhead(old(nodes), nodes, solvers, round)
    {
      for i := 0 to |nodes|
        invariant Valid() && |nodes| == |old(nodes)| && forall j :: i <= j < |nodes| ==> nodes[j] == old(nodes)[j]
        invariant forall j :: 0 <= j < i ==> nodes[j] == old(nodes)[j].(lookahead := 0)
      {
        assert Honest(formula, nodes[i]);
        Report(i, nodes[i].(lookahead := 0));
      }
      RunJobs(solvers, LookingAhead, round);
    }

    /** Splits all undecided nodes that have a lookahead literal; the new nodes are not split again. */
    method Split()
      requires Valid()
      modifies `nodes, `ids
      ensures Valid() && |old(nodes)| <= |nodes| <= 2 * |old(nodes)|
      ensures SplitUpTo(old(nodes), nodes, |old(nodes)|)
    {
      hide Valid, SplitUpTo;
      var n := |nodes|;
      SplitNone(nodes);
      for i := 0 to n
        invariant Valid() && n <= |nodes| <= n + i && n == |old(nodes)| && SplitUpTo(old(nodes), nodes, i)
      {
        ghost var before := nodes;
        SplitNext(old(nodes), nodes, i);
        if nodes[i].res == 0 && !nodes[i].inconsistent && nodes[i].lookahead != 0 {
          SplitNode(i);
          SplitMore(old(nodes), before, nodes, i);
        } else {
          SplitLess(old(nodes), nodes, i);
        }
      }
    }

    /** Node results first, then that of the parallel solver. */
    method Finish(parallel: Parallel, round: nat) returns (res: int)
      requires Valid() && ParallelCorrect(formula, parallel)
      modifies `nodes, `leafs, `closed
      ensures Valid() && Right(formula, res) && Undone(nodes) == Undone(old(nodes)) && dequeued == old(dequeued)
      ensures Flushed(old(nodes), nodes) && forall i :: 0 <= i < |nodes| ==> !Done(nodes[i])
      ensures res == if |nodes| == 0 then 20 else if exists i :: 0 <= i < |nodes| && nodes[i].res == 10 then 10 else parallel(round, dequeued)
      ensures res ==
        if forall i :: 0 <= i < |old(nodes)| ==> Done(old(nodes)[i]) then 20
        else if exists i :: 0 <= i < |old(nodes)| && !Done(old(nodes)[i]) && old(nodes)[i].res == 10 then 10
        else parallel(round, old(dequeued))
    {
      res := Flush();
      SomeSatisfiable(old(nodes), nodes);
      if res == 0 {
        for i := 0 to |nodes|
          invariant res == 0 && forall j :: 0 <= j < i ==> nodes[j].res != 10
        {
          if nodes[i].res == 10 {
            assert Honest(formula, nodes[i]);
            return 10;
          }
        }
        res := parallel(round, dequeued);
        TakenImplied();
        ImpliedHarmless(formula, dequeued, res);
      }
    }

    /** Flushing loses no node with a model. */
    lemma SomeSatisfiable(before: seq<Node>, after: seq<Node>)
      requires Undone(after) == Undone(before) && forall i :: 0 <= i < |after| ==> !Done(after[i])
      ensures (exists i :: 0 <= i < |before| && !Done(before[i]) && before[i].res == 10) <==> exists i :: 0 <= i < |after| && after[i].res == 10
    {
      if i :| 0 <= i < |before| && !Done(before[i]) && before[i].res == 10 {
        assert before[i].(pos := 0) in Undone(after);
      }
      if i :| 0 <= i < |after| && after[i].res == 10 {
        assert after[i].(pos := 0) in Undone(before);
      }
    }

    /** The formula implies every leaf clause the parallel solver has taken. */
    lemma TakenImplied()
      requires Valid()
      ensures forall i, a: Assignment :: 0 <= i < |dequeued| && SatFormula(a, formula) ==> SatClause(a, dequeued[i])
    {
      forall i, a: Assignment | 0 <= i < |dequeued| && SatFormula(a, formula) ensures SatClause(a, dequeued[i]) {
        LeafImplied(dequeued + leafs, closed, formula, i);
        assert (dequeued + leafs)[i] == dequeued[i];
      }
    }

    /** The parallel solver takes some leaf clauses. */
    method Consume(n: nat)
      requires Valid()
      modifies `leafs, `dequeued
      ensures Valid()
    {
      for i := 0 to n
        invariant Valid()
      {
        var _, _ := DeqLeaf();
      }
    }

    /** The round loop; 0 if `rounds` rounds do not suffice.  The parallel solver takes any number of leaf
        clauses at any time.  `asked` are those it had taken whenever it was asked for its answer, and
        `open` the nodes that were open then. */
    method Solve(solvers: Solvers, parallel: Parallel, takes: nat -> nat, rounds: nat)
      returns (res: int, ghost asked: seq<seq<Cube>>, ghost open: seq<seq<Node>>)
      requires Valid() && Correct(formula, solvers) && ParallelCorrect(formula, parallel)
      modifies `nodes, `ids, `leafs, `closed, `dequeued
      ensures Valid() && Right(formula, res)
      ensures History(solvers, parallel, asked, open)
      ensures res == 0 ==> |asked| == |open| == rounds + 1 && nodes == open[rounds] && Pending(parallel, rounds, asked[rounds], open[rounds])
    {
      asked, open := [], [];
      hide Valid, Right, Undone, Done, Correct, ParallelCorrect, Flushed, JobsDone, NextRound, Pending, OneRound;
      assert History(solvers, parallel, asked, open);
      hide History;
      res := Flush();
      if res != 0 { return; }
      RunJobs(solvers, Searching, 0);
      for round := 0 to rounds
        invariant Valid() && res == 0 && |asked| == round
        invariant History(solvers, parallel, asked, open)
        invariant |open| == round
        invariant round > 0 ==> OneRound(solvers, round - 1, open[round - 1], nodes)
      {
        ghost var before := nodes;
        Consume(takes(round));
        res := Finish(parallel, round);
        if res != 0 { return; }
        StillPending(parallel, round);
        if round > 0 { RoundThenFlush(solvers, round - 1, open[round - 1], before, nodes); }
        HistoryMore(solvers, parallel, asked, open, dequeued, nodes);
        asked, open := asked + [dequeued], open + [nodes];
        res := Round(solvers, round);
        if res != 0 { return; }
      }
      ghost var before := nodes;
      Consume(takes(rounds));
      res := Finish(parallel, rounds);
      if res != 0 { return; }
      StillPending(parallel, rounds);
      if rounds > 0 { RoundThenFlush(solvers, rounds - 1, open[rounds - 1], before, nodes); }
      HistoryMore(solvers, parallel, asked, open, dequeued, nodes);
      asked, open := asked + [dequeued], open + [nodes];
    }

    lemma StillPending(parallel: Parallel, round: nat)
      requires forall i :: 0 <= i < |nodes| ==> !Done(nodes[i])
      requires 0 == if |nodes| == 0 then 20 else if exists i :: 0 <= i < |nodes| && nodes[i].res == 10 then 10 else parallel(round, dequeued)
      ensures Pending(parallel, round, dequeued, nodes)
    {}

    /** Simplification, lookahead, splitting and search. */
    method Round(solvers: Solvers, round: nat) returns (res: int)
      requires Valid() && Correct(formula, solvers)
      modifies `nodes, `ids, `leafs, `closed
      ensures Valid() && Right(formula, res) && (res == 0 || res == 20)
      ensures res == 0 ==> OneRound(solvers, round, old(nodes), nodes)
    {
      hide Valid, Right, Undone, Done, Correct, SplitUpTo, JobsDone, LookedAhead, Flushed;
      RunJobs(solvers, Simplifying, round);
      ghost var s1 := nodes;
      res := Flush();
      if res != 0 { return; }
      ghost var s2 := nodes;
      LookAhead(solvers, round);
      ghost var s3 := nodes;
      Split();
      ghost var s4 := nodes;
      RunJobs(solvers, Splitting, round);
      ghost var s5 := nodes;
      res := Flush();
      if res != 0 { return; }
      ghost var s6 := nodes;
      RunJobs(solvers, Searching, round + 1);
      assert Stages(solvers, round, old(nodes), s1, s2, s3, s4, s5, s6, nodes);
    }

    /** The parallel solver takes the oldest leaf clause; no model of the formula is lost by it. */
    method DeqLeaf() returns (found: bool, clause: Cube)
      requires Valid()
      modifies `leafs, `dequeued
      ensures Valid() && (found <==> |old(leafs)| > 0)
      ensures found ==> old(leafs) == [clause] + leafs
      ensures found ==> forall a: Assignment :: SatFormula(a, formula) ==> SatClause(a, clause)
    {
      found, clause := |leafs| > 0, [];
      if found {
        clause := leafs[0];
        LeafImplied(dequeued + leafs, closed, formula, |dequeued|);
        assert dequeued + leafs == (dequeued + [leafs[0]]) + leafs[1..];
        dequeued := dequeued + [leafs[0]];
        leafs := leafs[1..];
      }
    }
  }

  /** The leaf clauses are the negated closed cubes, in order. */
  ghost predicate LeavesOf(clauses: seq<Cube>, closed: seq<Cube>) {
    |clauses| == |closed| && forall i :: 0 <= i < |closed| ==> clauses[i] == Negated(closed[i])
  }

  lemma LeafImplied(clauses: seq<Cube>, closed: seq<Cube>, f: seq<Cube>, i: nat)
    requires LeavesOf(clauses, closed) && i < |clauses| && NonZero(closed[i]) && Refuted(f, closed[i])
    ensures forall a: Assignment :: SatFormula(a, f) ==> SatClause(a, clauses[i])
  {
    forall a: Assignment | SatFormula(a, f) ensures SatClause(a, clauses[i]) {
      LeafClauseExcludes(a, closed[i]);
    }
  }
}
