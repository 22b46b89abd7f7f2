/** `aiger_check_for_cycles`: depth-first search with an explicit stack and two flags. */
module CycleCheck {
  import opened Aiger
  import opened Graph

  /** A 0 on the stack marks the variable below it as being expanded. */
  predicate Marker(stack: seq<nat>, j: int) {
    0 < j < |stack| && stack[j] == 0 && stack[j - 1] != 0
  }

  ghost predicate Shape(m: Model, stack: seq<nat>) {
    && (forall k :: 0 <= k < |stack| && stack[k] == 0 ==> Marker(stack, k))
    && (forall k :: 0 <= k < |stack| ==> stack[k] <= m.maxvar)
  }

  /** Variables below a marker reach everything above it. */
  ghost predicate Linked(m: Model, types: seq<Kind>, stack: seq<nat>) {
    forall j, k :: Marker(stack, j) && j < k < |stack| && stack[k] != 0 ==> Reaches(m, types, stack[j - 1], stack[k])
  }

  /** No variable is being expanded twice. */
  ghost predicate Distinct(stack: seq<nat>) {
    forall i, j :: Marker(stack, i) && Marker(stack, j) && i < j ==> stack[i - 1] != stack[j - 1]
  }

  ghost predicate Flags(m: Model, types: seq<Kind>, mark: seq<bool>, onstack: seq<bool>, stack: seq<nat>, order: seq<nat>) {
    && |mark| == |onstack| == |types| == m.maxvar + 1
    && (forall j :: Marker(stack, j) && stack[j - 1] <= m.maxvar ==> onstack[stack[j - 1]])
    && (forall v :: 0 <= v < |types| && onstack[v] ==> mark[v] && exists j :: Marker(stack, j) && stack[j - 1] == v)
    && (forall v :: 0 <= v < |types| ==> (v in order <==> mark[v] && !onstack[v]))
    && (forall v :: 0 <= v < |types| && mark[v] ==> types[v].AndKind?)
    && (forall i :: 0 <= i < |order| ==> order[i] <= m.maxvar)
  }

  /** Every operand gate of a variable being expanded is finished or still above its marker. */
  ghost predicate Pending(m: Model, types: seq<Kind>, stack: seq<nat>, order: seq<nat>) {
    forall j: nat, c: nat :: Marker(stack, j) && Child(m, types, stack[j - 1], c) && c < |types| && types[c].AndKind? ==>
      c in order || Above(stack, j, c)
  }

  predicate Above(stack: seq<nat>, j: nat, c: nat) {
    exists k :: j < k < |stack| && stack[k] == c
  }

  /** Finished gates come after their operands. */
  ghost predicate Finished(m: Model, types: seq<Kind>, order: seq<nat>) {
    && (forall i, j :: 0 <= i < j < |order| ==> order[i] != order[j])
    && forall i: nat, c: nat :: 0 <= i < |order| && Child(m, types, order[i], c) && c < |types| && types[c].AndKind? ==>
         c in order[..i]
  }

  ghost predicate Invariant(m: Model, types: seq<Kind>, mark: seq<bool>, onstack: seq<bool>, stack: seq<nat>, order: seq<nat>) {
    && Typed(m, types)
    && Shape(m, stack)
    && Linked(m, types, stack)
    && Distinct(stack)
    && Flags(m, types, mark, onstack, stack, order)
    && Pending(m, types, stack, order)
    && Finished(m, types, order)
  }

  lemma PrefixMarkers(stack: seq<nat>, n: nat)
    requires n <= |stack|
    ensures forall j :: Marker(stack[..n], j) <==> Marker(stack, j) && j < n
  {}

  /** A variable that is being expanded and met again closes a cycle. */
  lemma MetAgain(m: Model, types: seq<Kind>, mark: seq<bool>, onstack: seq<bool>, stack: seq<nat>, order: seq<nat>)
    requires Invariant(m, types, mark, onstack, stack, order)
    requires |stack| > 0 && stack[|stack| - 1] != 0 && onstack[stack[|stack| - 1]]
    ensures Cyclic(m, types)
  {
    var v := stack[|stack| - 1];
    var j :| Marker(stack, j) && stack[j - 1] == v;
    assert Reaches(m, types, stack[j - 1], stack[|stack| - 1]);
  }

  /** Dropping a top entry that is no gate or already finished. */
  lemma Drop(m: Model, types: seq<Kind>, mark: seq<bool>, onstack: seq<bool>, stack: seq<nat>, order: seq<nat>)
    requires Invariant(m, types, mark, onstack, stack, order)
    requires |stack| > 0 && stack[|stack| - 1] != 0
    requires var v := stack[|stack| - 1]; !types[v].AndKind? || (mark[v] && !onstack[v])
    ensures Invariant(m, types, mark, onstack, stack[..|stack| - 1], order)
  {
    var n := |stack| - 1;
    var rest := stack[..n];
    PrefixMarkers(stack, n);
    forall v | 0 <= v < |types| && onstack[v] ensures exists j :: Marker(rest, j) && rest[j - 1] == v {
      var j :| Marker(stack, j) && stack[j - 1] == v;
      assert Marker(rest, j) && rest[j - 1] == v;
    }
    forall j: nat, c: nat | Marker(rest, j) && Child(m, types, rest[j - 1], c) && c < |types| && types[c].AndKind?
      ensures c in order || Above(rest, j, c)
    {
      assert Marker(stack, j);
      if c !in order {
        var k :| j < k < |stack| && stack[k] == c;
        assert rest[k] == c;
      }
    }
  }

  /** The operands that are pushed above the marker of gate `v`. */
  function Operands(m: Model, i: nat): seq<nat>
    requires i < |m.ands|
  {
    (if m.ands[i].rhs0 / 2 != 0 then [m.ands[i].rhs0 / 2] else [])
    + (if m.ands[i].rhs1 / 2 != 0 then [m.ands[i].rhs1 / 2] else [])
  }

  lemma ExpandMarkers(stack: seq<nat>, ops: seq<nat>)
    requires |stack| > 0 && stack[|stack| - 1] != 0 && 0 !in ops
    ensures forall j :: Marker(stack + [0] + ops, j) <==> Marker(stack, j) || j == |stack|
  {
    var s := stack + [0] + ops;
    assert forall j :: |stack| < j < |s| ==> s[j] in ops;
  }

  /** Prefix code: expanding the unmarked gate on top. */
  lemma Expand(m: Model, types: seq<Kind>, mark: seq<bool>, onstack: seq<bool>, stack: seq<nat>, order: seq<nat>)
    requires Invariant(m, types, mark, onstack, stack, order)
    requires |stack| > 0 && stack[|stack| - 1] != 0
    requires var v := stack[|stack| - 1]; types[v].AndKind? && !mark[v]
    ensures var v := stack[|stack| - 1];
      && types[v].idx < |m.ands|
      && Invariant(m, types, mark[v := true], onstack[v := true], stack + [0] + Operands(m, types[v].idx), order)
  {
    var v := stack[|stack| - 1];
    assert KindInRange(m, types[v], v);
    var ops := Operands(m, types[v].idx);
    assert forall c :: c in ops ==> Child(m, types, v, c) && c <= m.maxvar;
    ExpandMarkers(stack, ops);
    ExpandShape(m, stack, ops);
    ExpandLinked(m, types, stack, ops);
    ExpandFlags(m, types, mark, onstack, stack, order, ops);
    ExpandPending(m, types, stack, order, ops);
  }

  lemma ExpandShape(m: Model, stack: seq<nat>, ops: seq<nat>)
    requires Shape(m, stack) && |stack| > 0 && stack[|stack| - 1] != 0 && 0 !in ops
    requires forall c :: c in ops ==> c <= m.maxvar
    ensures Shape(m, stack + [0] + ops)
  {
    var s := stack + [0] + ops;
    ExpandMarkers(stack, ops);
    forall k | 0 <= k < |s| ensures s[k] <= m.maxvar && (s[k] == 0 ==> Marker(s, k)) {
      if k > |stack| { assert s[k] in ops; }
    }
  }

  lemma ExpandFlags(m: Model, types: seq<Kind>, mark: seq<bool>, onstack: seq<bool>, stack: seq<nat>, order: seq<nat>, ops: seq<nat>)
    requires Flags(m, types, mark, onstack, stack, order) && Distinct(stack) && Shape(m, stack)
    requires |stack| > 0 && stack[|stack| - 1] != 0 && 0 !in ops
    requires var v := stack[|stack| - 1]; v <= m.maxvar && types[v].AndKind? && !mark[v]
    ensures var v := stack[|stack| - 1];
      Flags(m, types, mark[v := true], onstack[v := true], stack + [0] + ops, order) && Distinct(stack + [0] + ops)
  {
    var v, n, s := stack[|stack| - 1], |stack|, stack + [0] + ops;
    var onstack' := onstack[v := true];
    ExpandMarkers(stack, ops);
    forall u | 0 <= u < |types| && onstack'[u] ensures exists j :: Marker(s, j) && s[j - 1] == u {
      if u == v {
        assert Marker(s, n) && s[n - 1] == v;
      } else {
        var j :| Marker(stack, j) && stack[j - 1] == u;
        assert Marker(s, j) && s[j - 1] == u;
      }
    }
    forall j | Marker(s, j) ensures onstack'[s[j - 1]] && (j != n ==> s[j - 1] != v) {
      if j != n { assert Marker(stack, j); }
    }
  }

  lemma ExpandLinked(m: Model, types: seq<Kind>, stack: seq<nat>, ops: seq<nat>)
    requires Linked(m, types, stack) && |stack| > 0 && stack[|stack| - 1] != 0 && 0 !in ops
    requires forall c :: c in ops ==> Child(m, types, stack[|stack| - 1], c)
    ensures Linked(m, types, stack + [0] + ops)
  {
    var s, n, v := stack + [0] + ops, |stack|, stack[|stack| - 1];
    ExpandMarkers(stack, ops);
    forall j, k | Marker(s, j) && j < k < |s| && s[k] != 0 ensures Reaches(m, types, s[j - 1], s[k]) {
      if k < n {
        assert Marker(stack, j);
      } else {
        assert s[k] in ops;
        if j == n {
          ReachesChild(m, types, v, s[k]);
        } else {
          assert Reaches(m, types, stack[j - 1], stack[n - 1]);
          ReachesStep(m, types, s[j - 1], v, s[k]);
        }
      }
    }
  }

  lemma ExpandPending(m: Model, types: seq<Kind>, stack: seq<nat>, order: seq<nat>, ops: seq<nat>)
    requires Pending(m, types, stack, order) && |stack| > 0 && stack[|stack| - 1] != 0 && 0 !in ops
    requires forall c: nat :: Child(m, types, stack[|stack| - 1], c) && c < |types| && types[c].AndKind? ==> c in ops
    ensures Pending(m, types, stack + [0] + ops, order)
  {
    var s, n := stack + [0] + ops, |stack|;
    ExpandMarkers(stack, ops);
    forall j: nat, c: nat | Marker(s, j) && Child(m, types, s[j - 1], c) && c < |types| && types[c].AndKind?
      ensures c in order || Above(s, j, c)
    {
      if j == n {
        assert c in ops;
        var x :| 0 <= x < |ops| && ops[x] == c;
        assert s[n + 1 + x] == c;
      } else if c !in order {
        assert Marker(stack, j) && s[j - 1] == stack[j - 1];
        var k :| j < k < |stack| && stack[k] == c;
        assert s[k] == c;
      }
    }
  }

  /** Postfix code: the gate below the marker on top is finished. */
  lemma Finish(m: Model, types: seq<Kind>, mark: seq<bool>, onstack: seq<bool>, stack: seq<nat>, order: seq<nat>)
    requires Invariant(m, types, mark, onstack, stack, order)
    requires |stack| > 0 && stack[|stack| - 1] == 0
    ensures |stack| >= 2 && stack[|stack| - 2] != 0 && stack[|stack| - 2] <= m.maxvar
    ensures var v := stack[|stack| - 2];
      && mark[v] && onstack[v]
      && Invariant(m, types, mark, onstack[v := false], stack[..|stack| - 2], order + [v])
  {
    assert Marker(stack, |stack| - 1);
    PrefixMarkers(stack, |stack| - 2);
    FinishFlags(m, types, mark, onstack, stack, order);
    FinishPending(m, types, stack, order);
    FinishOrder(m, types, stack, order);
  }

  lemma FinishFlags(m: Model, types: seq<Kind>, mark: seq<bool>, onstack: seq<bool>, stack: seq<nat>, order: seq<nat>)
    requires Flags(m, types, mark, onstack, stack, order) && Distinct(stack) && Shape(m, stack)
    requires |stack| >= 2 && Marker(stack, |stack| - 1)
    ensures var v := stack[|stack| - 2];
      && v <= m.maxvar && mark[v] && onstack[v]
      && Flags(m, types, mark, onstack[v := false], stack[..|stack| - 2], order + [v])
      && Distinct(stack[..|stack| - 2])
  {
    var n := |stack|;
    var v, rest := stack[n - 2], stack[..n - 2];
    PrefixMarkers(stack, n - 2);
    var onstack' := onstack[v := false];
    forall j | Marker(rest, j) ensures onstack'[rest[j - 1]] {
      assert Marker(stack, j);
    }
    forall u | 0 <= u < |types| && onstack'[u] ensures exists j :: Marker(rest, j) && rest[j - 1] == u {
      var j :| Marker(stack, j) && stack[j - 1] == u;
      assert Marker(rest, j) && rest[j - 1] == u;
    }
  }

  lemma FinishPending(m: Model, types: seq<Kind>, stack: seq<nat>, order: seq<nat>)
    requires Pending(m, types, stack, order) && |stack| >= 2 && Marker(stack, |stack| - 1)
    ensures Pending(m, types, stack[..|stack| - 2], order + [stack[|stack| - 2]])
  {
    var n := |stack|;
    var v, rest := stack[n - 2], stack[..n - 2];
    PrefixMarkers(stack, n - 2);
    forall j: nat, c: nat | Marker(rest, j) && Child(m, types, rest[j - 1], c) && c < |types| && types[c].AndKind?
      ensures c in order + [v] || Above(rest, j, c)
    {
      assert Marker(stack, j);
      if c !in order && c != v {
        var k :| j < k < |stack| && stack[k] == c;
        assert rest[k] == c;
      }
    }
  }

  lemma FinishOrder(m: Model, types: seq<Kind>, stack: seq<nat>, order: seq<nat>)
    requires Pending(m, types, stack, order) && Finished(m, types, order)
    requires |stack| >= 2 && Marker(stack, |stack| - 1) && stack[|stack| - 2] !in order
    ensures Finished(m, types, order + [stack[|stack| - 2]])
  {
    var n := |stack|;
    var v := stack[n - 2];
    var longer := order + [v];
    forall i: nat, c: nat | i < |longer| && Child(m, types, longer[i], c) && c < |types| && types[c].AndKind?
      ensures c in longer[..i]
    {
      if i < |order| {
        assert longer[..i] == order[..i];
      } else {
        assert !Above(stack, n - 1, c);
        assert longer[..i] == order;
      }
    }
  }

  /** What the search leaves behind when it reports no error. */
  ghost predicate Complete(m: Model, types: seq<Kind>, order: seq<nat>, n: nat) {
    forall v :: 1 <= v < n && v < |types| && types[v].AndKind? ==> v in order
  }

  /** The position of a gate in the finishing order, counted from 1; other variables get 0. */
  ghost function Position(order: seq<nat>, v: nat): nat {
    if v in order then (var i :| 0 <= i < |order| && order[i] == v; i + 1) else 0
  }

  ghost function RankOf(order: seq<nat>, n: nat): (rank: seq<nat>)
    ensures |rank| == n && forall v :: 0 <= v < n ==> rank[v] == Position(order, v)
  {
    seq(n, v requires v >= 0 => Position(order, v))
  }

  lemma FinishedIsRanked(m: Model, types: seq<Kind>, order: seq<nat>)
    requires Typed(m, types) && Finished(m, types, order) && Complete(m, types, order, |types|)
    requires forall i :: 0 <= i < |order| ==> order[i] < |types| && types[order[i]].AndKind?
    ensures Ranked(m, types, RankOf(order, |types|))
  {
    var rank := RankOf(order, |types|);
    forall p: nat, c: nat | Child(m, types, p, c) && c < |types| ensures rank[c] < rank[p] {
      assert KindInRange(m, types[p], p) && p != 0;
      assert p in order;
      var i := rank[p] - 1;
      assert order[i] == p;
      if types[c].AndKind? {
        assert c in order[..i];
        var j :| 0 <= j < i && order[j] == c;
        assert c in order;
        assert rank[c] == j + 1;
      }
    }
  }

  /** The search.  It reports an error exactly when some gate depends on itself; otherwise the
      gates can be ranked so that operands come first. */
  method CheckForCycles(m: Model, types: seq<Kind>, mark: array<bool>, onstack: array<bool>)
    returns (error: bool, ghost rank: seq<nat>)
    requires Typed(m, types) && mark != onstack
    requires mark.Length == onstack.Length == m.maxvar + 1
    requires forall v :: 0 <= v < mark.Length ==> !mark[v] && !onstack[v]
    modifies mark, onstack
    ensures error <==> Cyclic(m, types)
    ensures !error ==> Ranked(m, types, rank)
  {
    ghost var order: seq<nat> := [];
    rank := [];
    var i := 1;
    while i <= m.maxvar
      invariant 1 <= i <= m.maxvar + 1
      invariant Invariant(m, types, mark[..], onstack[..], [], order)
      invariant Complete(m, types, order, i)
    {
      if types[i].AndKind? && !mark[i] {
        error, order := Search(m, types, mark, onstack, i, order);
        if error {
          return;
        }
      }
      assert forall v :: 0 <= v < |types| && onstack[..][v] ==> exists j :: Marker([], j);
      i := i + 1;
    }
    error := false;
    rank := RankOf(order, |types|);
    FinishedIsRanked(m, types, order);
    RankedIsAcyclic(m, types, rank);
  }

  ghost function White(mark: seq<bool>): set<nat> {
    set v: nat | v < |mark| && !mark[v]
  }

  lemma WhiteShrinks(mark: seq<bool>, v: nat)
    requires v < |mark| && !mark[v]
    ensures White(mark[v := true]) < White(mark)
  {
    assert v in White(mark) && v !in White(mark[v := true]);
  }

  /** The traversal from one gate. */
  method Search(m: Model, types: seq<Kind>, mark: array<bool>, onstack: array<bool>, root: nat, ghost order0: seq<nat>)
    returns (error: bool, ghost order: seq<nat>)
    requires mark != onstack && root <= m.maxvar && root != 0
    requires Invariant(m, types, mark[..], onstack[..], [], order0)
    requires types[root].AndKind?
    modifies mark, onstack
    ensures error ==> Cyclic(m, types)
    ensures !error ==> Invariant(m, types, mark[..], onstack[..], [], order)
    ensures !error ==> root in order && order0 <= order
  {
    error, order := false, order0;
    var stack := [root];
    assert forall j :: !Marker([root], j) && !Marker([], j);
    while stack != []
      invariant Invariant(m, types, mark[..], onstack[..], stack, order)
      invariant mark.Length == onstack.Length == m.maxvar + 1
      invariant order0 <= order
      invariant stack == [] ==> root in order
      invariant stack != [] ==> stack[0] == root
      invariant |stack| >= 1 && root !in order ==> stack[0] == root
      decreases White(mark[..]), |stack|
    {
      var j := stack[|stack| - 1];
      if j != 0 {
        if mark[j] && onstack[j] {
          MetAgain(m, types, mark[..], onstack[..], stack, order);
          error := true;
          return;
        }
        if !types[j].AndKind? || mark[j] {
          Drop(m, types, mark[..], onstack[..], stack, order);
          stack := stack[..|stack| - 1];
        } else {
          Expand(m, types, mark[..], onstack[..], stack, order);
          WhiteShrinks(mark[..], j);
          ghost var mark0, onstack0 := mark[..], onstack[..];
          mark[j] := true;
          onstack[j] := true;
          assert mark[..] == mark0[j := true] && onstack[..] == onstack0[j := true];
          stack := stack + [0] + Operands(m, types[j].idx);
        }
      } else {
        Finish(m, types, mark[..], onstack[..], stack, order);
        j := stack[|stack| - 2];
        ghost var onstack0 := onstack[..];
        onstack[j] := false;
        assert onstack[..] == onstack0[j := false];
        order := order + [j];
        stack := stack[..|stack| - 2];
      }
    }
  }
}
