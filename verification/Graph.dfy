/** The AND graph of a model that need not be re-encoded: variable types, reachability along
    operands, and cycles. */
module Graph {
  import opened Aiger

  /** The library's type record of a variable: what defines it, and at which index. */
  datatype Kind = Undefined | InputKind(idx: nat) | LatchKind(idx: nat) | AndKind(idx: nat)

  /** The type records describe the model: each variable is defined at most once. */
  ghost predicate Typed(m: Model, types: seq<Kind>) {
    && InRange(m)
    && |types| == m.maxvar + 1 && types[0] == Undefined
    && (forall i :: 0 <= i < |m.inputs| ==> m.inputs[i] % 2 == 0 && types[m.inputs[i] / 2] == InputKind(i))
    && (forall i :: 0 <= i < |m.latches| ==> m.latches[i].lit % 2 == 0 && types[m.latches[i].lit / 2] == LatchKind(i))
    && (forall i :: 0 <= i < |m.ands| ==> m.ands[i].lhs % 2 == 0 && types[m.ands[i].lhs / 2] == AndKind(i))
    && (forall v :: 0 <= v < |types| ==> KindInRange(m, types[v], v))
  }

  predicate KindInRange(m: Model, k: Kind, v: nat) {
    match k
    case Undefined => true
    case InputKind(i) => i < |m.inputs| && m.inputs[i] == 2 * v
    case LatchKind(i) => i < |m.latches| && m.latches[i].lit == 2 * v
    case AndKind(i) => i < |m.ands| && m.ands[i].lhs == 2 * v
  }

  /** The two operand variables of a gate. */
  predicate Child(m: Model, types: seq<Kind>, p: nat, c: nat) {
    && p < |types| && types[p].AndKind? && types[p].idx < |m.ands|
    && c != 0
    && (c == m.ands[types[p].idx].rhs0 / 2 || c == m.ands[types[p].idx].rhs1 / 2)
  }

  /** A walk along operands. */
  ghost predicate Walk(m: Model, types: seq<Kind>, path: seq<nat>) {
    forall i :: 0 <= i < |path| - 1 ==> Child(m, types, path[i], path[i + 1])
  }

  /** `b` is an operand of an operand ... of `a`, in at least one step. */
  ghost predicate Reaches(m: Model, types: seq<Kind>, a: nat, b: nat) {
    exists path :: |path| >= 2 && Walk(m, types, path) && path[0] == a && path[|path| - 1] == b
  }

  lemma ReachesChild(m: Model, types: seq<Kind>, a: nat, b: nat)
    requires Child(m, types, a, b)
    ensures Reaches(m, types, a, b)
  {
    assert Walk(m, types, [a, b]);
  }

  lemma ReachesStep(m: Model, types: seq<Kind>, a: nat, b: nat, c: nat)
    requires Reaches(m, types, a, b) && Child(m, types, b, c)
    ensures Reaches(m, types, a, c)
  {
    var path :| |path| >= 2 && Walk(m, types, path) && path[0] == a && path[|path| - 1] == b;
    var longer := path + [c];
    forall i | 0 <= i < |longer| - 1 ensures Child(m, types, longer[i], longer[i + 1]) {
      if i < |path| - 1 { assert Child(m, types, path[i], path[i + 1]); }
    }
    assert Walk(m, types, longer);
  }

  ghost predicate Cyclic(m: Model, types: seq<Kind>) {
    exists v: nat :: Reaches(m, types, v, v)
  }

  /** A ranking that decreases from every gate to its operands. */
  ghost predicate Ranked(m: Model, types: seq<Kind>, rank: seq<nat>) {
    && |rank| == |types|
    && forall p: nat, c: nat :: Child(m, types, p, c) && c < |rank| ==> rank[c] < rank[p]
  }

  lemma {:induction false} WalkDescends(m: Model, types: seq<Kind>, rank: seq<nat>, path: seq<nat>)
    requires Typed(m, types) && Ranked(m, types, rank) && |path| >= 2 && Walk(m, types, path)
    ensures path[0] < |rank| && path[|path| - 1] < |rank| && rank[path[|path| - 1]] < rank[path[0]]
  {
    var n := |path|;
    assert Child(m, types, path[n - 2], path[n - 1]);
    assert path[n - 1] < |rank|;
    if n > 2 {
      var init := path[..n - 1];
      forall i | 0 <= i < |init| - 1 ensures Child(m, types, init[i], init[i + 1]) {
        assert Child(m, types, path[i], path[i + 1]);
      }
      WalkDescends(m, types, rank, init);
    }
  }

  lemma RankedIsAcyclic(m: Model, types: seq<Kind>, rank: seq<nat>)
    requires Typed(m, types) && Ranked(m, types, rank)
    ensures !Cyclic(m, types)
  {
    forall v: nat ensures !Reaches(m, types, v, v) {
      forall path | |path| >= 2 && Walk(m, types, path) ensures path[0] != path[|path| - 1] {
        WalkDescends(m, types, rank, path);
      }
    }
  }
}
