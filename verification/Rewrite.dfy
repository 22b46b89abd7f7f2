/** The rewriting AND constructor of `smvtoaig`: local simplification rules, a restart loop, and
    hash consing.

    A reference is a nonzero integer: 1 is TRUE, -1 is FALSE, and node `i` is `i + 2`; negation
    flips the sign, as the source does with addresses.  A rule that does not apply yields 0. */
module Rewrite {

  type Ref = int

  const TRUE: Ref := 1
  const FALSE: Ref := -1

  /** A variable in a time slice, or the conjunction of two references. */
  datatype Node = VarNode(symbol: nat, slice: nat) | AndNode(c0: Ref, c1: Ref)

  /** Whether the constructor tries again with other operands. */
  datatype Retry = Settled | Again(a: Ref, b: Ref)

  function Abs(r: Ref): nat {
    if r < 0 then -r else r
  }

  function RefOf(i: nat): Ref {
    i + 2
  }

  predicate ValidRef(n: nat, r: Ref) {
    1 <= Abs(r) < n + 2
  }

  predicate IsNode(n: nat, r: Ref) {
    2 <= Abs(r) < n + 2
  }

  function NodeOf(nodes: seq<Node>, r: Ref): Node
    requires IsNode(|nodes|, r)
  {
    nodes[Abs(r) - 2]
  }

  /** Children precede their parents and are no constants. */
  ghost predicate WellFormed(nodes: seq<Node>) {
    forall i :: 0 <= i < |nodes| && nodes[i].AndNode? ==> IsNode(i, nodes[i].c0) && IsNode(i, nodes[i].c1)
  }

  // ----- Meaning ---------------------------------------------------------------------------

  type Env = (nat, nat) -> bool

  ghost predicate Eval(nodes: seq<Node>, env: Env, r: Ref)
    requires WellFormed(nodes) && ValidRef(|nodes|, r)
    decreases Abs(r), r < 0
  {
    if r < 0 then !Eval(nodes, env, -r)
    else if r == TRUE then true
    else
      match nodes[r - 2]
      case VarNode(s, l) => env(s, l)
      case AndNode(c0, c1) => Eval(nodes, env, c0) && Eval(nodes, env, c1)
  }

  // ----- The rules -------------------------------------------------------------------------

  function OneLevel(a: Ref, b: Ref): int {
    if a == FALSE || b == FALSE then FALSE
    else if b == TRUE || a == b then a
    else if a == TRUE then b
    else if a == -b then FALSE
    else 0
  }

  function Child0(nodes: seq<Node>, r: Ref): Ref
    requires r > 0 && IsNode(|nodes|, r)
  {
    match NodeOf(nodes, r) case VarNode(_, _) => r case AndNode(c0, _) => c0
  }

  function Child1(nodes: seq<Node>, r: Ref): Ref
    requires r > 0 && IsNode(|nodes|, r)
  {
    match NodeOf(nodes, r) case VarNode(_, _) => r case AndNode(_, c1) => c1
  }

  /** The asymmetric rules on the structure of `x`: contradiction, idempotence, subsumption. */
  function Asymmetric(nodes: seq<Node>, x: Ref, other: Ref): int
    requires IsNode(|nodes|, x)
  {
    if x > 0 then
      var x0, x1 := Child0(nodes, x), Child1(nodes, x);
      if x0 == -other || x1 == -other then FALSE
      else if x0 == other || x1 == other then x
      else 0
    else
      var x0, x1 := Child0(nodes, -x), Child1(nodes, -x);
      if x0 == -other || x1 == -other then other else 0
  }

  /** The symmetric rules: contradiction, subsumption, resolution. */
  function Symmetric(nodes: seq<Node>, a: Ref, b: Ref): int
    requires IsNode(|nodes|, a) && IsNode(|nodes|, b)
  {
    var a0, a1 := Child0(nodes, Abs(a)), Child1(nodes, Abs(a));
    var b0, b1 := Child0(nodes, Abs(b)), Child1(nodes, Abs(b));
    var clash := a0 == -b0 || a0 == -b1 || a1 == -b0 || a1 == -b1;
    if a > 0 && b > 0 then
      if clash then FALSE else 0
    else if a < 0 && b > 0 then
      if clash then b else 0
    else if a > 0 && b < 0 then
      if clash then a else 0
    else
      if a0 == b0 && a1 == -b1 then -a0
      else if a0 == b1 && a1 == -b0 then -a0
      else if a1 == b0 && a0 == -b1 then -a1
      else if a1 == b1 && a0 == -b0 then -a1
      else 0
  }

  function TwoLevel(nodes: seq<Node>, a: Ref, b: Ref): int
    requires IsNode(|nodes|, a) && IsNode(|nodes|, b)
  {
    var x := Asymmetric(nodes, a, b);
    if x != 0 then x
    else
      var y := Asymmetric(nodes, b, a);
      if y != 0 then y else Symmetric(nodes, a, b)
  }

  /** The operand that replaces the negated conjunction `-n` next to `other`, or 0. */
  function Residue(nodes: seq<Node>, n: Ref, other: Ref): int
    requires n > 0 && IsNode(|nodes|, n)
  {
    match NodeOf(nodes, n)
    case VarNode(_, _) => 0
    case AndNode(c0, c1) => if c0 == other then -c1 else if c1 == other then -c0 else 0
  }

  /** The same, next to a conjunction `p` that contains the removed child. */
  function ResidueOfPair(nodes: seq<Node>, n: Ref, p: Ref): int
    requires n > 0 && IsNode(|nodes|, n) && p > 0 && IsNode(|nodes|, p)
  {
    match (NodeOf(nodes, n), NodeOf(nodes, p))
    case (AndNode(c0, c1), AndNode(d0, d1)) =>
      if c0 == d0 || c0 == d1 then -c1
      else if c1 == d0 || c1 == d1 then -c0
      else 0
    case _ => 0
  }

  /** The remaining child of conjunction `a` when it shares one with conjunction `b`, or 0. */
  function Shared(nodes: seq<Node>, a: Ref, b: Ref): int
    requires a > 0 && IsNode(|nodes|, a) && b > 0 && IsNode(|nodes|, b)
  {
    match (NodeOf(nodes, a), NodeOf(nodes, b))
    case (AndNode(a0, a1), AndNode(b0, b1)) =>
      if a0 == b0 || a0 == b1 then a1
      else if a1 == b0 || a1 == b1 then a0
      else 0
    case _ => 0
  }

  /** What a negated operand `x` becomes next to `other`: asymmetric substitution. */
  function Substituted(nodes: seq<Node>, x: Ref, other: Ref): int
    requires IsNode(|nodes|, x)
  {
    if x < 0 then Residue(nodes, -x, other) else 0
  }

  /** What a negated operand `x` becomes next to a conjunction: symmetric substitution. */
  function SubstitutedByPair(nodes: seq<Node>, x: Ref, other: Ref): int
    requires IsNode(|nodes|, x) && IsNode(|nodes|, other)
  {
    if x < 0 && other > 0 then ResidueOfPair(nodes, -x, other) else 0
  }

  function Merged(nodes: seq<Node>, a: Ref, b: Ref): int
    requires IsNode(|nodes|, a) && IsNode(|nodes|, b)
  {
    if a > 0 && b > 0 then Shared(nodes, a, b) else 0
  }

  /** One restart: the operands to try again with, if a rule of level 3 or 4 applies. */
  function Restart(nodes: seq<Node>, optimize: nat, a: Ref, b: Ref): Retry
    requires IsNode(|nodes|, a) && IsNode(|nodes|, b)
  {
    if optimize < 3 then Settled
    else if Substituted(nodes, a, b) != 0 then Again(Substituted(nodes, a, b), b)
    else if Substituted(nodes, b, a) != 0 then Again(a, Substituted(nodes, b, a))
    else if SubstitutedByPair(nodes, b, a) != 0 then Again(a, SubstitutedByPair(nodes, b, a))
    else if SubstitutedByPair(nodes, a, b) != 0 then Again(SubstitutedByPair(nodes, a, b), b)
    else if optimize >= 4 && Merged(nodes, a, b) != 0 then Again(Merged(nodes, a, b), b)
    else Settled
  }

  // ----- Each rule keeps the conjunction ----------------------------------------------------

  lemma OneLevelSound(nodes: seq<Node>, env: Env, a: Ref, b: Ref)
    requires WellFormed(nodes) && ValidRef(|nodes|, a) && ValidRef(|nodes|, b) && OneLevel(a, b) != 0
    ensures ValidRef(|nodes|, OneLevel(a, b))
    ensures Eval(nodes, env, OneLevel(a, b)) <==> Eval(nodes, env, a) && Eval(nodes, env, b)
  {}

  lemma OneLevelLeavesNodes(n: nat, a: Ref, b: Ref)
    requires ValidRef(n, a) && ValidRef(n, b) && OneLevel(a, b) == 0
    ensures IsNode(n, a) && IsNode(n, b)
  {}

  lemma NegEval(nodes: seq<Node>, env: Env, r: Ref)
    requires WellFormed(nodes) && ValidRef(|nodes|, r)
    ensures Eval(nodes, env, -r) == !Eval(nodes, env, r)
  {}

  lemma ChildrenEval(nodes: seq<Node>, env: Env, r: Ref)
    requires WellFormed(nodes) && r > 0 && IsNode(|nodes|, r)
    ensures IsNode(|nodes|, Child0(nodes, r)) && IsNode(|nodes|, Child1(nodes, r))
    ensures Eval(nodes, env, r) <==> Eval(nodes, env, Child0(nodes, r)) && Eval(nodes, env, Child1(nodes, r))
    ensures Eval(nodes, env, -r) == !Eval(nodes, env, r)
    ensures Eval(nodes, env, -Child0(nodes, r)) == !Eval(nodes, env, Child0(nodes, r))
    ensures Eval(nodes, env, -Child1(nodes, r)) == !Eval(nodes, env, Child1(nodes, r))
  {
    NegEval(nodes, env, r);
    NegEval(nodes, env, Child0(nodes, r));
    NegEval(nodes, env, Child1(nodes, r));
  }

  lemma AsymmetricSound(nodes: seq<Node>, env: Env, x: Ref, other: Ref)
    requires WellFormed(nodes) && IsNode(|nodes|, x) && IsNode(|nodes|, other) && Asymmetric(nodes, x, other) != 0
    ensures ValidRef(|nodes|, Asymmetric(nodes, x, other))
    ensures Eval(nodes, env, Asymmetric(nodes, x, other)) <==> Eval(nodes, env, x) && Eval(nodes, env, other)
  {
    ChildrenEval(nodes, env, Abs(x));
    NegEval(nodes, env, other);
  }

  lemma SymmetricSound(nodes: seq<Node>, env: Env, a: Ref, b: Ref)
    requires WellFormed(nodes) && IsNode(|nodes|, a) && IsNode(|nodes|, b) && Symmetric(nodes, a, b) != 0
    ensures ValidRef(|nodes|, Symmetric(nodes, a, b))
    ensures Eval(nodes, env, Symmetric(nodes, a, b)) <==> Eval(nodes, env, a) && Eval(nodes, env, b)
  {
    ChildrenEval(nodes, env, Abs(a));
    ChildrenEval(nodes, env, Abs(b));
  }

  lemma TwoLevelSound(nodes: seq<Node>, env: Env, a: Ref, b: Ref)
    requires WellFormed(nodes) && IsNode(|nodes|, a) && IsNode(|nodes|, b) && TwoLevel(nodes, a, b) != 0
    ensures ValidRef(|nodes|, TwoLevel(nodes, a, b))
    ensures Eval(nodes, env, TwoLevel(nodes, a, b)) <==> Eval(nodes, env, a) && Eval(nodes, env, b)
  {
    if Asymmetric(nodes, a, b) != 0 {
      AsymmetricSound(nodes, env, a, b);
    } else if Asymmetric(nodes, b, a) != 0 {
      AsymmetricSound(nodes, env, b, a);
    } else {
      SymmetricSound(nodes, env, a, b);
    }
  }

  /** `x'` may take the place of `x` next to `other`. */
  ghost predicate Replaces(nodes: seq<Node>, env: Env, x': Ref, x: Ref, other: Ref)
    requires WellFormed(nodes) && IsNode(|nodes|, x) && IsNode(|nodes|, other)
  {
    && IsNode(|nodes|, x') && Abs(x') < Abs(x)
    && (Eval(nodes, env, x') && Eval(nodes, env, other) <==> Eval(nodes, env, x) && Eval(nodes, env, other))
  }

  lemma SubstitutedSound(nodes: seq<Node>, env: Env, x: Ref, other: Ref)
    requires WellFormed(nodes) && IsNode(|nodes|, x) && IsNode(|nodes|, other)
    requires Substituted(nodes, x, other) != 0
    ensures Replaces(nodes, env, Substituted(nodes, x, other), x, other)
  {
    ChildrenEval(nodes, env, -x);
  }

  lemma SubstitutedByPairSound(nodes: seq<Node>, env: Env, x: Ref, other: Ref)
    requires WellFormed(nodes) && IsNode(|nodes|, x) && IsNode(|nodes|, other)
    requires SubstitutedByPair(nodes, x, other) != 0
    ensures Replaces(nodes, env, SubstitutedByPair(nodes, x, other), x, other)
  {
    ChildrenEval(nodes, env, -x);
    ChildrenEval(nodes, env, other);
  }

  lemma MergedSound(nodes: seq<Node>, env: Env, a: Ref, b: Ref)
    requires WellFormed(nodes) && IsNode(|nodes|, a) && IsNode(|nodes|, b)
    requires Merged(nodes, a, b) != 0
    ensures Replaces(nodes, env, Merged(nodes, a, b), a, b)
  {
    ChildrenEval(nodes, env, a);
    ChildrenEval(nodes, env, b);
  }

  /** A restart keeps the conjunction and replaces one operand by one of its own children. */
  lemma RestartSound(nodes: seq<Node>, env: Env, optimize: nat, a: Ref, b: Ref, x: Ref, y: Ref)
    requires WellFormed(nodes) && IsNode(|nodes|, a) && IsNode(|nodes|, b)
    requires Restart(nodes, optimize, a, b) == Again(x, y)
    ensures (y == b && Replaces(nodes, env, x, a, b)) || (x == a && Replaces(nodes, env, y, b, a))
  {
    if Substituted(nodes, a, b) != 0 {
      SubstitutedSound(nodes, env, a, b);
    } else if Substituted(nodes, b, a) != 0 {
      SubstitutedSound(nodes, env, b, a);
    } else if SubstitutedByPair(nodes, b, a) != 0 {
      SubstitutedByPairSound(nodes, env, b, a);
    } else if SubstitutedByPair(nodes, a, b) != 0 {
      SubstitutedByPairSound(nodes, env, a, b);
    } else {
      MergedSound(nodes, env, a, b);
    }
  }

  lemma RestartShrinks(nodes: seq<Node>, optimize: nat, a: Ref, b: Ref, x: Ref, y: Ref)
    requires WellFormed(nodes) && IsNode(|nodes|, a) && IsNode(|nodes|, b)
    requires Restart(nodes, optimize, a, b) == Again(x, y)
    ensures IsNode(|nodes|, x) && IsNode(|nodes|, y) && Abs(x) + Abs(y) < Abs(a) + Abs(b)
  {
    RestartSound(nodes, (s, l) => true, optimize, a, b, x, y);
  }

  // ----- Normal form -----------------------------------------------------------------------

  /** Either an existing reference, or an ordered pair that no rule simplifies. */
  datatype Normal = Known(ref: Ref) | Pair(a: Ref, b: Ref)

  function Normalize(nodes: seq<Node>, optimize: nat, a: Ref, b: Ref): Normal
    requires WellFormed(nodes) && ValidRef(|nodes|, a) && ValidRef(|nodes|, b)
    decreases Abs(a) + Abs(b)
  {
    if OneLevel(a, b) != 0 then Known(OneLevel(a, b))
    else if optimize >= 2 && TwoLevel(nodes, a, b) != 0 then Known(TwoLevel(nodes, a, b))
    else
      match Restart(nodes, optimize, a, b)
      case Again(x, y) =>
        RestartShrinks(nodes, optimize, a, b, x, y);
        Normalize(nodes, optimize, x, y)
      case Settled => if Abs(a) > Abs(b) then Pair(b, a) else Pair(a, b)
  }

  ghost predicate Irreducible(nodes: seq<Node>, optimize: nat, a: Ref, b: Ref)
    requires IsNode(|nodes|, a) && IsNode(|nodes|, b)
  {
    && OneLevel(a, b) == 0
    && (optimize >= 2 ==> TwoLevel(nodes, a, b) == 0)
    && Restart(nodes, optimize, a, b).Settled?
  }

  // ----- What no rule applies to -------------------------------------------------------------

  ghost predicate IsAndOf(nodes: seq<Node>, r: Ref, c0: Ref, c1: Ref) {
    r > 0 && IsNode(|nodes|, r) && NodeOf(nodes, r) == AndNode(c0, c1)
  }

  /** An operand is never a constant, nor the other one or its negation. */
  lemma NoTrivialOperands(nodes: seq<Node>, optimize: nat, a: Ref, b: Ref)
    requires IsNode(|nodes|, a) && IsNode(|nodes|, b) && Irreducible(nodes, optimize, a, b)
    ensures a != TRUE && a != FALSE && b != TRUE && b != FALSE && a != b && a != -b
  {}

  /** From level 2, neither operand is a child of the other, nor the negation of one; next to a negated
      conjunction it is no negated child, and from level 3 no child either. */
  lemma NoChildOperand(nodes: seq<Node>, optimize: nat, a: Ref, b: Ref, c0: Ref, c1: Ref)
    requires WellFormed(nodes) && IsNode(|nodes|, a) && IsNode(|nodes|, b) && Irreducible(nodes, optimize, a, b)
    ensures optimize >= 2 && IsAndOf(nodes, a, c0, c1) ==> b != c0 && b != c1 && b != -c0 && b != -c1
    ensures optimize >= 2 && IsAndOf(nodes, b, c0, c1) ==> a != c0 && a != c1 && a != -c0 && a != -c1
    ensures optimize >= 2 && IsAndOf(nodes, -a, c0, c1) ==> b != -c0 && b != -c1
    ensures optimize >= 2 && IsAndOf(nodes, -b, c0, c1) ==> a != -c0 && a != -c1
    ensures optimize >= 3 && IsAndOf(nodes, -a, c0, c1) ==> b != c0 && b != c1
    ensures optimize >= 3 && IsAndOf(nodes, -b, c0, c1) ==> a != c0 && a != c1
  {}

  predicate Meet(a0: Ref, a1: Ref, b0: Ref, b1: Ref) {
    a0 == b0 || a0 == b1 || a1 == b0 || a1 == b1
  }

  /** Two conjunctions have, from level 2, no complementary children unless both are negated, and then are not
      resolvable; from level 3 a negated one shares no child with the other, from level 4 none does. */
  lemma NoRelatedChildren(nodes: seq<Node>, optimize: nat, a: Ref, b: Ref, a0: Ref, a1: Ref, b0: Ref, b1: Ref)
    requires WellFormed(nodes) && IsNode(|nodes|, a) && IsNode(|nodes|, b) && Irreducible(nodes, optimize, a, b)
    requires IsAndOf(nodes, Abs(a), a0, a1) && IsAndOf(nodes, Abs(b), b0, b1)
    ensures optimize >= 2 && (a > 0 || b > 0) ==> !Meet(a0, a1, -b0, -b1)
    ensures optimize >= 2 && a < 0 && b < 0 ==> !((a0 == b0 && a1 == -b1) || (a0 == b1 && a1 == -b0) || (a1 == b0 && a0 == -b1) || (a1 == b1 && a0 == -b0))
    ensures optimize >= 3 && ((a > 0 && b < 0) || (a < 0 && b > 0)) ==> !Meet(a0, a1, b0, b1)
    ensures optimize >= 4 && a > 0 && b > 0 ==> !Meet(a0, a1, b0, b1)
  {
    if optimize >= 2 {
      assert Symmetric(nodes, a, b) == 0;
      assert IsNode(|nodes|, a0) && IsNode(|nodes|, a1) && IsNode(|nodes|, b0) && IsNode(|nodes|, b1);
    }
  }

  /** The rule set is closed under exchanging the operands. */
  lemma RulesCommute(nodes: seq<Node>, optimize: nat, a: Ref, b: Ref)
    requires WellFormed(nodes) && IsNode(|nodes|, a) && IsNode(|nodes|, b)
    requires Irreducible(nodes, optimize, a, b)
    ensures Irreducible(nodes, optimize, b, a)
  {
    if optimize >= 2 {
      assert Symmetric(nodes, a, b) == 0;
      SymmetricCommutes(nodes, a, b);
    }
  }

  lemma SymmetricCommutes(nodes: seq<Node>, a: Ref, b: Ref)
    requires WellFormed(nodes) && IsNode(|nodes|, a) && IsNode(|nodes|, b)
    requires Symmetric(nodes, a, b) == 0
    ensures Symmetric(nodes, b, a) == 0
  {}

  /** The outcome has the value of the conjunction; a pair is in order and no rule applies to it. */
  ghost predicate Conjoins(nodes: seq<Node>, env: Env, optimize: nat, a: Ref, b: Ref, n: Normal)
    requires WellFormed(nodes) && ValidRef(|nodes|, a) && ValidRef(|nodes|, b)
  {
    match n
    case Known(r) =>
      ValidRef(|nodes|, r) && (Eval(nodes, env, r) <==> Eval(nodes, env, a) && Eval(nodes, env, b))
    case Pair(x, y) =>
      && IsNode(|nodes|, x) && IsNode(|nodes|, y) && Abs(x) < Abs(y)
      && Irreducible(nodes, optimize, x, y)
      && (Eval(nodes, env, x) && Eval(nodes, env, y) <==> Eval(nodes, env, a) && Eval(nodes, env, b))
  }

  lemma {:induction false} NormalizeSound(nodes: seq<Node>, env: Env, optimize: nat, a: Ref, b: Ref)
    requires WellFormed(nodes) && ValidRef(|nodes|, a) && ValidRef(|nodes|, b)
    ensures Conjoins(nodes, env, optimize, a, b, Normalize(nodes, optimize, a, b))
    decreases Abs(a) + Abs(b)
  {
    if OneLevel(a, b) != 0 {
      OneLevelSound(nodes, env, a, b);
    } else {
      OneLevelLeavesNodes(|nodes|, a, b);
      if optimize >= 2 && TwoLevel(nodes, a, b) != 0 {
        TwoLevelSound(nodes, env, a, b);
      } else {
        match Restart(nodes, optimize, a, b) {
          case Again(x, y) =>
            RestartSound(nodes, env, optimize, a, b, x, y);
            NormalizeSound(nodes, env, optimize, x, y);
          case Settled =>
            RulesCommute(nodes, optimize, a, b);
        }
      }
    }
  }
}
