/** Propositional formulas in conjunctive normal form, as handed to a SAT solver.
    A literal is a nonzero integer, negative when the variable is negated. */
module Cnf {

  type Clause = seq<int>
  type Assignment = int -> bool

  predicate Holds(a: Assignment, l: int) {
    if l > 0 then a(l) else !a(-l)
  }

  ghost predicate ClauseHolds(a: Assignment, c: Clause) {
    exists i :: 0 <= i < |c| && Holds(a, c[i])
  }

  ghost predicate Satisfies(a: Assignment, cs: seq<Clause>) {
    forall i :: 0 <= i < |cs| ==> ClauseHolds(a, cs[i])
  }

  ghost predicate Satisfiable(cs: seq<Clause>) {
    exists a :: Satisfies(a, cs)
  }

  lemma SatisfiesSnoc(a: Assignment, cs: seq<Clause>, c: Clause)
    ensures Satisfies(a, cs + [c]) <==> Satisfies(a, cs) && ClauseHolds(a, c)
  {
    var ds := cs + [c];
    if Satisfies(a, ds) {
      forall i | 0 <= i < |cs| ensures ClauseHolds(a, cs[i]) { assert ds[i] == cs[i]; }
      assert ds[|cs|] == c;
    }
  }

  lemma ClauseHolds1(a: Assignment, x: int)
    ensures ClauseHolds(a, [x]) <==> Holds(a, x)
  {
    assert [x][0] == x;
  }

  lemma ClauseHolds2(a: Assignment, x: int, y: int)
    ensures ClauseHolds(a, [x, y]) <==> Holds(a, x) || Holds(a, y)
  {
    assert [x, y][0] == x && [x, y][1] == y;
  }

  lemma ClauseHolds3(a: Assignment, x: int, y: int, z: int)
    ensures ClauseHolds(a, [x, y, z]) <==> Holds(a, x) || Holds(a, y) || Holds(a, z)
  {
    assert [x, y, z][0] == x && [x, y, z][1] == y && [x, y, z][2] == z;
  }

  lemma ClauseHoldsConcat(a: Assignment, c: Clause, d: Clause)
    ensures ClauseHolds(a, c + d) <==> ClauseHolds(a, c) || ClauseHolds(a, d)
  {
    var e := c + d;
    if i :| 0 <= i < |c| && Holds(a, c[i]) { assert e[i] == c[i]; }
    if i :| 0 <= i < |d| && Holds(a, d[i]) { assert e[|c| + i] == d[i]; }
  }
}
