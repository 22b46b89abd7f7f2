/** `aigmiter`: the construction of the miter of two models, and what its output means. */
module Miter {
  import opened Aiger
  import opened AigerBuild
  import opened MiterSpec

  ghost predicate AndMeans(extra: seq<Gate>, first: nat, a: nat, b: nat, r: nat) {
    && r / 2 < first + |extra|
    && forall w: Valuation :: Respects(w, extra, first) && a / 2 < |w| && b / 2 < |w| ==> LitIs(w, r, LitVal(w, a) && LitVal(w, b))
  }

  ghost predicate XnorMeans(extra: seq<Gate>, first: nat, a: nat, b: nat, r: nat) {
    && r / 2 < first + |extra|
    && forall w: Valuation :: Respects(w, extra, first) && a / 2 < |w| && b / 2 < |w| ==> LitIs(w, r, LitVal(w, a) == LitVal(w, b))
  }

  /** The first `n` pairs of literals have equal values. */
  ghost predicate PairsEqual(w: Valuation, xs: seq<nat>, ys: seq<nat>, n: nat)
    requires n <= |xs| == |ys|
  {
    forall i :: 0 <= i < n ==> PairEqual(w, xs[i], ys[i])
  }

  predicate PairEqual(w: Valuation, x: nat, y: nat) {
    x / 2 < |w| && y / 2 < |w| && LitVal(w, x) == LitVal(w, y)
  }

  ghost predicate OutMeans(extra: seq<Gate>, first: nat, xs: seq<nat>, ys: seq<nat>, n: nat, out: nat)
    requires n <= |xs| == |ys|
  {
    && out / 2 < first + |extra|
    && forall w: Valuation :: Respects(w, extra, first) ==> OutIs(w, xs, ys, n, out)
  }

  ghost predicate OutIs(w: Valuation, xs: seq<nat>, ys: seq<nat>, n: nat, out: nat)
    requires n <= |xs| == |ys|
  {
    out / 2 < |w| && (LitVal(w, out) <==> PairsEqual(w, xs, ys, n))
  }

  // ----- Fresh gates --------------------------------------------------------------------------------

  /** All gates after `base` are fresh. */
  ghost predicate Adding(miter: Builder, base: seq<Gate>, first: nat)
    reads miter
  {
    0 < first && base <= miter.ands && Fresh(miter.ands[|base|..], first) && miter.maxvar + 1 == first + |miter.ands| - |base|
  }

  method And(miter: Builder, a: nat, b: nat, ghost base: seq<Gate>, ghost first: nat) returns (r: nat)
    requires Adding(miter, base, first) && a / 2 <= miter.maxvar && b / 2 <= miter.maxvar
    modifies miter`maxvar, miter`ands
    ensures Adding(miter, base, first) && old(miter.ands) <= miter.ands && old(miter.maxvar) <= miter.maxvar && r / 2 <= miter.maxvar
    ensures AndMeans(miter.ands[|base|..], first, a, b, r)
  {
    if a == 0 || b == 0 || a == Not(b) { return 0; }
    if a == 1 || a == b { return b; }
    if b == 1 { return a; }
    r := 2 * (miter.maxvar + 1);
    ghost var extra := miter.ands[|base|..];
    var g := Gate(r, a, b);
    FreshSnoc(extra, first, g);
    miter.AddAnd(g);
    assert miter.ands[|base|..] == extra + [g];
  }

  method Implies(miter: Builder, a: nat, b: nat, ghost base: seq<Gate>, ghost first: nat) returns (r: nat)
    requires Adding(miter, base, first) && a / 2 <= miter.maxvar && b / 2 <= miter.maxvar
    modifies miter`maxvar, miter`ands
    ensures Adding(miter, base, first) && old(miter.ands) <= miter.ands && old(miter.maxvar) <= miter.maxvar && r / 2 <= miter.maxvar
    ensures AndMeans(miter.ands[|base|..], first, a, Not(b), Not(r))
  {
    var x := And(miter, a, Not(b), base, first);
    r := Not(x);
  }

  method Xnor(miter: Builder, a: nat, b: nat, ghost base: seq<Gate>, ghost first: nat) returns (r: nat)
    requires Adding(miter, base, first) && a / 2 <= miter.maxvar && b / 2 <= miter.maxvar
    modifies miter`maxvar, miter`ands
    ensures Adding(miter, base, first) && old(miter.ands) <= miter.ands && old(miter.maxvar) <= miter.maxvar && r / 2 <= miter.maxvar
    ensures XnorMeans(miter.ands[|base|..], first, a, b, r)
  {
    var x := Implies(miter, a, b, base, first);
    ghost var extra1 := miter.ands[|base|..];
    var y := Implies(miter, b, a, base, first);
    ghost var extra2 := miter.ands[|base|..];
    r := And(miter, x, y, base, first);
    XnorFromImplies(extra1, extra2, miter.ands[|base|..], first, a, b, x, y, r);
  }

  /** The conjunction of the equality of all pairs. */
  method AllEqual(miter: Builder, xs: seq<nat>, ys: seq<nat>, ghost base: seq<Gate>, ghost first: nat) returns (out: nat)
    requires Adding(miter, base, first) && |xs| == |ys|
    requires forall i :: 0 <= i < |xs| ==> xs[i] / 2 <= miter.maxvar && ys[i] / 2 <= miter.maxvar
    requires forall i :: 0 <= i < |xs| ==> xs[i] / 2 < first && ys[i] / 2 < first
    modifies miter`maxvar, miter`ands
    ensures Adding(miter, base, first) && old(miter.ands) <= miter.ands && old(miter.maxvar) <= miter.maxvar && out / 2 <= miter.maxvar
    ensures OutMeans(miter.ands[|base|..], first, xs, ys, |xs|, out)
  {
    out := 1;
    for i := 0 to |xs|
      invariant Adding(miter, base, first) && old(miter.ands) <= miter.ands && old(miter.maxvar) <= miter.maxvar && out / 2 <= miter.maxvar
      invariant OutMeans(miter.ands[|base|..], first, xs, ys, i, out)
    {
      ghost var extra0, out0 := miter.ands[|base|..], out;
      var e := Xnor(miter, xs[i], ys[i], base, first);
      ghost var extra1 := miter.ands[|base|..];
      out := And(miter, out, e, base, first);
      OutStep(extra0, extra1, miter.ands[|base|..], first, xs, ys, i, out0, e, out);
    }
  }

  lemma {:induction false} XnorFromImplies(extra1: seq<Gate>, extra2: seq<Gate>, extra: seq<Gate>, first: nat, a: nat, b: nat, x: nat, y: nat, r: nat)
    requires extra1 <= extra2 <= extra && r / 2 < first + |extra|
    requires AndMeans(extra1, first, a, Not(b), Not(x)) && AndMeans(extra2, first, b, Not(a), Not(y)) && AndMeans(extra, first, x, y, r)
    ensures XnorMeans(extra, first, a, b, r)
  {
    forall w: Valuation | Respects(w, extra, first) && a / 2 < |w| && b / 2 < |w| ensures LitIs(w, r, LitVal(w, a) == LitVal(w, b)) {
      RespectsPrefix(w, extra2, extra, first);
      RespectsPrefix(w, extra1, extra2, first);
      NotVal(w, a);
      NotVal(w, b);
      assert LitIs(w, Not(x), LitVal(w, a) && LitVal(w, Not(b)));
      assert LitIs(w, Not(y), LitVal(w, b) && LitVal(w, Not(a)));
      NotVal(w, x);
      NotVal(w, y);
      assert LitIs(w, r, LitVal(w, x) && LitVal(w, y));
    }
  }

  lemma {:induction false} OutStep(extra0: seq<Gate>, extra1: seq<Gate>, extra: seq<Gate>, first: nat, xs: seq<nat>, ys: seq<nat>, i: nat,
                                   out0: nat, e: nat, out: nat)
    requires extra0 <= extra1 <= extra && i < |xs| == |ys| && out / 2 < first + |extra|
    requires xs[i] / 2 < first && ys[i] / 2 < first
    requires OutMeans(extra0, first, xs, ys, i, out0) && XnorMeans(extra1, first, xs[i], ys[i], e) && AndMeans(extra, first, out0, e, out)
    ensures OutMeans(extra, first, xs, ys, i + 1, out)
  {
    forall w: Valuation | Respects(w, extra, first) ensures OutIs(w, xs, ys, i + 1, out) {
      RespectsPrefix(w, extra1, extra, first);
      RespectsPrefix(w, extra0, extra1, first);
      assert OutIs(w, xs, ys, i, out0);
      assert LitIs(w, e, LitVal(w, xs[i]) == LitVal(w, ys[i]));
      assert LitIs(w, out, LitVal(w, out0) && LitVal(w, e));
      assert PairsEqual(w, xs, ys, i + 1) <==> PairsEqual(w, xs, ys, i) && PairEqual(w, xs[i], ys[i]);
    }
  }
}
