/** What re-encoding a model must achieve, and why it keeps every value. */
module ReencodeSpec {
  import opened Aiger
  import opened Graph
  import opened CycleCheck

  // ----- Codes -----------------------------------------------------------------------------

  /** The code table numbers the variables of `order` consecutively from 1. */
  ghost predicate Coded(m: Model, code: seq<nat>, order: seq<nat>) {
    && |code| == 2 * (m.maxvar + 1) && code[0] == 0 && code[1] == 1
    && (forall i, j :: 0 <= i < j < |order| ==> order[i] != order[j])
    && (forall i :: 0 <= i < |order| ==> CodedAt(m, code, order, i))
    && (forall v :: 1 <= v <= m.maxvar && v !in order ==> code[2 * v] == 0 && code[2 * v + 1] == 0)
  }

  ghost predicate CodedAt(m: Model, code: seq<nat>, order: seq<nat>, i: nat)
    requires |code| == 2 * (m.maxvar + 1) && i < |order|
  {
    1 <= order[i] <= m.maxvar && code[2 * order[i]] == 2 * (i + 1) && code[2 * order[i] + 1] == 2 * (i + 1) + 1
  }

  /** The literal has a code: it is a constant or its variable was numbered. */
  predicate HasCode(m: Model, order: seq<nat>, l: nat) {
    l / 2 <= m.maxvar && (l / 2 == 0 || l / 2 in order)
  }

  lemma CodeBounds(m: Model, code: seq<nat>, order: seq<nat>, l: nat, n: nat)
    requires Coded(m, code, order) && n <= |order| && HasCode(m, order[..n], l)
    ensures l < |code| && code[l] / 2 <= n && code[l] % 2 == l % 2
    ensures l / 2 == 0 ==> code[l] == l
    ensures l / 2 != 0 ==> 2 <= code[l] && order[code[l] / 2 - 1] == l / 2
  {
    var v := l / 2;
    assert l == 2 * v || l == 2 * v + 1;
    if v != 0 {
      var i :| 0 <= i < n && order[..n][i] == v;
      assert CodedAt(m, code, order, i);
    }
  }

  // ----- Valuations ------------------------------------------------------------------------

  /** The valuation of the renumbered variables. */
  function Renumber(w: Valuation, order: seq<nat>): (w': Valuation)
    requires forall i :: 0 <= i < |order| ==> order[i] < |w|
    ensures |w'| == |order| + 1 && !w'[0]
    ensures forall i :: 0 <= i < |order| ==> w'[i + 1] == w[order[i]]
  {
    [false] + seq(|order|, i requires 0 <= i < |order| => w[order[i]])
  }

  lemma RenumberLit(m: Model, code: seq<nat>, order: seq<nat>, w: Valuation, l: nat)
    requires Coded(m, code, order) && HasCode(m, order, l) && |w| == m.maxvar + 1 && !w[0]
    requires forall i :: 0 <= i < |order| ==> order[i] < |w|
    ensures l < |code| && code[l] / 2 <= |order|
    ensures LitVal(Renumber(w, order), code[l]) == LitVal(w, l)
  {
    assert order[..|order|] == order;
    CodeBounds(m, code, order, l, |order|);
    if l / 2 != 0 {
      var i := code[l] / 2 - 1;
      assert Renumber(w, order)[i + 1] == w[order[i]];
    }
  }

  // ----- The re-encoded model ---------------------------------------------------------------

  /** Every property and latch literal of the new model is the code of the old one. */
  ghost predicate Translated(m: Model, m': Model, code: seq<nat>, order: seq<nat>) {
    && |code| == 2 * (m.maxvar + 1)
    && |m'.inputs| == |m.inputs| && |m'.latches| == |m.latches|
    && (forall i :: 0 <= i < |m.latches| ==> LatchTranslated(m, m', code, order, i))
    && ListTranslated(m, code, order, m.outputs, m'.outputs)
    && ListTranslated(m, code, order, m.bad, m'.bad)
    && ListTranslated(m, code, order, m.constraints, m'.constraints)
    && |m'.justice| == |m.justice|
    && (forall i :: 0 <= i < |m.justice| ==> ListTranslated(m, code, order, m.justice[i], m'.justice[i]))
    && ListTranslated(m, code, order, m.fairness, m'.fairness)
  }

  ghost predicate LatchTranslated(m: Model, m': Model, code: seq<nat>, order: seq<nat>, i: nat)
    requires |code| == 2 * (m.maxvar + 1) && i < |m.latches| == |m'.latches|
  {
    && HasCode(m, order, m.latches[i].next) && HasCode(m, order, m.latches[i].reset)
    && m.latches[i].next < |code| && m.latches[i].reset < |code|
    && m'.latches[i].next == code[m.latches[i].next]
    && m'.latches[i].reset == code[m.latches[i].reset]
  }

  ghost predicate ListTranslated(m: Model, code: seq<nat>, order: seq<nat>, ls: seq<nat>, ls': seq<nat>) {
    && |ls'| == |ls|
    && forall i :: 0 <= i < |ls| ==> HasCode(m, order, ls[i]) && ls[i] < |code| && ls'[i] == code[ls[i]]
  }

  /** Inputs, then latches, then gates. */
  ghost predicate OrderOf(m: Model, types: seq<Kind>, order: seq<nat>) {
    && |m.inputs| + |m.latches| <= |order|
    && (forall i :: 0 <= i < |m.inputs| ==> order[i] == m.inputs[i] / 2)
    && (forall i :: 0 <= i < |m.latches| ==> order[|m.inputs| + i] == m.latches[i].lit / 2)
    && (forall i :: |m.inputs| + |m.latches| <= i < |order| ==> order[i] < |types| && types[order[i]].AndKind?)
  }

  function Greater(x: nat, y: nat): nat {
    if x < y then y else x
  }

  function Smaller(x: nat, y: nat): nat {
    if x < y then x else y
  }

  /** The gate in the new numbering, with its operands in order. */
  function Translate(code: seq<nat>, g: Gate): Gate
    requires g.lhs < |code| && g.rhs0 < |code| && g.rhs1 < |code|
  {
    Gate(code[g.lhs], Greater(code[g.rhs0], code[g.rhs1]), Smaller(code[g.rhs0], code[g.rhs1]))
  }

  /** Everything the tool guarantees about its result. */
  ghost predicate ReencodingOf(m: Model, types: seq<Kind>, m': Model, code: seq<nat>, order: seq<nat>) {
    && Coded(m, code, order)
    && OrderOf(m, types, order)
    && Translated(m, m', code, order)
    && m'.maxvar == |order|
    && (forall i :: 0 <= i < |m.inputs| ==> m'.inputs[i] == 2 * (1 + i))
    && (forall i :: 0 <= i < |m.latches| ==> m'.latches[i].lit == 2 * (1 + |m.inputs| + i))
    && |m'.ands| == |order| - |m.inputs| - |m.latches|
    && forall k :: 0 <= k < |m'.ands| ==> GateSourced(m, types, m', code, order, k)
  }

  /** Gate `k` of the result is the gate at its position of the order, in the new numbering, and
      its operands are numbered before it. */
  ghost predicate GateSourced(m: Model, types: seq<Kind>, m': Model, code: seq<nat>, order: seq<nat>, k: nat)
    requires k < |m'.ands|
  {
    var i := |m.inputs| + |m.latches| + k;
    && i < |order| && order[i] < |types|
    && types[order[i]].AndKind?
    && SourceAt(m, m', code, order, i, types[order[i]].idx, k)
  }

  ghost predicate SourceAt(m: Model, m': Model, code: seq<nat>, order: seq<nat>, i: nat, j: nat, k: nat)
    requires k < |m'.ands| && i < |order|
  {
    && j < |m.ands|
    && m.ands[j].lhs < |code| && m.ands[j].rhs0 < |code| && m.ands[j].rhs1 < |code|
    && m.ands[j].lhs == 2 * order[i]
    && HasCode(m, order[..i], m.ands[j].rhs0) && HasCode(m, order[..i], m.ands[j].rhs1)
    && m'.ands[k] == Translate(code, m.ands[j])
  }

  /** All operands of the gates are defined. */
  ghost predicate GatesDefined(m: Model, types: seq<Kind>)
    requires Typed(m, types)
  {
    forall i :: 0 <= i < |m.ands| ==> Defined(m, types, m.ands[i].rhs0) && Defined(m, types, m.ands[i].rhs1)
  }

  predicate Defined(m: Model, types: seq<Kind>, l: nat) {
    l / 2 < |types| && (l / 2 == 0 || types[l / 2] != Undefined)
  }

  /** The operands of the gate at position `i` of the order are numbered before it. */
  lemma OperandsEarlier(m: Model, types: seq<Kind>, order: seq<nat>, i: nat, l: nat)
    requires Typed(m, types) && GatesDefined(m, types) && OrderOf(m, types, order) && Finished(m, types, order)
    requires |m.inputs| + |m.latches| <= i < |order|
    requires types[order[i]].idx < |m.ands|
    requires l == m.ands[types[order[i]].idx].rhs0 || l == m.ands[types[order[i]].idx].rhs1
    ensures HasCode(m, order[..i], l)
  {
    hide Finished, Typed, GatesDefined;
    OperandDefined(m, types, order[i], l);
    if l / 2 != 0 {
      assert Child(m, types, order[i], l / 2);
      if types[l / 2].AndKind? {
        GatesEarlier(m, types, order, i, l / 2);
      } else {
        LeavesEarlier(m, types, order, i, l / 2);
      }
    }
  }

  lemma OperandDefined(m: Model, types: seq<Kind>, p: nat, l: nat)
    requires Typed(m, types) && GatesDefined(m, types)
    requires p < |types| && types[p].AndKind? && types[p].idx < |m.ands|
    requires l == m.ands[types[p].idx].rhs0 || l == m.ands[types[p].idx].rhs1
    ensures Defined(m, types, l) && |types| == m.maxvar + 1
  {}

  lemma GatesEarlier(m: Model, types: seq<Kind>, order: seq<nat>, i: nat, c: nat)
    requires Finished(m, types, order) && i < |order|
    requires Child(m, types, order[i], c) && c < |types| && types[c].AndKind?
    ensures c in order[..i]
  {}

  /** Inputs and latches come before all gates. */
  lemma LeavesEarlier(m: Model, types: seq<Kind>, order: seq<nat>, i: nat, c: nat)
    requires Typed(m, types) && OrderOf(m, types, order)
    requires |m.inputs| + |m.latches| <= i <= |order|
    requires c < |types| && types[c] != Undefined && !types[c].AndKind?
    ensures c in order[..i]
  {
    assert KindInRange(m, types[c], c);
    match types[c] {
      case InputKind(j) => assert order[..i][j] == c;
      case LatchKind(j) => assert order[..i][|m.inputs| + j] == c;
    }
  }

  lemma GateOrdered(m: Model, m': Model, code: seq<nat>, order: seq<nat>, i: nat, j: nat, k: nat)
    requires Coded(m, code, order) && k < |m'.ands| && i < |order| && SourceAt(m, m', code, order, i, j, k)
    ensures m'.ands[k].lhs == 2 * (i + 1)
    ensures m'.ands[k].lhs > m'.ands[k].rhs0 >= m'.ands[k].rhs1
  {
    CodeBounds(m, code, order, m.ands[j].rhs0, i);
    CodeBounds(m, code, order, m.ands[j].rhs1, i);
    assert CodedAt(m, code, order, i);
  }

  lemma ListBelow(m: Model, code: seq<nat>, order: seq<nat>, ls: seq<nat>, ls': seq<nat>)
    requires Coded(m, code, order) && ListTranslated(m, code, order, ls, ls')
    ensures AllBelow(ls', |order| + 1)
  {
    assert order[..|order|] == order;
    forall i | 0 <= i < |ls'| ensures ls'[i] / 2 < |order| + 1 {
      CodeBounds(m, code, order, ls[i], |order|);
    }
  }

  /** The result is numbered consecutively, with every gate above its ordered operands. */
  lemma ResultIsReencoded(m: Model, types: seq<Kind>, m': Model, code: seq<nat>, order: seq<nat>)
    requires Typed(m, types) && ReencodingOf(m, types, m', code, order)
    ensures Reencoded(m')
  {
    forall k | 0 <= k < |m'.ands|
      ensures m'.ands[k].lhs == 2 * (FirstAnd(m') + k) && m'.ands[k].lhs > m'.ands[k].rhs0 >= m'.ands[k].rhs1
    {
      assert GateSourced(m, types, m', code, order, k);
      var i := |m.inputs| + |m.latches| + k;
      GateOrdered(m, m', code, order, i, types[order[i]].idx, k);
    }
    assert order[..|order|] == order;
    forall i | 0 <= i < |m'.latches|
      ensures m'.latches[i].next / 2 < NumVars(m') && m'.latches[i].reset / 2 < NumVars(m')
    {
      assert LatchTranslated(m, m', code, order, i);
      CodeBounds(m, code, order, m.latches[i].next, |order|);
      CodeBounds(m, code, order, m.latches[i].reset, |order|);
    }
    ListBelow(m, code, order, m.outputs, m'.outputs);
    ListBelow(m, code, order, m.bad, m'.bad);
    ListBelow(m, code, order, m.constraints, m'.constraints);
    ListBelow(m, code, order, m.fairness, m'.fairness);
    forall i | 0 <= i < |m'.justice| ensures AllBelow(m'.justice[i], NumVars(m')) {
      ListBelow(m, code, order, m.justice[i], m'.justice[i]);
    }
  }

  // ----- Values are kept --------------------------------------------------------------------

  /** The two literals have the same value in the two valuations. */
  predicate SameValue(w: Valuation, l: nat, w': Valuation, l': nat) {
    l / 2 < |w| && l' / 2 < |w'| && LitVal(w, l) == LitVal(w', l')
  }

  ghost predicate SameValues(w: Valuation, ls: seq<nat>, w': Valuation, ls': seq<nat>) {
    |ls| == |ls'| && forall i :: 0 <= i < |ls| ==> SameValue(w, ls[i], w', ls'[i])
  }

  /** Inputs and latch states of the two valuations agree. */
  ghost predicate SameInterface(m: Model, w: Valuation, m': Model, w': Valuation) {
    && |m'.inputs| == |m.inputs| && |m'.latches| == |m.latches|
    && (forall i :: 0 <= i < |m.inputs| ==> SameValue(w, m.inputs[i], w', m'.inputs[i]))
    && (forall i :: 0 <= i < |m.latches| ==> SameValue(w, m.latches[i].lit, w', m'.latches[i].lit))
  }

  /** Every next, reset, output, bad, constraint, justice and fairness literal keeps its value. */
  ghost predicate SameProperties(m: Model, w: Valuation, m': Model, w': Valuation) {
    && |m'.latches| == |m.latches|
    && (forall i :: 0 <= i < |m.latches| ==>
          && SameValue(w, m.latches[i].next, w', m'.latches[i].next)
          && SameValue(w, m.latches[i].reset, w', m'.latches[i].reset))
    && SameValues(w, m.outputs, w', m'.outputs)
    && SameValues(w, m.bad, w', m'.bad)
    && SameValues(w, m.constraints, w', m'.constraints)
    && |m'.justice| == |m.justice|
    && (forall i :: 0 <= i < |m.justice| ==> SameValues(w, m.justice[i], w', m'.justice[i]))
    && SameValues(w, m.fairness, w', m'.fairness)
  }

  lemma OrderInRange(m: Model, types: seq<Kind>, code: seq<nat>, order: seq<nat>)
    requires Coded(m, code, order)
    ensures forall i :: 0 <= i < |order| ==> 1 <= order[i] <= m.maxvar
  {
    forall i | 0 <= i < |order| ensures 1 <= order[i] <= m.maxvar {
      assert CodedAt(m, code, order, i);
    }
  }

  lemma RenumberConsistent(m: Model, types: seq<Kind>, m': Model, code: seq<nat>, order: seq<nat>, w: Valuation)
    requires Typed(m, types) && ReencodingOf(m, types, m', code, order)
    requires Consistent(m, w)
    ensures InRange(m') && forall i :: 0 <= i < |order| ==> order[i] < |w|
    ensures Consistent(m', Renumber(w, order))
  {
    ResultIsReencoded(m, types, m', code, order);
    ReencodedInRange(m');
    OrderInRange(m, types, code, order);
    RenumberGates(m, types, m', code, order, w);
  }

  lemma RenumberGates(m: Model, types: seq<Kind>, m': Model, code: seq<nat>, order: seq<nat>, w: Valuation)
    requires InRange(m) && Coded(m, code, order) && Consistent(m, w)
    requires forall k :: 0 <= k < |m'.ands| ==> GateSourced(m, types, m', code, order, k)
    requires forall i :: 0 <= i < |order| ==> order[i] < |w|
    ensures forall k :: 0 <= k < |m'.ands| ==>
      && m'.ands[k].lhs / 2 <= |order| && m'.ands[k].rhs0 / 2 <= |order| && m'.ands[k].rhs1 / 2 <= |order|
      && GateHolds(Renumber(w, order), m'.ands[k])
  {
    forall k | 0 <= k < |m'.ands|
      ensures m'.ands[k].lhs / 2 <= |order| && m'.ands[k].rhs0 / 2 <= |order| && m'.ands[k].rhs1 / 2 <= |order|
      ensures GateHolds(Renumber(w, order), m'.ands[k])
    {
      var i := |m.inputs| + |m.latches| + k;
      assert GateSourced(m, types, m', code, order, k);
      RenumberGate(m, m', code, order, w, i, types[order[i]].idx, k);
    }
  }

  lemma PrefixHasCode(m: Model, order: seq<nat>, i: nat, l: nat)
    requires i <= |order| && HasCode(m, order[..i], l)
    ensures HasCode(m, order, l)
  {}

  lemma RenumberGate(m: Model, m': Model, code: seq<nat>, order: seq<nat>, w: Valuation, i: nat, j: nat, k: nat)
    requires InRange(m) && Coded(m, code, order) && Consistent(m, w)
    requires k < |m'.ands| && i < |order| && SourceAt(m, m', code, order, i, j, k)
    requires forall i :: 0 <= i < |order| ==> order[i] < |w|
    ensures var g' := m'.ands[k]; g'.lhs / 2 <= |order| && g'.rhs0 / 2 <= |order| && g'.rhs1 / 2 <= |order|
    ensures GateHolds(Renumber(w, order), m'.ands[k])
  {
    PrefixHasCode(m, order, i, m.ands[j].rhs0);
    PrefixHasCode(m, order, i, m.ands[j].rhs1);
    TranslateHolds(m, code, order, w, m.ands[j]);
    assert GateHolds(w, m.ands[j]);
  }

  lemma TranslateHolds(m: Model, code: seq<nat>, order: seq<nat>, w: Valuation, g: Gate)
    requires Coded(m, code, order) && |w| == m.maxvar + 1 && !w[0]
    requires forall i :: 0 <= i < |order| ==> order[i] < |w|
    requires g.lhs < |code| && g.rhs0 < |code| && g.rhs1 < |code|
    requires HasCode(m, order, g.lhs) && HasCode(m, order, g.rhs0) && HasCode(m, order, g.rhs1)
    ensures var g' := Translate(code, g);
      && g'.lhs / 2 <= |order| && g'.rhs0 / 2 <= |order| && g'.rhs1 / 2 <= |order|
      && GateHolds(Renumber(w, order), g') == GateHolds(w, g)
  {
    RenumberLit(m, code, order, w, g.lhs);
    RenumberLit(m, code, order, w, g.rhs0);
    RenumberLit(m, code, order, w, g.rhs1);
  }

  lemma ListKept(m: Model, code: seq<nat>, order: seq<nat>, w: Valuation, w': Valuation, ls: seq<nat>, ls': seq<nat>)
    requires Coded(m, code, order) && ListTranslated(m, code, order, ls, ls')
    requires |w| == m.maxvar + 1 && !w[0] && |w'| == |order| + 1
    requires forall i :: 0 <= i < |order| ==> order[i] < |w|
    requires forall v :: 0 <= v < |w'| ==> w'[v] == Renumber(w, order)[v]
    ensures SameValues(w, ls, w', ls')
  {
    forall i | 0 <= i < |ls| ensures SameValue(w, ls[i], w', ls'[i]) {
      RenumberLit(m, code, order, w, ls[i]);
    }
  }

  /** For all inputs and states: when the interface agrees, every property literal agrees. */
  lemma ReencodingKeepsValues(m: Model, types: seq<Kind>, m': Model, code: seq<nat>, order: seq<nat>, w: Valuation, w': Valuation)
    requires Typed(m, types) && ReencodingOf(m, types, m', code, order)
    requires Consistent(m, w) && InRange(m') && Consistent(m', w') && SameInterface(m, w, m', w')
    ensures SameProperties(m, w, m', w')
  {
    ResultIsReencoded(m, types, m', code, order);
    RenumberConsistent(m, types, m', code, order, w);
    var u := Renumber(w, order);
    forall v | 1 <= v < FirstAnd(m') ensures w'[v] == u[v] {
      InterfaceKept(m, types, m', order, w, w', v);
      assert u[(v - 1) + 1] == w[order[v - 1]];
    }
    ConsistentUnique(m', w', u, NumVars(m'));
    ValuesKept(m, types, m', code, order, w, w');
  }

  lemma SameVariable(w: Valuation, v: nat, w': Valuation, v': nat)
    requires SameValue(w, 2 * v, w', 2 * v')
    ensures w[v] == w'[v']
  {}

  lemma InterfaceKept(m: Model, types: seq<Kind>, m': Model, order: seq<nat>, w: Valuation, w': Valuation, v: nat)
    requires Typed(m, types) && OrderOf(m, types, order)
    requires |m'.inputs| == |m.inputs| && |m'.latches| == |m.latches|
    requires forall i :: 0 <= i < |m.inputs| ==> m'.inputs[i] == 2 * (1 + i)
    requires forall i :: 0 <= i < |m.latches| ==> m'.latches[i].lit == 2 * (1 + |m.inputs| + i)
    requires SameInterface(m, w, m', w')
    requires forall i :: 0 <= i < |order| ==> order[i] < |w|
    requires 1 <= v < 1 + |m.inputs| + |m.latches|
    ensures v < |w'| && w'[v] == w[order[v - 1]]
  {
    if v < 1 + |m.inputs| {
      assert m.inputs[v - 1] == 2 * order[v - 1];
      SameVariable(w, order[v - 1], w', v);
    } else {
      var i := v - 1 - |m.inputs|;
      assert order[|m.inputs| + i] == m.latches[i].lit / 2;
      assert m.latches[i].lit == 2 * order[v - 1];
      SameVariable(w, order[v - 1], w', v);
    }
  }

  lemma ValuesKept(m: Model, types: seq<Kind>, m': Model, code: seq<nat>, order: seq<nat>, w: Valuation, w': Valuation)
    requires Typed(m, types) && ReencodingOf(m, types, m', code, order)
    requires |w| == m.maxvar + 1 && !w[0] && |w'| == |order| + 1
    requires forall i :: 0 <= i < |order| ==> order[i] < |w|
    requires forall v :: 0 <= v < |w'| ==> w'[v] == Renumber(w, order)[v]
    ensures SameProperties(m, w, m', w')
  {
    forall i | 0 <= i < |m.latches|
      ensures SameValue(w, m.latches[i].next, w', m'.latches[i].next)
      ensures SameValue(w, m.latches[i].reset, w', m'.latches[i].reset)
    {
      assert LatchTranslated(m, m', code, order, i);
      RenumberLit(m, code, order, w, m.latches[i].next);
      RenumberLit(m, code, order, w, m.latches[i].reset);
    }
    ListKept(m, code, order, w, w', m.outputs, m'.outputs);
    ListKept(m, code, order, w, w', m.bad, m'.bad);
    ListKept(m, code, order, w, w', m.constraints, m'.constraints);
    forall i | 0 <= i < |m.justice| ensures SameValues(w, m.justice[i], w', m'.justice[i]) {
      ListKept(m, code, order, w, w', m.justice[i], m'.justice[i]);
    }
    ListKept(m, code, order, w, w', m.fairness, m'.fairness);
  }
}
