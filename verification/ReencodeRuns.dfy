/** Re-encoding keeps whole runs: the old and the new model have the same behaviours. */
module ReencodeRuns {
  import opened Aiger
  import opened Graph
  import opened ReencodeSpec

  // ----- Acyclic models have a value for every variable -----------------------------------------

  /** The value of a variable, gates being evaluated down the ranking. */
  ghost function Value(m: Model, types: seq<Kind>, rank: seq<nat>, base: Valuation, v: nat): bool
    requires Typed(m, types) && Ranked(m, types, rank) && |base| == |types| && v < |types|
    decreases rank[v]
  {
    if v == 0 then false
    else if types[v].AndKind? && KindInRange(m, types[v], v) then
      var g := m.ands[types[v].idx];
      Operand(m, types, rank, base, v, g.rhs0) && Operand(m, types, rank, base, v, g.rhs1)
    else base[v]
  }

  ghost function Operand(m: Model, types: seq<Kind>, rank: seq<nat>, base: Valuation, v: nat, l: nat): bool
    requires Typed(m, types) && Ranked(m, types, rank) && |base| == |types| && v < |types| && l / 2 < |types|
    requires l / 2 != 0 ==> Child(m, types, v, l / 2)
    decreases rank[v], 0
  {
    if l / 2 == 0 then l % 2 == 1 else Value(m, types, rank, base, l / 2) != (l % 2 == 1)
  }

  /** Any choice of inputs and latch values extends to a consistent valuation. */
  lemma AcyclicConsistent(m: Model, types: seq<Kind>, rank: seq<nat>, base: Valuation) returns (w: Valuation)
    requires Typed(m, types) && Ranked(m, types, rank) && |base| == |types|
    ensures Consistent(m, w)
    ensures forall v :: 1 <= v < |types| && !types[v].AndKind? ==> w[v] == base[v]
  {
    w := seq(|types|, v requires 0 <= v < |types| => Value(m, types, rank, base, v));
    forall i | 0 <= i < |m.ands| ensures GateHolds(w, m.ands[i]) {
      var g := m.ands[i];
      var v := g.lhs / 2;
      assert types[v] == AndKind(i) && KindInRange(m, types[v], v);
      OperandValue(m, types, rank, base, w, v, g.rhs0);
      OperandValue(m, types, rank, base, w, v, g.rhs1);
    }
  }

  lemma OperandValue(m: Model, types: seq<Kind>, rank: seq<nat>, base: Valuation, w: Valuation, v: nat, l: nat)
    requires Typed(m, types) && Ranked(m, types, rank) && |base| == |types| && v < |types| && l / 2 < |types|
    requires l / 2 != 0 ==> Child(m, types, v, l / 2)
    requires |w| == |types| && forall u: nat :: u < |types| ==> w[u] == Value(m, types, rank, base, u)
    ensures Operand(m, types, rank, base, v, l) == LitVal(w, l)
  {}

  /** A frame of the old model with the inputs and latches of a frame of the new one. */
  lemma FrameBack(m: Model, types: seq<Kind>, rank: seq<nat>, m': Model, order: seq<nat>, w': Valuation) returns (w: Valuation)
    requires Typed(m, types) && Ranked(m, types, rank) && OrderOf(m, types, order) && |w'| == |order| + 1
    requires |m'.inputs| == |m.inputs| && |m'.latches| == |m.latches|
    requires forall i :: 0 <= i < |m.inputs| ==> m'.inputs[i] == 2 * (1 + i)
    requires forall i :: 0 <= i < |m.latches| ==> m'.latches[i].lit == 2 * (1 + |m.inputs| + i)
    ensures Consistent(m, w) && SameInterface(m, w, m', w')
  {
    var base: Valuation := seq(|types|, v requires 0 <= v < |types| => BaseValue(m, types, w', v));
    w := AcyclicConsistent(m, types, rank, base);
    forall i | 0 <= i < |m.inputs| ensures SameValue(w, m.inputs[i], w', m'.inputs[i]) {
      var v := m.inputs[i] / 2;
      assert types[v] == InputKind(i) && w[v] == base[v];
    }
    forall i | 0 <= i < |m.latches| ensures SameValue(w, m.latches[i].lit, w', m'.latches[i].lit) {
      var v := m.latches[i].lit / 2;
      assert types[v] == LatchKind(i) && w[v] == base[v];
    }
  }

  function BaseValue(m: Model, types: seq<Kind>, w': Valuation, v: nat): bool
    requires v < |types|
  {
    match types[v]
    case InputKind(i) => 1 + i < |w'| && w'[1 + i]
    case LatchKind(i) => 1 + |m.inputs| + i < |w'| && w'[1 + |m.inputs| + i]
    case _ => false
  }

  lemma PlaceKept(w: Valuation, order: seq<nat>, i: nat, l: nat)
    requires forall j :: 0 <= j < |order| ==> order[j] < |w|
    requires i < |order| && l == 2 * order[i]
    ensures SameValue(w, l, Renumber(w, order), 2 * (i + 1))
  {}

  /** A frame of the new model from a frame of the old one. */
  lemma FrameOn(m: Model, types: seq<Kind>, m': Model, code: seq<nat>, order: seq<nat>, w: Valuation) returns (w': Valuation)
    requires Typed(m, types) && ReencodingOf(m, types, m', code, order) && Consistent(m, w)
    ensures InRange(m') && Consistent(m', w') && SameInterface(m, w, m', w')
  {
    hide Consistent, GateSourced, Coded, LatchTranslated, ListTranslated, SameValue, KindInRange;
    RenumberConsistent(m, types, m', code, order, w);
    w' := Renumber(w, order);
    forall i: nat | i < |m.inputs| ensures SameValue(w, m.inputs[i], w', m'.inputs[i]) {
      assert m.inputs[i] == 2 * order[i];
      PlaceKept(w, order, i, m.inputs[i]);
    }
    forall i: nat | i < |m.latches| ensures SameValue(w, m.latches[i].lit, w', m'.latches[i].lit) {
      assert m.latches[i].lit == 2 * order[|m.inputs| + i];
      PlaceKept(w, order, |m.inputs| + i, m.latches[i].lit);
    }
  }

  // ----- Runs -----------------------------------------------------------------------------------

  /** Frame by frame, the two runs agree on inputs, latches and every property literal. */
  ghost predicate SameRun(m: Model, ws: seq<Valuation>, m': Model, ws': seq<Valuation>) {
    && |ws| == |ws'|
    && forall t :: 0 <= t < |ws| ==> SameInterface(m, ws[t], m', ws'[t]) && SameProperties(m, ws[t], m', ws'[t])
  }

  lemma InitialKept(m: Model, m': Model, code: seq<nat>, order: seq<nat>, w: Valuation, w': Valuation)
    requires InRange(m) && InRange(m') && |w| == m.maxvar + 1 && |w'| == m'.maxvar + 1
    requires Coded(m, code, order) && Translated(m, m', code, order) && SameInterface(m, w, m', w')
    ensures Initial(m, w) <==> Initial(m', w')
  {
    assert order[..|order|] == order;
    forall i | 0 <= i < |m.latches|
      ensures m.latches[i].reset <= 1 <==> m'.latches[i].reset <= 1
      ensures m.latches[i].reset <= 1 ==> m'.latches[i].reset == m.latches[i].reset
      ensures SameValue(w, m.latches[i].lit, w', m'.latches[i].lit)
    {
      assert LatchTranslated(m, m', code, order, i);
      CodeBounds(m, code, order, m.latches[i].reset, |order|);
    }
  }

  lemma StepKept(m: Model, m': Model, w: Valuation, v: Valuation, w': Valuation, v': Valuation)
    requires InRange(m) && InRange(m') && |w| == |v| == m.maxvar + 1 && |w'| == |v'| == m'.maxvar + 1
    requires SameProperties(m, w, m', w') && SameInterface(m, v, m', v')
    ensures Step(m, w, v) <==> Step(m', w', v')
  {
    forall i | 0 <= i < |m.latches|
      ensures SameValue(w, m.latches[i].next, w', m'.latches[i].next)
      ensures SameValue(v, m.latches[i].lit, v', m'.latches[i].lit)
    {}
  }

  lemma FramesMakeRuns(m: Model, types: seq<Kind>, m': Model, code: seq<nat>, order: seq<nat>, ws: seq<Valuation>, ws': seq<Valuation>)
    requires Typed(m, types) && ReencodingOf(m, types, m', code, order) && InRange(m')
    requires |ws| == |ws'| > 0
    requires forall t :: 0 <= t < |ws| ==> FramePair(m, ws[t], m', ws'[t])
    ensures SameRun(m, ws, m', ws') && (Run(m, ws) <==> Run(m', ws'))
  {
    forall t | 0 <= t < |ws| ensures SameProperties(m, ws[t], m', ws'[t]) && FramePair(m, ws[t], m', ws'[t]) {
      ReencodingKeepsValues(m, types, m', code, order, ws[t], ws'[t]);
    }
    InitialKept(m, m', code, order, ws[0], ws'[0]);
    forall t | 0 <= t < |ws| - 1 ensures Step(m, ws[t], ws[t + 1]) <==> Step(m', ws'[t], ws'[t + 1]) {
      assert FramePair(m, ws[t], m', ws'[t]) && FramePair(m, ws[t + 1], m', ws'[t + 1]);
      StepKept(m, m', ws[t], ws[t + 1], ws'[t], ws'[t + 1]);
    }
  }

  ghost predicate FramePair(m: Model, w: Valuation, m': Model, w': Valuation)
    requires InRange(m) && InRange(m')
  {
    Consistent(m, w) && Consistent(m', w') && SameInterface(m, w, m', w')
  }

  lemma {:induction false} FramesOn(m: Model, types: seq<Kind>, m': Model, code: seq<nat>, order: seq<nat>, ws: seq<Valuation>)
    returns (ws': seq<Valuation>)
    requires Typed(m, types) && ReencodingOf(m, types, m', code, order) && InRange(m')
    requires forall t :: 0 <= t < |ws| ==> Consistent(m, ws[t])
    ensures |ws'| == |ws| && forall t :: 0 <= t < |ws| ==> FramePair(m, ws[t], m', ws'[t])
  {
    ws' := [];
    for n := 0 to |ws|
      invariant |ws'| == n && forall t :: 0 <= t < n ==> FramePair(m, ws[t], m', ws'[t])
    {
      var w' := FrameOn(m, types, m', code, order, ws[n]);
      ws' := ws' + [w'];
    }
  }

  lemma {:induction false} FramesBack(m: Model, types: seq<Kind>, rank: seq<nat>, m': Model, code: seq<nat>, order: seq<nat>, ws': seq<Valuation>)
    returns (ws: seq<Valuation>)
    requires Typed(m, types) && Ranked(m, types, rank) && ReencodingOf(m, types, m', code, order) && InRange(m')
    requires forall t :: 0 <= t < |ws'| ==> Consistent(m', ws'[t])
    ensures |ws'| == |ws| && forall t :: 0 <= t < |ws| ==> FramePair(m, ws[t], m', ws'[t])
  {
    ws := [];
    for n := 0 to |ws'|
      invariant |ws| == n && forall t :: 0 <= t < n ==> FramePair(m, ws[t], m', ws'[t])
    {
      var w := FrameBack(m, types, rank, m', order, ws'[n]);
      ws := ws + [w];
    }
  }

  /** Every run of the old model is matched by a run of the new one. */
  lemma RunsOn(m: Model, types: seq<Kind>, m': Model, code: seq<nat>, order: seq<nat>, ws: seq<Valuation>)
    returns (ws': seq<Valuation>)
    requires Typed(m, types) && ReencodingOf(m, types, m', code, order) && Run(m, ws)
    ensures InRange(m') && Run(m', ws') && SameRun(m, ws, m', ws')
  {
    ResultIsReencoded(m, types, m', code, order);
    ReencodedInRange(m');
    ws' := FramesOn(m, types, m', code, order, ws);
    FramesMakeRuns(m, types, m', code, order, ws, ws');
  }

  /** Every run of the new model comes from a run of the old one. */
  lemma RunsBack(m: Model, types: seq<Kind>, rank: seq<nat>, m': Model, code: seq<nat>, order: seq<nat>, ws': seq<Valuation>)
    returns (ws: seq<Valuation>)
    requires Typed(m, types) && Ranked(m, types, rank) && ReencodingOf(m, types, m', code, order)
    requires InRange(m') && Run(m', ws')
    ensures Run(m, ws) && SameRun(m, ws, m', ws')
  {
    ws := FramesBack(m, types, rank, m', code, order, ws');
    FramesMakeRuns(m, types, m', code, order, ws, ws');
  }
}
