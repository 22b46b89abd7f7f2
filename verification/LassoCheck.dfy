/** `aigsim` in ground mode: simulation of a stimulus, and the check whether the trace witnesses bad
    states or a fair loop, keeping only the last time each literal was true. */
module LassoCheck {
  import opened Aiger

  // ----- Last-seen timestamps -------------------------------------------------------------------------

  ghost predicate Frames(m: Model, ws: seq<Valuation>) {
    forall t :: 0 <= t < |ws| ==> |ws[t]| == m.maxvar + 1
  }

  /** One more than the last of the first `n` times at which the literal was true, 0 if there is none. */
  ghost function LastTrue(m: Model, ws: seq<Valuation>, l: nat, n: nat): (r: nat)
    requires Frames(m, ws) && n <= |ws| && l / 2 <= m.maxvar
    ensures r <= n
  {
    if n == 0 then 0 else if LitVal(ws[n - 1], l) then n else LastTrue(m, ws, l, n - 1)
  }

  /** The literal is true at or after `p`. */
  ghost predicate TrueSince(m: Model, ws: seq<Valuation>, l: nat, p: nat)
    requires Frames(m, ws) && l / 2 <= m.maxvar
  {
    exists t :: p <= t < |ws| && LitVal(ws[t], l)
  }

  lemma {:induction false} LastTrueExact(m: Model, ws: seq<Valuation>, l: nat, p: nat, n: nat)
    requires Frames(m, ws) && n <= |ws| && l / 2 <= m.maxvar
    ensures LastTrue(m, ws, l, n) > p <==> exists t :: p <= t < n && LitVal(ws[t], l)
  {
    if n > 0 {
      LastTrueExact(m, ws, l, p, n - 1);
      if LitVal(ws[n - 1], l) {
        assert p <= n - 1 ==> p <= n - 1 < n && LitVal(ws[n - 1], l);
      } else if LastTrue(m, ws, l, n) > p {
        var t :| p <= t < n - 1 && LitVal(ws[t], l);
        assert p <= t < n;
      }
    }
  }

  lemma {:induction false} LastTruePrefix(m: Model, ws: seq<Valuation>, w: Valuation, l: nat, n: nat)
    requires Frames(m, ws) && |w| == m.maxvar + 1 && n <= |ws| && l / 2 <= m.maxvar
    ensures Frames(m, ws + [w]) && LastTrue(m, ws + [w], l, n) == LastTrue(m, ws, l, n)
  {
    if n > 0 { LastTruePrefix(m, ws, w, l, n - 1); }
  }

  // ----- What is to be checked ------------------------------------------------------------------------

  /** The latches of frame `p` have the values that follow the last frame. */
  ghost predicate Closes(m: Model, ws: seq<Valuation>, p: nat)
    requires InRange(m) && Frames(m, ws) && p < |ws|
  {
    forall j :: 0 <= j < |m.latches| ==> LatchCloses(m, ws, p, j)
  }

  ghost predicate LatchCloses(m: Model, ws: seq<Valuation>, p: nat, j: nat)
    requires InRange(m) && Frames(m, ws) && p < |ws| && j < |m.latches|
  {
    LitVal(ws[p], m.latches[j].lit) == LitVal(ws[|ws| - 1], m.latches[j].next)
  }

  ghost predicate AllSince(m: Model, ws: seq<Valuation>, ls: seq<nat>, p: nat)
    requires Frames(m, ws) && AllBelow(ls, m.maxvar + 1)
  {
    forall j :: 0 <= j < |ls| ==> TrueSince(m, ws, ls[j], p)
  }

  /** A fair loop from `p` back to `p`. */
  ghost predicate FairLoop(m: Model, ws: seq<Valuation>, p: nat)
    requires InRange(m) && Frames(m, ws)
  {
    p < |ws| && Closes(m, ws, p) && AllSince(m, ws, m.fairness, p)
  }

  /** The trace witnesses the justice property: some fair loop meets all its literals. */
  ghost predicate Witnesses(m: Model, ws: seq<Valuation>, j: nat)
    requires InRange(m) && Frames(m, ws) && j < |m.justice|
  {
    exists p: nat :: FairLoop(m, ws, p) && AllSince(m, ws, m.justice[j], p)
  }

  /** An earlier loop point sees at least as much: checking the first fair one is enough. */
  lemma FirstLoopSuffices(m: Model, ws: seq<Valuation>, p: nat, j: nat)
    requires InRange(m) && Frames(m, ws) && j < |m.justice|
    requires FairLoop(m, ws, p) && forall q: nat :: q < p ==> !FairLoop(m, ws, q)
    ensures Witnesses(m, ws, j) <==> AllSince(m, ws, m.justice[j], p)
  {
    if Witnesses(m, ws, j) {
      var q: nat :| FairLoop(m, ws, q) && AllSince(m, ws, m.justice[j], q);
      forall i | 0 <= i < |m.justice[j]| ensures TrueSince(m, ws, m.justice[j][i], p) {
        var t :| q <= t < |ws| && LitVal(ws[t], m.justice[j][i]);
        assert p <= t;
      }
    }
  }

  // ----- The simulator -----------------------------------------------------------------------------------

  /** Loops are only looked for when there is something to be met on them. */
  predicate FindsLoops(m: Model) {
    |m.fairness| > 0 || |m.justice| > 0
  }

  /** Reset values, or the initial state line of a witness. */
  datatype Start = FromReset | FromWitness(bits: seq<bool>)

  predicate Legal(m: Model, start: Start) {
    start.FromWitness? ==>
      |start.bits| == |m.latches| && forall j :: 0 <= j < |m.latches| && m.latches[j].reset <= 1 ==>
                                                  start.bits[j] == (m.latches[j].reset == 1)
  }

  function StartValue(m: Model, start: Start, j: nat): bool
    requires Legal(m, start) && j < |m.latches|
  {
    match start
    case FromReset => m.latches[j].reset == 1
    case FromWitness(bits) => bits[j]
  }

  ghost predicate StateAt(m: Model, w: Valuation, bits: seq<bool>)
    requires InRange(m) && |w| == m.maxvar + 1
  {
    |bits| == |m.latches| && forall j :: 0 <= j < |bits| ==> bits[j] == LitVal(w, m.latches[j].lit)
  }

  ghost predicate Stamped(m: Model, ws: seq<Valuation>, ls: seq<nat>, stamps: seq<nat>)
    requires Frames(m, ws) && AllBelow(ls, m.maxvar + 1)
  {
    |stamps| == |ls| && forall j :: 0 <= j < |ls| ==> stamps[j] == LastTrue(m, ws, ls[j], |ws|)
  }

  ghost predicate BadSeen(m: Model, ws: seq<Valuation>, bad: seq<bool>)
    requires Frames(m, ws) && InRange(m)
  {
    |bad| == |m.bad| && forall j :: 0 <= j < |bad| ==> (bad[j] <==> TrueSince(m, ws, m.bad[j], 0))
  }

  ghost predicate InputsAt(m: Model, w: Valuation, inputs: seq<bool>)
    requires Reencoded(m) && |w| == m.maxvar + 1
  {
    |inputs| == |m.inputs| && forall j :: 0 <= j < |m.inputs| ==> w[1 + j] == inputs[j]
  }

  ghost predicate ConstraintsHold(m: Model, w: Valuation)
    requires InRange(m) && |w| == m.maxvar + 1
  {
    forall j :: 0 <= j < |m.constraints| ==> LitVal(w, m.constraints[j])
  }

  /** Latch values before the frame that follows `ws`. */
  ghost predicate LatchesNext(m: Model, start: Start, ws: seq<Valuation>, w: Valuation)
    requires Reencoded(m) && InRange(m) && Legal(m, start) && Frames(m, ws) && |w| == m.maxvar + 1
  {
    forall j :: 0 <= j < |m.latches| ==> LatchNext(m, start, ws, w, j)
  }

  ghost predicate LatchNext(m: Model, start: Start, ws: seq<Valuation>, w: Valuation, j: nat)
    requires Reencoded(m) && InRange(m) && Legal(m, start) && Frames(m, ws) && |w| == m.maxvar + 1 && j < |m.latches|
  {
    w[FirstLatch(m) + j] == if |ws| == 0 then StartValue(m, start, j) else LitVal(ws[|ws| - 1], m.latches[j].next)
  }

  /** The frames of the simulation from `start` under the stimulus. */
  ghost predicate TraceOf(m: Model, start: Start, stim: seq<seq<bool>>, ws: seq<Valuation>)
    requires Reencoded(m) && InRange(m) && Legal(m, start)
  {
    && Frames(m, ws) && |ws| <= |stim|
    && forall t :: 0 <= t < |ws| ==> FrameOk(m, start, stim[t], ws[..t], ws[t])
  }

  ghost predicate FrameOk(m: Model, start: Start, inputs: seq<bool>, before: seq<Valuation>, w: Valuation)
    requires Reencoded(m) && InRange(m) && Legal(m, start) && Frames(m, before) && |w| == m.maxvar + 1
  {
    Consistent(m, w) && InputsAt(m, w, inputs) && LatchesNext(m, start, before, w) && ConstraintsHold(m, w)
  }

  /** A trace is a run of the model on which all constraints hold. */
  lemma TraceIsRun(m: Model, start: Start, stim: seq<seq<bool>>, ws: seq<Valuation>)
    requires Reencoded(m) && InRange(m) && Legal(m, start) && TraceOf(m, start, stim, ws) && |ws| > 0
    ensures Run(m, ws) && forall t :: 0 <= t < |ws| ==> ConstraintsHold(m, ws[t])
  {
    assert FrameOk(m, start, stim[0], ws[..0], ws[0]);
    forall j | 0 <= j < |m.latches| && m.latches[j].reset <= 1
      ensures LitVal(ws[0], m.latches[j].lit) == (m.latches[j].reset == 1)
    {
      assert LatchNext(m, start, ws[..0], ws[0], j);
    }
    forall t | 0 <= t < |ws| - 1 ensures Step(m, ws[t], ws[t + 1]) {
      assert FrameOk(m, start, stim[t + 1], ws[..t + 1], ws[t + 1]);
      forall j | 0 <= j < |m.latches| ensures LitVal(ws[t + 1], m.latches[j].lit) == LitVal(ws[t], m.latches[j].next) {
        assert LatchNext(m, start, ws[..t + 1], ws[t + 1], j);
      }
    }
    forall t | 0 <= t < |ws| ensures Consistent(m, ws[t]) && ConstraintsHold(m, ws[t]) {
      assert FrameOk(m, start, stim[t], ws[..t], ws[t]);
    }
  }

  /** The first frame: from reset a latch is 1 iff its reset literal is, so that uninitialised latches start
      with 0; from a witness it has the bit that was read. */
  lemma TraceStarts(m: Model, start: Start, stim: seq<seq<bool>>, ws: seq<Valuation>)
    requires Reencoded(m) && InRange(m) && Legal(m, start) && TraceOf(m, start, stim, ws) && |ws| > 0
    ensures start.FromReset? ==> forall j :: 0 <= j < |m.latches| ==> (LitVal(ws[0], m.latches[j].lit) <==> m.latches[j].reset == 1)
    ensures start.FromReset? ==> forall j :: 0 <= j < |m.latches| && m.latches[j].reset == m.latches[j].lit ==> !LitVal(ws[0], m.latches[j].lit)
    ensures start.FromWitness? ==> |start.bits| == |m.latches| && forall j :: 0 <= j < |m.latches| ==> LitVal(ws[0], m.latches[j].lit) == start.bits[j]
  {
    assert FrameOk(m, start, stim[0], ws[..0], ws[0]);
    forall j | 0 <= j < |m.latches|
      ensures LitVal(ws[0], m.latches[j].lit) == if start.FromReset? then m.latches[j].reset == 1 else start.bits[j]
    {
      assert LatchNext(m, start, ws[..0], ws[0], j);
      assert m.latches[j].lit == 2 * (FirstLatch(m) + j);
    }
  }

  /** Every frame reads its line of the stimulus and meets all constraints. */
  lemma TraceReads(m: Model, start: Start, stim: seq<seq<bool>>, ws: seq<Valuation>)
    requires Reencoded(m) && InRange(m) && Legal(m, start) && TraceOf(m, start, stim, ws)
    ensures |ws| <= |stim|
    ensures forall t, j :: 0 <= t < |ws| && 0 <= j < |m.inputs| ==> |stim[t]| == |m.inputs| && LitVal(ws[t], m.inputs[j]) == stim[t][j]
    ensures forall t, i :: 0 <= t < |ws| && 0 <= i < |m.constraints| ==> LitVal(ws[t], m.constraints[i])
  {
    forall t | 0 <= t < |ws|
      ensures |stim[t]| == |m.inputs| && (forall j :: 0 <= j < |m.inputs| ==> LitVal(ws[t], m.inputs[j]) == stim[t][j])
      ensures forall i :: 0 <= i < |m.constraints| ==> LitVal(ws[t], m.constraints[i])
    {
      assert FrameOk(m, start, stim[t], ws[..t], ws[t]);
      forall j | 0 <= j < |m.inputs| ensures LitVal(ws[t], m.inputs[j]) == stim[t][j] { assert m.inputs[j] == 2 * (1 + j); }
    }
  }

  lemma TracePush(m: Model, start: Start, stim: seq<seq<bool>>, ws: seq<Valuation>, w: Valuation)
    requires Reencoded(m) && InRange(m) && Legal(m, start) && TraceOf(m, start, stim, ws) && |ws| < |stim|
    requires |w| == m.maxvar + 1 && FrameOk(m, start, stim[|ws|], ws, w)
    ensures TraceOf(m, start, stim, ws + [w])
  {
    var ws' := ws + [w];
    forall t | 0 <= t < |ws'| ensures FrameOk(m, start, stim[t], ws'[..t], ws'[t]) {
      if t < |ws| {
        assert ws'[..t] == ws[..t] && FrameOk(m, start, stim[t], ws[..t], ws[t]);
      } else {
        assert ws'[..t] == ws;
      }
    }
  }

  lemma TrueSincePush(m: Model, ws: seq<Valuation>, w: Valuation, l: nat)
    requires Frames(m, ws) && |w| == m.maxvar + 1 && l / 2 <= m.maxvar
    ensures Frames(m, ws + [w]) && (TrueSince(m, ws + [w], l, 0) <==> TrueSince(m, ws, l, 0) || LitVal(w, l))
  {
    var ws' := ws + [w];
    if TrueSince(m, ws, l, 0) {
      var t :| 0 <= t < |ws| && LitVal(ws[t], l);
      assert LitVal(ws'[t], l);
    }
    if LitVal(w, l) { assert LitVal(ws'[|ws|], l); }
  }

  function StartBit(m: Model, start: Start, v: nat): bool
    requires Legal(m, start)
  {
    if FirstLatch(m) <= v < FirstAnd(m) then StartValue(m, start, v - FirstLatch(m)) else false
  }

  function StartState(m: Model, start: Start): (w: Valuation)
    requires Legal(m, start)
    ensures |w| == m.maxvar + 1 && forall v :: 0 <= v < |w| ==> w[v] == StartBit(m, start, v)
  {
    seq(m.maxvar + 1, v requires 0 <= v <= m.maxvar => StartBit(m, start, v))
  }

  function NextState(m: Model, w: Valuation): (r: seq<bool>)
    requires InRange(m) && |w| == m.maxvar + 1
    ensures |r| == |m.latches| && forall j :: 0 <= j < |r| ==> r[j] == LitVal(w, m.latches[j].next)
  {
    seq(|m.latches|, j requires 0 <= j < |m.latches| => LitVal(w, m.latches[j].next))
  }

  /** The properties a witness says it is a witness of. */
  datatype Expected = Expected(bad: set<nat>, justice: set<nat>)

  class Simulator {
    const m: Model
    const start: Start
    var current: Valuation
    var fair: seq<nat>
    var justice: seq<seq<nat>>
    var states: seq<seq<bool>>
    var bad: seq<bool>
    var constraintViolation: bool
    /** The frames simulated without violation. */
    ghost var ws: seq<Valuation>

    ghost predicate Recorded()
      reads this
    {
      && Reencoded(m) && InRange(m) && Legal(m, start) && Frames(m, ws) && |current| == m.maxvar + 1
      && Stamped(m, ws, m.fairness, fair)
      && |justice| == |m.justice| && (forall j :: 0 <= j < |justice| ==> Stamped(m, ws, m.justice[j], justice[j]))
      && |states| == (if FindsLoops(m) then |ws| else 0) && (forall t :: 0 <= t < |states| ==> StateAt(m, ws[t], states[t]))
      && BadSeen(m, ws, bad)
    }

    constructor (m: Model, start: Start)
      requires Reencoded(m) && Legal(m, start)
      ensures this.m == m && this.start == start && ws == [] && !constraintViolation && Recorded()
      ensures LatchesNext(m, start, ws, current) && !current[0]
    {
      this.m, this.start := m, start;
      current := StartState(m, start);
      fair := seq(|m.fairness|, _ => 0);
      justice := seq(|m.justice|, j requires 0 <= j < |m.justice| => seq(|m.justice[j]|, _ => 0));
      states, bad, constraintViolation := [], seq(|m.bad|, _ => false), false;
      ws := [];
      new;
      ReencodedInRange(m);
      forall j | 0 <= j < |m.latches| ensures LatchNext(m, start, ws, current, j) {}
    }

    method SetInputs(inputs: seq<bool>)
      requires Reencoded(m) && |current| == m.maxvar + 1 && |inputs| == |m.inputs|
      modifies `current
      ensures |current| == m.maxvar + 1 && InputsAt(m, current, inputs)
      ensures forall v :: 0 <= v < |current| && !(1 <= v < FirstLatch(m)) ==> current[v] == old(current)[v]
    {
      for j := 0 to |m.inputs|
        invariant |current| == m.maxvar + 1 && forall i :: 0 <= i < j ==> current[1 + i] == inputs[i]
        invariant forall v :: 0 <= v < |current| && !(1 <= v < FirstLatch(m)) ==> current[v] == old(current)[v]
      {
        current := current[1 + j := inputs[j]];
      }
    }

    method SimulateAnds()
      requires Reencoded(m) && InRange(m) && |current| == m.maxvar + 1 && !current[0]
      modifies `current
      ensures Consistent(m, current)
      ensures forall v :: 0 <= v < FirstAnd(m) ==> current[v] == old(current)[v]
    {
      hide InRange;
      for j := 0 to |m.ands|
        invariant |current| == m.maxvar + 1 && !current[0]
        invariant forall i :: 0 <= i < j ==> GateHolds(current, m.ands[i])
        invariant forall v :: 0 <= v < FirstAnd(m) ==> current[v] == old(current)[v]
      {
        var g := m.ands[j];
        assert g.lhs == 2 * (FirstAnd(m) + j);
        ghost var before := current;
        current := current[g.lhs / 2 := LitVal(current, g.rhs0) && LitVal(current, g.rhs1)];
        forall i | 0 <= i < j ensures GateHolds(current, m.ands[i]) {
          GateUntouched(m, before, current, FirstAnd(m) + j, i);
        }
      }
    }

    method CheckConstraints() returns (violated: bool)
      requires InRange(m) && |current| == m.maxvar + 1
      ensures violated <==> !ConstraintsHold(m, current)
    {
      violated := false;
      for j := 0 to |m.constraints|
        invariant violated <==> exists i :: 0 <= i < j && !LitVal(current, m.constraints[i])
      {
        if !LitVal(current, m.constraints[j]) { violated := true; }
      }
    }

    /** The new time stamps of a list of literals. */
    method Stamp(ls: seq<nat>, stamps: seq<nat>, ghost before: seq<Valuation>) returns (r: seq<nat>)
      requires Frames(m, before) && |current| == m.maxvar + 1 && AllBelow(ls, m.maxvar + 1) && Stamped(m, before, ls, stamps)
      requires |before| == |states|
      ensures Frames(m, before + [current]) && Stamped(m, before + [current], ls, r)
    {
      r := stamps;
      for j := 0 to |ls|
        invariant |r| == |ls|
        invariant forall i :: j <= i < |ls| ==> r[i] == stamps[i]
        invariant forall i :: 0 <= i < j ==> r[i] == LastTrue(m, before + [current], ls[i], |before| + 1)
      {
        LastTruePrefix(m, before, current, ls[j], |before|);
        if LitVal(current, ls[j]) { r := r[j := |states| + 1]; }
      }
    }

    method MarkBad()
      requires InRange(m) && Frames(m, ws) && |current| == m.maxvar + 1 && BadSeen(m, ws, bad)
      modifies `bad
      ensures Frames(m, ws + [current]) && BadSeen(m, ws + [current], bad)
    {
      for j := 0 to |m.bad|
        invariant |bad| == |m.bad| && forall i :: j <= i < |bad| ==> bad[i] == old(bad)[i]
        invariant forall i :: 0 <= i < j ==> (bad[i] <==> TrueSince(m, ws + [current], m.bad[i], 0))
      {
        TrueSincePush(m, ws, current, m.bad[j]);
        bad := bad[j := bad[j] || LitVal(current, m.bad[j])];
      }
    }

    method StampJustice()
      requires InRange(m) && Frames(m, ws) && |current| == m.maxvar + 1 && |ws| == |states|
      requires |justice| == |m.justice| && forall j :: 0 <= j < |justice| ==> Stamped(m, ws, m.justice[j], justice[j])
      modifies `justice
      ensures Frames(m, ws + [current])
      ensures |justice| == |m.justice| && forall j :: 0 <= j < |justice| ==> Stamped(m, ws + [current], m.justice[j], justice[j])
    {
      for j := 0 to |m.justice|
        invariant |justice| == |m.justice| && forall i :: j <= i < |justice| ==> justice[i] == old(justice)[i]
        invariant forall i :: 0 <= i < j ==> Stamped(m, ws + [current], m.justice[i], justice[i])
      {
        var stamps := Stamp(m.justice[j], justice[j], ws);
        justice := justice[j := stamps];
      }
    }

    /** Keeps what the check needs of the current frame. */
    method Record()
      requires Recorded()
      modifies `fair, `justice, `states, `bad, `ws
      ensures Recorded() && ws == old(ws) + [current]
    {
      if FindsLoops(m) {
        fair := Stamp(m.fairness, fair, ws);
        StampJustice();
        var w := current;
        states := states + [seq(|m.latches|, j requires 0 <= j < |m.latches| => LitVal(w, m.latches[j].lit))];
      }
      MarkBad();
      ws := ws + [current];
    }

    /** All next values first, then all latches at once. */
    method Advance()
      requires Reencoded(m) && InRange(m) && |current| == m.maxvar + 1
      modifies `current
      ensures |current| == m.maxvar + 1 && current[0] == old(current)[0]
      ensures |old(current)| == m.maxvar + 1
      ensures forall j :: 0 <= j < |m.latches| ==> current[FirstLatch(m) + j] == LitVal(old(current), m.latches[j].next)
    {
      var next := NextState(m, current);
      for j := 0 to |m.latches|
        invariant |current| == m.maxvar + 1 && current[0] == old(current)[0]
        invariant forall i :: 0 <= i < j ==> current[FirstLatch(m) + i] == next[i]
      {
        assert m.latches[j].lit == 2 * (FirstLatch(m) + j);
        current := current[m.latches[j].lit / 2 := next[j]];
      }
    }

    ghost predicate Simulating(stim: seq<seq<bool>>)
      reads this
    {
      && Recorded() && TraceOf(m, start, stim, ws) && !current[0] && LatchesNext(m, start, ws, current)
    }

    /** One time frame: inputs, gates, constraints, records, latches. */
    method Frame(stim: seq<seq<bool>>, n: nat)
      requires Simulating(stim) && n == |ws| < |stim| && |stim[n]| == |m.inputs| && !constraintViolation
      modifies `current, `fair, `justice, `states, `bad, `ws, `constraintViolation
      ensures !constraintViolation ==> Simulating(stim) && |ws| == n + 1
      ensures constraintViolation ==> Recorded() && ws == old(ws) && Violates(m, start, stim, ws)
    {
      ghost var latches := current;
      SetInputs(stim[n]);
      SimulateAnds();
      LatchesKept(m, start, ws, latches, current);
      constraintViolation := CheckConstraints();
      if constraintViolation {
        assert FrameButConstraints(m, start, stim[n], ws, current);
        return;
      }
      TracePush(m, start, stim, ws, current);
      ghost var before := ws;
      Record();
      Advance();
      forall j | 0 <= j < |m.latches| ensures LatchNext(m, start, ws, current, j) {
      }
    }

    method Simulate(stim: seq<seq<bool>>)
      requires Simulating(stim) && ws == [] && !constraintViolation
      requires forall t :: 0 <= t < |stim| ==> |stim[t]| == |m.inputs|
      modifies `current, `fair, `justice, `states, `bad, `ws, `constraintViolation
      ensures Recorded() && TraceOf(m, start, stim, ws)
      ensures if constraintViolation then Violates(m, start, stim, ws) else |ws| == |stim| && Simulating(stim)
    {
      for n := 0 to |stim|
        invariant Simulating(stim) && |ws| == n && !constraintViolation
      {
        Frame(stim, n);
        if constraintViolation { return; }
      }
    }

    method IsLoopPoint(p: nat) returns (b: bool)
      requires Recorded() && p < |states| && LatchesNext(m, start, ws, current)
      ensures b <==> FairLoop(m, ws, p)
    {
      b := true;
      for j := 0 to |m.latches|
        invariant b <==> forall i :: 0 <= i < j ==> LatchCloses(m, ws, p, i)
      {
        assert LatchNext(m, start, ws, current, j) && StateAt(m, ws[p], states[p]);
        assert m.latches[j].lit == 2 * (FirstLatch(m) + j);
        assert LitVal(current, m.latches[j].lit) == LitVal(ws[|ws| - 1], m.latches[j].next);
        assert LatchCloses(m, ws, p, j) <==> states[p][j] == LitVal(current, m.latches[j].lit);
        b := b && states[p][j] == LitVal(current, m.latches[j].lit);
      }
      for j := 0 to |m.fairness|
        invariant b <==> Closes(m, ws, p) && forall i :: 0 <= i < j ==> TrueSince(m, ws, m.fairness[i], p)
      {
        LastTrueExact(m, ws, m.fairness[j], p, |ws|);
        b := b && fair[j] > p;
      }
    }

    /** The first loop point, unless a constraint was violated. */
    method FindLoop(stim: seq<seq<bool>>) returns (foundfair: bool, looppoint: nat)
      requires Recorded() && (!constraintViolation ==> Simulating(stim))
      ensures constraintViolation ==> !foundfair
      ensures !constraintViolation ==> (foundfair <==> FindsLoops(m) && exists p: nat :: FairLoop(m, ws, p))
      ensures foundfair ==> FairLoop(m, ws, looppoint) && forall q: nat :: q < looppoint ==> !FairLoop(m, ws, q)
    {
      foundfair, looppoint := false, 0;
      for i := 0 to |states|
        invariant foundfair ==> FairLoop(m, ws, looppoint) && forall q: nat :: q < looppoint ==> !FairLoop(m, ws, q)
        invariant constraintViolation ==> !foundfair
        invariant foundfair ==> FindsLoops(m)
        invariant !constraintViolation && !foundfair ==> forall q: nat :: q < i ==> !FairLoop(m, ws, q)
      {
        if !foundfair && !constraintViolation {
          foundfair := IsLoopPoint(i);
          if foundfair { looppoint := i; }
        }
      }
    }

    /** Whether the trace is printed as a witness of justice property `j`. */
    method FoundJustice(j: nat, foundfair: bool, looppoint: nat) returns (found: bool)
      requires Recorded() && j < |m.justice|
      requires foundfair ==> FairLoop(m, ws, looppoint) && forall q: nat :: q < looppoint ==> !FairLoop(m, ws, q)
      ensures foundfair ==> (found <==> Witnesses(m, ws, j))
      ensures !foundfair ==> !found
    {
      found := foundfair;
      if foundfair { FirstLoopSuffices(m, ws, looppoint, j); }
      for i := 0 to |m.justice[j]|
        invariant found <==> foundfair && forall k :: 0 <= k < i ==> TrueSince(m, ws, m.justice[j][k], looppoint)
      {
        assert Stamped(m, ws, m.justice[j], justice[j]);
        LastTrueExact(m, ws, m.justice[j][i], looppoint, |ws|);
        found := found && justice[j][i] > looppoint;
      }
    }

    method AllJustice(foundfair: bool, looppoint: nat) returns (found: seq<bool>)
      requires Recorded()
      requires foundfair ==> FairLoop(m, ws, looppoint) && forall q: nat :: q < looppoint ==> !FairLoop(m, ws, q)
      ensures |found| == |m.justice|
      ensures forall j :: 0 <= j < |m.justice| ==> (found[j] <==> foundfair && Witnesses(m, ws, j))
    {
      found := [];
      for j := 0 to |m.justice|
        invariant |found| == j && forall i :: 0 <= i < j ==> (found[i] <==> foundfair && Witnesses(m, ws, i))
      {
        var b := FoundJustice(j, foundfair, looppoint);
        found := found + [b];
      }
    }

    /** The verdict: every property the witness names was found, and a loop if it names a justice one. */
    method Passes(expected: Expected, foundfair: bool, found: seq<bool>) returns (pass: bool)
      requires Recorded() && |found| == |m.justice|
      ensures pass <==>
        && (forall j: nat :: j in expected.bad && j < |m.bad| ==> bad[j])
        && (FindsLoops(m) ==> foundfair || expected.justice == {})
        && (forall j: nat :: j in expected.justice && j < |m.justice| ==> found[j])
    {
      pass := true;
      for j := 0 to |m.bad|
        invariant pass <==> forall i: nat :: i in expected.bad && i < j ==> bad[i]
      {
        if !bad[j] { pass := pass && j !in expected.bad; }
      }
      if FindsLoops(m) {
        pass := pass && (foundfair || expected.justice == {});
        ghost var before := pass;
        for j := 0 to |m.justice|
          invariant pass <==> before && forall i: nat :: i in expected.justice && i < j ==> found[i]
        {
          if !found[j] { pass := pass && j !in expected.justice; }
        }
      }
    }
  }

  ghost predicate FrameButConstraints(m: Model, start: Start, inputs: seq<bool>, before: seq<Valuation>, w: Valuation)
    requires Reencoded(m) && InRange(m) && Legal(m, start) && Frames(m, before)
  {
    Consistent(m, w) && InputsAt(m, w, inputs) && LatchesNext(m, start, before, w) && !ConstraintsHold(m, w)
  }

  /** The frame after the trace exists but violates a constraint. */
  ghost predicate Violates(m: Model, start: Start, stim: seq<seq<bool>>, ws: seq<Valuation>)
    requires Reencoded(m) && InRange(m) && Legal(m, start) && Frames(m, ws)
  {
    |ws| < |stim| && exists w: Valuation :: FrameButConstraints(m, start, stim[|ws|], ws, w)
  }

  /** A violation: the trace has one continuation under the next line of the stimulus, and there some
      constraint fails. */
  lemma ViolationMeans(m: Model, start: Start, stim: seq<seq<bool>>, ws: seq<Valuation>)
    requires Reencoded(m) && InRange(m) && Legal(m, start) && TraceOf(m, start, stim, ws) && Violates(m, start, stim, ws)
    ensures exists w: Valuation, i ::
      && Consistent(m, w)
      && (forall j :: 0 <= j < |m.latches| ==>
            (LitVal(w, m.latches[j].lit) <==>
             if |ws| > 0 then LitVal(ws[|ws| - 1], m.latches[j].next)
             else if start.FromReset? then m.latches[j].reset == 1
             else start.bits[j]))
      && |ws| < |stim| && |stim[|ws|]| == |m.inputs| && (forall j :: 0 <= j < |m.inputs| ==> LitVal(w, m.inputs[j]) == stim[|ws|][j])
      && 0 <= i < |m.constraints| && !LitVal(w, m.constraints[i])
  {
    var w: Valuation :| FrameButConstraints(m, start, stim[|ws|], ws, w);
    forall j | 0 <= j < |m.inputs| ensures LitVal(w, m.inputs[j]) == stim[|ws|][j] { assert m.inputs[j] == 2 * (1 + j); }
    forall j | 0 <= j < |m.latches|
      ensures LitVal(w, m.latches[j].lit) <==> if |ws| > 0 then LitVal(ws[|ws| - 1], m.latches[j].next)
                                               else if start.FromReset? then m.latches[j].reset == 1
                                               else start.bits[j]
    {
      assert LatchNext(m, start, ws, w, j) && m.latches[j].lit == 2 * (FirstLatch(m) + j);
    }
    var i :| 0 <= i < |m.constraints| && !LitVal(w, m.constraints[i]);
  }

  lemma LatchesKept(m: Model, start: Start, ws: seq<Valuation>, w: Valuation, w': Valuation)
    requires Reencoded(m) && InRange(m) && Legal(m, start) && Frames(m, ws) && |w| == |w'| == m.maxvar + 1
    requires LatchesNext(m, start, ws, w) && forall v :: FirstLatch(m) <= v < FirstAnd(m) ==> w'[v] == w[v]
    ensures LatchesNext(m, start, ws, w')
  {
    forall j | 0 <= j < |m.latches| ensures LatchNext(m, start, ws, w', j) {
      assert LatchNext(m, start, ws, w, j);
    }
  }

  datatype Report = Report(bad: seq<bool>, justice: seq<bool>, loop: bool, looppoint: nat, violated: bool, pass: bool)

  /** The checker as a whole: what it says about a trace is exact. */
  method Check(m: Model, start: Start, stim: seq<seq<bool>>, expected: Expected) returns (r: Report, ghost ws: seq<Valuation>)
    requires Reencoded(m) && Legal(m, start) && forall t :: 0 <= t < |stim| ==> |stim[t]| == |m.inputs|
    ensures InRange(m) && TraceOf(m, start, stim, ws)
    ensures |ws| > 0 ==> Run(m, ws) && forall j :: 0 <= j < |m.latches| ==>
      (LitVal(ws[0], m.latches[j].lit) <==> if start.FromReset? then m.latches[j].reset == 1 else start.bits[j])
    ensures |r.bad| == |m.bad| && forall j :: 0 <= j < |m.bad| ==>
      (r.bad[j] <==> exists t :: 0 <= t < |ws| && LitVal(ws[t], m.bad[j]))
    ensures if r.violated then Violates(m, start, stim, ws) else |ws| == |stim|
    ensures |r.justice| == |m.justice| && forall j :: 0 <= j < |m.justice| ==>
      (r.justice[j] <==> !r.violated && Witnesses(m, ws, j))
    ensures r.loop <==> !r.violated && (m.fairness != [] || m.justice != []) && exists p: nat :: FairLoop(m, ws, p)
    ensures r.loop ==> FairLoop(m, ws, r.looppoint)
    ensures r.pass <==>
      && (forall j: nat :: j in expected.bad && j < |m.bad| ==> exists t :: 0 <= t < |ws| && LitVal(ws[t], m.bad[j]))
      && (m.fairness != [] || m.justice != [] ==> r.loop || expected.justice == {})
      && (forall j: nat :: j in expected.justice && j < |m.justice| ==> !r.violated && Witnesses(m, ws, j))
  {
    ReencodedInRange(m);
    var sim := new Simulator(m, start);
    sim.Simulate(stim);
    ws := sim.ws;
    var loop, looppoint := sim.FindLoop(stim);
    var justice := sim.AllJustice(loop, looppoint);
    var pass := sim.Passes(expected, loop, justice);
    if |ws| > 0 {
      TraceStarts(m, start, stim, ws);
      TraceIsRun(m, start, stim, ws);
    }
    r := Report(sim.bad, justice, loop, looppoint, sim.constraintViolation, pass);
  }
}
