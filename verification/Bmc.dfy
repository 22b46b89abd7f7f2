/** The bounded model checker `aigbmc`: it grows a clause stream frame by frame and asks a SAT
    solver after each one. */
module Bmc {
  import opened Aiger
  import opened BmcSpec
  import opened Cnf
  import opened BmcEncoding
  import opened BmcSoundness
  import opened BmcCompleteness

  // ----- Small facts about extending frames ------------------------------------------------

  predicate SameImports(st: State, st': State) {
    st.inputs == st'.inputs && st.latches == st'.latches && st.ands == st'.ands
  }

  lemma GatesSame(a: Assignment, m: Model, st: State, st': State, n: nat)
    requires SameImports(st, st') && n <= |m.ands| && n <= |st.ands|
    requires forall i :: 0 <= i < n ==> CanImport(m, st, m.ands[i].rhs0) && CanImport(m, st, m.ands[i].rhs1)
    ensures forall i :: 0 <= i < n ==> CanImport(m, st', m.ands[i].rhs0) && CanImport(m, st', m.ands[i].rhs1)
    ensures GateClauses(a, m, st, n) <==> GateClauses(a, m, st', n)
  {
    forall i | 0 <= i < n
      ensures CanImport(m, st', m.ands[i].rhs0) && CanImport(m, st', m.ands[i].rhs1)
      ensures Import(m, st', m.ands[i].rhs0) == Import(m, st, m.ands[i].rhs0)
      ensures Import(m, st', m.ands[i].rhs1) == Import(m, st, m.ands[i].rhs1)
    {}
  }

  lemma GatesGrow(a: Assignment, m: Model, st: State, lit: int, n: nat)
    requires n < |m.ands| && n == |st.ands|
    requires forall i :: 0 <= i <= n ==> CanImport(m, st, m.ands[i].rhs0) && CanImport(m, st, m.ands[i].rhs1)
    ensures var st' := st.(ands := st.ands + [lit]);
      && (forall i :: 0 <= i <= n ==> CanImport(m, st', m.ands[i].rhs0) && CanImport(m, st', m.ands[i].rhs1))
      && (GateClauses(a, m, st', n + 1) <==>
          GateClauses(a, m, st, n) &&
          (Holds(a, lit) <==> Holds(a, Import(m, st, m.ands[n].rhs0)) && Holds(a, Import(m, st, m.ands[n].rhs1))))
  {
    var st' := st.(ands := st.ands + [lit]);
    forall i | 0 <= i <= n
      ensures CanImport(m, st', m.ands[i].rhs0) && CanImport(m, st', m.ands[i].rhs1)
      ensures Import(m, st', m.ands[i].rhs0) == Import(m, st, m.ands[i].rhs0)
      ensures Import(m, st', m.ands[i].rhs1) == Import(m, st, m.ands[i].rhs1)
    {}
    assert st'.ands[n] == lit;
    if GateClauses(a, m, st', n + 1) {
      forall i | 0 <= i < n
        ensures Holds(a, st.ands[i]) <==> Holds(a, Import(m, st, m.ands[i].rhs0)) && Holds(a, Import(m, st, m.ands[i].rhs1))
      {
        assert st'.ands[i] == st.ands[i];
      }
    }
    if GateClauses(a, m, st, n) {
      forall i | 0 <= i < n ensures st'.ands[i] == st.ands[i] {}
    }
  }

  lemma OperandsImportable(m: Model, st: State, n: nat)
    requires Reencoded(m) && n < |m.ands|
    requires |st.inputs| == |m.inputs| && |st.latches| == |m.latches| && |st.ands| == n
    ensures forall i :: 0 <= i <= n ==> CanImport(m, st, m.ands[i].rhs0) && CanImport(m, st, m.ands[i].rhs1)
  {
    forall i | 0 <= i <= n
      ensures CanImport(m, st, m.ands[i].rhs0) && CanImport(m, st, m.ands[i].rhs1)
    {
      assert m.ands[i].lhs == 2 * (FirstAnd(m) + i);
    }
  }

  const EmptyState := State([], [], [], [], 0, [], 0, [], 0, 0, 0, [], 0, [], 0)

  class Encoder {
    const m: Model
    var nvars: nat
    var states: seq<State>
    var join: seq<int>
    var clauses: seq<Clause>
    var pending: Clause
    ghost var roles: seq<Role>

    constructor (m: Model)
      ensures this.m == m && nvars == 0 && roles == [] && states == [] && join == []
      ensures clauses == [] && pending == []
    {
      this.m := m;
      nvars, states, join, clauses, pending, roles := 0, [], [], [], [], [];
    }

    ghost predicate Counted()
      reads this`nvars, this`roles
    {
      |roles| == nvars
    }

    method NewVar(ghost r: Role) returns (v: int)
      requires Counted()
      modifies `nvars, `roles
      ensures Counted() && v == nvars == old(nvars) + 1 && roles == old(roles) + [r]
      ensures IsVar(roles, v, r)
    {
      nvars := nvars + 1;
      roles := roles + [r];
      v := nvars;
    }

    method Add(lit: int)
      modifies `clauses, `pending
      ensures lit != 0 ==> pending == old(pending) + [lit] && clauses == old(clauses)
      ensures lit == 0 ==> pending == [] && clauses == old(clauses) + [old(pending)]
    {
      if lit == 0 {
        clauses, pending := clauses + [pending], [];
      } else {
        pending := pending + [lit];
      }
    }

    /** Ends the pending clause. */
    method Close()
      modifies `clauses, `pending
      ensures pending == []
      ensures forall a :: Satisfies(a, clauses) <==> Satisfies(a, old(clauses)) && ClauseHolds(a, old(pending))
    {
      ghost var c0, p0 := clauses, pending;
      Add(0);
      forall a ensures Satisfies(a, clauses) <==> Satisfies(a, c0) && ClauseHolds(a, p0) {
        SatisfiesSnoc(a, c0, p0);
      }
    }

    method Unit(x: int)
      requires pending == [] && x != 0
      modifies `clauses, `pending
      ensures pending == []
      ensures forall a :: Satisfies(a, clauses) <==> Satisfies(a, old(clauses)) && Holds(a, x)
    {
      Add(x);
      assert pending == [x];
      forall a ensures ClauseHolds(a, [x]) <==> Holds(a, x) { ClauseHolds1(a, x); }
      Close();
    }

    method Binary(x: int, y: int)
      requires pending == [] && x != 0 && y != 0
      modifies `clauses, `pending
      ensures pending == []
      ensures forall a :: Satisfies(a, clauses) <==> Satisfies(a, old(clauses)) && (Holds(a, x) || Holds(a, y))
    {
      Add(x);
      Add(y);
      assert pending == [x, y];
      forall a ensures ClauseHolds(a, [x, y]) <==> Holds(a, x) || Holds(a, y) { ClauseHolds2(a, x, y); }
      Close();
    }

    method Ternary(x: int, y: int, z: int)
      requires pending == [] && x != 0 && y != 0 && z != 0
      modifies `clauses, `pending
      ensures pending == []
      ensures forall a :: Satisfies(a, clauses) <==>
        Satisfies(a, old(clauses)) && (Holds(a, x) || Holds(a, y) || Holds(a, z))
    {
      Add(x);
      Add(y);
      Add(z);
      assert pending == [x, y, z];
      forall a ensures ClauseHolds(a, [x, y, z]) <==> Holds(a, x) || Holds(a, y) || Holds(a, z) {
        ClauseHolds3(a, x, y, z);
      }
      Close();
    }

    /** The three clauses of an AND gate. */
    method And(lhs: int, rhs0: int, rhs1: int)
      requires pending == [] && lhs != 0 && rhs0 != 0 && rhs1 != 0
      modifies `clauses, `pending
      ensures pending == []
      ensures forall a :: Satisfies(a, clauses) <==>
        Satisfies(a, old(clauses)) && (Holds(a, lhs) <==> Holds(a, rhs0) && Holds(a, rhs1))
    {
      Binary(-lhs, rhs0);
      Binary(-lhs, rhs1);
      Ternary(lhs, -rhs0, -rhs1);
    }

    /** The clause `-guard | l_0 | ... | l_n`. */
    method ImpliesAny(guard: int, ls: seq<int>)
      requires pending == [] && guard != 0 && forall i :: 0 <= i < |ls| ==> ls[i] != 0
      modifies `clauses, `pending
      ensures pending == []
      ensures forall a :: Satisfies(a, clauses) <==> Satisfies(a, old(clauses)) && (Holds(a, guard) ==> AnyHolds(a, ls))
    {
      Add(-guard);
      for i := 0 to |ls|
        invariant pending == [-guard] + ls[..i] && clauses == old(clauses)
      {
        Add(ls[i]);
      }
      assert ls[..|ls|] == ls;
      forall a ensures ClauseHolds(a, [-guard] + ls) <==> (Holds(a, guard) ==> AnyHolds(a, ls)) {
        ClauseHoldsConcat(a, [-guard], ls);
        ClauseHolds1(a, -guard);
      }
      Close();
    }

    /** The clauses `-guard | l_i`. */
    method ImpliesAll(guard: int, ls: seq<int>)
      requires pending == [] && guard != 0 && forall i :: 0 <= i < |ls| ==> ls[i] != 0
      modifies `clauses, `pending
      ensures pending == []
      ensures forall a :: Satisfies(a, clauses) <==> Satisfies(a, old(clauses)) && (Holds(a, guard) ==> AllHold(a, ls))
    {
      for i := 0 to |ls|
        invariant pending == []
        invariant forall a :: Satisfies(a, clauses) <==>
          Satisfies(a, old(clauses)) && (Holds(a, guard) ==> AllHold(a, ls[..i]))
      {
        Binary(-guard, ls[i]);
        forall a ensures AllHold(a, ls[..i + 1]) <==> AllHold(a, ls[..i]) && Holds(a, ls[i]) {
          AllHoldSnoc(a, ls, i);
        }
      }
      assert ls[..|ls|] == ls;
    }

    // ----- The paragraphs of `encode` -------------------------------------------------------

    /** Latches of the first frame come from the reset values, later ones from the next-state
        literals of the previous frame.  Any other reset value makes the tool give up. */
    method EncodeLatches(prev: Option<State>) returns (ok: bool, lits: seq<int>)
      requires Counted() && Reencoded(m)
      requires prev.Some? ==> |prev.value.nexts| == |m.latches|
      modifies `nvars, `roles
      ensures Counted() && old(roles) <= roles
      ensures prev.Some? ==> ok && roles == old(roles)
      ensures prev.None? ==> (ok <==> forall i :: 0 <= i < |m.latches| ==> LegalReset(m.latches[i]))
      ensures ok ==> LatchLayout(m, roles, prev, EmptyState.(latches := lits))
      ensures ok ==> prev.None? || lits == prev.value.nexts
    {
      ok, lits := true, [];
      match prev {
        case Some(p) =>
          for i := 0 to |m.latches|
            invariant lits == p.nexts[..i]
          {
            lits := lits + [p.nexts[i]];
          }
          assert p.nexts[..|m.latches|] == p.nexts;
        case None =>
          for i := 0 to |m.latches|
            invariant Counted() && old(roles) <= roles && |lits| == i
            invariant forall j :: 0 <= j < i ==> LegalReset(m.latches[j])
            invariant forall j :: 0 <= j < i ==>
              if m.latches[j].reset == 0 then lits[j] == -1
              else if m.latches[j].reset == 1 then lits[j] == 1
              else IsVar(roles, lits[j], ResetVar(j))
          {
            var q := m.latches[i];
            var lit;
            if q.reset == 0 {
              lit := -1;
            } else if q.reset == 1 {
              lit := 1;
            } else {
              if q.reset != q.lit {
                return false, lits;
              }
              lit := NewVar(ResetVar(i));
            }
            lits := lits + [lit];
          }
      }
    }

    method EncodeInputs(ghost t: nat) returns (lits: seq<int>)
      requires Counted()
      modifies `nvars, `roles
      ensures Counted() && old(roles) <= roles
      ensures InputLayout(m, roles, t, EmptyState.(inputs := lits), |m.inputs|)
    {
      lits := [];
      for i := 0 to |m.inputs|
        invariant Counted() && old(roles) <= roles && |lits| == i
        invariant forall j :: 0 <= j < i ==> IsVar(roles, lits[j], InputVar(t, j))
      {
        var lit := NewVar(InputVar(t, i));
        lits := lits + [lit];
      }
    }

    method EncodeAnds(ghost t: nat, st0: State) returns (st: State)
      requires Counted() && pending == [] && Reencoded(m)
      requires |st0.inputs| == |m.inputs| && |st0.latches| == |m.latches| && st0.ands == []
      requires forall i :: 0 <= i < |st0.inputs| ==> st0.inputs[i] != 0
      requires forall i :: 0 <= i < |st0.latches| ==> st0.latches[i] != 0
      modifies `nvars, `roles, `clauses, `pending
      ensures Counted() && pending == [] && old(roles) <= roles
      ensures st == st0.(ands := st.ands) && AndLayout(m, roles, t, st, |m.ands|)
      ensures forall i :: 0 <= i < |m.ands| ==> CanImport(m, st, m.ands[i].rhs0) && CanImport(m, st, m.ands[i].rhs1)
      ensures forall a :: Satisfies(a, clauses) <==> Satisfies(a, old(clauses)) && GateClauses(a, m, st, |m.ands|)
    {
      st := st0;
      for n := 0 to |m.ands|
        invariant Counted() && pending == [] && old(roles) <= roles
        invariant st == st0.(ands := st.ands) && AndLayout(m, roles, t, st, n)
        invariant forall i :: 0 <= i < n ==> CanImport(m, st, m.ands[i].rhs0) && CanImport(m, st, m.ands[i].rhs1)
        invariant forall a :: Satisfies(a, clauses) <==> Satisfies(a, old(clauses)) && GateClauses(a, m, st, n)
      {
        OperandsImportable(m, st, n);
        var g := m.ands[n];
        var lit := NewVar(AndVar(t, n));
        assert ImportVar(m, st, g.rhs0 / 2) != 0 && ImportVar(m, st, g.rhs1 / 2) != 0;
        And(lit, Import(m, st, g.rhs0), Import(m, st, g.rhs1));
        forall a
          ensures GateClauses(a, m, st, n) && (Holds(a, lit) <==> Holds(a, Import(m, st, g.rhs0)) && Holds(a, Import(m, st, g.rhs1)))
            <==> GateClauses(a, m, st.(ands := st.ands + [lit]), n + 1)
        {
          GatesGrow(a, m, st, lit, n);
        }
        st := st.(ands := st.ands + [lit]);
      }
    }

    /** Imports a list of model literals into a frame. */
    method ImportList(st: State, ulits: seq<nat>) returns (lits: seq<int>)
      requires HasVar(m, st, NumVars(m) - 1) && AllBelow(ulits, NumVars(m))
      requires forall v :: 0 <= v < NumVars(m) ==> ImportVar(m, st, v) != 0
      ensures ImportsAll(m, st, ulits, lits)
      ensures forall i :: 0 <= i < |lits| ==> lits[i] != 0
    {
      lits := [];
      for i := 0 to |ulits|
        invariant |lits| == i
        invariant forall j :: 0 <= j < i ==> CanImport(m, st, ulits[j]) && lits[j] == Import(m, st, ulits[j])
        invariant forall j :: 0 <= j < i ==> lits[j] != 0
      {
        assert ImportVar(m, st, ulits[i] / 2) != 0;
        lits := lits + [Import(m, st, ulits[i])];
      }
    }

    method EncodeNexts(st: State) returns (lits: seq<int>)
      requires Reencoded(m) && Usable(m, st)
      ensures |lits| == |m.latches|
      ensures forall i :: 0 <= i < |m.latches| ==>
        CanImport(m, st, m.latches[i].next) && lits[i] == Import(m, st, m.latches[i].next)
      ensures forall i :: 0 <= i < |lits| ==> lits[i] != 0
    {
      lits := [];
      for i := 0 to |m.latches|
        invariant |lits| == i
        invariant forall j :: 0 <= j < i ==>
          CanImport(m, st, m.latches[j].next) && lits[j] == Import(m, st, m.latches[j].next)
        invariant forall j :: 0 <= j < i ==> lits[j] != 0
      {
        assert ImportVar(m, st, m.latches[i].next / 2) != 0;
        lits := lits + [Import(m, st, m.latches[i].next)];
      }
    }

    method EncodeBad(ghost t: nat, st0: State) returns (st: State)
      requires Counted() && pending == [] && Reencoded(m) && Usable(m, st0) && st0.bad == []
      modifies `nvars, `roles, `clauses, `pending
      ensures Counted() && pending == [] && old(roles) <= roles
      ensures st == st0.(bad := st.bad, onebad := st.onebad)
      ensures BadLayout(m, roles, t, st) && (|m.bad| > 0 ==> st.onebad != 0)
      ensures forall a :: Satisfies(a, clauses) <==> Satisfies(a, old(clauses)) && BadClauses(a, st)
    {
      st := st0;
      if |m.bad| > 0 {
        var lits := ImportList(st0, m.bad);
        st := st.(bad := lits);
        if |m.bad| > 1 {
          var v := NewVar(OneBadVar(t));
          st := st.(onebad := v);
          ImpliesAny(v, lits);
        } else {
          st := st.(onebad := lits[0]);
        }
      }
    }

    method EncodeConstraints(ghost t: nat, prev: Option<State>, st0: State) returns (st: State)
      requires Counted() && pending == [] && Reencoded(m) && Usable(m, st0) && st0.constraints == []
      requires st0.assumption != 0
      requires prev.Some? && |m.constraints| > 0 ==> prev.value.sane != 0
      modifies `nvars, `roles, `clauses, `pending
      ensures Counted() && pending == [] && old(roles) <= roles
      ensures st == st0.(constraints := st.constraints, sane := st.sane)
      ensures ConstraintLayout(m, roles, t, st)
      ensures forall a :: Satisfies(a, clauses) <==> Satisfies(a, old(clauses)) && SaneClauses(a, prev, st)
    {
      st := st0;
      if |m.constraints| > 0 {
        var lits := ImportList(st0, m.constraints);
        var v := NewVar(SaneVar(t));
        st := st.(constraints := lits, sane := v);
        ImpliesAll(v, lits);
        if prev.Some? {
          Binary(-v, prev.value.sane);
        }
        Binary(-st.assumption, v);
      }
    }

    /** The loop literals: `join` enters the loop at this frame, `loop` says it was entered. */
    method EncodeLoop(ghost t: nat, prev: Option<State>, st0: State) returns (st: State)
      requires Counted() && pending == [] && |m.justice| > 0
      requires t == 0 <==> prev.None?
      requires |join| == |st0.latches| == |st0.nexts| && st0.assumption != 0
      requires forall i :: 0 <= i < |join| ==> join[i] != 0 && st0.latches[i] != 0 && st0.nexts[i] != 0
      requires prev.Some? ==> prev.value.loop != 0
      modifies `nvars, `roles, `clauses, `pending
      ensures Counted() && pending == [] && old(roles) <= roles
      ensures st == st0.(join := st.join, loop := st.loop) && LoopLayout(roles, t, st)
      ensures forall a :: Satisfies(a, clauses) <==> Satisfies(a, old(clauses)) && LoopClauses(a, join, prev, st)
    {
      ghost var c0 := clauses;
      st := st0;
      var v := NewVar(JoinedVar(t));
      st := st.(join := v);
      if prev.Some? {
        var w := NewVar(LoopVar(t));
        st := st.(loop := w);
        Ternary(-w, v, prev.value.loop);
      } else {
        st := st.(loop := v);
      }
      ghost var c1 := clauses;
      EquivUnder(v, st.latches);
      ghost var c2 := clauses;
      EquivUnder(st.assumption, st.nexts);
      forall a ensures Satisfies(a, clauses) <==> Satisfies(a, c0) && LoopClauses(a, join, prev, st) {
        assert Satisfies(a, clauses) <==> Satisfies(a, c2) && (Holds(a, st.assumption) ==> SameState(a, join, st.nexts));
        assert Satisfies(a, c2) <==> Satisfies(a, c1) && (Holds(a, st.join) ==> SameState(a, join, st.latches));
      }
    }

    /** Under the guard the shared join variables equal the given state literals. */
    method EquivUnder(guard: int, lits: seq<int>)
      requires pending == [] && guard != 0 && |lits| == |join|
      requires forall i :: 0 <= i < |join| ==> join[i] != 0 && lits[i] != 0
      modifies `clauses, `pending
      ensures pending == []
      ensures forall a :: Satisfies(a, clauses) <==>
        Satisfies(a, old(clauses)) && (Holds(a, guard) ==> SameState(a, join, lits))
    {
      for i := 0 to |join|
        invariant pending == []
        invariant forall a :: Satisfies(a, clauses) <==>
          Satisfies(a, old(clauses)) && (Holds(a, guard) ==> SameState(a, join[..i], lits[..i]))
      {
        Ternary(-guard, -join[i], lits[i]);
        Ternary(-guard, join[i], -lits[i]);
        forall a
          ensures SameState(a, join[..i + 1], lits[..i + 1]) <==>
                  SameState(a, join[..i], lits[..i]) && (Holds(a, join[i]) <==> Holds(a, lits[i]))
        {
          SameStateSnoc(a, join, lits, i);
        }
      }
      assert join[..|join|] == join && lits[..|join|] == lits;
    }

    /** The two clauses that let a tracked literal become satisfied. */
    method Track(prev: Option<int>, cur: Tracked, loop: int)
      requires pending == [] && cur.lit != 0 && cur.sat != 0 && loop != 0 && (prev.Some? ==> prev.value != 0)
      modifies `clauses, `pending
      ensures pending == []
      ensures forall a :: Satisfies(a, clauses) <==> Satisfies(a, old(clauses)) && TrackClauses(a, prev, cur, loop)
    {
      var before := if prev.Some? then [prev.value] else [];
      ghost var c0 := clauses;
      ImpliesAny(cur.sat, before + [cur.lit]);
      ghost var c1 := clauses;
      ImpliesAny(cur.sat, before + [loop]);
      forall a ensures Satisfies(a, clauses) <==> Satisfies(a, c0) && TrackClauses(a, prev, cur, loop) {
        assert Satisfies(a, c1) <==> Satisfies(a, c0) && (Holds(a, cur.sat) ==> AnyHolds(a, before + [cur.lit]));
        ClauseHoldsConcat(a, before, [cur.lit]);
        ClauseHoldsConcat(a, before, [loop]);
        ClauseHolds1(a, cur.lit);
        ClauseHolds1(a, loop);
        if prev.Some? { ClauseHolds1(a, prev.value); }
      }
    }

    /** Tracks the literals of one justice property, or the fairness literals. */
    method TrackList(ghost mk: nat -> Role, prev: Option<seq<Tracked>>, st: State, ulits: seq<nat>) returns (lits: seq<Tracked>)
      requires Counted() && pending == [] && Usable(m, st) && AllBelow(ulits, NumVars(m)) && st.loop != 0
      requires prev.Some? ==> |prev.value| == |ulits| && forall j :: 0 <= j < |prev.value| ==> prev.value[j].sat != 0
      modifies `nvars, `roles, `clauses, `pending
      ensures Counted() && pending == [] && old(roles) <= roles
      ensures |lits| == |ulits|
      ensures forall j :: 0 <= j < |ulits| ==>
        && CanImport(m, st, ulits[j])
        && lits[j].lit == Import(m, st, ulits[j])
        && IsVar(roles, lits[j].sat, mk(j))
      ensures forall a :: Satisfies(a, clauses) <==>
        Satisfies(a, old(clauses)) && TrackAllClauses(a, prev, lits, st.loop)
    {
      lits := [];
      for j := 0 to |ulits|
        invariant Counted() && pending == [] && old(roles) <= roles && |lits| == j
        invariant forall i :: 0 <= i < j ==>
          && CanImport(m, st, ulits[i])
          && lits[i].lit == Import(m, st, ulits[i])
          && IsVar(roles, lits[i].sat, mk(i))
        invariant forall a :: Satisfies(a, clauses) <==>
          Satisfies(a, old(clauses)) && TrackAllClauses(a, prev, lits, st.loop)
      {
        assert ImportVar(m, st, ulits[j] / 2) != 0;
        var v := NewVar(mk(j));
        var cur := Tracked(Import(m, st, ulits[j]), v);
        Track(PrevSat(prev, j), cur, st.loop);
        forall a
          ensures TrackAllClauses(a, prev, lits + [cur], st.loop) <==>
                  TrackAllClauses(a, prev, lits, st.loop) && TrackClauses(a, PrevSat(prev, j), cur, st.loop)
        {
          TrackAllSnoc(a, prev, lits, cur, st.loop);
        }
        lits := lits + [cur];
      }
    }

    method EncodeOneJustice(ghost t: nat, prev: Option<State>, st: State, i: nat) returns (e: Justice)
      requires Counted() && pending == [] && Usable(m, st) && st.loop != 0
      requires i < |m.justice| && AllBelow(m.justice[i], NumVars(m))
      requires prev.Some? ==> JusticeShape(m, prev.value) && JusticeSatsReady(prev.value)
      modifies `nvars, `roles, `clauses, `pending
      ensures Counted() && pending == [] && old(roles) <= roles
      ensures JusticeLitsLayout(m, roles, t, st, i, e.lits, |m.justice[i]|) && IsVar(roles, e.sat, JusticeSatVar(t, i))
      ensures forall a :: Satisfies(a, clauses) <==>
        Satisfies(a, old(clauses)) && JusticeOneClauses(a, prev, st, i, e)
    {
      var lits := TrackList((j: nat) => JusticeLitVar(t, i, j), PrevLits(prev, i), st, m.justice[i]);
      ghost var c1 := clauses;
      var v := NewVar(JusticeSatVar(t, i));
      ImpliesAll(v, Sats(lits));
      e := Justice(lits, v);
      forall a ensures Satisfies(a, clauses) <==> Satisfies(a, old(clauses)) && JusticeOneClauses(a, prev, st, i, e) {
        assert Satisfies(a, clauses) <==> Satisfies(a, c1) && (Holds(a, v) ==> AllHold(a, Sats(lits)));
      }
    }

    method EncodeAllJustice(ghost t: nat, prev: Option<State>, st0: State) returns (st: State)
      requires Counted() && pending == [] && Reencoded(m) && Usable(m, st0) && st0.loop != 0 && st0.justice == []
      requires prev.Some? ==> JusticeShape(m, prev.value) && JusticeSatsReady(prev.value)
      modifies `nvars, `roles, `clauses, `pending
      ensures Counted() && pending == [] && old(roles) <= roles
      ensures st == st0.(justice := st.justice)
      ensures JusticeLayout(m, roles, t, st, |m.justice|)
      ensures forall a :: Satisfies(a, clauses) <==> Satisfies(a, old(clauses)) && JusticeClauses(a, prev, st)
    {
      st := st0;
      for i := 0 to |m.justice|
        invariant Counted() && pending == [] && old(roles) <= roles
        invariant st == st0.(justice := st.justice) && Usable(m, st)
        invariant JusticeLayout(m, roles, t, st, i)
        invariant forall a :: Satisfies(a, clauses) <==> Satisfies(a, old(clauses)) && JusticeClauses(a, prev, st)
      {
        assert AllBelow(m.justice[i], NumVars(m));
        ghost var r0 := roles;
        var e := EncodeOneJustice(t, prev, st, i);
        JusticeLater(m, r0, roles, t, st, i);
        JusticeGrow(m, roles, t, prev, st, e, i);
        UsableSame(m, st, st.(justice := st.justice + [e]));
        st := st.(justice := st.justice + [e]);
      }
    }

    method EncodeOneJustified(ghost t: nat, st0: State) returns (st: State)
      requires Counted() && pending == [] && |m.justice| > 0 && |st0.justice| == |m.justice|
      requires forall i :: 0 <= i < |st0.justice| ==> st0.justice[i].sat != 0
      modifies `nvars, `roles, `clauses, `pending
      ensures Counted() && pending == [] && old(roles) <= roles
      ensures st == st0.(onejustified := st.onejustified)
      ensures OneJustifiedLayout(m, roles, t, st) && st.onejustified != 0
      ensures forall a :: Satisfies(a, clauses) <==> Satisfies(a, old(clauses)) && OneJustifiedClauses(a, st)
    {
      if |m.justice| > 1 {
        var v := NewVar(OneJustifiedVar(t));
        st := st0.(onejustified := v);
        ImpliesAny(v, JusticeSats(st.justice));
      } else {
        st := st0.(onejustified := st0.justice[0].sat);
      }
    }

    method EncodeFairness(ghost t: nat, prev: Option<State>, st0: State) returns (st: State)
      requires Counted() && pending == [] && Reencoded(m) && Usable(m, st0) && st0.loop != 0 && st0.onejustified != 0
      requires |m.fairness| > 0
      requires prev.Some? ==> |prev.value.fairness| == |m.fairness| && FairSatsReady(prev.value)
      modifies `nvars, `roles, `clauses, `pending
      ensures Counted() && pending == [] && old(roles) <= roles
      ensures st == st0.(fairness := st.fairness, allfair := st.allfair)
      ensures FairLayout(m, roles, t, st, |m.fairness|) && AllFairLayout(m, roles, t, st)
      ensures forall a :: Satisfies(a, clauses) <==> Satisfies(a, old(clauses)) && FairClauses(a, prev, st)
    {
      ghost var c0 := clauses;
      var lits := TrackList((j: nat) => FairVar(t, j), PrevFair(prev), st0, m.fairness);
      st := st0.(fairness := lits);
      assert FairLayout(m, roles, t, st, |m.fairness|);
      ghost var r1, c1 := roles, clauses;
      st := EncodeAllFair(t, st);
      FairLater(m, r1, roles, t, st0.(fairness := lits), st);
      forall a ensures Satisfies(a, clauses) <==> Satisfies(a, c0) && FairClauses(a, prev, st) {
        assert Satisfies(a, c1) <==> Satisfies(a, c0) && TrackAllClauses(a, PrevFair(prev), lits, st0.loop);
      }
    }

    method EncodeAllFair(ghost t: nat, st0: State) returns (st: State)
      requires Counted() && pending == [] && |m.fairness| > 0 && |st0.fairness| == |m.fairness| && st0.onejustified != 0
      requires forall j :: 0 <= j < |st0.fairness| ==> st0.fairness[j].sat != 0
      modifies `nvars, `roles, `clauses, `pending
      ensures Counted() && pending == [] && old(roles) <= roles
      ensures st == st0.(allfair := st.allfair) && AllFairLayout(m, roles, t, st)
      ensures forall a :: Satisfies(a, clauses) <==>
        && Satisfies(a, old(clauses))
        && (|st.fairness| > 1 && Holds(a, st.allfair) ==> AllHold(a, Sats(st.fairness)))
        && (Holds(a, st.onejustified) ==> Holds(a, st.allfair))
    {
      st := st0;
      if |m.fairness| > 1 {
        var v := NewVar(AllFairVar(t));
        st := st.(allfair := v);
        ImpliesAll(v, Sats(st.fairness));
      } else {
        st := st.(allfair := st.fairness[0].sat);
      }
      Binary(-st.onejustified, st.allfair);
    }

    method EncodeGoal(st: State)
      requires pending == [] && st.assumption != 0
      requires |m.bad| > 0 ==> st.onebad != 0
      requires |m.justice| > 0 ==> st.onejustified != 0
      modifies `clauses, `pending
      ensures pending == []
      ensures forall a :: Satisfies(a, clauses) <==> Satisfies(a, old(clauses)) && GoalClause(a, m, st)
    {
      var b := if |m.bad| > 0 then [st.onebad] else [];
      var j := if |m.justice| > 0 then [st.onejustified] else [];
      forall a ensures (Holds(a, st.assumption) ==> AnyHolds(a, b + j)) <==> GoalClause(a, m, st) {
        ClauseHoldsConcat(a, b, j);
        ClauseHolds1(a, st.onebad);
        ClauseHolds1(a, st.onejustified);
      }
      ImpliesAny(st.assumption, b + j);
    }

    // ----- One time frame -------------------------------------------------------------------

    method EncodeCircuit(prev: Option<State>) returns (ok: bool, st: State)
      requires Counted() && pending == [] && Reencoded(m)
      requires prev.Some? ==> |prev.value.nexts| == |m.latches|
      requires prev.Some? ==> forall i :: 0 <= i < |m.latches| ==> prev.value.nexts[i] != 0
      requires prev.None? <==> states == []
      modifies `nvars, `roles, `clauses, `pending
      ensures Counted() && old(roles) <= roles
      ensures prev.Some? ==> ok
      ensures prev.None? ==> (ok <==> forall i :: 0 <= i < |m.latches| ==> LegalReset(m.latches[i]))
      ensures ok ==> pending == [] && CircuitLayout(m, roles, |states|, prev, st) && Usable(m, st) && st.assumption != 0
      ensures ok ==> forall i :: 0 <= i < |st.nexts| ==> st.nexts[i] != 0
      ensures ok ==> st == EmptyState.(latches := st.latches, inputs := st.inputs, ands := st.ands,
                                       nexts := st.nexts, assumption := st.assumption)
      ensures ok ==>
        && (forall i :: 0 <= i < |m.ands| ==> CanImport(m, st, m.ands[i].rhs0) && CanImport(m, st, m.ands[i].rhs1))
        && forall a :: Satisfies(a, clauses) <==> Satisfies(a, old(clauses)) && GateClauses(a, m, st, |m.ands|)
    {
      st := EmptyState;
      ghost var t := |states|;
      var lits;
      ok, lits := EncodeLatches(prev);
      if !ok {
        return;
      }
      ghost var r1 := roles;
      var ins := EncodeInputs(t);
      st := EmptyState.(latches := lits, inputs := ins);
      ghost var st1, r2 := st, roles;
      assert forall i :: 0 <= i < |lits| ==> lits[i] != 0;
      st := EncodeAnds(t, st);
      ghost var st2, r3 := st, roles;
      assert Usable(m, st) by { CircuitUsable(m, r3, t, st); }
      var nexts := EncodeNexts(st);
      var v := NewVar(AssumeVar(t));
      st := st.(nexts := nexts, assumption := v);
      UsableSame(m, st2, st);
      CircuitDone(m, r1, r2, r3, roles, t, prev, st1, st2, st);
      forall a ensures GateClauses(a, m, st2, |m.ands|) <==> GateClauses(a, m, st, |m.ands|) {
        GatesSame(a, m, st2, st, |m.ands|);
      }
    }

    method EncodeSafety(prev: Option<State>, st0: State) returns (st: State)
      requires Counted() && pending == [] && Reencoded(m) && Usable(m, st0) && st0.assumption != 0
      requires st0.bad == [] && st0.constraints == []
      requires prev.Some? && |m.constraints| > 0 ==> prev.value.sane != 0
      modifies `nvars, `roles, `clauses, `pending
      ensures Counted() && pending == [] && old(roles) <= roles
      ensures st == st0.(bad := st.bad, onebad := st.onebad, constraints := st.constraints, sane := st.sane)
      ensures BadLayout(m, roles, |states|, st) && ConstraintLayout(m, roles, |states|, st)
      ensures |m.bad| > 0 ==> st.onebad != 0
      ensures forall a :: Satisfies(a, clauses) <==>
        Satisfies(a, old(clauses)) && BadClauses(a, st) && SaneClauses(a, prev, st)
    {
      st := EncodeBad(|states|, st0);
      ghost var st1, r1 := st, roles;
      UsableSame(m, st0, st);
      st := EncodeConstraints(|states|, prev, st);
      BadLater(m, r1, roles, |states|, st1, st);
      assert st.bad == st1.bad && st.onebad == st1.onebad;
    }

    method EncodeJustice(prev: Option<State>, st0: State) returns (st: State)
      requires Counted() && pending == [] && Reencoded(m) && Usable(m, st0) && st0.loop != 0 && st0.justice == []
      requires |m.justice| > 0
      requires prev.Some? ==> JusticeShape(m, prev.value) && JusticeSatsReady(prev.value)
      modifies `nvars, `roles, `clauses, `pending
      ensures Counted() && pending == [] && old(roles) <= roles
      ensures st == st0.(justice := st.justice, onejustified := st.onejustified)
      ensures JusticeLayout(m, roles, |states|, st, |m.justice|) && OneJustifiedLayout(m, roles, |states|, st)
      ensures JusticeShape(m, st) && st.onejustified != 0
      ensures forall a :: Satisfies(a, clauses) <==>
        Satisfies(a, old(clauses)) && JusticeClauses(a, prev, st) && OneJustifiedClauses(a, st)
    {
      ghost var t, c0 := |states|, clauses;
      st := EncodeAllJustice(t, prev, st0);
      ghost var st1, r1, c1 := st, roles, clauses;
      JusticeSatsNonZero(m, roles, t, st);
      st := EncodeOneJustified(t, st);
      JusticeMoved(m, r1, roles, t, st1, st);
      forall a
        ensures Satisfies(a, clauses) <==>
          Satisfies(a, c0) && JusticeClauses(a, prev, st) && OneJustifiedClauses(a, st)
      {
        assert Satisfies(a, c1) <==> Satisfies(a, c0) && JusticeClauses(a, prev, st1);
        JusticeClausesSame(a, m, prev, st1, st);
      }
    }

    method EncodeLoopAndJustice(prev: Option<State>, st0: State) returns (st: State)
      requires Counted() && pending == [] && Reencoded(m) && Usable(m, st0) && st0.assumption != 0
      requires |m.justice| > 0
      requires |states| == 0 <==> prev.None?
      requires |join| == |st0.latches| == |st0.nexts|
      requires forall i :: 0 <= i < |join| ==> join[i] != 0 && st0.latches[i] != 0 && st0.nexts[i] != 0
      requires st0.justice == []
      requires prev.Some? ==> LivenessReady(m, prev.value)
      modifies `nvars, `roles, `clauses, `pending
      ensures Counted() && pending == [] && old(roles) <= roles
      ensures st == st0.(join := st.join, loop := st.loop, justice := st.justice, onejustified := st.onejustified)
      ensures LoopLayout(roles, |states|, st)
      ensures JusticeLayout(m, roles, |states|, st, |m.justice|) && OneJustifiedLayout(m, roles, |states|, st)
      ensures JusticeShape(m, st) && st.onejustified != 0
      ensures forall a :: Satisfies(a, clauses) <==>
        && Satisfies(a, old(clauses))
        && LoopClauses(a, join, prev, st) && JusticeClauses(a, prev, st) && OneJustifiedClauses(a, st)
    {
      ghost var c0 := clauses;
      st := EncodeLoop(|states|, prev, st0);
      ghost var st1, c1 := st, clauses;
      UsableSame(m, st0, st);
      st := EncodeJustice(prev, st);
      forall a
        ensures Satisfies(a, clauses) <==>
          && Satisfies(a, c0)
          && LoopClauses(a, join, prev, st) && JusticeClauses(a, prev, st) && OneJustifiedClauses(a, st)
      {
        assert Satisfies(a, c1) <==> Satisfies(a, c0) && LoopClauses(a, join, prev, st1);
      }
    }

    method EncodeLiveness(prev: Option<State>, st0: State) returns (st: State)
      requires Counted() && pending == [] && Reencoded(m) && Usable(m, st0) && st0.assumption != 0
      requires |m.justice| > 0
      requires |states| == 0 <==> prev.None?
      requires |join| == |st0.latches| == |st0.nexts|
      requires forall i :: 0 <= i < |join| ==> join[i] != 0 && st0.latches[i] != 0 && st0.nexts[i] != 0
      requires st0.justice == [] && st0.fairness == []
      requires prev.Some? ==> LivenessReady(m, prev.value)
      modifies `nvars, `roles, `clauses, `pending
      ensures Counted() && pending == [] && old(roles) <= roles
      ensures st == st0.(join := st.join, loop := st.loop, justice := st.justice, onejustified := st.onejustified,
                         fairness := st.fairness, allfair := st.allfair)
      ensures LivenessLayout(m, roles, |states|, st) && st.onejustified != 0
      ensures JusticeShape(m, st) && (|m.fairness| > 0 ==> |st.fairness| == |m.fairness|)
      ensures forall a :: Satisfies(a, clauses) <==>
        Satisfies(a, old(clauses)) && LivenessClauses(a, m, join, prev, st)
    {
      ghost var t, c0 := |states|, clauses;
      st := EncodeLoopAndJustice(prev, st0);
      if |m.fairness| > 0 {
        ghost var st1, r1, c1 := st, roles, clauses;
        UsableSame(m, st0, st);
        st := EncodeFairness(t, prev, st);
        LivenessDone(m, r1, roles, t, st1, st);
        forall a
          ensures Satisfies(a, clauses) <==> Satisfies(a, c0) && LivenessClauses(a, m, join, prev, st)
        {
          assert Satisfies(a, clauses) <==> Satisfies(a, c1) && FairClauses(a, prev, st);
          LivenessMeaning(a, m, join, prev, st1, st);
        }
      }
    }

    ghost predicate Ready()
      reads this
    {
      && Counted() && pending == []
      && Reencoded(m) && InRange(m)
      && JoinLayout(m, roles, join)
      && (|states| > 0 ==> Encoded(m, roles, join, states))
    }

    /** The bad, constraint, justice and fairness literals of a frame. */
    method EncodeProperties(prev: Option<State>, st0: State) returns (st: State)
      requires Counted() && pending == [] && Reencoded(m) && Usable(m, st0) && st0.assumption != 0
      requires |m.justice| > 0 ==> |join| == |m.latches|
      requires |m.justice| > 0 ==> forall i :: 0 <= i < |join| ==> join[i] != 0
      requires |st0.nexts| == |m.latches|
      requires |states| == 0 <==> prev.None?
      requires forall i :: 0 <= i < |st0.nexts| ==> st0.nexts[i] != 0
      requires st0.bad == [] && st0.constraints == [] && st0.justice == [] && st0.fairness == []
      requires prev.Some? && |m.constraints| > 0 ==> prev.value.sane != 0
      requires prev.Some? && |m.justice| > 0 ==> LivenessReady(m, prev.value)
      modifies `nvars, `roles, `clauses, `pending
      ensures Counted() && pending == [] && old(roles) <= roles
      ensures SameImports(st0, st) && st.nexts == st0.nexts && st.assumption == st0.assumption
      ensures BadLayout(m, roles, |states|, st) && (|m.bad| > 0 ==> st.onebad != 0)
      ensures ConstraintLayout(m, roles, |states|, st)
      ensures LivenessLayout(m, roles, |states|, st)
      ensures |m.justice| > 0 ==> |st.latches| == |st.nexts| == |m.latches| && JusticeShape(m, st) && st.onejustified != 0
      ensures |m.justice| > 0 && |m.fairness| > 0 ==> |st.fairness| == |m.fairness|
      ensures forall a :: Satisfies(a, clauses) <==>
        && Satisfies(a, old(clauses))
        && BadClauses(a, st) && SaneClauses(a, prev, st)
        && (|m.justice| > 0 ==> LivenessClauses(a, m, join, prev, st))
    {
      hide Counted, Reencoded, Usable, LivenessReady, BadLayout, ConstraintLayout, JusticeShape, Satisfies, LivenessClauses;
      st := EncodeSafety(prev, st0);
      if |m.justice| > 0 {
        ghost var st1, r1, c1 := st, roles, clauses;
        UsableSame(m, st0, st);
        CircuitLatchesNonZero(m, st0);
        st := EncodeLiveness(prev, st);
        BadLater(m, r1, roles, |states|, st1, st);
        ConstraintsLater(m, r1, roles, |states|, st1, st);
        forall a ensures BadClauses(a, st1) && SaneClauses(a, prev, st1) <==> BadClauses(a, st) && SaneClauses(a, prev, st) {
        }
      }
    }

    /** The literals and clauses of one time frame, given those of the previous one. */
    method EncodeFrame(prev: Option<State>) returns (ok: bool, st: State)
      requires Counted() && pending == [] && Reencoded(m)
      requires |states| == 0 <==> prev.None?
      requires prev.Some? ==> PrevUsable(m, prev.value)
      requires |m.justice| > 0 ==> |join| == |m.latches|
      requires |m.justice| > 0 ==> forall i :: 0 <= i < |join| ==> join[i] != 0
      modifies `nvars, `roles, `clauses, `pending
      ensures Counted() && old(roles) <= roles
      ensures prev.Some? ==> ok
      ensures prev.None? ==> (ok <==> forall i :: 0 <= i < |m.latches| ==> LegalReset(m.latches[i]))
      ensures ok ==> pending == [] && FrameLayout(m, roles, |states|, prev, st) && FrameShape(m, prev, st)
      ensures ok ==> forall a :: Satisfies(a, clauses) <==>
        Satisfies(a, old(clauses)) && FrameClauses(a, m, join, prev, st)
    {
      hide Counted, Reencoded, Usable, LivenessReady, BadLayout, ConstraintLayout, LivenessLayout, JusticeShape;
      hide Satisfies, BadClauses, SaneClauses, LivenessClauses, FrameShape, LegalReset;
      ghost var c0 := clauses;
      ok, st := EncodeCircuit(prev);
      if !ok {
        return;
      }
      ghost var st1, r1, c1 := st, roles, clauses;
      st := EncodeProperties(prev, st);
      ghost var c2 := clauses;
      EncodeGoal(st);
      CircuitLater(m, r1, roles, |states|, prev, st1, st);
      FrameHasShape(m, roles, |states|, prev, st);
      forall a ensures Satisfies(a, clauses) <==> Satisfies(a, c0) && FrameClauses(a, m, join, prev, st) {
        assert Satisfies(a, clauses) <==> Satisfies(a, c2) && GoalClause(a, m, st);
        assert Satisfies(a, c1) <==> Satisfies(a, c0) && GateClauses(a, m, st1, |m.ands|);
        GatesSame(a, m, st1, st, |m.ands|);
      }
    }

    /** Encodes the next time frame. */
    method Encode() returns (ok: bool)
      requires Ready()
      modifies `nvars, `roles, `clauses, `pending, `states
      ensures ok ==> Ready() && |states| == |old(states)| + 1 && states[..|states| - 1] == old(states)
      ensures !ok <==> old(states) == [] && exists i :: 0 <= i < |m.latches| && !LegalReset(m.latches[i])
      ensures ok ==> forall a :: Satisfies(a, clauses) <==>
        Satisfies(a, old(clauses)) && Frame(a, m, roles, join, states, |states| - 1)
    {
      var t := |states|;
      var prev := Prev(states, t);
      if t > 0 { PrevReady(m, roles, join, states); }
      ghost var r0 := roles;
      JoinNonZero(m, roles, roles, join);
      var st;
      ok, st := EncodeFrame(prev);
      if !ok {
        return;
      }
      EncodedGrows(m, r0, roles, join, states, st);
      states := states + [st];
      assert Prev(states, t) == prev;
    }
  }

  ghost predicate PrevUsable(m: Model, p: State) {
    && |p.nexts| == |m.latches|
    && (forall i :: 0 <= i < |m.latches| ==> p.nexts[i] != 0)
    && (|m.constraints| > 0 ==> p.sane != 0)
    && (|m.justice| > 0 ==> LivenessReady(m, p))
  }

  lemma FrameHasShape(m: Model, roles: seq<Role>, t: nat, prev: Option<State>, st: State)
    requires FrameLayout(m, roles, t, prev, st)
    requires prev.Some? && |m.justice| > 0 ==> LivenessReady(m, prev.value)
    ensures FrameShape(m, prev, st)
  {
    if |m.justice| > 0 {
      JusticeSatsNonZero(m, roles, t, st);
    }
  }

  lemma JoinNonZero(m: Model, roles: seq<Role>, roles': seq<Role>, join: seq<int>)
    requires JoinLayout(m, roles, join) && roles <= roles'
    ensures JoinLayout(m, roles', join)
    ensures |m.justice| > 0 ==> |join| == |m.latches| && forall i :: 0 <= i < |join| ==> join[i] != 0
  {}

  lemma CircuitLatchesNonZero(m: Model, st: State)
    requires Usable(m, st)
    ensures |st.latches| == |m.latches| && forall i :: 0 <= i < |st.latches| ==> st.latches[i] != 0
  {
    forall i | 0 <= i < |st.latches| ensures st.latches[i] != 0 {
      assert ImportVar(m, st, FirstLatch(m) + i) != 0;
    }
  }

  lemma CircuitLater(m: Model, roles: seq<Role>, roles': seq<Role>, t: nat, prev: Option<State>, st: State, st': State)
    requires CircuitLayout(m, roles, t, prev, st) && roles <= roles'
    requires SameImports(st, st') && st'.nexts == st.nexts && st'.assumption == st.assumption
    ensures CircuitLayout(m, roles', t, prev, st')
  {}

  lemma PrevReady(m: Model, roles: seq<Role>, join: seq<int>, states: seq<State>)
    requires Encoded(m, roles, join, states) && |states| > 0
    ensures PrevUsable(m, states[|states| - 1])
  {
    var t := |states| - 1;
    FramesUsable(m, roles, join, states, t);
    FrameNexts(m, roles, join, states, t);
    forall i | 0 <= i < |m.latches| ensures states[t].nexts[i] != 0 {
      assert ImportVar(m, states[t], m.latches[i].next / 2) != 0;
    }
    FrameProperties(m, roles, join, states, t);
    FrameLiveness(m, roles, join, states, t);
    if |m.justice| > 0 { LayoutReady(m, roles, t, states[t]); }
  }

  lemma EncodedGrows(m: Model, roles: seq<Role>, roles': seq<Role>, join: seq<int>, states: seq<State>, st: State)
    requires Reencoded(m) && InRange(m) && JoinLayout(m, roles, join) && roles <= roles'
    requires |states| > 0 ==> Encoded(m, roles, join, states)
    requires |states| == 0 ==> forall i :: 0 <= i < |m.latches| ==> LegalReset(m.latches[i])
    requires FrameLayout(m, roles', |states|, Prev(states, |states|), st)
    ensures Encoded(m, roles', join, states + [st])
  {
    var all := states + [st];
    JoinNonZero(m, roles, roles', join);
    forall t | 0 <= t < |all| ensures FrameAt(m, roles', all, t) {
      if t < |states| {
        assert FrameAt(m, roles, states, t);
        FrameLater(m, roles, roles', t, Prev(states, t), states[t]);
        assert Prev(all, t) == Prev(states, t) && all[t] == states[t];
      } else {
        assert Prev(all, t) == Prev(states, t);
      }
    }
  }

  lemma LivenessMeaning(a: Assignment, m: Model, join: seq<int>, prev: Option<State>, st1: State, st: State)
    requires |join| == |st.latches| == |st.nexts|
    requires JusticeShape(m, st) && (prev.Some? ==> JusticeShape(m, prev.value))
    requires |m.fairness| > 0 ==> prev.Some? ==> |st.fairness| <= |prev.value.fairness|
    requires st == st1.(fairness := st.fairness, allfair := st.allfair)
    ensures LivenessClauses(a, m, join, prev, st) <==>
      && LoopClauses(a, join, prev, st1)
      && JusticeClauses(a, prev, st1) && OneJustifiedClauses(a, st1)
      && (|m.fairness| > 0 ==> FairClauses(a, prev, st))
  {
    JusticeClausesSame(a, m, prev, st1, st);
  }

  /** What the next frame needs of the liveness literals of the previous one. */
  ghost predicate LivenessReady(m: Model, st: State) {
    && st.loop != 0
    && JusticeShape(m, st)
    && JusticeSatsReady(st)
    && (|m.fairness| > 0 ==> |st.fairness| == |m.fairness| && FairSatsReady(st))
  }

  lemma JusticeClausesSame(a: Assignment, m: Model, prev: Option<State>, st: State, st': State)
    requires st.justice == st'.justice && st.loop == st'.loop && JusticeShape(m, st)
    requires prev.Some? ==> JusticeShape(m, prev.value)
    ensures JusticeClauses(a, prev, st) <==> JusticeClauses(a, prev, st')
  {}

  lemma JusticeSatsNonZero(m: Model, roles: seq<Role>, t: nat, st: State)
    requires JusticeLayout(m, roles, t, st, |m.justice|)
    ensures JusticeShape(m, st)
    ensures forall i :: 0 <= i < |st.justice| ==> st.justice[i].sat != 0
    ensures forall i, j :: 0 <= i < |st.justice| && 0 <= j < |st.justice[i].lits| ==> st.justice[i].lits[j].sat != 0
  {
    forall i | 0 <= i < |m.justice|
      ensures |st.justice[i].lits| == |m.justice[i]|
      ensures forall j :: 0 <= j < |st.justice[i].lits| ==> st.justice[i].lits[j].sat != 0
    {
      assert JusticeLitsLayout(m, roles, t, st, i, st.justice[i].lits, |m.justice[i]|);
    }
  }

  lemma LayoutReady(m: Model, roles: seq<Role>, t: nat, st: State)
    requires |m.justice| > 0 && LivenessLayout(m, roles, t, st)
    ensures LivenessReady(m, st)
  {
    JusticeSatsNonZero(m, roles, t, st);
  }

  lemma BadLater(m: Model, roles: seq<Role>, roles': seq<Role>, t: nat, st: State, st': State)
    requires BadLayout(m, roles, t, st) && roles <= roles'
    requires SameImports(st, st') && st'.bad == st.bad && st'.onebad == st.onebad
    ensures BadLayout(m, roles', t, st')
  {}

  lemma ConstraintsLater(m: Model, roles: seq<Role>, roles': seq<Role>, t: nat, st: State, st': State)
    requires ConstraintLayout(m, roles, t, st) && roles <= roles'
    requires SameImports(st, st') && st'.constraints == st.constraints && st'.sane == st.sane
    ensures ConstraintLayout(m, roles', t, st')
  {}

  lemma JusticeMoved(m: Model, roles: seq<Role>, roles': seq<Role>, t: nat, st: State, st': State)
    requires JusticeLayout(m, roles, t, st, |m.justice|) && roles <= roles'
    requires SameImports(st, st') && st.justice == st'.justice
    ensures JusticeLayout(m, roles', t, st', |m.justice|)
  {
    JusticeLater(m, roles, roles', t, st, |m.justice|);
    forall i | 0 <= i < |m.justice|
      ensures JusticeLitsLayout(m, roles', t, st', i, st'.justice[i].lits, |m.justice[i]|)
    {
      assert JusticeLitsLayout(m, roles', t, st, i, st.justice[i].lits, |m.justice[i]|);
      JusticeLitsSame(m, roles', t, st, st', i, st.justice[i].lits);
    }
  }

  lemma LivenessDone(m: Model, r1: seq<Role>, roles: seq<Role>, t: nat, st1: State, st: State)
    requires r1 <= roles && |m.justice| > 0
    requires LoopLayout(r1, t, st1) && st.join == st1.join && st.loop == st1.loop
    requires JusticeLayout(m, r1, t, st1, |m.justice|) && SameImports(st1, st) && st.justice == st1.justice
    requires OneJustifiedLayout(m, r1, t, st1) && st.onejustified == st1.onejustified
    requires |m.fairness| > 0 ==> FairLayout(m, roles, t, st, |m.fairness|) && AllFairLayout(m, roles, t, st)
    ensures LivenessLayout(m, roles, t, st)
  {
    JusticeMoved(m, r1, roles, t, st1, st);
  }

  lemma LivenessLater(m: Model, roles: seq<Role>, roles': seq<Role>, t: nat, st: State)
    requires LivenessLayout(m, roles, t, st) && roles <= roles'
    ensures LivenessLayout(m, roles', t, st)
  {
    if |m.justice| > 0 {
      JusticeMoved(m, roles, roles', t, st, st);
    }
  }

  lemma FrameLater(m: Model, roles: seq<Role>, roles': seq<Role>, t: nat, prev: Option<State>, st: State)
    requires FrameLayout(m, roles, t, prev, st) && roles <= roles'
    ensures FrameLayout(m, roles', t, prev, st)
  {
    BadLater(m, roles, roles', t, st, st);
    ConstraintsLater(m, roles, roles', t, st, st);
    LivenessLater(m, roles, roles', t, st);
  }

  lemma CircuitUsable(m: Model, roles: seq<Role>, t: nat, st: State)
    requires AndLayout(m, roles, t, st, |m.ands|) && |st.inputs| == |m.inputs| && |st.latches| == |m.latches|
    requires forall i :: 0 <= i < |st.inputs| ==> st.inputs[i] != 0
    requires forall i :: 0 <= i < |st.latches| ==> st.latches[i] != 0
    ensures Usable(m, st)
  {}

  lemma CircuitDone(m: Model, r1: seq<Role>, r2: seq<Role>, r3: seq<Role>, roles: seq<Role>, t: nat, prev: Option<State>,
                    st1: State, st2: State, st: State)
    requires r1 <= r2 <= r3 <= roles
    requires t == 0 <==> prev.None?
    requires LatchLayout(m, r1, prev, EmptyState.(latches := st.latches))
    requires InputLayout(m, r2, t, EmptyState.(inputs := st.inputs), |m.inputs|)
    requires SameImports(st2, st) && AndLayout(m, r3, t, st2, |m.ands|)
    requires |st.nexts| == |m.latches|
    requires forall i :: 0 <= i < |m.latches| ==>
      CanImport(m, st2, m.latches[i].next) && st.nexts[i] == Import(m, st2, m.latches[i].next)
    requires IsVar(roles, st.assumption, AssumeVar(t))
    ensures CircuitLayout(m, roles, t, prev, st)
  {}

  ghost predicate JusticeSatsReady(st: State) {
    forall i, j :: 0 <= i < |st.justice| && 0 <= j < |st.justice[i].lits| ==> st.justice[i].lits[j].sat != 0
  }

  ghost predicate FairSatsReady(st: State) {
    forall j :: 0 <= j < |st.fairness| ==> st.fairness[j].sat != 0
  }

  ghost predicate JusticeOneClauses(a: Assignment, prev: Option<State>, st: State, i: nat, e: Justice)
    requires prev.Some? ==> i < |prev.value.justice| && |e.lits| <= |prev.value.justice[i].lits|
  {
    && TrackAllClauses(a, PrevLits(prev, i), e.lits, st.loop)
    && (Holds(a, e.sat) ==> AllHold(a, Sats(e.lits)))
  }

  lemma TrackAllSnoc(a: Assignment, prev: Option<seq<Tracked>>, lits: seq<Tracked>, cur: Tracked, loop: int)
    requires prev.Some? ==> |lits| < |prev.value|
    ensures TrackAllClauses(a, prev, lits + [cur], loop) <==>
            TrackAllClauses(a, prev, lits, loop) && TrackClauses(a, PrevSat(prev, |lits|), cur, loop)
  {
    var all := lits + [cur];
    if TrackAllClauses(a, prev, all, loop) {
      forall j | 0 <= j < |lits| ensures TrackClauses(a, PrevSat(prev, j), lits[j], loop) {
        assert all[j] == lits[j];
      }
      assert all[|lits|] == cur;
    }
  }

  lemma JusticeGrow(m: Model, roles: seq<Role>, t: nat, prev: Option<State>, st: State, e: Justice, i: nat)
    requires i < |m.justice| && JusticeLayout(m, roles, t, st, i)
    requires JusticeLitsLayout(m, roles, t, st, i, e.lits, |m.justice[i]|) && IsVar(roles, e.sat, JusticeSatVar(t, i))
    requires prev.Some? ==> JusticeShape(m, prev.value)
    ensures JusticeLayout(m, roles, t, st.(justice := st.justice + [e]), i + 1)
    ensures forall a :: JusticeClauses(a, prev, st.(justice := st.justice + [e])) <==>
                        JusticeClauses(a, prev, st) && JusticeOneClauses(a, prev, st, i, e)
  {
    var st' := st.(justice := st.justice + [e]);
    forall k | 0 <= k < i + 1
      ensures JusticeLitsLayout(m, roles, t, st', k, st'.justice[k].lits, |m.justice[k]|)
    {
      if k < i {
        assert JusticeLitsLayout(m, roles, t, st, k, st.justice[k].lits, |m.justice[k]|);
        JusticeLitsSame(m, roles, t, st, st', k, st.justice[k].lits);
      } else {
        JusticeLitsSame(m, roles, t, st, st', k, e.lits);
      }
    }
    forall a
      ensures JusticeClauses(a, prev, st') <==> JusticeClauses(a, prev, st) && JusticeOneClauses(a, prev, st, i, e)
    {
      if JusticeClauses(a, prev, st') {
        forall k | 0 <= k < i
          ensures TrackAllClauses(a, PrevLits(prev, k), st.justice[k].lits, st.loop)
          ensures Holds(a, st.justice[k].sat) ==> AllHold(a, Sats(st.justice[k].lits))
        {
          assert st'.justice[k] == st.justice[k];
        }
        assert st'.justice[i] == e;
      }
    }
  }

  lemma JusticeLitsSame(m: Model, roles: seq<Role>, t: nat, st: State, st': State, i: nat, lits: seq<Tracked>)
    requires i < |m.justice| && SameImports(st, st')
    requires JusticeLitsLayout(m, roles, t, st, i, lits, |m.justice[i]|)
    ensures JusticeLitsLayout(m, roles, t, st', i, lits, |m.justice[i]|)
  {}

  lemma SameStateSnoc(a: Assignment, xs: seq<int>, ys: seq<int>, i: nat)
    requires i < |xs| == |ys|
    ensures SameState(a, xs[..i + 1], ys[..i + 1]) <==>
            SameState(a, xs[..i], ys[..i]) && (Holds(a, xs[i]) <==> Holds(a, ys[i]))
  {
    if SameState(a, xs[..i + 1], ys[..i + 1]) {
      forall j | 0 <= j < i ensures Holds(a, xs[..i][j]) <==> Holds(a, ys[..i][j]) {
        assert xs[..i + 1][j] == xs[j] && ys[..i + 1][j] == ys[j];
      }
      assert xs[..i + 1][i] == xs[i] && ys[..i + 1][i] == ys[i];
    }
  }

  lemma AllHoldSnoc(a: Assignment, ls: seq<int>, i: nat)
    requires i < |ls|
    ensures AllHold(a, ls[..i + 1]) <==> AllHold(a, ls[..i]) && Holds(a, ls[i])
  {
    if AllHold(a, ls[..i + 1]) {
      forall j | 0 <= j < i ensures Holds(a, ls[..i][j]) { assert ls[..i + 1][j] == ls[j]; }
      assert ls[..i + 1][i] == ls[i];
    }
  }

  lemma UsableSame(m: Model, st: State, st': State)
    requires Usable(m, st) && SameImports(st, st')
    ensures Usable(m, st')
  {
    forall v | 0 <= v < NumVars(m) ensures ImportVar(m, st', v) != 0 {
      assert ImportVar(m, st, v) != 0;
    }
  }

  lemma JusticeLater(m: Model, roles: seq<Role>, roles': seq<Role>, t: nat, st: State, n: nat)
    requires n <= |m.justice| && JusticeLayout(m, roles, t, st, n) && roles <= roles'
    ensures JusticeLayout(m, roles', t, st, n)
  {
    forall i | 0 <= i < n
      ensures JusticeLitsLayout(m, roles', t, st, i, st.justice[i].lits, |m.justice[i]|)
      ensures IsVar(roles', st.justice[i].sat, JusticeSatVar(t, i))
    {
      assert JusticeLitsLayout(m, roles, t, st, i, st.justice[i].lits, |m.justice[i]|);
      assert IsVar(roles, st.justice[i].sat, JusticeSatVar(t, i));
    }
  }

  lemma FairLater(m: Model, roles: seq<Role>, roles': seq<Role>, t: nat, st: State, st': State)
    requires FairLayout(m, roles, t, st, |m.fairness|) && roles <= roles'
    requires SameImports(st, st') && st'.fairness == st.fairness
    ensures FairLayout(m, roles', t, st', |m.fairness|)
  {}
}
