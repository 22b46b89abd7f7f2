/** The queue of shared clauses of `plingeling`.  Every operation holds the mutex from its first
    access to its last, so that an execution is a sequence of these operations in some order.

    The `n`-th produced clause has address `n`; `heap` holds the clauses that are allocated, and
    accessing or deleting a clause that is not is an error. */
module ClauseQueue {

  datatype Clause = Clause(wid: nat, glue: int, lits: seq<int>, count: nat)

  datatype Slot = Null | At(address: nat)

  // ----- Counting cursors -----------------------------------------------------------------------

  /** The number of workers whose cursor has passed slot `i`. */
  function Passed(cursors: seq<nat>, i: nat): nat {
    if |cursors| == 0 then 0
    else Passed(cursors[..|cursors| - 1], i) + (if cursors[|cursors| - 1] > i then 1 else 0)
  }

  lemma {:induction false} PassedAdvance(cursors: seq<nat>, w: nat, i: nat)
    requires w < |cursors|
    ensures Passed(cursors[w := cursors[w] + 1], i) == Passed(cursors, i) + (if cursors[w] == i then 1 else 0)
  {
    var n := |cursors| - 1;
    var cursors' := cursors[w := cursors[w] + 1];
    if w < n {
      assert cursors'[..n] == cursors[..n][w := cursors[w] + 1];
      PassedAdvance(cursors[..n], w, i);
    } else {
      assert cursors'[..n] == cursors[..n];
    }
  }

  lemma {:induction false} PassedShrinks(cursors: seq<nat>, i: nat, j: nat)
    requires i <= j
    ensures Passed(cursors, j) <= Passed(cursors, i)
  {
    if |cursors| > 0 { PassedShrinks(cursors[..|cursors| - 1], i, j); }
  }

  lemma {:induction false} PassedNone(cursors: seq<nat>, i: nat)
    requires forall w :: 0 <= w < |cursors| ==> cursors[w] <= i
    ensures Passed(cursors, i) == 0
  {
    if |cursors| > 0 { PassedNone(cursors[..|cursors| - 1], i); }
  }

  /** The cursors after the first `k` slots are gone. */
  function Rewound(cursors: seq<nat>, k: nat): (r: seq<nat>)
    ensures |r| == |cursors| && forall w :: 0 <= w < |r| ==> r[w] == if k < cursors[w] then cursors[w] - k else 0
  {
    seq(|cursors|, w requires 0 <= w < |cursors| => if k < cursors[w] then cursors[w] - k else 0)
  }

  lemma {:induction false} PassedRewound(cursors: seq<nat>, k: nat, i: nat)
    ensures Passed(Rewound(cursors, k), i) == Passed(cursors, i + k)
  {
    if |cursors| > 0 {
      var n := |cursors| - 1;
      assert Rewound(cursors, k)[..n] == Rewound(cursors[..n], k);
      PassedRewound(cursors[..n], k, i);
    }
  }

  // ----- The invariant -----------------------------------------------------------------------------

  /** Cleared slots form exactly the prefix below `first`; the others hold the clauses in order of
      production. */
  ghost predicate Slots(start: seq<Slot>, first: nat, collected: nat) {
    && first <= |start|
    && (forall i :: 0 <= i < first ==> start[i] == Null)
    && (forall i :: first <= i < |start| ==> start[i] == At(collected + i))
  }

  predicate Live(start: seq<Slot>, first: nat, collected: nat, a: nat) {
    collected + first <= a < collected + |start|
  }

  /** Allocated are the clauses in the queue and those each worker has taken out but not deleted. */
  ghost predicate Allocated(heap: map<nat, Clause>, start: seq<Slot>, first: nat, collected: nat, dead: seq<Slot>) {
    && (forall a :: Live(start, first, collected, a) ==> a in heap)
    && (forall a :: a in heap ==> Live(start, first, collected, a) || At(a) in dead)
    && (forall w :: 0 <= w < |dead| && dead[w].At? ==> dead[w].address in heap && dead[w].address < collected + first)
    && (forall v, w :: 0 <= v < w < |dead| && dead[v].At? ==> dead[v] != dead[w])
  }

  /** The count of a clause in the queue is the number of cursors past it, and is too small for the
      clause to be cleared. */
  ghost predicate Counts(heap: map<nat, Clause>, start: seq<Slot>, first: nat, collected: nat, cursors: seq<nat>, limit: nat) {
    forall i: nat :: first <= i < |start| ==> CountAt(heap, collected, cursors, limit, i)
  }

  ghost predicate CountAt(heap: map<nat, Clause>, collected: nat, cursors: seq<nat>, limit: nat, i: nat) {
    collected + i in heap && heap[collected + i].count == Passed(cursors, i) < limit
  }

  /** Allocated clauses are as they were produced. */
  ghost predicate Faithful(heap: map<nat, Clause>, log: seq<Clause>) {
    forall a :: a in heap ==> a < |log| && heap[a] == log[a].(count := heap[a].count)
  }

  /** What a worker has received: foreign clauses in order of production, each at most once, and none
      beyond its cursor. */
  ghost predicate Received(log: seq<Clause>, collected: nat, cursors: seq<nat>, delivered: seq<seq<nat>>) {
    && |delivered| == |cursors|
    && forall w :: 0 <= w < |delivered| ==> ReceivedBy(log, collected + cursors[w], delivered[w], w)
  }

  ghost predicate ReceivedBy(log: seq<Clause>, position: nat, ns: seq<nat>, w: nat) {
    && (forall x :: 0 <= x < |ns| ==> ns[x] < position && ns[x] < |log| && log[ns[x]].wid != w)
    && (forall x, y :: 0 <= x < y < |ns| ==> ns[x] < ns[y])
  }

  ghost predicate Sane(heap: map<nat, Clause>, start: seq<Slot>, first: nat, collected: nat, cursors: seq<nat>, dead: seq<Slot>,
                       limit: nat, log: seq<Clause>, delivered: seq<seq<nat>>)
  {
    && |log| == collected + |start|
    && |dead| == |cursors|
    && (forall w :: 0 <= w < |cursors| ==> cursors[w] <= |start|)
    && Slots(start, first, collected)
    && Allocated(heap, start, first, collected, dead)
    && Counts(heap, start, first, collected, cursors, limit)
    && Faithful(heap, log)
    && Received(log, collected, cursors, delivered)
  }

  lemma ReceivedLater(log: seq<Clause>, log': seq<Clause>, position: nat, position': nat, ns: seq<nat>, w: nat)
    requires ReceivedBy(log, position, ns, w) && position <= position' && log <= log'
    ensures ReceivedBy(log', position', ns, w)
  {}

  // ----- What became of the clauses before the front --------------------------------------------------

  /** How a clause left the queue, and how many cursors had passed it then: read out by the last reader
      that counts, or collected. */
  datatype Fate = ReadOut(readers: nat) | Collected(readers: nat)

  predicate FateOk(f: Fate, gclim: int, limit: int) {
    match f
    case ReadOut(n) => n >= limit
    case Collected(n) => n <= gclim
  }

  /** Every clause before the front was read by enough workers, or by at most `gclim` when collected. */
  ghost predicate Fated(fates: map<nat, Fate>, front: nat, gclim: int, limit: int) {
    forall q: nat :: q < front ==> q in fates && FateOk(fates[q], gclim, limit)
  }

  /** Fates are final. */
  ghost predicate FatesKept(fates: map<nat, Fate>, fates': map<nat, Fate>, front: nat) {
    forall q: nat :: q < front && q in fates ==> q in fates' && fates'[q] == fates[q]
  }

  datatype Consumed = Nothing | Consumed(lits: seq<int>, glue: int)

  class Queue {
    const nconsumers: nat
    const leavebehind: nat
    const gclim: int
    var heap: map<nat, Clause>
    var start: seq<Slot>
    var first: nat
    var added: nat
    var collected: nat
    var clsimported: seq<nat>
    var dead: seq<Slot>
    ghost var log: seq<Clause>
    ghost var delivered: seq<seq<nat>>
    ghost var fates: map<nat, Fate>

    ghost predicate Valid()
      reads this
    {
      && leavebehind < nconsumers
      && added == |log|
      && Sane(heap, start, first, collected, clsimported, dead, nconsumers - leavebehind, log, delivered)
      && Fated(fates, collected + first, gclim, nconsumers - leavebehind)
    }

    constructor (nworkers: nat, nconsumers: nat, gclim: int)
      requires nconsumers > 0
      ensures Valid() && this.nconsumers == nconsumers && leavebehind == nconsumers / 4 && this.gclim == gclim
      ensures Complete() && added == 0 && |clsimported| == nworkers && log == [] && delivered == seq(nworkers, _ => [])
    {
      this.nconsumers, leavebehind, this.gclim := nconsumers, nconsumers / 4, gclim;
      heap, start, first, added, collected := map[], [], 0, 0, 0;
      clsimported := seq(nworkers, _ => 0);
      dead := seq(nworkers, _ => Null);
      log := [];
      delivered, fates := seq(nworkers, _ => []), map[];
    }

    /** `malloc` followed by an append under the mutex. */
    method Produce(wid: nat, lits: seq<int>, glue: int)
      requires Valid() && wid < |clsimported|
      modifies `heap, `start, `added, `log
      ensures Valid() && log == old(log) + [Clause(wid, glue, lits, 0)]
      ensures old(Complete()) ==> Complete()
      ensures start == old(start) + [At(|old(log)|)]
    {
      Facts(wid);
      hide Sane, Fated, AllAccounted;
      var c := Clause(wid, glue, lits, 0);
      ProducedSane(heap, start, first, collected, clsimported, dead, nconsumers - leavebehind, log, delivered, c);
      AccountedProduced(log, log + [c], clsimported, collected, collected + first, delivered);
      heap := heap[added := c];
      start := start + [At(added)];
      added := added + 1;
      log := log + [c];
    }

    /** `free`; freeing what is not allocated would be an error. */
    method DeleteCls(a: nat)
      requires a in heap
      modifies `heap
      ensures heap == old(heap) - {a}
    {
      heap := heap - {a};
    }

    method DeleteDead(wid: nat)
      requires Valid() && wid < |dead|
      modifies `heap, `dead
      ensures Valid() && dead == old(dead)[wid := Null] && dead[wid] == Null
    {
      if dead[wid].At? {
        DeadDeleted(heap, start, first, collected, dead, clsimported, nconsumers - leavebehind, wid);
        DeleteCls(dead[wid].address);
        dead := dead[wid := Null];
      }
    }

    /** The cursor passes a cleared slot. */
    method PassNull(wid: nat)
      requires Valid() && wid < |clsimported| && clsimported[wid] < |start| && start[clsimported[wid]] == Null
      modifies `clsimported
      ensures Valid() && clsimported == old(clsimported)[wid := old(clsimported[wid]) + 1]
      ensures old(clsimported[wid]) < first
    {
      hide Allocated, Faithful, Received;
      CountsSkip(heap, start, first, collected, clsimported, nconsumers - leavebehind, wid);
      ReceivedAdvance(log, collected, clsimported, delivered, wid);
      clsimported := clsimported[wid := clsimported[wid] + 1];
    }

    /** The cursor passes a clause, whose count goes up.  The last reader that counts takes the
        clause out of the queue. */
    method PassClause(wid: nat, a: nat) returns (taken: bool)
      requires Valid() && wid < |clsimported| && wid < |dead| && dead[wid] == Null && clsimported[wid] < |start|
      requires start[clsimported[wid]] == At(a)
      modifies `clsimported, `heap, `start, `first, `dead, `fates
      ensures FatesKept(old(fates), fates, old(collected + first))
      ensures taken <==> Passed(clsimported, old(clsimported[wid])) >= nconsumers - leavebehind
      ensures taken ==> a in fates && fates[a] == ReadOut(Passed(clsimported, old(clsimported[wid])))
      ensures Valid() && a == collected + old(clsimported[wid]) && a in heap
      ensures clsimported == old(clsimported)[wid := old(clsimported[wid]) + 1] && |start| == |old(start)|
      ensures a < |log| && heap[a].wid == log[a].wid
      ensures if taken then first == old(first) + 1 && a == collected + old(first) && At(a) in dead else first == old(first)
    {
      hide Sane;
      var res := clsimported[wid];
      Takable(wid, a);
      var cls := heap[a].(count := heap[a].count + 1);
      clsimported := clsimported[wid := res + 1];
      heap := heap[a := cls];
      taken := cls.count + leavebehind >= nconsumers;
      if taken {
        FateOne(fates, collected + first, gclim, nconsumers - leavebehind, ReadOut(cls.count));
        fates := fates[a := ReadOut(cls.count)];
        start := start[res := Null];
        dead := dead[wid := At(a)];
        first := first + 1;
        assert dead[wid] == At(a);
      }
    }

    lemma Takable(wid: nat, a: nat)
      requires Valid() && wid < |clsimported| && wid < |dead| && dead[wid] == Null && clsimported[wid] < |start|
      requires start[clsimported[wid]] == At(a)
      ensures a == collected + clsimported[wid] && a in heap && a < |log| && heap[a].wid == log[a].wid
      ensures heap[a].count + 1 == Passed(clsimported[wid := clsimported[wid] + 1], clsimported[wid])
      ensures var cls := heap[a].(count := heap[a].count + 1);
        var res, limit := clsimported[wid], nconsumers - leavebehind;
        var heap', cursors' := heap[a := cls], clsimported[wid := res + 1];
        if cls.count < limit then Sane(heap', start, first, collected, cursors', dead, limit, log, delivered)
        else
          && res == first
          && Sane(heap', start[res := Null], first + 1, collected, cursors', dead[wid := At(a)], limit, log, delivered)
    {
      hide Faithful, Received, Allocated;
      var limit := nconsumers - leavebehind;
      InHeap(heap, start, first, collected, clsimported, limit, clsimported[wid]);
      assert CountAt(heap, collected, clsimported, limit, clsimported[wid]);
      PassedAdvance(clsimported, wid, clsimported[wid]);
      LogAt(heap, log, a);
      TakenSane(heap, start, first, collected, clsimported, dead, limit, log, delivered, wid, heap[a].(count := heap[a].count + 1));
    }

    /** Deletes the leading clauses that were read by at most `gclim` workers. */
    method CollectPrefix() returns (k: nat)
      requires Valid()
      modifies `heap, `start
      ensures first <= k <= |start| == |old(start)| && start[k..] == old(start)[k..]
      ensures heap == old(heap) - Between(collected + first, collected + k)
      ensures forall i: nat :: first <= i < k ==> Passed(clsimported, i) <= gclim
      ensures k < |start| ==> Passed(clsimported, k) > gclim
    {
      hide Allocated, Faithful, Received, Fated;
      k := first;
      ghost var heap0, start0 := heap, start;
      while k < |start|
        invariant first <= k <= |start| == |start0|
        invariant heap == heap0 - Between(collected + first, collected + k)
        invariant start[k..] == start0[k..]
        invariant forall i: nat :: first <= i < k ==> Passed(clsimported, i) <= gclim
      {
        assert start[k] == start[k..][0];
        InHeap(heap0, start0, first, collected, clsimported, nconsumers - leavebehind, k);
        var a := start[k].address;
        assert CountAt(heap0, collected, clsimported, nconsumers - leavebehind, k);
        if heap[a].count > gclim { break; }
        start := start[k := Null];
        DeleteCls(a);
        assert start[k + 1..] == start0[k..][1..];
        k := k + 1;
      }
    }

    method CollectFront() returns (k: nat)
      requires Valid()
      modifies `heap, `start
      ensures first <= k <= |start| && DeadKept(old(heap), heap, dead)
      ensures forall i: nat :: first <= i < k ==> Passed(clsimported, i) <= gclim
      ensures k < |start| ==> Passed(clsimported, k) > gclim
      ensures Sane(heap, start[k..], 0, collected + k, Rewound(clsimported, k), dead, nconsumers - leavebehind, log, delivered)
    {
      hide Sane, Fated;
      ghost var heap0, start0 := heap, start;
      k := CollectPrefix();
      CollectedSane(heap0, start0, first, collected, clsimported, dead, nconsumers - leavebehind, log, delivered, k);
    }

    /** ... and closes the gap.  What is freed had been passed by at most `gclim` cursors, and the clause
        that is now the first one by more. */
    method GarbageCollect() returns (k: nat)
      requires Valid()
      modifies `heap, `start, `first, `collected, `clsimported, `fates
      ensures Valid() && first == 0 && old(collected) + old(first) <= collected
      ensures collected == old(collected) + k && clsimported == Rewound(old(clsimported), k)
      ensures DeadKept(old(heap), heap, dead)
      ensures FatesKept(old(fates), fates, old(collected + first))
      ensures forall q: nat :: old(collected + first) <= q < collected ==>
        q in fates && fates[q] == Collected(Passed(old(clsimported), q - old(collected))) && fates[q].readers <= gclim
      ensures |start| > 0 ==> Passed(clsimported, 0) > gclim
    {
      hide Sane, DeadKept, Rewound, Fated, FatesKept, AddFates, Passed;
      ghost var cursors, front := clsimported, collected + first;
      k := CollectFront();
      PassedRewound(cursors, k, 0);
      FateMany(fates, front, gclim, nconsumers - leavebehind, cursors, collected, collected + k);
      fates := AddFates(fates, front, cursors, collected, collected + k);
      Rewind(k);
      start := start[k..];
      collected := collected + k;
      first := 0;
    }

    method Rewind(k: nat)
      modifies `clsimported
      ensures clsimported == Rewound(old(clsimported), k)
    {
      ghost var before := clsimported;
      for i := 0 to |clsimported|
        invariant |clsimported| == |before|
        invariant forall w :: 0 <= w < |before| ==> clsimported[w] == if w < i then Rewound(before, k)[w] else before[w]
      {
        if k < clsimported[i] {
          clsimported := clsimported[i := clsimported[i] - k];
        } else {
          clsimported := clsimported[i := 0];
        }
      }
    }

    /** The number of the clause or gap the worker's cursor is at. */
    ghost function Position(wid: nat): nat
      requires wid < |clsimported|
      reads this
    {
      collected + clsimported[wid]
    }

    /** Every foreign clause before a worker's position was delivered to it, or has left the queue. */
    ghost predicate Complete()
      reads this
    {
      AllAccounted(log, clsimported, collected, collected + first, delivered)
    }

    /** One slot: a cleared one, an own clause, or a clause to be copied. */
    method Step(wid: nat) returns (slot: Slot)
      requires Valid() && wid < |clsimported| && dead[wid] == Null && clsimported[wid] < |start|
      modifies `heap, `start, `first, `collected, `clsimported, `dead, `fates
      ensures Valid() && |clsimported| == |old(clsimported)| && old(collected) <= collected
      ensures FatesKept(old(fates), fates, old(collected + first))
      ensures collected != old(collected) ==> |old(start)| > 10000 && old(first) + 1 > |old(start)| / (nconsumers + 1)
      ensures AllCollected(fates, old(Position(wid)) + 1, collected)
      ensures OthersWait(old(clsimported), old(collected), clsimported, collected, wid) && old(collected + first) <= collected + first
      ensures Position(wid) == if collected > old(Position(wid)) + 1 then collected else old(Position(wid)) + 1
      ensures collected + first <= Position(wid) || collected + first == old(collected + first)
      ensures slot.Null? ==> old(Position(wid)) < old(collected + first) || OwnedBy(log, old(Position(wid)), wid)
      ensures slot.At? ==> slot.address == old(Position(wid)) && slot.address in heap && heap[slot.address].wid != wid
    {
      Facts(wid);
      hide Valid, Sane, Fated, FateOk, Passed, OthersWait, FatesKept, WasCollected;
      slot := start[clsimported[wid]];
      if slot == Null {
        OthersStep(clsimported, collected, wid);
        FatesSame(fates, collected + first);
        PassNull(wid);
      } else {
        StepClause(wid, slot.address);
        if heap[slot.address].wid == wid { slot := Null; }
      }
    }

    /** The clause at the cursor is passed, and perhaps the queue is collected. */
    method StepClause(wid: nat, a: nat)
      requires Valid() && wid < |clsimported| && wid < |dead| && dead[wid] == Null && clsimported[wid] < |start|
      requires start[clsimported[wid]] == At(a)
      modifies `heap, `start, `first, `collected, `clsimported, `dead, `fates
      ensures Valid() && |clsimported| == |old(clsimported)| && old(collected) <= collected
      ensures FatesKept(old(fates), fates, old(collected + first))
      ensures collected != old(collected) ==> |old(start)| > 10000 && old(first) + 1 > |old(start)| / (nconsumers + 1)
      ensures AllCollected(fates, old(Position(wid)) + 1, collected)
      ensures OthersWait(old(clsimported), old(collected), clsimported, collected, wid) && old(collected + first) <= collected + first
      ensures Position(wid) == if collected > old(Position(wid)) + 1 then collected else old(Position(wid)) + 1
      ensures collected + first <= Position(wid) || collected + first == old(collected + first)
      ensures a == old(Position(wid)) && a in heap && a < |log| && heap[a].wid == log[a].wid
    {
      hide Valid, Sane, Fated, FateOk, Passed, OthersWait, FatesKept, WasCollected;
      OthersStep(clsimported, collected, wid);
      ghost var cursors, before, front, fates0 := clsimported, collected, collected + first, fates;
      var taken := PassClause(wid, a);
      if taken {
        ghost var cursors1, front1, fates1 := clsimported, collected + first, fates;
        CollectIfWorthwhile(wid, a);
        OthersThen(cursors, before, cursors1, before, clsimported, collected, wid);
        FatesThen(fates0, fates1, fates, front, front1);
      }
    }

    /** After the first clause was taken: collects when many slots are in use and enough of them are cleared. */
    method CollectIfWorthwhile(wid: nat, a: nat)
      requires Valid() && At(a) in dead && wid < |clsimported|
      modifies `heap, `start, `first, `collected, `clsimported, `fates
      ensures Valid() && a in old(heap) && a in heap && heap[a] == old(heap[a])
      ensures |clsimported| == |old(clsimported)| && old(collected) <= collected && old(collected + first) <= collected + first
      ensures if |old(start)| > 10000 && old(first) > |old(start)| / (nconsumers + 1)
        then first == 0 && (|start| > 0 ==> Passed(clsimported, 0) > gclim)
        else collected == old(collected) && first == old(first) && start == old(start)
      ensures Position(wid) == if old(Position(wid)) < collected then collected else old(Position(wid))
      ensures collected + first == old(collected + first) || first == 0
      ensures OthersWait(old(clsimported), old(collected), clsimported, collected, wid)
      ensures FatesKept(old(fates), fates, old(collected + first)) && AllCollected(fates, old(collected + first), collected)
    {
      hide Sane, Fated, FateOk, Passed, OthersWait;
      OthersSame(clsimported, collected, wid);
      Taken(a);
      if |start| > 10000 && first > |start| / (nconsumers + 1) {
        ghost var cursors, before := clsimported, collected;
        var k := GarbageCollect();
        assert Rewound(cursors, k)[wid] == clsimported[wid];
        OthersRewound(cursors, before, k, wid);
      }
    }

    lemma Taken(a: nat)
      requires Valid() && At(a) in dead
      ensures a in heap && first <= |start|
    {
      var w :| 0 <= w < |dead| && dead[w] == At(a);
    }

    /** The next clause of another worker, if there is one; `n` is its number.  It is copied while the
        mutex is held. */
    method Consume(wid: nat) returns (r: Consumed, ghost n: nat)
      requires Valid() && wid < |clsimported|
      modifies `heap, `start, `first, `collected, `clsimported, `dead, `delivered, `fates
      ensures Valid() && |clsimported| == |old(clsimported)| && old(collected) <= collected
      ensures OthersWait(old(clsimported), old(collected), clsimported, collected, wid) && old(collected + first) <= collected + first
      ensures r.Nothing? ==> delivered == old(delivered) && Position(wid) == |log|
      ensures r.Consumed? ==>
        && old(Position(wid)) <= n < Position(wid) && n < |log| && log[n].wid != wid
        && r == Consumed(log[n].lits, log[n].glue)
        && |old(delivered)| == |clsimported| && delivered == old(delivered)[wid := old(delivered[wid]) + [n]]
      ensures Skipped(log, fates, wid, old(Position(wid)), if r.Nothing? then |log| else n, old(collected + first), collected)
      ensures old(Complete()) ==> Complete()
    {
      n := 0;
      hide Valid, Skipped, OwnedBy, WasCollected, OthersWait, AllAccounted;
      Facts(wid);
      ghost var cursors, before, front, delivered0 := clsimported, collected, collected + first, delivered;
      var slot := NextForeign(wid);
      Facts(wid);
      match slot {
        case At(a) =>
          n := a;
          r := Deliver(wid, a, cursors, before, front);
        case Null =>
          CompleteAfter(cursors, before, front, delivered0, wid, Position(wid));
          r := Nothing;
      }
    }

    /** Goes on to the next clause of another worker. */
    method NextForeign(wid: nat) returns (slot: Slot)
      requires Valid() && wid < |clsimported|
      modifies `heap, `start, `first, `collected, `clsimported, `dead, `fates
      ensures Valid() && |clsimported| == |old(clsimported)| && old(Position(wid)) <= Position(wid)
      ensures OthersWait(old(clsimported), old(collected), clsimported, collected, wid) && old(collected + first) <= collected + first
      ensures slot.Null? ==> Position(wid) == |log|
      ensures slot.At? ==> old(Position(wid)) <= slot.address < Position(wid) && slot.address in heap && heap[slot.address].wid != wid
      ensures slot.At? ==> Position(wid) <= slot.address + 1 || Position(wid) <= collected
      ensures Skipped(log, fates, wid, old(Position(wid)), if slot.Null? then Position(wid) else slot.address, old(collected + first), collected)
    {
      Facts(wid);
      ghost var from, front := Position(wid), collected + first;
      hide Valid, Skipped, OwnedBy, WasCollected, OthersWait;
      OthersSame(clsimported, collected, wid);
      SkippedStart(log, fates, wid, from, front, collected);
      var over := false;
      slot := Null;
      while !over && slot.Null?
        invariant Valid() && |clsimported| == |old(clsimported)|
        invariant OthersWait(old(clsimported), old(collected), clsimported, collected, wid)
        invariant old(collected) <= collected && from <= Position(wid) && front <= collected + first
        invariant slot.Null? ==> collected + first <= Position(wid) || collected + first == front
        invariant slot.At? ==> from <= slot.address < Position(wid) && slot.address in heap && heap[slot.address].wid != wid
        invariant slot.At? ==> Position(wid) <= slot.address + 1 || Position(wid) <= collected
        invariant over ==> slot.Null? && Position(wid) == |log|
        invariant Skipped(log, fates, wid, from, if slot.Null? then Position(wid) else slot.address, front, collected)
        decreases |log| - Position(wid), !over && slot.Null?
      {
        Facts(wid);
        ghost var cursors, before := clsimported, collected;
        slot, over := Round(wid, from, front);
        OthersThen(old(clsimported), old(collected), cursors, before, clsimported, collected, wid);
        Facts(wid);
      }
    }

    lemma CompleteAfter(cursors: seq<nat>, before: nat, front: nat, delivered0: seq<seq<nat>>, wid: nat, hi: nat)
      requires wid < |cursors| && |clsimported| == |cursors| && |delivered| == |delivered0| && OthersWait(cursors, before, clsimported, collected, wid) && front <= collected + first
      requires Skipped(log, fates, wid, before + cursors[wid], hi, front, collected)
      requires delivered == delivered0 || (wid < |delivered0| && delivered == delivered0[wid := delivered0[wid] + [hi]])
      requires Position(wid) <= hi || (wid < |delivered| && hi in delivered[wid] && (Position(wid) <= hi + 1 || Position(wid) <= collected))
      ensures AllAccounted(log, cursors, before, front, delivered0) ==> Complete()
    {
      if AllAccounted(log, cursors, before, front, delivered0) {
        AccountedOn(log, fates, cursors, before, front, delivered0, clsimported, collected, collected + first, delivered, wid, hi);
      }
    }

    /** Deletes what was taken out last, and looks at one more slot unless there is none. */
    method Round(wid: nat, ghost from: nat, ghost front: nat) returns (slot: Slot, over: bool)
      requires Valid() && wid < |clsimported| && from <= Position(wid)
      requires collected + first <= Position(wid) || collected + first == front
      requires Skipped(log, fates, wid, from, Position(wid), front, collected)
      modifies `heap, `start, `first, `collected, `clsimported, `dead, `fates
      ensures Valid() && |clsimported| == |old(clsimported)| && old(collected) <= collected
      ensures OthersWait(old(clsimported), old(collected), clsimported, collected, wid) && old(collected + first) <= collected + first
      ensures old(Position(wid)) + (if over then 0 else 1) <= Position(wid) && (over ==> slot.Null? && Position(wid) == |log|)
      ensures collected + first <= Position(wid) || collected + first == front
      ensures slot.At? ==> slot.address == old(Position(wid)) && slot.address in heap && heap[slot.address].wid != wid
      ensures slot.At? ==> Position(wid) <= slot.address + 1 || Position(wid) <= collected
      ensures Skipped(log, fates, wid, from, if slot.At? then slot.address else Position(wid), front, collected)
    {
      hide Valid, Skipped, OwnedBy, WasCollected, OthersWait;
      Facts(wid);
      OthersSame(clsimported, collected, wid);
      DeleteDead(wid);
      Facts(wid);
      over := clsimported[wid] == |start|;
      slot := Null;
      if !over {
        ghost var position, before, front', fates0 := Position(wid), collected, collected + first, fates;
        slot := Step(wid);
        FatesKeptBelow(fates0, fates, front', before);
        if slot.At? {
          SkippedMore(log, fates0, fates, wid, from, position, front, before, collected);
        } else {
          SkippedOne(log, fates0, fates, wid, from, position, Position(wid), front, front', before, collected);
        }
      }
    }

    /** What the invariant says about one worker. */
    lemma Facts(wid: nat)
      requires Valid() && wid < |clsimported|
      ensures |dead| == |clsimported| == |delivered| && Position(wid) <= |log| == collected + |start|
      ensures forall x :: 0 <= x < |delivered[wid]| ==> delivered[wid][x] < Position(wid)
    {
      assert ReceivedBy(log, collected + clsimported[wid], delivered[wid], wid);
    }

    method Deliver(wid: nat, a: nat, ghost cursors: seq<nat>, ghost before: nat, ghost front: nat) returns (r: Consumed)
      requires Valid() && wid < |clsimported| && a in heap && heap[a].wid != wid && a < Position(wid)
      requires wid < |delivered| && forall x :: 0 <= x < |delivered[wid]| ==> delivered[wid][x] < a
      requires wid < |cursors| && OthersWait(cursors, before, clsimported, collected, wid) && front <= collected + first
      requires Skipped(log, fates, wid, before + cursors[wid], a, front, collected)
      requires Position(wid) <= a + 1 || Position(wid) <= collected
      ensures AllAccounted(log, cursors, before, front, old(delivered)) ==> Complete()
      modifies `delivered
      ensures Valid() && |old(delivered)| == |clsimported| && delivered == old(delivered)[wid := old(delivered[wid]) + [a]]
      ensures a < |log| && log[a].wid != wid && r == Consumed(log[a].lits, log[a].glue)
    {
      r := Consumed(heap[a].lits, heap[a].glue);
      DeliveredOk(log, collected, clsimported, delivered, wid, a);
      Last(delivered[wid], a);
      hide Skipped, OthersWait, AllAccounted;
      delivered := delivered[wid := delivered[wid] + [a]];
      CompleteAfter(cursors, before, front, old(delivered), wid, a);
    }

    method DeleteLive()
      requires Valid() && forall w :: 0 <= w < |dead| ==> dead[w] == Null
      modifies `heap
      ensures heap == map[]
    {
      ghost var heap0 := heap;
      for i := first to |start|
        invariant heap == heap0 - Between(collected + first, collected + i)
      {
        assert Live(start, first, collected, collected + i);
        if start[i].At? { DeleteCls(start[i].address); }
      }
      forall a | a in heap0 ensures a in Between(collected + first, collected + |start|) {
        assert Live(start, first, collected, a) || At(a) in dead;
      }
    }

    method DeleteAllDead()
      requires Valid()
      modifies `heap, `dead
      ensures Valid() && forall w :: 0 <= w < |dead| ==> dead[w] == Null
    {
      for i := 0 to |dead|
        invariant Valid() && |dead| == |old(dead)| && forall w :: 0 <= w < i ==> dead[w] == Null
      {
        DeleteDead(i);
      }
    }

    /** What the main thread does after all workers have stopped: no clause stays allocated. */
    method DeleteAll()
      requires Valid()
      modifies `heap, `dead
      ensures heap == map[]
    {
      DeleteAllDead();
      DeleteLive();
    }
  }

  lemma FateOne(fates: map<nat, Fate>, front: nat, gclim: int, limit: int, f: Fate)
    requires Fated(fates, front, gclim, limit) && FateOk(f, gclim, limit)
    ensures Fated(fates[front := f], front + 1, gclim, limit) && FatesKept(fates, fates[front := f], front)
  {}

  /** The fates of the clauses collected from `front` to `hi`. */
  ghost function AddFates(fates: map<nat, Fate>, front: nat, cursors: seq<nat>, collected: nat, hi: nat): (r: map<nat, Fate>)
    requires collected <= front
    ensures forall q: nat :: q in r <==> q in fates || q in Between(front, hi)
    ensures forall q: nat :: q in Between(front, hi) ==> r[q] == Collected(Passed(cursors, q - collected))
    ensures forall q: nat :: q in fates && q !in Between(front, hi) ==> r[q] == fates[q]
  {
    fates + map q | q in Between(front, hi) :: Collected(Passed(cursors, q - collected))
  }

  lemma FateMany(fates: map<nat, Fate>, front: nat, gclim: int, limit: int, cursors: seq<nat>, collected: nat, hi: nat)
    requires Fated(fates, front, gclim, limit) && collected <= front <= hi
    requires forall i: nat :: front - collected <= i < hi - collected ==> Passed(cursors, i) <= gclim
    ensures var fates' := AddFates(fates, front, cursors, collected, hi);
      && Fated(fates', hi, gclim, limit) && FatesKept(fates, fates', front)
      && forall q: nat :: front <= q < hi ==> q in fates' && fates'[q] == Collected(Passed(cursors, q - collected)) && fates'[q].readers <= gclim
  {
    var fates' := AddFates(fates, front, cursors, collected, hi);
    forall q: nat | q < hi
      ensures q in fates' && FateOk(fates'[q], gclim, limit)
      ensures q < front ==> fates'[q] == fates[q]
      ensures front <= q ==> fates'[q] == Collected(Passed(cursors, q - collected))
    {
      if front <= q { assert q in Between(front, hi); } else { assert q !in Between(front, hi); }
    }
  }

  ghost function Between(lo: nat, hi: nat): set<nat> {
    set a: nat | Before(a, hi) && lo <= a < hi
  }

  predicate Before(a: nat, hi: nat) {
    a < hi
  }

  predicate OwnedBy(log: seq<Clause>, n: nat, wid: nat) {
    n < |log| && log[n].wid == wid
  }

  ghost predicate AllAccounted(log: seq<Clause>, cursors: seq<nat>, collected: nat, front: nat, delivered: seq<seq<nat>>) {
    && |delivered| == |cursors|
    && forall w, q: nat :: 0 <= w < |cursors| && q < collected + cursors[w] ==> Accounted(log, delivered[w], front, w, q)
  }

  predicate Accounted(log: seq<Clause>, ns: seq<nat>, front: nat, w: nat, q: nat) {
    OwnedBy(log, q, w) || q in ns || Before(q, front)
  }

  /** One worker moved on to `hi'`, got clause `n` on the way or nothing, and skipped the others rightly. */
  lemma AccountedOn(log: seq<Clause>, fates: map<nat, Fate>, cursors: seq<nat>, collected: nat, front: nat, delivered: seq<seq<nat>>,
                    cursors': seq<nat>, collected': nat, front': nat, delivered': seq<seq<nat>>, wid: nat, hi: nat)
    requires AllAccounted(log, cursors, collected, front, delivered) && wid < |cursors|
    requires OthersWait(cursors, collected, cursors', collected', wid) && front <= front' && collected' <= front'
    requires Skipped(log, fates, wid, collected + cursors[wid], hi, front, collected')
    requires |delivered'| == |delivered| && forall v :: 0 <= v < |delivered| ==> delivered[v] <= delivered'[v]
    requires forall q: nat :: hi <= q < collected' + cursors'[wid] ==> q in delivered'[wid] || Before(q, collected')
    ensures AllAccounted(log, cursors', collected', front', delivered')
  {
    forall w, q: nat | 0 <= w < |cursors'| && q < collected' + cursors'[w] ensures Accounted(log, delivered'[w], front', w, q) {
      if w != wid {
        assert Waits(collected + cursors[w], collected' + cursors'[w], collected');
      }
      if q < collected + cursors[w] {
        assert Accounted(log, delivered[w], front, w, q);
        if q in delivered[w] { Kept(delivered[w], delivered'[w], q); }
      } else if w == wid && q < hi {
        assert OwnedBy(log, q, w) || Before(q, front) || Before(q, collected');
      }
    }
  }

  lemma AccountedProduced(log: seq<Clause>, log': seq<Clause>, cursors: seq<nat>, collected: nat, front: nat, delivered: seq<seq<nat>>)
    requires log <= log'
    ensures AllAccounted(log, cursors, collected, front, delivered) ==> AllAccounted(log', cursors, collected, front, delivered)
  {
    if AllAccounted(log, cursors, collected, front, delivered) {
      forall w, q: nat | 0 <= w < |cursors| && q < collected + cursors[w] ensures Accounted(log', delivered[w], front, w, q) {
        assert Accounted(log, delivered[w], front, w, q);
      }
    }
  }

  lemma Last(ns: seq<nat>, q: nat)
    ensures q in ns + [q]
  {
    assert (ns + [q])[|ns|] == q;
  }

  lemma Kept(ns: seq<nat>, ns': seq<nat>, q: nat)
    requires ns <= ns' && q in ns
    ensures q in ns'
  {
    var x :| 0 <= x < |ns| && ns[x] == q;
    assert ns'[x] == q;
  }

  /** Only the worker at work moves, but for those that collection moves to the new front. */
  ghost predicate OthersWait(cursors: seq<nat>, collected: nat, cursors': seq<nat>, collected': nat, wid: nat) {
    && |cursors'| == |cursors| && collected <= collected'
    && forall v :: 0 <= v < |cursors| && v != wid ==> Waits(collected + cursors[v], collected' + cursors'[v], collected')
  }

  predicate Waits(position: nat, position': nat, collected': nat) {
    position' == if position < collected' then collected' else position
  }

  lemma OthersSame(cursors: seq<nat>, collected: nat, wid: nat)
    ensures OthersWait(cursors, collected, cursors, collected, wid)
  {}

  lemma OthersStep(cursors: seq<nat>, collected: nat, wid: nat)
    requires wid < |cursors|
    ensures OthersWait(cursors, collected, cursors[wid := cursors[wid] + 1], collected, wid)
  {}

  lemma OthersRewound(cursors: seq<nat>, collected: nat, k: nat, wid: nat)
    ensures OthersWait(cursors, collected, Rewound(cursors, k), collected + k, wid)
  {}

  lemma OthersThen(cursors: seq<nat>, collected: nat, cursors': seq<nat>, collected': nat, cursors'': seq<nat>, collected'': nat, wid: nat)
    requires OthersWait(cursors, collected, cursors', collected', wid) && OthersWait(cursors', collected', cursors'', collected'', wid)
    ensures OthersWait(cursors, collected, cursors'', collected'', wid)
  {
    forall v | 0 <= v < |cursors| && v != wid ensures Waits(collected + cursors[v], collected'' + cursors''[v], collected'') {
      assert Waits(collected + cursors[v], collected' + cursors'[v], collected');
    }
  }

  ghost predicate AllCollected(fates: map<nat, Fate>, lo: nat, hi: nat) {
    forall q: nat :: lo <= q < hi ==> WasCollected(fates, q)
  }

  ghost predicate WasCollected(fates: map<nat, Fate>, q: nat) {
    q in fates && fates[q].Collected?
  }

  /** Of the clauses from number `lo` to `hi`, the foreign ones that were in the queue when its front
      was at `front` have been garbage collected. */
  ghost predicate Skipped(log: seq<Clause>, fates: map<nat, Fate>, wid: nat, lo: nat, hi: nat, front: nat, collected: nat) {
    forall q: nat :: lo <= q < hi && front <= q ==> OwnedBy(log, q, wid) || (Before(q, collected) && WasCollected(fates, q))
  }

  lemma SkippedStart(log: seq<Clause>, fates: map<nat, Fate>, wid: nat, lo: nat, front: nat, collected: nat)
    ensures Skipped(log, fates, wid, lo, lo, front, collected)
  {}

  lemma SkippedMore(log: seq<Clause>, fates: map<nat, Fate>, fates': map<nat, Fate>, wid: nat, lo: nat, hi: nat,
                    front: nat, collected: nat, collected': nat)
    requires Skipped(log, fates, wid, lo, hi, front, collected) && collected <= collected' && FatesKept(fates, fates', collected)
    ensures Skipped(log, fates', wid, lo, hi, front, collected')
  {
    forall q: nat | lo <= q < hi && front <= q
      ensures OwnedBy(log, q, wid) || (Before(q, collected') && WasCollected(fates', q))
    {
      assert OwnedBy(log, q, wid) || (Before(q, collected) && WasCollected(fates, q));
    }
  }

  /** The slot at `hi` was cleared before or held an own clause. */
  lemma SkippedOne(log: seq<Clause>, fates: map<nat, Fate>, fates': map<nat, Fate>, wid: nat, lo: nat, hi: nat, hi': nat,
                   front: nat, front': nat, collected: nat, collected': nat)
    requires Skipped(log, fates, wid, lo, hi, front, collected) && collected <= collected' && FatesKept(fates, fates', collected)
    requires hi' == if collected' > hi + 1 then collected' else hi + 1
    requires front' <= hi || front' == front
    requires hi < front' || OwnedBy(log, hi, wid)
    requires AllCollected(fates', hi + 1, collected')
    ensures Skipped(log, fates', wid, lo, hi', front, collected')
  {
    forall q: nat | lo <= q < hi' && front <= q
      ensures OwnedBy(log, q, wid) || (Before(q, collected') && WasCollected(fates', q))
    {
      if q < hi {
        assert OwnedBy(log, q, wid) || (Before(q, collected) && WasCollected(fates, q));
      } else if q > hi {
        assert WasCollected(fates', q);
      }
    }
  }

  lemma FatesSame(fates: map<nat, Fate>, front: nat)
    ensures FatesKept(fates, fates, front)
  {}

  lemma FatesThen(fates: map<nat, Fate>, fates': map<nat, Fate>, fates'': map<nat, Fate>, front: nat, front': nat)
    requires FatesKept(fates, fates', front) && FatesKept(fates', fates'', front') && front <= front'
    ensures FatesKept(fates, fates'', front)
  {}

  lemma FatesKeptBelow(fates: map<nat, Fate>, fates': map<nat, Fate>, front: nat, collected: nat)
    requires FatesKept(fates, fates', front) && collected <= front
    ensures FatesKept(fates, fates', collected)
  {}

  /** Collection leaves the clauses alone that workers have taken out. */
  lemma DeadInHeap(heap: map<nat, Clause>, start: seq<Slot>, first: nat, collected: nat, dead: seq<Slot>, k: nat)
    requires Allocated(heap, start, first, collected, dead)
    ensures forall a: nat :: At(a) in dead ==> a in heap && a in heap - Between(collected + first, collected + k)
  {
    forall a: nat | At(a) in dead ensures a in heap && a < collected + first {
      var w :| 0 <= w < |dead| && dead[w] == At(a);
    }
  }

  lemma FaithfulRest(heap: map<nat, Clause>, gone: set<nat>, log: seq<Clause>)
    requires Faithful(heap, log)
    ensures Faithful(heap - gone, log)
  {}

  lemma RewoundInRange(cursors: seq<nat>, n: nat, k: nat)
    requires k <= n && forall w :: 0 <= w < |cursors| ==> cursors[w] <= n
    ensures forall w :: 0 <= w < |cursors| ==> Rewound(cursors, k)[w] <= n - k
  {}

  lemma DeliveredOk(log: seq<Clause>, collected: nat, cursors: seq<nat>, delivered: seq<seq<nat>>, w: nat, n: nat)
    requires |delivered| == |cursors| && w < |cursors| && n < collected + cursors[w] && n < |log| && log[n].wid != w
    requires Received(log, collected, cursors, delivered) && forall x :: 0 <= x < |delivered[w]| ==> delivered[w][x] < n
    ensures Received(log, collected, cursors, delivered[w := delivered[w] + [n]])
  {
    var delivered' := delivered[w := delivered[w] + [n]];
    forall v | 0 <= v < |delivered'| ensures ReceivedBy(log, collected + cursors[v], delivered'[v], v) {
      assert ReceivedBy(log, collected + cursors[v], delivered[v], v);
    }
  }

  lemma CollectedOk(heap: map<nat, Clause>, start: seq<Slot>, first: nat, collected: nat, dead: seq<Slot>, cursors: seq<nat>, limit: nat, k: nat)
    requires Slots(start, first, collected) && Allocated(heap, start, first, collected, dead)
    requires Counts(heap, start, first, collected, cursors, limit) && first <= k <= |start|
    ensures var heap' := heap - Between(collected + first, collected + k);
      && Slots(start[k..], 0, collected + k)
      && Allocated(heap', start[k..], 0, collected + k, dead)
      && Counts(heap', start[k..], 0, collected + k, Rewound(cursors, k), limit)
  {
    var heap', start' := heap - Between(collected + first, collected + k), start[k..];
    forall a | Live(start', 0, collected + k, a) ensures a in heap' {
      assert Live(start, first, collected, a);
    }
    forall a | a in heap' ensures Live(start', 0, collected + k, a) || At(a) in dead {
      assert Live(start, first, collected, a) || At(a) in dead;
    }
    var cursors', collected' := Rewound(cursors, k), collected + k;
    forall i: nat | i < |start'| ensures CountAt(heap', collected', cursors', limit, i) {
      assert CountAt(heap, collected, cursors, limit, i + k);
      PassedRewound(cursors, k, i);
    }
  }

  ghost predicate DeadKept(heap: map<nat, Clause>, heap': map<nat, Clause>, dead: seq<Slot>) {
    forall a: nat :: At(a) in dead ==> a in heap && a in heap' && heap'[a] == heap[a]
  }

  lemma CollectedSane(heap: map<nat, Clause>, start: seq<Slot>, first: nat, collected: nat, cursors: seq<nat>, dead: seq<Slot>,
                      limit: nat, log: seq<Clause>, delivered: seq<seq<nat>>, k: nat)
    requires Sane(heap, start, first, collected, cursors, dead, limit, log, delivered) && first <= k <= |start|
    ensures Sane(heap - Between(collected + first, collected + k), start[k..], 0, collected + k, Rewound(cursors, k), dead, limit, log, delivered)
    ensures DeadKept(heap, heap - Between(collected + first, collected + k), dead)
  {
    DeadInHeap(heap, start, first, collected, dead, k);
    FaithfulRest(heap, Between(collected + first, collected + k), log);
    RewoundInRange(cursors, |start|, k);
    CollectedOk(heap, start, first, collected, dead, cursors, limit, k);
    ReceivedRewound(log, collected, cursors, delivered, k);
  }

  lemma ReceivedRewound(log: seq<Clause>, collected: nat, cursors: seq<nat>, delivered: seq<seq<nat>>, k: nat)
    requires Received(log, collected, cursors, delivered)
    ensures Received(log, collected + k, Rewound(cursors, k), delivered)
  {
    var cursors' := Rewound(cursors, k);
    forall v | 0 <= v < |delivered| ensures ReceivedBy(log, collected + k + cursors'[v], delivered[v], v) {
      ReceivedLater(log, log, collected + cursors[v], collected + k + cursors'[v], delivered[v], v);
    }
  }

  lemma InHeap(heap: map<nat, Clause>, start: seq<Slot>, first: nat, collected: nat, cursors: seq<nat>, limit: nat, i: nat)
    requires Slots(start, first, collected) && Counts(heap, start, first, collected, cursors, limit)
    requires i < |start| && start[i].At?
    ensures first <= i && start[i].address == collected + i && collected + i in heap
  {
    assert CountAt(heap, collected, cursors, limit, i);
  }

  lemma ReceivedAdvance(log: seq<Clause>, collected: nat, cursors: seq<nat>, delivered: seq<seq<nat>>, w: nat)
    requires Received(log, collected, cursors, delivered) && w < |cursors|
    ensures Received(log, collected, cursors[w := cursors[w] + 1], delivered)
  {
    var cursors' := cursors[w := cursors[w] + 1];
    forall v | 0 <= v < |delivered| ensures ReceivedBy(log, collected + cursors'[v], delivered[v], v) {
      ReceivedLater(log, log, collected + cursors[v], collected + cursors'[v], delivered[v], v);
    }
  }

  lemma LogAt(heap: map<nat, Clause>, log: seq<Clause>, a: nat)
    requires Faithful(heap, log) && a in heap
    ensures a < |log| && heap[a].wid == log[a].wid
  {}

  /** Counting up a clause changes nothing else. */
  lemma RecordUpdated(heap: map<nat, Clause>, log: seq<Clause>, start: seq<Slot>, first: nat, collected: nat, dead: seq<Slot>, a: nat, cls: Clause)
    requires a in heap && cls == heap[a].(count := cls.count)
    requires Faithful(heap, log) && Allocated(heap, start, first, collected, dead)
    ensures Faithful(heap[a := cls], log) && Allocated(heap[a := cls], start, first, collected, dead)
  {}

  lemma ProduceCounts(heap: map<nat, Clause>, start: seq<Slot>, first: nat, collected: nat, cursors: seq<nat>, limit: nat, c: Clause)
    requires Counts(heap, start, first, collected, cursors, limit) && limit > 0 && c.count == 0
    requires forall w :: 0 <= w < |cursors| ==> cursors[w] <= |start|
    ensures Counts(heap[collected + |start| := c], start + [At(collected + |start|)], first, collected, cursors, limit)
  {
    var heap' := heap[collected + |start| := c];
    PassedNone(cursors, |start|);
    forall i: nat | first <= i < |start| + 1 ensures CountAt(heap', collected, cursors, limit, i) {
      if i < |start| { assert CountAt(heap, collected, cursors, limit, i); }
    }
  }

  lemma ProducedSane(heap: map<nat, Clause>, start: seq<Slot>, first: nat, collected: nat, cursors: seq<nat>, dead: seq<Slot>,
                     limit: nat, log: seq<Clause>, delivered: seq<seq<nat>>, c: Clause)
    requires Sane(heap, start, first, collected, cursors, dead, limit, log, delivered) && limit > 0 && c.count == 0
    ensures var n := collected + |start|;
      Sane(heap[n := c], start + [At(n)], first, collected, cursors, dead, limit, log + [c], delivered)
  {
    ProduceCounts(heap, start, first, collected, cursors, limit, c);
    ProduceAllocated(heap, start, first, collected, dead, c);
    forall w | 0 <= w < |delivered| ensures ReceivedBy(log + [c], collected + cursors[w], delivered[w], w) {
      ReceivedLater(log, log + [c], collected + cursors[w], collected + cursors[w], delivered[w], w);
    }
  }

  lemma ProduceAllocated(heap: map<nat, Clause>, start: seq<Slot>, first: nat, collected: nat, dead: seq<Slot>, c: Clause)
    requires Allocated(heap, start, first, collected, dead) && first <= |start|
    ensures collected + |start| !in heap
    ensures Allocated(heap[collected + |start| := c], start + [At(collected + |start|)], first, collected, dead)
  {
    var n := collected + |start|;
    var start' := start + [At(n)];
    forall a | Live(start', first, collected, a) ensures a in heap[n := c] {
      if a != n { assert Live(start, first, collected, a); }
    }
    forall a | a in heap[n := c] ensures Live(start', first, collected, a) || At(a) in dead {
      if a != n { assert Live(start, first, collected, a) || At(a) in dead; }
    }
    forall w | 0 <= w < |dead| ensures dead[w] != At(n) {}
  }

  lemma DeadDeleted(heap: map<nat, Clause>, start: seq<Slot>, first: nat, collected: nat, dead: seq<Slot>, cursors: seq<nat>, limit: nat, w: nat)
    requires Allocated(heap, start, first, collected, dead) && w < |dead| && dead[w].At?
    requires Counts(heap, start, first, collected, cursors, limit)
    ensures dead[w].address in heap
    ensures Allocated(heap - {dead[w].address}, start, first, collected, dead[w := Null])
    ensures Counts(heap - {dead[w].address}, start, first, collected, cursors, limit)
  {
    var a := dead[w].address;
    var heap', dead' := heap - {a}, dead[w := Null];
    forall n | n in heap' ensures Live(start, first, collected, n) || At(n) in dead' {
      if At(n) in dead {
        var v :| 0 <= v < |dead| && dead[v] == At(n);
        assert dead'[v] == At(n);
      }
    }
    forall i: nat | first <= i < |start| ensures CountAt(heap', collected, cursors, limit, i) {
      assert CountAt(heap, collected, cursors, limit, i);
    }
  }

  lemma CountsSkip(heap: map<nat, Clause>, start: seq<Slot>, first: nat, collected: nat, cursors: seq<nat>, limit: nat, w: nat)
    requires Counts(heap, start, first, collected, cursors, limit) && Slots(start, first, collected)
    requires w < |cursors| && cursors[w] < |start| && start[cursors[w]] == Null
    ensures Counts(heap, start, first, collected, cursors[w := cursors[w] + 1], limit)
  {
    var cursors' := cursors[w := cursors[w] + 1];
    forall i: nat | first <= i < |start| ensures CountAt(heap, collected, cursors', limit, i) {
      assert CountAt(heap, collected, cursors, limit, i);
      PassedAdvance(cursors, w, i);
    }
  }

  /** After the count of the clause at the cursor went up: either all counts are still small, or the
      clause is the first one and the others are. */
  lemma CountsTake(heap: map<nat, Clause>, start: seq<Slot>, first: nat, collected: nat, cursors: seq<nat>, limit: nat, w: nat, cls: Clause)
    requires Counts(heap, start, first, collected, cursors, limit) && Slots(start, first, collected)
    requires w < |cursors| && first <= cursors[w] < |start| && collected + cursors[w] in heap
    requires cls == heap[collected + cursors[w]].(count := heap[collected + cursors[w]].count + 1)
    ensures var res := cursors[w]; var heap', cursors' := heap[collected + res := cls], cursors[w := res + 1];
      if cls.count < limit then Counts(heap', start, first, collected, cursors', limit)
      else res == first && Counts(heap', start[res := Null], first + 1, collected, cursors', limit)
  {
    var res := cursors[w];
    var heap', cursors' := heap[collected + res := cls], cursors[w := res + 1];
    assert CountAt(heap, collected, cursors, limit, res) && CountAt(heap, collected, cursors, limit, first);
    PassedAdvance(cursors, w, res);
    PassedAdvance(cursors, w, first);
    PassedShrinks(cursors', first, res);
    forall i: nat | first <= i < |start| && (i != res || cls.count < limit) ensures CountAt(heap', collected, cursors', limit, i) {
      assert CountAt(heap, collected, cursors, limit, i);
      PassedAdvance(cursors, w, i);
    }
  }

  lemma TakenSane(heap: map<nat, Clause>, start: seq<Slot>, first: nat, collected: nat, cursors: seq<nat>, dead: seq<Slot>,
                  limit: nat, log: seq<Clause>, delivered: seq<seq<nat>>, w: nat, cls: Clause)
    requires Sane(heap, start, first, collected, cursors, dead, limit, log, delivered)
    requires w < |cursors| && dead[w] == Null && first <= cursors[w] < |start| && collected + cursors[w] in heap
    requires cls == heap[collected + cursors[w]].(count := heap[collected + cursors[w]].count + 1)
    ensures var res := cursors[w]; var heap', cursors' := heap[collected + res := cls], cursors[w := res + 1];
      if cls.count < limit then Sane(heap', start, first, collected, cursors', dead, limit, log, delivered)
      else
        && res == first
        && Sane(heap', start[res := Null], first + 1, collected, cursors', dead[w := At(collected + res)], limit, log, delivered)
  {
    var a := collected + cursors[w];
    CountsTake(heap, start, first, collected, cursors, limit, w, cls);
    ReceivedAdvance(log, collected, cursors, delivered, w);
    RecordUpdated(heap, log, start, first, collected, dead, a, cls);
    if cls.count >= limit { TakeOut(heap[a := cls], start, first, collected, dead, w); }
  }

  lemma TakeOut(heap: map<nat, Clause>, start: seq<Slot>, first: nat, collected: nat, dead: seq<Slot>, w: nat)
    requires Allocated(heap, start, first, collected, dead) && Slots(start, first, collected) && first < |start|
    requires w < |dead| && dead[w] == Null
    ensures Slots(start[first := Null], first + 1, collected)
    ensures Allocated(heap, start[first := Null], first + 1, collected, dead[w := At(collected + first)])
  {
    var start', dead' := start[first := Null], dead[w := At(collected + first)];
    forall a | Live(start', first + 1, collected, a) ensures a in heap {
      assert Live(start, first, collected, a);
    }
    assert Live(start, first, collected, collected + first);
    forall a | a in heap ensures Live(start', first + 1, collected, a) || At(a) in dead' {
      assert Live(start, first, collected, a) || At(a) in dead;
      assert dead'[w] == At(collected + first);
      if At(a) in dead {
        var v :| 0 <= v < |dead| && dead[v] == At(a);
        assert dead'[v] == At(a);
      }
    }
  }
}
