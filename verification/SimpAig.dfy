/** The manager of `simpaig`: structural hashing, reference counting, time shift and substitution. */
module SimpAig {
  import opened HashChains
  import opened SimpSpec
  import opened SimpCounts
  import opened SimpJobs

  // ----- The stored nodes ------------------------------------------------------------------------

  /** Referenced nodes, and nodes whose last reference is just being dropped. */
  ghost function Stored(refs: seq<nat>, dying: set<nat>): set<nat> {
    set i: nat | Less(i, |refs|) && 1 <= i < |refs| && (refs[i] > 0 || i in dying)
  }

  predicate Less(i: nat, n: nat) {
    i < n
  }

  /** The hash table holds exactly the stored nodes, at most one per variable and slice and per
      unordered pair of children. */
  ghost predicate TableOk(nodes: seq<Node>, stored: set<nat>, hash: Node -> nat, table: seq<seq<nat>>, count: nat) {
    && Hashed(nodes, hash, table, stored)
    && OneEach(nodes, stored)
    && count == |stored| <= |table|
  }

  lemma StoreOne(nodes: seq<Node>, stored: set<nat>, hash: Node -> nat, table: seq<seq<nat>>, count: nat, n: Node)
    requires TableOk(nodes, stored, hash, table, count) && count < |table|
    requires forall i :: i in stored && i < |nodes| ==> !Alike(nodes[i], n) && !Alike(n, nodes[i])
    requires |nodes| !in stored
    ensures var s := SlotIn(hash, |table|, n);
      TableOk(nodes + [n], stored + {|nodes|}, hash, table[s := table[s] + [|nodes|]], count + 1)
  {
    HashedExtend(nodes, nodes + [n], hash, table, stored);
    PushHashed(nodes + [n], hash, table, stored, |nodes|, table[SlotIn(hash, |table|, n)] + [|nodes|]);
    assert forall i :: i in stored ==> i < |nodes|;
  }

  lemma UnlinkOne(nodes: seq<Node>, stored: set<nat>, hash: Node -> nat, table: seq<seq<nat>>, count: nat, s: nat, x: nat)
    requires TableOk(nodes, stored, hash, table, count) && s < |table| && x < |table[s]| && table[s][x] in stored
    ensures count > 0
    ensures TableOk(nodes, stored - {table[s][x]}, hash, table[s := table[s][..x] + table[s][x + 1..]], count - 1)
  {
    UnlinkHashed(nodes, hash, table, stored, s, x);
  }

  ghost predicate Unreferenced(refs: seq<nat>, dying: set<nat>) {
    0 !in dying && forall i :: i in dying ==> i < |refs| && refs[i] == 0
  }

  lemma StoredSame(refs: seq<nat>, refs': seq<nat>, dying: set<nat>, i: nat)
    requires i < |refs| == |refs'| && forall j :: 0 <= j < |refs| && j != i ==> refs'[j] == refs[j]
    requires (refs[i] > 0 <==> refs'[i] > 0) || i == 0
    requires Unreferenced(refs, dying)
    ensures Stored(refs', dying) == Stored(refs, dying) && Unreferenced(refs', dying)
  {}

  lemma StoredDying(refs: seq<nat>, dying: set<nat>, i: nat)
    requires 0 < i < |refs| && refs[i] > 0 && Unreferenced(refs, dying)
    ensures Stored(refs[i := 0], dying + {i}) == Stored(refs, dying) && Unreferenced(refs[i := 0], dying + {i})
    ensures i !in dying
  {}

  lemma StoredDead(refs: seq<nat>, dying: set<nat>, i: nat)
    requires 0 < i < |refs| && i in dying && Unreferenced(refs, dying)
    ensures Stored(refs, dying - {i}) == Stored(refs, dying) - {i} && Unreferenced(refs, dying - {i})
  {}

  ghost predicate Sound(nodes: seq<Node>, refs: seq<nat>, held: multiset<nat>, dying: set<nat>,
                        hash: Node -> nat, table: seq<seq<nat>>, count: nat) {
    && WellFormed(nodes)
    && Counted(nodes, refs, held)
    && TableOk(nodes, Stored(refs, dying), hash, table, count)
    && Unreferenced(refs, dying)
  }

  lemma NewSound(nodes: seq<Node>, refs: seq<nat>, held: multiset<nat>,
                 hash: Node -> nat, table: seq<seq<nat>>, count: nat, n: Node)
    requires Sound(nodes, refs, held, {}, hash, table, count) && count < |table| && NodeOk(n, |nodes|)
    requires n.And? ==> Usable(refs, n.c0) && Usable(refs, n.c1)
    requires forall i :: i in Stored(refs, {}) && i < |nodes| ==> !Alike(nodes[i], n) && !Alike(n, nodes[i])
    ensures var s := SlotIn(hash, |table|, n);
      Sound(nodes + [n], WithNew(refs, n), held + multiset{|nodes|}, {}, hash, table[s := table[s] + [|nodes|]], count + 1)
  {
    CountedNew(nodes, refs, held, n);
    StoredNew(refs, n);
    StoreOne(nodes, Stored(refs, {}), hash, table, count, n);
  }

  lemma StoredNew(refs: seq<nat>, n: Node)
    requires n.And? ==> n.c0.node < |refs| && n.c1.node < |refs|
    requires n.And? ==> refs[n.c0.node] > 0 && refs[n.c1.node] > 0
    requires |refs| > 0
    ensures Stored(WithNew(refs, n), {}) == Stored(refs, {}) + {|refs|}
    ensures |refs| !in Stored(refs, {})
  {}

  // ----- Entries of nodes ------------------------------------------------------------------------

  /** One reference field of the nodes (`cache` or `rhs`) with the list of nodes where it is set. */
  class Memo {
    var keys: seq<nat>
    var entry: map<nat, Ref>

    constructor ()
      ensures Empty()
    {
      keys, entry := [], map[];
    }

    ghost predicate Ok()
      reads this
    {
      PairsOk(keys, entry)
    }

    ghost predicate Empty()
      reads this
    {
      keys == [] && entry == map[]
    }

    /** One reference to each node of the list and one to its entry. */
    ghost function Refs(): multiset<nat>
      requires Ok()
      reads this
    {
      Pairs(keys, entry)
    }

    method Push(n: nat, r: Ref)
      requires Ok() && n !in entry
      modifies this
      ensures Ok() && keys == old(keys) + [n] && entry == old(entry)[n := r]
      ensures Refs() == old(Refs()) + multiset{n} + multiset{r.node}
    {
      PairsPush(keys, entry, n, r);
      keys, entry := keys + [n], entry[n := r];
    }

    method Pop() returns (n: nat, r: Ref)
      requires Ok() && |keys| > 0
      modifies this
      ensures Ok() && keys == old(keys)[1..] && old(Refs()) == Refs() + multiset{n} + multiset{r.node}
    {
      PairsPop(keys, entry);
      n := keys[0];
      r := entry[n];
      keys, entry := keys[1..], entry - {n};
    }
  }

  /** The index field of the nodes, with the list of indexed nodes. */
  class Indexing {
    var idx: map<nat, nat>
    var list: seq<nat>

    constructor ()
      ensures Empty()
    {
      idx, list := map[], [];
    }

    ghost predicate Empty()
      reads this
    {
      list == [] && idx == map[]
    }
  }

  /** The indices of the listed nodes are their positions, counted from one; children have smaller
      indices. */
  ghost predicate Indexed(nodes: seq<Node>, idx: map<nat, nat>, list: seq<nat>) {
    && (forall p :: 0 <= p < |list| ==> IndexAt(nodes, idx, list, p))
    && (forall i :: i in idx ==> 1 <= idx[i] <= |list| && list[idx[i] - 1] == i && Closed(nodes, idx, i))
  }

  ghost predicate IndexAt(nodes: seq<Node>, idx: map<nat, nat>, list: seq<nat>, p: nat)
    requires p < |list|
  {
    0 < list[p] < |nodes| && list[p] in idx && idx[list[p]] == p + 1
  }

  ghost predicate Closed(nodes: seq<Node>, idx: map<nat, nat>, i: nat)
    requires i in idx
  {
    i < |nodes| && (nodes[i].And? ==>
      && nodes[i].c0.node in idx && nodes[i].c1.node in idx
      && idx[nodes[i].c0.node] < idx[i] && idx[nodes[i].c1.node] < idx[i])
  }

  lemma IndexedPush(nodes: seq<Node>, idx: map<nat, nat>, list: seq<nat>, i: nat)
    requires Indexed(nodes, idx, list) && 0 < i < |nodes| && i !in idx
    requires nodes[i].And? ==> nodes[i].c0.node in idx && nodes[i].c1.node in idx
    ensures Indexed(nodes, idx[i := |list| + 1], list + [i])
  {
    var idx', list' := idx[i := |list| + 1], list + [i];
    forall p | 0 <= p < |list'| ensures IndexAt(nodes, idx', list', p) {
      if p < |list| { assert IndexAt(nodes, idx, list, p); }
    }
    forall k | k in idx' ensures 1 <= idx'[k] <= |list'| && list'[idx'[k] - 1] == k && Closed(nodes, idx', k) {
      if k != i { assert Closed(nodes, idx, k); }
    }
  }

  // ----- The manager ---------------------------------------------------------------------------------

  class Manager {
    const hash: Node -> nat
    var nodes: seq<Node>
    var refs: seq<nat>
    var table: seq<seq<nat>>
    var count: nat
    const cache: Memo
    const rhs: Memo
    const index: Indexing
    /** All references but those of parents: of clients, caches, assignments and indices. */
    ghost var held: multiset<nat>
    ghost var dying: set<nat>

    ghost predicate Valid()
      reads this
    {
      Sound(nodes, refs, held, dying, hash, table, count)
    }

    constructor (hash: Node -> nat)
      ensures this.hash == hash && Valid() && dying == {} && held == multiset{}
      ensures fresh(cache) && fresh(rhs) && cache != rhs && cache.Empty() && rhs.Empty()
      ensures fresh(index) && index.Empty() && nodes == [False]
    {
      this.hash := hash;
      nodes, refs, table, count := [False], [0], [], 0;
      index := new Indexing();
      cache := new Memo();
      rhs := new Memo();
      held, dying := multiset{}, {};
      new;
      assert CountAt(nodes, refs, held, 0);
      assert Stored(refs, dying) == {};
    }

    /** The library's number of current nodes. */
    function CurrentNodes(): (n: nat)
      reads this
      requires |refs| > 0
    {
      count + refs[0]
    }

    method Inc(r: Ref) returns (res: Ref)
      requires Valid() && Usable(refs, r)
      modifies `refs, `held
      ensures Valid() && res == r && held == old(held) + multiset{r.node} && refs == Bump(old(refs), r.node)
    {
      CountedInc(nodes, refs, held, r.node);
      StoredSame(refs, Bump(refs, r.node), dying, r.node);
      refs := Bump(refs, r.node);
      held := held + multiset{r.node};
      res := r;
    }

    /** Drops a reference; unreferenced nodes are deleted, children first. */
    method Dec(i: nat)
      requires Valid() && i in held
      modifies `refs, `held, `dying, `table, `count
      ensures Valid() && held == old(held) - multiset{i} && dying == old(dying)
      decreases i
    {
      CountedDec(nodes, refs, held, i);
      if refs[i] > 1 || i == 0 {
        StoredSame(refs, refs[i := refs[i] - 1], dying, i);
        refs := refs[i := refs[i] - 1];
        held := held - multiset{i};
      } else {
        Delete(i);
      }
    }

    method Delete(i: nat)
      requires Valid() && i in held && 0 < i < |refs| && refs[i] == 1
      modifies `refs, `held, `dying, `table, `count
      ensures Valid() && held == old(held) - multiset{i} && dying == old(dying)
      decreases i, 1
    {
      hide Sound, ChildRefs;
      DropLast(i);
      DropChildren(i);
      Unlink(i);
    }

    method DropChildren(i: nat)
      requires Valid() && i < |nodes| && ChildRefs(nodes[i]) <= held
      modifies `refs, `held, `dying, `table, `count
      ensures Valid() && held == old(held) - ChildRefs(nodes[i]) && dying == old(dying)
      decreases i, 0
    {
      if nodes[i].And? {
        assert NodeOk(nodes[i], i);
        var c0, c1 := nodes[i].c0.node, nodes[i].c1.node;
        assert c0 in ChildRefs(nodes[i]) && c1 in ChildRefs(nodes[i]);
        Dec(c0);
        Dec(c1);
      }
    }

    /** The count becomes zero; the references to the children are now to be dropped. */
    method DropLast(i: nat)
      requires Valid() && i in held && 0 < i < |refs| && refs[i] == 1
      modifies `refs, `held, `dying
      ensures Valid() && dying == old(dying) + {i} && i !in old(dying)
      ensures i < |nodes| && held == old(held) - multiset{i} + ChildRefs(nodes[i])
    {
      StoredDying(refs, dying, i);
      CountedLast(nodes, refs, held, i);
      held := held - multiset{i} + ChildRefs(nodes[i]);
      refs := refs[i := 0];
      dying := dying + {i};
    }

    /** Takes a dying node out of its chain.  The source looks it up a second time with swapped
        children if the first search finds another node, which never happens. */
    method Unlink(i: nat)
      requires Valid() && i in dying && i > 0
      modifies `table, `count, `dying
      ensures Valid() && dying == old(dying) - {i}
    {
      ghost var stored := Stored(refs, dying);
      assert i in stored;
      var found, s, x := Lookup(nodes, hash, table, stored, nodes[i]);
      assert Alike(nodes[table[s][x]], nodes[i]);
      UnlinkOne(nodes, stored, hash, table, count, s, x);
      StoredDead(refs, dying, i);
      table := table[s := table[s][..x] + table[s][x + 1..]];
      count := count - 1;
      dying := dying - {i};
    }

    method Enlarge()
      requires Valid()
      modifies `table
      ensures Valid() && |table| == if |old(table)| == 0 then 1 else 2 * |old(table)|
    {
      table := Rehash(nodes, hash, table, Stored(refs, dying));
    }

    /** A node no stored node is like gets an address, its children one more reference each. */
    method NewNode(n: Node) returns (r: Ref)
      requires Valid() && dying == {} && count < |table| && NodeOk(n, |nodes|)
      requires n.And? ==> Usable(refs, n.c0) && Usable(refs, n.c1)
      requires forall i :: i in Stored(refs, dying) && i < |nodes| ==> !Alike(nodes[i], n) && !Alike(n, nodes[i])
      modifies `nodes, `refs, `held, `table, `count
      ensures Valid() && nodes == old(nodes) + [n]
      ensures r == Ref(|old(nodes)|, false) && held == old(held) + multiset{r.node}
    {
      var k, s := |nodes|, SlotIn(hash, |table|, n);
      NewSound(nodes, refs, held, hash, table, count, n);
      table := table[s := table[s] + [k]];
      nodes := nodes + [n];
      refs := WithNew(refs, n);
      count := count + 1;
      held := held + multiset{k};
      r := Ref(k, false);
    }

    method Variable(name: nat, slice: int) returns (r: Ref)
      requires Valid() && dying == {}
      modifies `nodes, `refs, `held, `table, `count
      ensures Valid() && old(nodes) <= nodes && held == old(held) + multiset{r.node}
      ensures r.node < |nodes| && !r.neg && nodes[r.node] == Node.Variable(name, slice)
    {
      if |table| == count { Enlarge(); }
      var key := Node.Variable(name, slice);
      var found, s, x := Lookup(nodes, hash, table, Stored(refs, dying), key);
      if found {
        r := Inc(Ref(table[s][x], false));
      } else {
        r := NewNode(key);
      }
    }

    /** The AND of two references, with the source's simplifications and lookups in its order. */
    method AndOf(a: Ref, b: Ref) returns (r: Ref)
      requires Valid() && dying == {} && Usable(refs, a) && Usable(refs, b)
      modifies `nodes, `refs, `held, `table, `count
      ensures Valid() && old(nodes) <= nodes && held == old(held) + multiset{r.node}
      ensures AndResult(nodes, a, b, r)
    {
      if a == FALSE || b == FALSE || a == Neg(b) {
        r := Inc(FALSE);
      } else if a == TRUE || a == b {
        r := Inc(b);
      } else if b == TRUE {
        r := Inc(a);
      } else {
        if |table| == count { Enlarge(); }
        r := FindOrMake(a, b);
      }
    }

    method FindOrMake(a: Ref, b: Ref) returns (r: Ref)
      requires Valid() && dying == {} && count < |table| && Usable(refs, a) && Usable(refs, b)
      requires a.node != 0 && b.node != 0 && a.node != b.node
      modifies `nodes, `refs, `held, `table, `count
      ensures Valid() && old(nodes) <= nodes && held == old(held) + multiset{r.node}
      ensures r.node < |nodes| && !r.neg && Alike(nodes[r.node], And(a, b))
    {
      var found, s, x := Lookup(nodes, hash, table, Stored(refs, dying), And(b, a));
      if !found {
        found, s, x := Lookup(nodes, hash, table, Stored(refs, dying), And(a, b));
      }
      if found {
        r := Inc(Ref(table[s][x], false));
      } else {
        r := NewNode(And(a, b));
      }
    }

    method Or(a: Ref, b: Ref) returns (r: Ref)
      requires Valid() && dying == {} && Usable(refs, a) && Usable(refs, b)
      modifies `nodes, `refs, `held, `table, `count
      ensures Valid() && old(nodes) <= nodes && held == old(held) + multiset{r.node}
      ensures AndResult(nodes, Neg(a), Neg(b), Neg(r))
    {
      r := AndOf(Neg(a), Neg(b));
      r := Neg(r);
    }

    // ----- Shift and substitution -----------------------------------------------------------------

    ghost predicate Caching(job: Job, base: multiset<nat>)
      reads this, cache
    {
      && Valid() && dying == {} && JobOk(job)
      && cache.Ok() && held == base + cache.Refs()
      && CacheOk(nodes, job, cache.entry)
    }

    method Remember(n: nat, r: Ref, ghost job: Job, ghost base: multiset<nat>)
      requires Caching(job, base + multiset{r.node}) && n !in cache.entry
      requires 0 < n && Usable(refs, Ref(n, false)) && Usable(refs, r) && Image(nodes, job, Ref(n, false), r)
      modifies `refs, `held, cache
      ensures Caching(job, base + multiset{r.node}) && cache.entry == old(cache.entry)[n := r]
      ensures old(cache.Ok()) && old(cache.Refs()) <= cache.Refs()
    {
      CachePush(nodes, job, cache.entry, n, r);
      Rearranged(base + multiset{r.node}, cache.Refs(), n, r.node);
      IncBoth(n, r);
      cache.Push(n, r);
    }

    method IncBoth(n: nat, r: Ref)
      requires Valid() && 0 < n && Usable(refs, Ref(n, false)) && Usable(refs, r)
      modifies `refs, `held
      ensures Valid() && held == old(held) + multiset{n} + multiset{r.node}
    {
      KeepsUsable(refs, n, r);
      var lhs := Inc(Ref(n, false));
      var res := Inc(r);
    }

    /** The AND of two references that are dropped afterwards. */
    method Combine(l: Ref, r: Ref) returns (res: Ref)
      requires Valid() && dying == {} && multiset{l.node} + multiset{r.node} <= held
      modifies `nodes, `refs, `held, `table, `count, `dying
      ensures Valid() && dying == {} && old(nodes) <= nodes
      ensures held == old(held) - multiset{l.node} - multiset{r.node} + multiset{res.node}
      ensures AndResult(nodes, l, r, res)
    {
      assert l.node in multiset{l.node} + multiset{r.node} && r.node in multiset{l.node} + multiset{r.node};
      HeldUsable(nodes, refs, held, l);
      HeldUsable(nodes, refs, held, r);
      res := AndOf(l, r);
      DropTwo(l.node, r.node);
    }

    method DropTwo(i: nat, j: nat)
      requires Valid() && multiset{i} + multiset{j} <= held
      modifies `refs, `held, `table, `count, `dying
      ensures Valid() && dying == old(dying) && held == old(held) - multiset{i} - multiset{j}
    {
      assert (multiset{i} + multiset{j})[i] >= 1 && (multiset{i} + multiset{j})[j] >= 1;
      assert i == j ==> (multiset{i} + multiset{j})[i] == 2;
      Dec(i);
      Dec(j);
    }

    /** The image of an AND from the images of its children. */
    method CombineImages(i: nat, l: Ref, r: Ref, ghost job: Job, ghost base: multiset<nat>) returns (res: Ref)
      requires Caching(job, base + multiset{l.node} + multiset{r.node})
      requires 0 < i < |nodes| && nodes[i].And?
      requires Image(nodes, job, nodes[i].c0, l) && Image(nodes, job, nodes[i].c1, r)
      modifies `nodes, `refs, `held, `table, `count, `dying
      ensures Caching(job, base + multiset{res.node}) && old(nodes) <= nodes
      ensures Image(nodes, job, Ref(i, false), res)
    {
      hide TableOk, Counted, Image, CacheOk, Pairs, Levels, JobOk;
      ghost var nodes0, pairs := nodes, cache.Refs();
      res := Combine(l, r);
      assert held == base + multiset{res.node} + pairs;
      CombinedImage(nodes0, nodes, job, cache.entry, i, l, r, res);
    }

    method ShiftRec(r: Ref, delta: int, ghost job: Job, ghost base: multiset<nat>) returns (res: Ref)
      requires Caching(job, base) && job.Shifting? && job.delta == delta
      requires 0 < r.node < |nodes| && refs[r.node] > 0 && Support(nodes, r.node) <= job.domain
      modifies `nodes, `refs, `held, `table, `count, `dying, cache
      ensures Caching(job, base + multiset{res.node}) && old(nodes) <= nodes
      ensures old(cache.Ok()) && old(cache.Refs()) <= cache.Refs()
      ensures Image(nodes, job, r, res)
      ensures forall k :: k in cache.entry ==> k in old(cache.entry) || k <= r.node
      decreases r.node, 3
    {
      if r.node in cache.entry {
        res := Recall(r.node, job, base);
      } else {
        res := ShiftNode(r.node, delta, job, base);
      }
      if r.neg {
        ImageNeg(nodes, job, Ref(r.node, false), res);
        res := Neg(res);
      }
    }

    method Recall(i: nat, ghost job: Job, ghost base: multiset<nat>) returns (res: Ref)
      requires Caching(job, base) && i in cache.entry
      modifies `refs, `held
      ensures Caching(job, base + multiset{res.node}) && Image(nodes, job, Ref(i, false), res)
    {
      assert CachedAt(nodes, job, cache.entry, i);
      PairsHold(cache.keys, cache.entry, i);
      HeldUsable(nodes, refs, held, cache.entry[i]);
      res := Inc(cache.entry[i]);
      assert held == (base + multiset{res.node}) + cache.Refs();
    }

    method ShiftNode(i: nat, delta: int, ghost job: Job, ghost base: multiset<nat>) returns (res: Ref)
      requires Caching(job, base) && job.Shifting? && job.delta == delta
      requires 0 < i < |nodes| && refs[i] > 0 && Support(nodes, i) <= job.domain && i !in cache.entry
      modifies `nodes, `refs, `held, `table, `count, `dying, cache
      ensures Caching(job, base + multiset{res.node}) && old(nodes) <= nodes
      ensures old(cache.Ok()) && old(cache.Refs()) <= cache.Refs()
      ensures Image(nodes, job, Ref(i, false), res)
      ensures forall k :: k in cache.entry ==> k in old(cache.entry) || k <= i
      decreases i, 2
    {
      ghost var nodes0, refs0, held0 := nodes, refs, held;
      assert NodeOk(nodes[i], i);
      if nodes[i].Variable? {
        res := ShiftVariable(i, delta, job, base);
      } else {
        res := ShiftAnd(i, delta, job, base);
      }
      Growing(base, old(cache.Refs()), cache.Refs(), res.node);
      StaysReferenced(nodes0, refs0, held0, nodes, refs, held, i);
      HeldUsable(nodes, refs, held, res);
      Remember(i, res, job, base);
    }

    method ShiftVariable(i: nat, delta: int, ghost job: Job, ghost base: multiset<nat>) returns (res: Ref)
      requires Caching(job, base) && job.Shifting? && job.delta == delta
      requires 0 < i < |nodes| && nodes[i].Variable? && Support(nodes, i) <= job.domain
      modifies `nodes, `refs, `held, `table, `count
      ensures Caching(job, base + multiset{res.node}) && old(nodes) <= nodes
      ensures Image(nodes, job, Ref(i, false), res)
    {
      ghost var nodes0, pairs := nodes, cache.Refs();
      assert Timed(nodes[i].name, nodes[i].slice) in Support(nodes, i);
      res := Variable(nodes[i].name, nodes[i].slice + delta);
      assert held == base + multiset{res.node} + pairs;
      CacheExtend(nodes0, nodes, job, cache.entry);
      ImageShifted(nodes, job, i, res);
    }

    method ShiftAnd(i: nat, delta: int, ghost job: Job, ghost base: multiset<nat>) returns (res: Ref)
      requires Caching(job, base) && job.Shifting? && job.delta == delta
      requires 0 < i < |nodes| && nodes[i].And? && refs[i] > 0 && Support(nodes, i) <= job.domain
      modifies `nodes, `refs, `held, `table, `count, `dying, cache
      ensures Caching(job, base + multiset{res.node}) && old(nodes) <= nodes
      ensures old(cache.Ok()) && old(cache.Refs()) <= cache.Refs()
      ensures Image(nodes, job, Ref(i, false), res)
      ensures forall k :: k in cache.entry ==> k in old(cache.entry) || k < i
      decreases i, 1
    {
      var l, r := ShiftChildren(i, delta, job, base);
      res := CombineImages(i, l, r, job, base);
    }

    method ShiftChildren(i: nat, delta: int, ghost job: Job, ghost base: multiset<nat>) returns (l: Ref, r: Ref)
      requires Caching(job, base) && job.Shifting? && job.delta == delta
      requires 0 < i < |nodes| && nodes[i].And? && refs[i] > 0 && Support(nodes, i) <= job.domain
      modifies `nodes, `refs, `held, `table, `count, `dying, cache
      ensures Caching(job, base + multiset{l.node} + multiset{r.node}) && old(nodes) <= nodes
      ensures old(cache.Ok()) && old(cache.Refs()) <= cache.Refs()
      ensures i < |nodes| && nodes[i].And? && Image(nodes, job, nodes[i].c0, l) && Image(nodes, job, nodes[i].c1, r)
      ensures forall k :: k in cache.entry ==> k in old(cache.entry) || k < i
      decreases i, 0
    {
      var c0, c1 := nodes[i].c0, nodes[i].c1;
      ChildrenReferenced(nodes, refs, held, i);
      ghost var nodes0, refs0, held0, pairs0 := nodes, refs, held, cache.Refs();
      l := ShiftRec(c0, delta, job, base);
      Growing(base, pairs0, cache.Refs(), l.node);
      StaysReferenced(nodes0, refs0, held0, nodes, refs, held, c1.node);
      SupportExtend(nodes0, nodes, c1.node);
      ghost var nodes1 := nodes;
      r := ShiftRec(c1, delta, job, base + multiset{l.node});
      ImageExtend(nodes1, nodes, job, c0, l);
    }

    /** Drops all entries of the cache or of the assignment. */
    method Reset(memo: Memo, ghost base: multiset<nat>)
      requires Valid() && dying == {} && memo.Ok() && held == base + memo.Refs()
      modifies `refs, `held, `table, `count, `dying, memo
      ensures Valid() && dying == {} && memo.Empty() && held == base
    {
      while |memo.keys| > 0
        invariant Valid() && dying == {} && memo.Ok() && held == base + memo.Refs()
        decreases |memo.keys|
      {
        var n, r := memo.Pop();
        Popped(base, memo.Refs(), held, n, r.node);
        DropTwo(r.node, n);
      }
      assert memo.entry == map[];
      assert held == base;
    }

    /** Replaces every variable by its copy `delta` slices later. */
    method Shift(r: Ref, delta: int) returns (res: Ref)
      requires Valid() && dying == {} && cache.Empty() && Usable(refs, r) && r.node < |nodes|
      modifies `nodes, `refs, `held, `table, `count, `dying, cache
      ensures Valid() && dying == {} && cache.Empty() && old(nodes) <= nodes
      ensures held == old(held) + multiset{res.node}
      ensures WellFormed(old(nodes)) && Image(nodes, Shifting(Support(old(nodes), r.node), delta), r, res)
    {
      ghost var job, base := Shifting(Support(nodes, r.node), delta), held;
      if r.node == 0 {
        ImageConstant(nodes, job, r);
        res := Inc(r);
        return;
      }
      assert held == base + cache.Refs();
      res := ShiftRec(r, delta, job, base);
      Reset(cache, base + multiset{res.node});
    }

    /** The right hand side of a variable for the next substitution. */
    method Assign(lhs: Ref, r: Ref)
      requires Valid() && dying == {} && rhs.Ok() && Usable(refs, lhs) && Usable(refs, r)
      requires !lhs.neg && nodes[lhs.node].Variable? && lhs.node !in rhs.entry
      modifies `refs, `held, rhs
      ensures Valid() && rhs.Ok() && rhs.entry == old(rhs.entry)[lhs.node := r]
      ensures held == old(held) + multiset{lhs.node} + multiset{r.node}
      ensures old(rhs.Ok()) && rhs.Refs() == old(rhs.Refs()) + multiset{lhs.node} + multiset{r.node}
    {
      IncBoth(lhs.node, r);
      rhs.Push(lhs.node, r);
    }

    ghost predicate Assigned(job: Job, level: seq<nat>, base: multiset<nat>)
      reads this, rhs
    {
      && job.Substituting? && JobOk(job) && Levels(job, level) && job.graph <= nodes
      && rhs.Ok() && rhs.entry == job.rhs && rhs.Refs() <= base
    }

    method SubstRec(r: Ref, ghost job: Job, ghost level: seq<nat>, ghost base: multiset<nat>) returns (res: Ref)
      requires Caching(job, base) && cache != rhs && Assigned(job, level, base)
      requires 0 < r.node < |job.graph| && refs[r.node] > 0 && Support(job.graph, r.node) <= job.domain
      modifies `nodes, `refs, `held, `table, `count, `dying, cache
      ensures Caching(job, base + multiset{res.node}) && old(nodes) <= nodes
      ensures old(cache.Ok()) && old(cache.Refs()) <= cache.Refs()
      ensures Image(nodes, job, r, res)
      ensures forall k :: k in cache.entry ==> k in old(cache.entry) || k == r.node || Under(level, k, r.node)
      decreases level[r.node], r.node, 4
    {
      if r.node in cache.entry {
        res := Recall(r.node, job, base);
      } else {
        res := SubstNode(r.node, job, level, base);
      }
      if r.neg {
        ImageNeg(nodes, job, Ref(r.node, false), res);
        res := Neg(res);
      }
    }

    method SubstNode(i: nat, ghost job: Job, ghost level: seq<nat>, ghost base: multiset<nat>) returns (res: Ref)
      requires Caching(job, base) && cache != rhs && Assigned(job, level, base) && i !in cache.entry
      requires 0 < i < |job.graph| && refs[i] > 0 && Support(job.graph, i) <= job.domain
      modifies `nodes, `refs, `held, `table, `count, `dying, cache
      ensures Caching(job, base + multiset{res.node}) && old(nodes) <= nodes
      ensures old(cache.Ok()) && old(cache.Refs()) <= cache.Refs()
      ensures Image(nodes, job, Ref(i, false), res)
      ensures forall k :: k in cache.entry ==> k in old(cache.entry) || k == i || Under(level, k, i)
      decreases level[i], i, 3
    {
      ghost var nodes0, refs0, held0 := nodes, refs, held;
      assert NodeOk(nodes[i], i);
      if nodes[i].Variable? {
        res := SubstVariable(i, job, level, base);
      } else {
        res := SubstAnd(i, job, level, base);
      }
      Growing(base, old(cache.Refs()), cache.Refs(), res.node);
      StaysReferenced(nodes0, refs0, held0, nodes, refs, held, i);
      HeldUsable(nodes, refs, held, res);
      Remember(i, res, job, base);
    }

    method SubstVariable(i: nat, ghost job: Job, ghost level: seq<nat>, ghost base: multiset<nat>) returns (res: Ref)
      requires Caching(job, base) && cache != rhs && Assigned(job, level, base)
      requires 0 < i < |job.graph| && refs[i] > 0 && nodes[i].Variable? && Support(job.graph, i) <= job.domain
      modifies `nodes, `refs, `held, `table, `count, `dying, cache
      ensures Caching(job, base + multiset{res.node}) && old(nodes) <= nodes
      ensures old(cache.Ok()) && old(cache.Refs()) <= cache.Refs()
      ensures Image(nodes, job, Ref(i, false), res)
      ensures forall k :: k in cache.entry ==> k in old(cache.entry) || Under(level, k, i)
      decreases level[i], i, 1
    {
      if i in rhs.entry {
        res := SubstRight(i, job, level, base);
        ImageAssigned(nodes, job, i, res);
      } else {
        assert Timed(nodes[i].name, nodes[i].slice) in Support(job.graph, i);
        NotReplaced(nodes, refs, held, rhs.keys, rhs.entry, base, job, i);
        ImageFree(nodes, job, i);
        res := IncCached(Ref(i, false), job, base);
      }
    }

    method SubstRight(i: nat, ghost job: Job, ghost level: seq<nat>, ghost base: multiset<nat>) returns (res: Ref)
      requires Caching(job, base) && cache != rhs && Assigned(job, level, base) && i in rhs.entry && i < |job.graph|
      modifies `nodes, `refs, `held, `table, `count, `dying, cache
      ensures Caching(job, base + multiset{res.node}) && old(nodes) <= nodes
      ensures old(cache.Ok()) && old(cache.Refs()) <= cache.Refs()
      ensures i in job.rhs && Image(nodes, job, job.rhs[i], res)
      ensures forall k :: k in cache.entry ==> k in old(cache.entry) || Under(level, k, i)
      decreases level[i], i, 0
    {
      hide TableOk, Counted, WellFormed, CacheOk, Image, Pairs, Levels, JobOk;
      var right := rhs.entry[i];
      RightBelow(job, level, i);
      PairsHold(rhs.keys, rhs.entry, i);
      HeldUsable(nodes, refs, held, right);
      if right.node == 0 {
        ImageConstant(nodes, job, right);
        res := IncCached(right, job, base);
      } else {
        res := SubstRec(right, job, level, base);
      }
    }

    method IncCached(r: Ref, ghost job: Job, ghost base: multiset<nat>) returns (res: Ref)
      requires Caching(job, base) && Usable(refs, r)
      modifies `refs, `held
      ensures Caching(job, base + multiset{r.node}) && res == r
    {
      res := Inc(r);
      assert held == (base + multiset{r.node}) + cache.Refs();
    }

    method SubstAnd(i: nat, ghost job: Job, ghost level: seq<nat>, ghost base: multiset<nat>) returns (res: Ref)
      requires Caching(job, base) && cache != rhs && Assigned(job, level, base)
      requires 0 < i < |job.graph| && refs[i] > 0 && nodes[i].And? && Support(job.graph, i) <= job.domain
      modifies `nodes, `refs, `held, `table, `count, `dying, cache
      ensures Caching(job, base + multiset{res.node}) && old(nodes) <= nodes
      ensures old(cache.Ok()) && old(cache.Refs()) <= cache.Refs()
      ensures Image(nodes, job, Ref(i, false), res)
      ensures forall k :: k in cache.entry ==> k in old(cache.entry) || Under(level, k, i)
      decreases level[i], i, 2
    {
      var l, r := SubstChildren(i, job, level, base);
      res := CombineImages(i, l, r, job, base);
    }

    method SubstChildren(i: nat, ghost job: Job, ghost level: seq<nat>, ghost base: multiset<nat>) returns (l: Ref, r: Ref)
      requires Caching(job, base) && cache != rhs && Assigned(job, level, base)
      requires 0 < i < |job.graph| && refs[i] > 0 && nodes[i].And? && Support(job.graph, i) <= job.domain
      modifies `nodes, `refs, `held, `table, `count, `dying, cache
      ensures Caching(job, base + multiset{l.node} + multiset{r.node}) && old(nodes) <= nodes
      ensures old(cache.Ok()) && old(cache.Refs()) <= cache.Refs()
      ensures i < |nodes| && nodes[i].And? && Image(nodes, job, nodes[i].c0, l) && Image(nodes, job, nodes[i].c1, r)
      ensures forall k :: k in cache.entry ==> k in old(cache.entry) || Under(level, k, i)
      decreases level[i], i, 1
    {
      l := SubstFirst(i, job, level, base);
      r := SubstSecond(i, l, job, level, base);
    }

    method SubstFirst(i: nat, ghost job: Job, ghost level: seq<nat>, ghost base: multiset<nat>) returns (l: Ref)
      requires Caching(job, base) && cache != rhs && Assigned(job, level, base)
      requires 0 < i < |job.graph| && refs[i] > 0 && nodes[i].And? && Support(job.graph, i) <= job.domain
      modifies `nodes, `refs, `held, `table, `count, `dying, cache
      ensures Caching(job, base + multiset{l.node}) && old(nodes) <= nodes
      ensures old(cache.Ok()) && old(cache.Refs()) <= cache.Refs()
      ensures i < |nodes| && nodes[i].And? && NodeOk(nodes[i], i)
      ensures Image(nodes, job, nodes[i].c0, l) && refs[nodes[i].c1.node] > 0
      ensures forall k :: k in cache.entry ==> k in old(cache.entry) || Under(level, k, i)
      decreases level[i], i, 0
    {
      hide TableOk, Counted, WellFormed, CacheOk, Image, Pairs, Levels, JobOk;
      ChildrenReferenced(nodes, refs, held, i);
      ChildrenBelow(nodes, job, level, i);
      ghost var nodes0, refs0, held0 := nodes, refs, held;
      l := SubstRec(nodes[i].c0, job, level, base);
      Growing(base, old(cache.Refs()), cache.Refs(), l.node);
      StaysReferenced(nodes0, refs0, held0, nodes, refs, held, nodes[i].c1.node);
    }

    method SubstSecond(i: nat, l: Ref, ghost job: Job, ghost level: seq<nat>, ghost base: multiset<nat>) returns (r: Ref)
      requires Caching(job, base + multiset{l.node}) && cache != rhs && Assigned(job, level, base)
      requires 0 < i < |job.graph| && nodes[i].And? && NodeOk(nodes[i], i) && Support(job.graph, i) <= job.domain
      requires Image(nodes, job, nodes[i].c0, l) && refs[nodes[i].c1.node] > 0
      modifies `nodes, `refs, `held, `table, `count, `dying, cache
      ensures Caching(job, base + multiset{l.node} + multiset{r.node}) && old(nodes) <= nodes
      ensures old(cache.Ok()) && old(cache.Refs()) <= cache.Refs()
      ensures i < |nodes| && nodes[i].And? && Image(nodes, job, nodes[i].c0, l) && Image(nodes, job, nodes[i].c1, r)
      ensures forall k :: k in cache.entry ==> k in old(cache.entry) || Under(level, k, i)
      decreases level[i], i, 0
    {
      hide TableOk, Counted, WellFormed, CacheOk, Image, Pairs, Levels, JobOk;
      ChildrenBelow(nodes, job, level, i);
      ghost var nodes1 := nodes;
      r := SubstRec(nodes[i].c1, job, level, base + multiset{l.node});
      ImageExtend(nodes1, nodes, job, nodes[i].c0, l);
    }

    /** Replaces assigned variables by their right hand sides, recursively; the assignment is used up. */
    method Substitute(r: Ref, ghost domain: set<Timed>, ghost level: seq<nat>) returns (res: Ref)
      requires Valid() && dying == {} && cache.Empty() && cache != rhs && rhs.Ok() && rhs.Refs() <= held
      requires Usable(refs, r) && r.node < |nodes|
      requires var job := Substituting(domain, nodes, rhs.entry);
        JobOk(job) && Levels(job, level) && Support(nodes, r.node) <= domain
      modifies `nodes, `refs, `held, `table, `count, `dying, cache, rhs
      ensures Valid() && dying == {} && cache.Empty() && rhs.Empty() && old(nodes) <= nodes
      ensures held == old(held) - old(rhs.Refs()) + multiset{res.node}
      ensures WellFormed(nodes) && JobOk(Substituting(domain, old(nodes), old(rhs.entry)))
      ensures Image(nodes, Substituting(domain, old(nodes), old(rhs.entry)), r, res)
    {
      ghost var job, base := Substituting(domain, nodes, rhs.entry), held;
      if r.node == 0 {
        ImageConstant(nodes, job, r);
        res := Inc(r);
      } else {
        assert held == base + cache.Refs();
        res := SubstRec(r, job, level, base);
        Reset(cache, base + multiset{res.node});
      }
      Without(base, rhs.Refs(), res.node);
      Reset(rhs, base - rhs.Refs() + multiset{res.node});
    }

    // ----- Indices ------------------------------------------------------------------------------------

    ghost predicate Indexing(base: multiset<nat>)
      reads this, index
    {
      Valid() && dying == {} && Indexed(nodes, index.idx, index.list) && held == base + multiset(index.list)
    }

    method PushIndex(i: nat, ghost base: multiset<nat>)
      requires Indexing(base) && 0 < i < |nodes| && refs[i] > 0 && i !in index.idx
      requires nodes[i].And? ==> nodes[i].c0.node in index.idx && nodes[i].c1.node in index.idx
      modifies `refs, `held, index
      ensures Indexing(base) && index.idx == old(index.idx)[i := |index.list|]
      ensures NotLess(old(refs), refs)
    {
      IndexedPush(nodes, index.idx, index.list, i);
      assert multiset(index.list + [i]) == multiset(index.list) + multiset{i};
      var r := Inc(Ref(i, false));
      index.list := index.list + [i];
      index.idx := index.idx[i := |index.list|];
    }

    /** Indices in post-order, so that children have smaller ones. */
    method AssignIndicesRec(i: nat, ghost base: multiset<nat>)
      requires Indexing(base) && 0 < i < |nodes| && refs[i] > 0
      modifies `refs, `held, index
      ensures Indexing(base) && i in index.idx
      ensures NotLess(old(refs), refs) && Added(old(index.idx), index.idx, i)
      decreases i
    {
      if i !in index.idx {
        assert NodeOk(nodes[i], i);
        if !nodes[i].Variable? {
          IndexChildren(i, base);
        }
        PushIndex(i, base);
      }
    }

    method IndexChildren(i: nat, ghost base: multiset<nat>)
      requires Indexing(base) && 0 < i < |nodes| && refs[i] > 0 && nodes[i].And? && i !in index.idx
      modifies `refs, `held, index
      ensures Indexing(base) && i !in index.idx
      ensures nodes[i].c0.node in index.idx && nodes[i].c1.node in index.idx
      ensures NotLess(old(refs), refs) && Added(old(index.idx), index.idx, i)
      decreases i, 0
    {
      ChildrenReferenced(nodes, refs, held, i);
      AssignIndicesRec(nodes[i].c0.node, base);
      AssignIndicesRec(nodes[i].c1.node, base);
    }

    method ResetIndices(ghost base: multiset<nat>)
      requires Indexing(base)
      modifies `refs, `held, `table, `count, `dying, index
      ensures Valid() && dying == {} && index.Empty() && held == base
    {
      while |index.list| > 0
        invariant Valid() && dying == {} && held == base + multiset(index.list)
        decreases |index.list|
      {
        var i := index.list[0];
        FirstOf(index.list, base);
        index.list := index.list[1..];
        Dec(i);
      }
      index.idx := map[];
    }
  }

  lemma FirstOf(list: seq<nat>, base: multiset<nat>)
    requires |list| > 0
    ensures base + multiset(list) - multiset{list[0]} == base + multiset(list[1..])
  {
    assert list == [list[0]] + list[1..];
  }

  lemma HeldUsable(nodes: seq<Node>, refs: seq<nat>, held: multiset<nat>, r: Ref)
    requires Counted(nodes, refs, held) && r.node in held
    ensures Usable(refs, r)
  {
    assert CountAt(nodes, refs, held, r.node);
  }

  lemma Popped(base: multiset<nat>, pairs: multiset<nat>, held: multiset<nat>, n: nat, r: nat)
    requires held == base + (pairs + multiset{n} + multiset{r})
    ensures multiset{r} + multiset{n} <= held && held - multiset{r} - multiset{n} == base + pairs
  {}

  lemma Without(base: multiset<nat>, refs: multiset<nat>, i: nat)
    requires refs <= base
    ensures base + multiset{i} == (base - refs + multiset{i}) + refs
  {}

  /** A referenced variable without an entry has no other node with an entry either. */
  lemma NotReplaced(nodes: seq<Node>, refs: seq<nat>, held: multiset<nat>, keys: seq<nat>, entry: map<nat, Ref>,
                    base: multiset<nat>, job: Job, i: nat)
    requires Counted(nodes, refs, held) && base <= held && OneEach(nodes, Stored(refs, {}))
    requires PairsOk(keys, entry) && Pairs(keys, entry) <= base
    requires job.Substituting? && JobOk(job) && job.graph <= nodes && job.rhs == entry
    requires 0 < i < |nodes| && refs[i] > 0 && nodes[i].Variable? && i !in entry && nodes[0] == False
    ensures !Replaced(job, nodes[i].name, nodes[i].slice)
  {
    forall j | j in entry && j < |job.graph| ensures nodes[j] != nodes[i] {
      PairsHold(keys, entry, j);
      HeldUsable(nodes, refs, held, Ref(j, false));
      assert RhsOk(job, j);
      assert j in Stored(refs, {}) && i in Stored(refs, {});
      assert nodes[j] == nodes[i] ==> Alike(nodes[j], nodes[i]);
    }
  }

  /** `k` lies below `i`: at a lower level, or at the same level with a smaller address. */
  predicate Under(level: seq<nat>, k: nat, i: nat) {
    k < |level| && i < |level| && (level[k] < level[i] || (level[k] == level[i] && k < i))
  }

  ghost predicate NotLess(refs: seq<nat>, refs': seq<nat>) {
    |refs'| == |refs| && forall k :: 0 <= k < |refs| ==> refs'[k] >= refs[k]
  }

  /** Only nodes up to `i` were added. */
  ghost predicate Added(idx: map<nat, nat>, idx': map<nat, nat>, i: nat) {
    && (forall k :: k in idx ==> k in idx' && idx'[k] == idx[k])
    && (forall k :: k in idx' ==> k in idx || k <= i)
  }

  lemma RightBelow(job: Job, level: seq<nat>, i: nat)
    requires job.Substituting? && JobOk(job) && Levels(job, level) && i in job.rhs
    ensures |level| == |job.graph| && RhsOk(job, i)
    ensures job.rhs[i].node != 0 ==> level[job.rhs[i].node] < level[i]
  {
    assert RhsOk(job, i);
  }

  lemma ChildrenBelow(nodes: seq<Node>, job: Job, level: seq<nat>, i: nat)
    requires job.Substituting? && JobOk(job) && Levels(job, level) && i < |job.graph| && job.graph <= nodes && nodes[i].And?
    requires Support(job.graph, i) <= job.domain
    ensures |level| == |job.graph| && NodeOk(nodes[i], i)
    ensures level[nodes[i].c0.node] <= level[i] && level[nodes[i].c1.node] <= level[i]
    ensures Support(job.graph, nodes[i].c0.node) <= job.domain && Support(job.graph, nodes[i].c1.node) <= job.domain
  {
    assert job.graph[i] == nodes[i] && LevelAt(job, level, i);
  }

  lemma Growing(base: multiset<nat>, pairs: multiset<nat>, pairs': multiset<nat>, i: nat)
    requires pairs <= pairs'
    ensures base + pairs <= base + multiset{i} + pairs'
  {}

  lemma CombinedImage(nodes: seq<Node>, nodes': seq<Node>, job: Job, cache: map<nat, Ref>, i: nat, l: Ref, r: Ref, res: Ref)
    requires WellFormed(nodes) && WellFormed(nodes') && nodes <= nodes' && JobOk(job) && CacheOk(nodes, job, cache)
    requires 0 < i < |nodes| && nodes[i].And?
    requires Image(nodes, job, nodes[i].c0, l) && Image(nodes, job, nodes[i].c1, r) && AndResult(nodes', l, r, res)
    ensures CacheOk(nodes', job, cache) && Image(nodes', job, Ref(i, false), res)
  {
    CacheExtend(nodes, nodes', job, cache);
    ImageExtend(nodes, nodes', job, nodes[i].c0, l);
    ImageExtend(nodes, nodes', job, nodes[i].c1, r);
    AndSound(nodes', l, r, res);
    assert NodeOk(nodes'[i], i);
    ImageAnd(nodes', job, i, l, r, res);
  }

  lemma Rearranged(base: multiset<nat>, pairs: multiset<nat>, n: nat, r: nat)
    ensures (base + pairs) + multiset{n} + multiset{r} == base + (pairs + multiset{n} + multiset{r})
  {}

  lemma CachePush(nodes: seq<Node>, job: Job, cache: map<nat, Ref>, n: nat, r: Ref)
    requires WellFormed(nodes) && JobOk(job) && CacheOk(nodes, job, cache) && Image(nodes, job, Ref(n, false), r)
    ensures CacheOk(nodes, job, cache[n := r])
  {
    var cache' := cache[n := r];
    forall k | k in cache' ensures CachedAt(nodes, job, cache', k) {
      if k != n { assert CachedAt(nodes, job, cache, k); }
    }
  }

  lemma KeepsUsable(refs: seq<nat>, n: nat, r: Ref)
    requires n < |refs| && Usable(refs, r)
    ensures Usable(Bump(refs, n), r)
  {}

  /** `r` is a constant, an operand, or the node of the two operands in either order. */
  ghost predicate AndResult(nodes: seq<Node>, a: Ref, b: Ref, r: Ref) {
    && r.node < |nodes|
    && (if a == FALSE || b == FALSE || a == Neg(b) then r == FALSE
        else if a == TRUE || a == b then r == b
        else if b == TRUE then r == a
        else !r.neg && Alike(nodes[r.node], And(a, b)))
  }

  /** The AND has the value of the conjunction and no other variables. */
  lemma AndSound(nodes: seq<Node>, a: Ref, b: Ref, r: Ref)
    requires WellFormed(nodes) && a.node < |nodes| && b.node < |nodes| && AndResult(nodes, a, b, r)
    ensures forall env :: Val(nodes, r, env) <==> Val(nodes, a, env) && Val(nodes, b, env)
    ensures Support(nodes, r.node) <= Support(nodes, a.node) + Support(nodes, b.node)
  {
    assert forall env :: Val(nodes, FALSE, env) == false;
    assert NodeOk(nodes[r.node], r.node) || r.node == 0;
  }
}
