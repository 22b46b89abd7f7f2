/** Hash tables with collision chains, as `smvtoaig` and `simpaig` use them.  Entries are indices of
    a list of keys; `hash` is any hash function. */
module HashChains {

  function SlotIn<T>(hash: T -> nat, size: nat, key: T): nat
    requires size > 0
  {
    hash(key) % size
  }

  /** The chains hold exactly the entries in `held`, each once and in the slot of its key. */
  ghost predicate Hashed<T>(keys: seq<T>, hash: T -> nat, table: seq<seq<nat>>, held: set<nat>) {
    && (forall h, x :: 0 <= h < |table| && 0 <= x < |table[h]| ==> HashedAt(keys, hash, table, held, h, table[h][x]))
    && (forall h, x, y :: 0 <= h < |table| && 0 <= x < y < |table[h]| ==> table[h][x] != table[h][y])
    && (forall p :: p in held ==> p < |keys| && |table| > 0 && p in table[SlotIn(hash, |table|, keys[p])])
  }

  ghost predicate HashedAt<T>(keys: seq<T>, hash: T -> nat, table: seq<seq<nat>>, held: set<nat>, h: nat, p: nat)
    requires |table| > 0
  {
    p < |keys| && p in held && SlotIn(hash, |table|, keys[p]) == h
  }

  /** Pushing an entry that is not held yet in front of, or behind, the chain of its slot. */
  lemma PushHashed<T>(keys: seq<T>, hash: T -> nat, table: seq<seq<nat>>, held: set<nat>, p: nat, chain: seq<nat>)
    requires Hashed(keys, hash, table, held) && |table| > 0 && p < |keys| && p !in held
    requires chain == [p] + table[SlotIn(hash, |table|, keys[p])] || chain == table[SlotIn(hash, |table|, keys[p])] + [p]
    ensures Hashed(keys, hash, table[SlotIn(hash, |table|, keys[p]) := chain], held + {p})
  {
    var s := SlotIn(hash, |table|, keys[p]);
    var t', held' := table[s := chain], held + {p};
    forall h, x | 0 <= h < |t'| && 0 <= x < |t'[h]| ensures HashedAt(keys, hash, t', held', h, t'[h][x]) {
      if h != s { assert HashedAt(keys, hash, table, held, h, table[h][x]); }
      else if t'[h][x] != p {
        var y :| 0 <= y < |table[s]| && table[s][y] == chain[x];
        assert HashedAt(keys, hash, table, held, s, table[s][y]);
      }
    }
    ChainDistinct(keys, hash, table, held, p, chain);
    forall q | q in held' ensures q < |keys| && q in t'[SlotIn(hash, |t'|, keys[q])] {
      if q == p {
        assert p in chain;
      } else {
        var u := SlotIn(hash, |table|, keys[q]);
        var y :| 0 <= y < |table[u]| && table[u][y] == q;
        if u == s {
          assert chain[y] == q || chain[y + 1] == q;
        }
      }
    }
  }

  lemma ChainDistinct<T>(keys: seq<T>, hash: T -> nat, table: seq<seq<nat>>, held: set<nat>, p: nat, chain: seq<nat>)
    requires Hashed(keys, hash, table, held) && |table| > 0 && p < |keys| && p !in held
    requires chain == [p] + table[SlotIn(hash, |table|, keys[p])] || chain == table[SlotIn(hash, |table|, keys[p])] + [p]
    ensures forall x, y :: 0 <= x < y < |chain| ==> chain[x] != chain[y]
  {
    var s := SlotIn(hash, |table|, keys[p]);
    forall x | 0 <= x < |table[s]| ensures table[s][x] != p {
      assert HashedAt(keys, hash, table, held, s, table[s][x]);
    }
  }

  /** Unlinking the entry at position `x` of the chain in slot `s`. */
  lemma UnlinkHashed<T>(keys: seq<T>, hash: T -> nat, table: seq<seq<nat>>, held: set<nat>, s: nat, x: nat)
    requires Hashed(keys, hash, table, held) && s < |table| && x < |table[s]|
    ensures Hashed(keys, hash, table[s := table[s][..x] + table[s][x + 1..]], held - {table[s][x]})
  {
    var p := table[s][x];
    var chain, held' := table[s][..x] + table[s][x + 1..], held - {p};
    var t' := table[s := chain];
    assert HashedAt(keys, hash, table, held, s, p);
    forall h, y | 0 <= h < |t'| && 0 <= y < |t'[h]| ensures HashedAt(keys, hash, t', held', h, t'[h][y]) {
      var z := if h == s && y >= x then y + 1 else y;
      assert t'[h][y] == table[h][z];
      assert HashedAt(keys, hash, table, held, h, table[h][z]);
    }
    forall q | q in held' ensures q < |keys| && q in t'[SlotIn(hash, |t'|, keys[q])] {
      var u := SlotIn(hash, |table|, keys[q]);
      var y :| 0 <= y < |table[u]| && table[u][y] == q;
      if u == s {
        assert chain[if y < x then y else y - 1] == q;
      }
    }
  }

  /** New keys leave the table as it is. */
  lemma HashedExtend<T>(keys: seq<T>, keys': seq<T>, hash: T -> nat, table: seq<seq<nat>>, held: set<nat>)
    requires Hashed(keys, hash, table, held) && keys <= keys'
    ensures Hashed(keys', hash, table, held)
  {
    forall h, x | 0 <= h < |table| && 0 <= x < |table[h]| ensures HashedAt(keys', hash, table, held, h, table[h][x]) {
      assert HashedAt(keys, hash, table, held, h, table[h][x]);
    }
  }

  /** Walks the chain of a key. */
  method Lookup<T(==)>(keys: seq<T>, hash: T -> nat, table: seq<seq<nat>>, ghost held: set<nat>, key: T)
    returns (found: bool, s: nat, x: nat)
    requires Hashed(keys, hash, table, held) && |table| > 0
    ensures s < |table| && s == SlotIn(hash, |table|, key)
    ensures found ==> x < |table[s]| && table[s][x] in held && table[s][x] < |keys| && keys[table[s][x]] == key
    ensures !found ==> forall p :: p in held ==> p < |keys| && keys[p] != key
  {
    s := SlotIn(hash, |table|, key);
    var chain := table[s];
    assert forall y :: 0 <= y < |chain| ==> HashedAt(keys, hash, table, held, s, chain[y]);
    for i := 0 to |chain|
      invariant forall y :: 0 <= y < i ==> keys[chain[y]] != key
    {
      if keys[chain[i]] == key {
        return true, s, i;
      }
    }
    found, x := false, 0;
    assert forall p :: p in held && keys[p] == key ==> p in chain;
  }

  // ----- Rehashing ---------------------------------------------------------------------------

  /** The entries already moved when rehashing has reached position `x` of slot `i`. */
  ghost function Moved<T>(keys: seq<T>, hash: T -> nat, table: seq<seq<nat>>, held: set<nat>, i: nat, x: nat): set<nat>
    requires i < |table| ==> x <= |table[i]|
  {
    set p: nat | p in held && p < |keys| && |table| > 0
                 && (SlotIn(hash, |table|, keys[p]) < i || (i < |table| && p in table[i][..x]))
  }

  lemma MovedNext<T>(keys: seq<T>, hash: T -> nat, table: seq<seq<nat>>, held: set<nat>, i: nat, x: nat)
    requires Hashed(keys, hash, table, held) && i < |table| && x < |table[i]|
    ensures table[i][x] < |keys| && table[i][x] !in Moved(keys, hash, table, held, i, x)
    ensures Moved(keys, hash, table, held, i, x + 1) == Moved(keys, hash, table, held, i, x) + {table[i][x]}
  {
    assert HashedAt(keys, hash, table, held, i, table[i][x]);
    assert table[i][..x + 1] == table[i][..x] + [table[i][x]];
  }

  lemma MovedSlot<T>(keys: seq<T>, hash: T -> nat, table: seq<seq<nat>>, held: set<nat>, i: nat)
    requires Hashed(keys, hash, table, held) && i < |table|
    ensures Moved(keys, hash, table, held, i + 1, 0) == Moved(keys, hash, table, held, i, |table[i]|)
  {
    var l, r := Moved(keys, hash, table, held, i + 1, 0), Moved(keys, hash, table, held, i, |table[i]|);
    assert table[i][..|table[i]|] == table[i];
    forall p: nat | p in held ensures p in l <==> p in r {
      if p in table[i] {
        var x :| 0 <= x < |table[i]| && table[i][x] == p;
        assert HashedAt(keys, hash, table, held, i, table[i][x]);
      }
    }
  }

  lemma MovedAll<T>(keys: seq<T>, hash: T -> nat, table: seq<seq<nat>>, held: set<nat>)
    requires Hashed(keys, hash, table, held)
    ensures Moved(keys, hash, table, held, |table|, 0) == held
    ensures Moved(keys, hash, table, held, 0, 0) == {}
  {}

  /** Doubles the table, pushing every entry in front of its new chain. */
  method Rehash<T(==)>(keys: seq<T>, hash: T -> nat, table: seq<seq<nat>>, ghost held: set<nat>) returns (chains: seq<seq<nat>>)
    requires Hashed(keys, hash, table, held)
    ensures Hashed(keys, hash, chains, held) && |chains| == if |table| == 0 then 1 else 2 * |table|
  {
    var size := if |table| == 0 then 1 else 2 * |table|;
    chains := seq(size, _ => []);
    MovedAll(keys, hash, table, held);
    for i := 0 to |table|
      invariant |chains| == size
      invariant Hashed(keys, hash, chains, Moved(keys, hash, table, held, i, 0))
    {
      for x := 0 to |table[i]|
        invariant |chains| == size
        invariant Hashed(keys, hash, chains, Moved(keys, hash, table, held, i, x))
      {
        var p := table[i][x];
        MovedNext(keys, hash, table, held, i, x);
        var h := SlotIn(hash, size, keys[p]);
        PushHashed(keys, hash, chains, Moved(keys, hash, table, held, i, x), p, [p] + chains[h]);
        chains := chains[h := [p] + chains[h]];
      }
      MovedSlot(keys, hash, table, held, i);
    }
  }
}
