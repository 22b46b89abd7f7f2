/** Reference counts of `simpaig`: what each step does to the counting equation. */
module SimpCounts {
  import opened SimpSpec

  /** Every count is the number of edges from referenced parents plus the references in `total`. */
  ghost predicate Counted(nodes: seq<Node>, refs: seq<nat>, total: multiset<nat>) {
    && |refs| == |nodes|
    && (forall i :: 0 <= i < |nodes| ==> CountAt(nodes, refs, total, i))
    && forall i :: i in total ==> i < |nodes|
  }

  ghost predicate CountAt(nodes: seq<Node>, refs: seq<nat>, total: multiset<nat>, i: nat)
    requires |refs| == |nodes| && i < |nodes|
  {
    refs[i] == Edges(nodes, refs, i, |nodes|) + total[i]
  }

  /** A node that may be used: a constant or a referenced node. */
  predicate Usable(refs: seq<nat>, r: Ref) {
    r.node < |refs| && (r.node == 0 || refs[r.node] > 0)
  }

  function Bump(refs: seq<nat>, i: nat): seq<nat>
    requires i < |refs|
  {
    refs[i := refs[i] + 1]
  }

  lemma CountedInc(nodes: seq<Node>, refs: seq<nat>, total: multiset<nat>, i: nat)
    requires Counted(nodes, refs, total) && i < |nodes| && (refs[i] > 0 || !nodes[i].And?)
    ensures Counted(nodes, Bump(refs, i), total + multiset{i})
  {
    var refs', total' := Bump(refs, i), total + multiset{i};
    forall j | 0 <= j < |nodes| ensures CountAt(nodes, refs', total', j) {
      assert CountAt(nodes, refs, total, j);
      EdgesSame(nodes, refs, refs', j, |nodes|, i);
    }
  }

  /** Changing the count of a node other than between zero and non-zero of an AND keeps all edges. */
  lemma {:induction false} EdgesSame(nodes: seq<Node>, refs: seq<nat>, refs': seq<nat>, i: nat, k: nat, p: nat)
    requires k <= |nodes| && k <= |refs| == |refs'| && p < |refs| && p < |nodes|
    requires forall j :: 0 <= j < |refs| && j != p ==> refs'[j] == refs[j]
    requires (refs[p] > 0 <==> refs'[p] > 0) || !nodes[p].And?
    ensures Edges(nodes, refs', i, k) == Edges(nodes, refs, i, k)
  {
    if k > 0 { EdgesSame(nodes, refs, refs', i, k - 1, p); }
  }

  lemma CountedDec(nodes: seq<Node>, refs: seq<nat>, total: multiset<nat>, i: nat)
    requires Counted(nodes, refs, total) && i in total
    ensures i < |nodes| && refs[i] > 0
    ensures refs[i] > 1 || !nodes[i].And? ==> Counted(nodes, refs[i := refs[i] - 1], total - multiset{i})
  {
    assert CountAt(nodes, refs, total, i);
    if refs[i] > 1 || !nodes[i].And? {
      var refs', total' := refs[i := refs[i] - 1], total - multiset{i};
      forall j | 0 <= j < |nodes| ensures CountAt(nodes, refs', total', j) {
        assert CountAt(nodes, refs, total, j);
        EdgesSame(nodes, refs, refs', j, |nodes|, i);
      }
    }
  }

  ghost function ChildRefs(n: Node): multiset<nat> {
    if n.And? then multiset{n.c0.node} + multiset{n.c1.node} else multiset{}
  }

  /** The last reference of an AND goes: its two edges become references to be dropped. */
  lemma CountedFree(nodes: seq<Node>, refs: seq<nat>, total: multiset<nat>, i: nat)
    requires WellFormed(nodes) && Counted(nodes, refs, total) && i in total && i < |nodes| && refs[i] == 1 && nodes[i].And?
    ensures Counted(nodes, refs[i := 0], total - multiset{i} + ChildRefs(nodes[i]))
  {
    var refs' := refs[i := 0];
    var total' := total - multiset{i} + ChildRefs(nodes[i]);
    assert NodeOk(nodes[i], i);
    forall j | 0 <= j < |nodes| ensures CountAt(nodes, refs', total', j) {
      assert CountAt(nodes, refs, total, j);
      EdgesDrop(nodes, refs, refs', j, i, |nodes|);
    }
  }

  lemma CountedLast(nodes: seq<Node>, refs: seq<nat>, total: multiset<nat>, i: nat)
    requires WellFormed(nodes) && Counted(nodes, refs, total) && i in total && i < |nodes| && refs[i] == 1
    ensures Counted(nodes, refs[i := 0], total - multiset{i} + ChildRefs(nodes[i]))
  {
    if nodes[i].And? {
      CountedFree(nodes, refs, total, i);
    } else {
      CountedDec(nodes, refs, total, i);
      assert total - multiset{i} + ChildRefs(nodes[i]) == total - multiset{i};
    }
  }

  /** A new node with one reference; its children get one more each. */
  function WithNew(refs: seq<nat>, n: Node): seq<nat>
    requires n.And? ==> n.c0.node < |refs| && n.c1.node < |refs|
  {
    (if n.And? then Bump(Bump(refs, n.c0.node), n.c1.node) else refs) + [1]
  }

  lemma CountedNew(nodes: seq<Node>, refs: seq<nat>, total: multiset<nat>, n: Node)
    requires WellFormed(nodes) && Counted(nodes, refs, total) && NodeOk(n, |nodes|)
    requires n.And? ==> refs[n.c0.node] > 0 && refs[n.c1.node] > 0
    ensures WellFormed(nodes + [n])
    ensures Counted(nodes + [n], WithNew(refs, n), total + multiset{|nodes|})
  {
    var nodes', refs', total' := nodes + [n], WithNew(refs, n), total + multiset{|nodes|};
    var k := |nodes|;
    forall i | 1 <= i < |nodes'| ensures NodeOk(nodes'[i], i) {
      if i < k { assert NodeOk(nodes[i], i); }
    }
    assert total[k] == 0;
    forall j | 0 <= j < |nodes'| ensures CountAt(nodes', refs', total', j) {
      EdgesExtend(nodes, nodes', refs, refs', j, k);
      if j < k {
        assert CountAt(nodes, refs, total, j);
      } else {
        NoEdges(nodes', refs', k, k + 1);
      }
    }
  }

  lemma {:induction false} EdgesPositive(nodes: seq<Node>, refs: seq<nat>, i: nat, k: nat) returns (p: nat)
    requires k <= |nodes| && k <= |refs| && Edges(nodes, refs, i, k) > 0
    ensures p < k && refs[p] > 0 && EdgeCount(nodes[p], i) > 0
  {
    if refs[k - 1] > 0 && EdgeCount(nodes[k - 1], i) > 0 {
      p := k - 1;
    } else {
      p := EdgesPositive(nodes, refs, i, k - 1);
    }
  }

  /** With at least the old references, what was referenced still is. */
  lemma {:induction false} StaysReferenced(nodes: seq<Node>, refs: seq<nat>, total: multiset<nat>,
                                           nodes': seq<Node>, refs': seq<nat>, total': multiset<nat>, i: nat)
    requires WellFormed(nodes) && Counted(nodes, refs, total) && Counted(nodes', refs', total')
    requires nodes <= nodes' && total <= total' && i < |nodes| && refs[i] > 0
    ensures refs'[i] > 0
    decreases |nodes| - i
  {
    assert CountAt(nodes, refs, total, i) && CountAt(nodes', refs', total', i);
    if total[i] == 0 {
      var p := EdgesPositive(nodes, refs, i, |nodes|);
      assert NodeOk(nodes[p], p);
      StaysReferenced(nodes, refs, total, nodes', refs', total', p);
      EdgesZero(nodes', refs', i, |nodes'|, p);
    }
  }

  /** Children of referenced nodes are referenced. */
  lemma ChildrenReferenced(nodes: seq<Node>, refs: seq<nat>, total: multiset<nat>, i: nat)
    requires WellFormed(nodes) && Counted(nodes, refs, total) && i < |nodes| && refs[i] > 0 && nodes[i].And?
    ensures NodeOk(nodes[i], i) && refs[nodes[i].c0.node] > 0 && refs[nodes[i].c1.node] > 0
  {
    assert NodeOk(nodes[i], i);
    var c0, c1 := nodes[i].c0.node, nodes[i].c1.node;
    assert CountAt(nodes, refs, total, c0) && CountAt(nodes, refs, total, c1);
    EdgesZero(nodes, refs, c0, |nodes|, i);
    EdgesZero(nodes, refs, c1, |nodes|, i);
  }

  /** When nothing outside refers to the graph any more, no node is referenced. */
  lemma {:induction false} NothingReferenced(nodes: seq<Node>, refs: seq<nat>, i: nat)
    requires WellFormed(nodes) && Counted(nodes, refs, multiset{}) && i < |nodes|
    ensures refs[i] == 0
    decreases |nodes| - i
  {
    assert CountAt(nodes, refs, multiset{}, i);
    if refs[i] > 0 {
      var p := EdgesPositive(nodes, refs, i, |nodes|);
      assert NodeOk(nodes[p], p);
      NothingReferenced(nodes, refs, p);
    }
  }

  // ----- References of the tables --------------------------------------------------------------

  /** One reference to each key and one to its entry. */
  ghost function Pairs(keys: seq<nat>, entry: map<nat, Ref>): multiset<nat>
    requires forall n :: n in keys ==> n in entry
  {
    if |keys| == 0 then multiset{}
    else
      assert keys[0] in keys;
      multiset{keys[0]} + multiset{entry[keys[0]].node} + Pairs(keys[1..], entry)
  }

  ghost predicate PairsOk(keys: seq<nat>, entry: map<nat, Ref>) {
    && (forall n :: n in keys <==> n in entry)
    && (forall i, j :: 0 <= i < j < |keys| ==> keys[i] != keys[j])
  }

  lemma {:induction false} PairsAgree(keys: seq<nat>, entry: map<nat, Ref>, entry': map<nat, Ref>)
    requires forall n :: n in keys ==> n in entry && n in entry' && entry'[n] == entry[n]
    ensures Pairs(keys, entry') == Pairs(keys, entry)
  {
    if |keys| > 0 {
      assert keys[0] in keys;
      PairsAgree(keys[1..], entry, entry');
    }
  }

  lemma {:induction false} PairsPush(keys: seq<nat>, entry: map<nat, Ref>, n: nat, r: Ref)
    requires PairsOk(keys, entry) && n !in entry
    ensures PairsOk(keys + [n], entry[n := r])
    ensures Pairs(keys + [n], entry[n := r]) == Pairs(keys, entry) + multiset{n} + multiset{r.node}
  {
    PairsAgree(keys, entry, entry[n := r]);
    PairsSnoc(keys, entry[n := r], n);
  }

  lemma {:induction false} PairsSnoc(keys: seq<nat>, entry: map<nat, Ref>, n: nat)
    requires forall k :: k in keys ==> k in entry
    requires n in entry
    ensures Pairs(keys + [n], entry) == Pairs(keys, entry) + multiset{n} + multiset{entry[n].node}
  {
    if |keys| == 0 {
      assert (keys + [n])[1..] == [];
    } else {
      assert keys[0] in keys;
      assert (keys + [n])[1..] == keys[1..] + [n];
      PairsSnoc(keys[1..], entry, n);
    }
  }

  lemma PairsOkPop(keys: seq<nat>, entry: map<nat, Ref>)
    requires PairsOk(keys, entry) && |keys| > 0
    ensures keys[0] in entry && PairsOk(keys[1..], entry - {keys[0]})
  {
    assert keys[0] in keys;
    var rest := entry - {keys[0]};
    forall n ensures n in keys[1..] <==> n in rest {
      if n in keys[1..] {
        var i :| 0 <= i < |keys[1..]| && keys[1..][i] == n;
        assert keys[i + 1] == n;
      }
      if n in rest {
        var i :| 0 <= i < |keys| && keys[i] == n;
        assert keys[1..][i - 1] == n;
      }
    }
  }

  lemma PairsPop(keys: seq<nat>, entry: map<nat, Ref>)
    requires PairsOk(keys, entry) && |keys| > 0
    ensures keys[0] in entry && PairsOk(keys[1..], entry - {keys[0]})
    ensures Pairs(keys, entry) == Pairs(keys[1..], entry - {keys[0]}) + multiset{keys[0]} + multiset{entry[keys[0]].node}
  {
    assert keys[0] in keys;
    PairsOkPop(keys, entry);
    PairsAgree(keys[1..], entry, entry - {keys[0]});
  }
}
