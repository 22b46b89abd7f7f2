/** Time shift and substitution as relations between a reference and its image. */
module SimpJobs {
  import opened SimpSpec
  import opened SimpCounts

  /** A shift by `delta`, or the substitution of `rhs` for the variables of `graph` it is defined
      on.  `domain` bounds the variables of the arguments. */
  datatype Job =
    | Shifting(domain: set<Timed>, delta: int)
    | Substituting(domain: set<Timed>, graph: seq<Node>, rhs: map<nat, Ref>)

  ghost predicate JobOk(job: Job) {
    job.Substituting? ==>
      && WellFormed(job.graph)
      && forall i :: i in job.rhs ==> RhsOk(job, i)
  }

  ghost predicate RhsOk(job: Job, i: nat)
    requires job.Substituting? && WellFormed(job.graph) && i in job.rhs
  {
    && i < |job.graph| && job.graph[i].Variable?
    && job.rhs[i].node < |job.graph| && Support(job.graph, job.rhs[i].node) <= job.domain
  }

  ghost predicate Replaced(job: Job, name: nat, slice: int)
    requires job.Substituting?
  {
    exists i :: i in job.rhs && i < |job.graph| && job.graph[i] == Variable(name, slice)
  }

  /** Evaluating an image under `env` is evaluating the argument under `inner`. */
  ghost predicate Linked(job: Job, env: Env, inner: Env)
    requires JobOk(job)
  {
    match job
    case Shifting(_, delta) => forall name: nat, slice: int :: Agree(inner, env, name, slice, delta)
    case Substituting(_, graph, rhs) =>
      && (forall i :: i in rhs ==> RhsOk(job, i) && Solved(job, i, inner))
      && (forall name: nat, slice: int :: !Replaced(job, name, slice) ==> Agree(inner, env, name, slice, 0))
  }

  predicate Agree(inner: Env, env: Env, name: nat, slice: int, delta: int) {
    inner(name, slice) == env(name, slice + delta)
  }

  ghost predicate Solved(job: Job, i: nat, inner: Env)
    requires job.Substituting? && WellFormed(job.graph) && i in job.rhs && RhsOk(job, i)
  {
    inner(job.graph[i].name, job.graph[i].slice) == Val(job.graph, job.rhs[i], inner)
  }

  /** The variables images may have. */
  ghost predicate Out(job: Job, x: Timed) {
    match job
    case Shifting(domain, delta) => Timed(x.name, x.slice - delta) in domain
    case Substituting(domain, _, _) => x in domain && !Replaced(job, x.name, x.slice)
  }

  ghost predicate Image(nodes: seq<Node>, job: Job, r: Ref, res: Ref)
    requires WellFormed(nodes) && JobOk(job)
  {
    && r.node < |nodes| && res.node < |nodes|
    && (forall env, inner :: Linked(job, env, inner) ==> SameVal(nodes, r, inner, res, env))
    && (forall x :: x in Support(nodes, res.node) ==> Out(job, x))
    && (job.Shifting? && nodes[r.node].Variable? ==>
          res.neg == r.neg && nodes[res.node] == Variable(nodes[r.node].name, nodes[r.node].slice + job.delta))
  }

  ghost predicate SameVal(nodes: seq<Node>, r: Ref, inner: Env, res: Ref, env: Env)
    requires WellFormed(nodes) && r.node < |nodes| && res.node < |nodes|
  {
    Val(nodes, res, env) == Val(nodes, r, inner)
  }

  lemma ImageNeg(nodes: seq<Node>, job: Job, r: Ref, res: Ref)
    requires WellFormed(nodes) && JobOk(job) && Image(nodes, job, r, res)
    ensures Image(nodes, job, Neg(r), Neg(res))
  {
    forall env, inner | Linked(job, env, inner) ensures SameVal(nodes, Neg(r), inner, Neg(res), env) {
      assert SameVal(nodes, r, inner, res, env);
    }
  }

  lemma ImageExtend(nodes: seq<Node>, nodes': seq<Node>, job: Job, r: Ref, res: Ref)
    requires WellFormed(nodes) && WellFormed(nodes') && nodes <= nodes' && JobOk(job) && Image(nodes, job, r, res)
    ensures Image(nodes', job, r, res)
  {
    forall env, inner | Linked(job, env, inner) ensures SameVal(nodes', r, inner, res, env) {
      assert SameVal(nodes, r, inner, res, env);
      NodeValExtend(nodes, nodes', r.node, inner);
      NodeValExtend(nodes, nodes', res.node, env);
    }
    SupportExtend(nodes, nodes', res.node);
  }

  lemma ImageAnd(nodes: seq<Node>, job: Job, i: nat, l: Ref, r: Ref, res: Ref)
    requires WellFormed(nodes) && JobOk(job) && i < |nodes| && nodes[i].And? && NodeOk(nodes[i], i)
    requires Image(nodes, job, nodes[i].c0, l) && Image(nodes, job, nodes[i].c1, r)
    requires res.node < |nodes|
    requires forall env :: Val(nodes, res, env) <==> Val(nodes, l, env) && Val(nodes, r, env)
    requires Support(nodes, res.node) <= Support(nodes, l.node) + Support(nodes, r.node)
    ensures Image(nodes, job, Ref(i, false), res)
  {
    forall env, inner | Linked(job, env, inner) ensures SameVal(nodes, Ref(i, false), inner, res, env) {
      assert SameVal(nodes, nodes[i].c0, inner, l, env) && SameVal(nodes, nodes[i].c1, inner, r, env);
      assert Val(nodes, res, env) <==> Val(nodes, l, env) && Val(nodes, r, env);
    }
  }

  /** A variable is shifted to the same variable of a later slice. */
  lemma ImageShifted(nodes: seq<Node>, job: Job, i: nat, res: Ref)
    requires WellFormed(nodes) && job.Shifting? && i < |nodes| && res.node < |nodes| && !res.neg
    requires nodes[i].Variable? && Timed(nodes[i].name, nodes[i].slice) in job.domain
    requires nodes[res.node] == Variable(nodes[i].name, nodes[i].slice + job.delta)
    ensures Image(nodes, job, Ref(i, false), res)
  {
    forall env, inner | Linked(job, env, inner) ensures SameVal(nodes, Ref(i, false), inner, res, env) {
      assert Agree(inner, env, nodes[i].name, nodes[i].slice, job.delta);
    }
  }

  /** An assigned variable has the image of its right hand side. */
  lemma ImageAssigned(nodes: seq<Node>, job: Job, i: nat, res: Ref)
    requires WellFormed(nodes) && job.Substituting? && JobOk(job) && job.graph <= nodes
    requires i in job.rhs && Image(nodes, job, job.rhs[i], res)
    ensures Image(nodes, job, Ref(i, false), res)
  {
    assert RhsOk(job, i);
    forall env, inner | Linked(job, env, inner) ensures SameVal(nodes, Ref(i, false), inner, res, env) {
      assert SameVal(nodes, job.rhs[i], inner, res, env) && Solved(job, i, inner);
      NodeValExtend(job.graph, nodes, job.rhs[i].node, inner);
    }
  }

  /** A variable without assignment stays, and so does a constant. */
  lemma ImageFree(nodes: seq<Node>, job: Job, i: nat)
    requires WellFormed(nodes) && job.Substituting? && JobOk(job) && i < |nodes|
    requires nodes[i].Variable? && Timed(nodes[i].name, nodes[i].slice) in job.domain
    requires !Replaced(job, nodes[i].name, nodes[i].slice)
    ensures Image(nodes, job, Ref(i, false), Ref(i, false))
  {
    forall env, inner | Linked(job, env, inner) ensures SameVal(nodes, Ref(i, false), inner, Ref(i, false), env) {
      assert Agree(inner, env, nodes[i].name, nodes[i].slice, 0);
    }
  }

  lemma ImageConstant(nodes: seq<Node>, job: Job, r: Ref)
    requires WellFormed(nodes) && JobOk(job) && r.node == 0
    ensures Image(nodes, job, r, r)
  {}

  // ----- The cache ---------------------------------------------------------------------------------

  ghost predicate CacheOk(nodes: seq<Node>, job: Job, cache: map<nat, Ref>)
    requires WellFormed(nodes) && JobOk(job)
  {
    forall n :: n in cache ==> CachedAt(nodes, job, cache, n)
  }

  ghost predicate CachedAt(nodes: seq<Node>, job: Job, cache: map<nat, Ref>, n: nat)
    requires WellFormed(nodes) && JobOk(job) && n in cache
  {
    Image(nodes, job, Ref(n, false), cache[n])
  }

  lemma CacheExtend(nodes: seq<Node>, nodes': seq<Node>, job: Job, cache: map<nat, Ref>)
    requires WellFormed(nodes) && WellFormed(nodes') && nodes <= nodes' && JobOk(job) && CacheOk(nodes, job, cache)
    ensures CacheOk(nodes', job, cache)
  {
    forall n | n in cache ensures CachedAt(nodes', job, cache, n) {
      assert CachedAt(nodes, job, cache, n);
      ImageExtend(nodes, nodes', job, Ref(n, false), cache[n]);
    }
  }

  lemma {:induction false} PairsHold(keys: seq<nat>, entry: map<nat, Ref>, n: nat)
    requires PairsOk(keys, entry) && n in keys
    ensures n in Pairs(keys, entry) && entry[n].node in Pairs(keys, entry)
  {
    PairsContain(keys, entry, n);
  }

  lemma {:induction false} PairsContain(keys: seq<nat>, entry: map<nat, Ref>, n: nat)
    requires (forall k :: k in keys ==> k in entry) && n in keys
    ensures n in Pairs(keys, entry) && entry[n].node in Pairs(keys, entry)
  {
    if keys[0] != n {
      assert n in keys[1..];
      PairsContain(keys[1..], entry, n);
    }
  }

  /** Levels never rise towards the children and fall from an assigned variable to its right side. */
  ghost predicate Levels(job: Job, level: seq<nat>)
    requires job.Substituting? && JobOk(job)
  {
    && |level| == |job.graph|
    && (forall i :: 0 <= i < |job.graph| && job.graph[i].And? ==> LevelAt(job, level, i))
    && (forall i :: i in job.rhs && RhsOk(job, i) && job.rhs[i].node != 0 ==> level[job.rhs[i].node] < level[i])
  }

  ghost predicate LevelAt(job: Job, level: seq<nat>, i: nat)
    requires job.Substituting? && JobOk(job) && |level| == |job.graph| && i < |level| && job.graph[i].And?
  {
    NodeOk(job.graph[i], i) && level[job.graph[i].c0.node] <= level[i] && level[job.graph[i].c1.node] <= level[i]
  }
}
