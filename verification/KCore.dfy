/** The k-core detector: iterative peeling, against the largest dense subset of the graph. */
module KCore {
  import opened Words
  import opened Sums
  import opened RatingGraph

  ghost function DegreeIn(adj: Adjacency, members: set<Node>, v: Node): nat {
    |At(adj, v) * members|
  }

  /** Every member has at least `k` neighbours inside. */
  ghost predicate Dense(nodes: set<Node>, adj: Adjacency, members: set<Node>, k: int) {
    members <= nodes && forall v {:trigger DegreeIn(adj, members, v)} | v in members :: DegreeIn(adj, members, v) >= k
  }

  /** The largest dense set: itself dense, and above every dense set. */
  ghost predicate IsKCore(nodes: set<Node>, adj: Adjacency, k: int, core: set<Node>) {
    Dense(nodes, adj, core, k) && forall members | Dense(nodes, adj, members, k) :: members <= core
  }

  ghost predicate InCore(nodes: set<Node>, adj: Adjacency, k: int, v: Node) {
    exists members :: Dense(nodes, adj, members, k) && v in members
  }

  ghost predicate Symmetric(g: Graph) {
    forall u, v :: v in At(g.undirected, u) ==> u in At(g.undirected, v) && u in g.nodes && v in g.nodes
  }

  /** Graphs built from an edge list are symmetric. */
  lemma BuiltGraphsAreSymmetric(g: Graph, edges: seq<Edge>, given: seq<Node>)
    requires IsGraphOf(g, edges, given)
    ensures Symmetric(g)
  {
    forall u, v | v in At(g.undirected, u)
      ensures u in At(g.undirected, v) && u in g.nodes && v in g.nodes
    {
      assert v in Neighbours(edges, u);
      assert (u, v) in edges || (v, u) in edges;
      assert u in Neighbours(edges, v);
    }
  }

  lemma CoreIsUnique(nodes: set<Node>, adj: Adjacency, k: int, a: set<Node>, b: set<Node>)
    requires IsKCore(nodes, adj, k, a) && IsKCore(nodes, adj, k, b)
    ensures a == b
  {
  }

  /** Cores are nested: a denser core lies inside every less dense one. */
  lemma CoresAreNested(nodes: set<Node>, adj: Adjacency, j: int, k: int, outer: set<Node>, inner: set<Node>)
    requires j <= k && IsKCore(nodes, adj, j, outer) && IsKCore(nodes, adj, k, inner)
    ensures inner <= outer
  {
    assert Dense(nodes, adj, inner, j);
  }

  /** The members of all dense sets together are the k-core. */
  lemma UnionOfDense(nodes: set<Node>, adj: Adjacency, k: int, core: set<Node>)
    requires core <= nodes && forall v :: v in core <==> v in nodes && InCore(nodes, adj, k, v)
    ensures IsKCore(nodes, adj, k, core)
  {
    forall members | Dense(nodes, adj, members, k) ensures members <= core {
      forall v | v in members ensures v in core { assert InCore(nodes, adj, k, v); }
    }
    forall v | v in core ensures DegreeIn(adj, core, v) >= k {
      assert InCore(nodes, adj, k, v);
      var members :| Dense(nodes, adj, members, k) && v in members;
      assert DegreeIn(adj, members, v) >= k;
      SubsetSize(At(adj, v) * members, At(adj, v) * core);
    }
  }

  // ---------------------------------------------------------------------------
  // Peeling

  /** The neighbours of `v` that are still there. */
  ghost function Left(g: Graph, removed: set<Node>, v: Node): nat {
    |At(g.undirected, v) - removed|
  }

  /** The degree recorded for `v` counts its neighbours outside `removed`. */
  ghost predicate DegreeKept(g: Graph, degree: map<Node, int>, removed: set<Node>, v: Node) {
    v in degree && degree[v] == Left(g, removed, v)
  }

  ghost predicate DegreesKept(g: Graph, degree: map<Node, int>, removed: set<Node>) {
    forall v {:trigger DegreeKept(g, degree, removed, v)} | v in g.nodes && v !in removed ::
        DegreeKept(g, degree, removed, v)
  }

  /** Only nodes outside every dense set are removed. */
  ghost predicate Sound(g: Graph, k: int, removed: set<Node>) {
    forall members | Dense(Members(g.nodes), g.undirected, members, k) :: members !! removed
  }

  lemma RemovalIsSound(g: Graph, k: int, removed: set<Node>, v: Node)
    requires Sound(g, k, removed) && Left(g, removed, v) < k
    ensures Sound(g, k, removed + {v})
  {
    forall members | Dense(Members(g.nodes), g.undirected, members, k) ensures members !! removed + {v} {
      if v in members {
        assert DegreeIn(g.undirected, members, v) >= k;
        SubsetSize(At(g.undirected, v) * members, At(g.undirected, v) - removed);
      }
    }
  }

  /** Lowers the degree of every neighbour of the removed node that is still there. */
  method Detach(g: Graph, degree: map<Node, int>, removed: set<Node>, v: Node) returns (r: map<Node, int>)
    requires Symmetric(g) && v in g.nodes && v !in removed && DegreesKept(g, degree, removed)
    ensures DegreesKept(g, r, removed + {v})
  {
    r := degree;
    var todo := At(g.undirected, v);
    forall u | u in g.nodes && u !in removed + {v} && u !in todo ensures DegreeKept(g, r, removed + {v}, u) {
      assert DegreeKept(g, degree, removed, u);
      RemovalSeen(g, removed, v, u);
    }
    forall u | u in g.nodes && u !in removed + {v} && u in todo ensures DegreeKept(g, r, removed, u) {}
    while todo != {}
      invariant todo <= At(g.undirected, v)
      invariant forall u {:trigger DegreeKept(g, r, removed, u)} | u in todo && u !in removed + {v} ::
                DegreeKept(g, r, removed, u)
      invariant forall u {:trigger DegreeKept(g, r, removed + {v}, u)}
                | u in g.nodes && u !in removed + {v} && u !in todo ::
                  DegreeKept(g, r, removed + {v}, u)
    {
      var u :| u in todo;
      ghost var before, left := r, todo;
      todo := todo - {u};
      if u !in removed + {v} {
        assert DegreeKept(g, before, removed, u);
        RemovalSeen(g, removed, v, u);
        r := r[u := (if u in r then r[u] else 0) - 1];
      }
      forall x | x in todo && x !in removed + {v} ensures DegreeKept(g, r, removed, x) {
        assert DegreeKept(g, before, removed, x);
      }
      forall x | x in g.nodes && x !in removed + {v} && x !in todo ensures DegreeKept(g, r, removed + {v}, x) {
        if x != u { assert DegreeKept(g, before, removed + {v}, x); }
      }
    }
  }

  /** Removing `v` costs exactly its neighbours one degree. */
  lemma RemovalSeen(g: Graph, removed: set<Node>, v: Node, u: Node)
    requires Symmetric(g) && v !in removed
    ensures Left(g, removed + {v}, u) == Left(g, removed, u) - if u in At(g.undirected, v) then 1 else 0
  {
    assert v in At(g.undirected, u) <==> u in At(g.undirected, v);
    DropOne(At(g.undirected, u), removed, v);
  }

  lemma DropOne(a: set<Node>, removed: set<Node>, v: Node)
    requires v !in removed
    ensures |a - (removed + {v})| == |a - removed| - if v in a then 1 else 0
  {
    assert a - (removed + {v}) == (a - removed) - {v};
  }

  method AllDegrees(g: Graph) returns (degree: map<Node, int>)
    ensures DegreesKept(g, degree, {})
  {
    degree := map[];
    for i := 0 to |g.nodes|
      invariant forall v | v in g.nodes[..i] :: v in degree && degree[v] == |At(g.undirected, v)|
    {
      degree := degree[g.nodes[i] := |At(g.undirected, g.nodes[i])|];
    }
    assert g.nodes[..|g.nodes|] == g.nodes;
    forall v | v in g.nodes ensures DegreeKept(g, degree, {}, v) {
      assert At(g.undirected, v) - {} == At(g.undirected, v);
    }
  }

  /** One sweep over the nodes: removes those whose degree is below `k` when they are met. */
  method Sweep(g: Graph, k: int, degree: map<Node, int>, removed: set<Node>)
    returns (degree': map<Node, int>, removed': set<Node>, changed: bool)
    requires Symmetric(g) && removed <= Members(g.nodes)
    requires DegreesKept(g, degree, removed) && Sound(g, k, removed)
    ensures removed <= removed' <= Members(g.nodes)
    ensures DegreesKept(g, degree', removed') && Sound(g, k, removed')
    ensures changed ==> removed' != removed
    ensures !changed ==> forall v | v in g.nodes && v !in removed' :: Left(g, removed', v) >= k
  {
    degree', removed', changed := degree, removed, false;
    for i := 0 to |g.nodes|
      invariant removed <= removed' <= Members(g.nodes)
      invariant changed ==> removed' != removed
      invariant !changed ==> removed' == removed
      invariant DegreesKept(g, degree', removed') && Sound(g, k, removed')
      invariant !changed ==> forall v | v in g.nodes[..i] && v !in removed :: Left(g, removed, v) >= k
    {
      var v := g.nodes[i];
      assert v !in removed' ==> DegreeKept(g, degree', removed', v);
      if v !in removed' && degree'[v] < k {
        RemovalIsSound(g, k, removed', v);
        degree' := Detach(g, degree', removed', v);
        removed' := removed' + {v};
        changed := true;
      }
    }
    assert g.nodes[..|g.nodes|] == g.nodes;
  }

  /** The nodes that iterative removal of all nodes of degree below `k` takes away. */
  method Peel(g: Graph, k: int) returns (removed: set<Node>)
    requires Symmetric(g)
    ensures removed <= Members(g.nodes)
    ensures IsKCore(Members(g.nodes), g.undirected, k, Members(g.nodes) - removed)
  {
    var degree := AllDegrees(g);
    removed := {};
    var changed := true;
    while changed
      invariant removed <= Members(g.nodes)
      invariant DegreesKept(g, degree, removed) && Sound(g, k, removed)
      invariant !changed ==> forall v | v in g.nodes && v !in removed :: Left(g, removed, v) >= k
      decreases |Members(g.nodes) - removed|, changed
    {
      ghost var before := removed;
      degree, removed, changed := Sweep(g, k, degree, removed);
      SubsetSize(Members(g.nodes) - removed, Members(g.nodes) - before);
      if changed {
        ghost var v :| v in removed && v !in before;
        assert v in Members(g.nodes) - before;
      }
    }
    SurvivorsAreCore(g, k, removed);
  }

  lemma SurvivorsAreCore(g: Graph, k: int, removed: set<Node>)
    requires Symmetric(g) && removed <= Members(g.nodes) && Sound(g, k, removed)
    requires forall v | v in g.nodes && v !in removed :: Left(g, removed, v) >= k
    ensures IsKCore(Members(g.nodes), g.undirected, k, Members(g.nodes) - removed)
  {
    var core := Members(g.nodes) - removed;
    forall v | v in core ensures DegreeIn(g.undirected, core, v) >= k {
      assert At(g.undirected, v) * core == At(g.undirected, v) - removed;
    }
    forall members | Dense(Members(g.nodes), g.undirected, members, k) ensures members <= core {
      assert members !! removed;
    }
  }

  // ---------------------------------------------------------------------------
  // The detector

  method MaxDegree(g: Graph) returns (m: nat)
    ensures forall v | v in g.nodes :: |At(g.undirected, v)| <= m
  {
    m := 0;
    for i := 0 to |g.nodes|
      invariant forall v | v in g.nodes[..i] :: |At(g.undirected, v)| <= m
    {
      if |At(g.undirected, g.nodes[i])| > m { m := |At(g.undirected, g.nodes[i])|; }
    }
    assert g.nodes[..|g.nodes|] == g.nodes;
  }

  /** Core numbers known up to `k`: `v` lies in the j-core exactly when its number is at least `j`. */
  ghost predicate NumbersUpTo(g: Graph, core: map<Node, nat>, k: int) {
    && core.Keys == Members(g.nodes)
    && (forall v | v in core :: core[v] <= Max(0, k))
    && (forall v, j: int | v in core && j <= k :: InCore(Members(g.nodes), g.undirected, j, v) <==> core[v] >= j)
  }

  /** Writes `k` for every node the peeling left over; the others keep what they had. */
  method RaiseSurvivors(g: Graph, was: map<Node, nat>, k: nat, removed: set<Node>) returns (core: map<Node, nat>)
    requires was.Keys == Members(g.nodes)
    ensures core.Keys == Members(g.nodes)
    ensures forall v | v in core :: core[v] == if v !in removed then k else was[v]
  {
    core := was;
    for i := 0 to |g.nodes|
      invariant core.Keys == was.Keys
      invariant forall v | v in core :: core[v] == if v in g.nodes[..i] && v !in removed then k else was[v]
    {
      if g.nodes[i] !in removed { core := core[g.nodes[i] := k]; }
    }
    assert g.nodes[..|g.nodes|] == g.nodes;
  }

  /** The core number of every node: the largest `k` whose core it belongs to. */
  method CoreNumbers(g: Graph) returns (core: map<Node, nat>)
    requires Symmetric(g)
    ensures core.Keys == Members(g.nodes)
    ensures forall v, j: int | v in core :: InCore(Members(g.nodes), g.undirected, j, v) <==> core[v] >= j
  {
    var maxDegree := MaxDegree(g);
    core := map v | v in g.nodes :: 0;
    EveryoneInZeroCore(g);
    for k := 1 to maxDegree + 1
      invariant NumbersUpTo(g, core, k - 1)
    {
      var removed := Peel(g, k);
      var raised := RaiseSurvivors(g, core, k, removed);
      NextNumbers(g, core, raised, k, removed);
      core := raised;
    }
    NobodyAboveMaxDegree(g, maxDegree);
  }

  /** The flagged nodes are exactly the k-core for the given threshold, whatever the node order. */
  method DetectByKCore(g: Graph, threshold: int) returns (flagged: set<Node>)
    requires Symmetric(g)
    ensures IsKCore(Members(g.nodes), g.undirected, threshold, flagged)
  {
    var core := CoreNumbers(g);
    flagged := {};
    for i := 0 to |g.nodes|
      invariant forall v :: v in flagged <==> v in g.nodes[..i] && core[v] >= threshold
    {
      if core[g.nodes[i]] >= threshold { flagged := flagged + {g.nodes[i]}; }
    }
    assert g.nodes[..|g.nodes|] == g.nodes;
    UnionOfDense(Members(g.nodes), g.undirected, threshold, flagged);
  }

  lemma EveryoneInZeroCore(g: Graph)
    ensures forall v, j: int | v in g.nodes && j <= 0 :: InCore(Members(g.nodes), g.undirected, j, v)
  {
    forall v, j: int | v in g.nodes && j <= 0 ensures InCore(Members(g.nodes), g.undirected, j, v) {
      assert Dense(Members(g.nodes), g.undirected, Members(g.nodes), j);
    }
  }

  lemma NobodyAboveMaxDegree(g: Graph, m: nat)
    requires forall v | v in g.nodes :: |At(g.undirected, v)| <= m
    ensures forall v, j: int | j > m :: !InCore(Members(g.nodes), g.undirected, j, v)
  {
    forall v, j: int | j > m ensures !InCore(Members(g.nodes), g.undirected, j, v) {
      forall members | Dense(Members(g.nodes), g.undirected, members, j) ensures v !in members {
        assert v in members ==> DegreeIn(g.undirected, members, v) >= j;
        SubsetSize(At(g.undirected, v) * members, At(g.undirected, v));
      }
    }
  }

  lemma CoreMembers(nodes: set<Node>, adj: Adjacency, k: int, core: set<Node>, v: Node)
    requires IsKCore(nodes, adj, k, core)
    ensures InCore(nodes, adj, k, v) <==> v in core
    ensures forall j: int | j <= k && InCore(nodes, adj, k, v) :: InCore(nodes, adj, j, v)
  {
    forall j: int | j <= k && InCore(nodes, adj, k, v) ensures InCore(nodes, adj, j, v) {
      assert Dense(nodes, adj, core, j);
    }
  }

  lemma NextNumbers(g: Graph, was: map<Node, nat>, core: map<Node, nat>, k: nat, removed: set<Node>)
    requires k >= 1 && NumbersUpTo(g, was, k - 1) && core.Keys == Members(g.nodes)
    requires forall v | v in core :: core[v] == if v !in removed then k else was[v]
    requires removed <= Members(g.nodes)
    requires IsKCore(Members(g.nodes), g.undirected, k, Members(g.nodes) - removed)
    ensures NumbersUpTo(g, core, k)
  {
    forall v, j: int | v in core && j <= k
      ensures InCore(Members(g.nodes), g.undirected, j, v) <==> core[v] >= j
    {
      CoreMembers(Members(g.nodes), g.undirected, k, Members(g.nodes) - removed, v);
    }
  }
}
