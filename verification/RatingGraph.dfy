/** The rating graph the collusion detectors share, and the detectors themselves. */
module RatingGraph {
  import opened Sequences

  type Node = nat
  type Edge = (Node, Node)
  type Adjacency = map<Node, set<Node>>

  /** `nodes` is in insertion order; the maps hold an entry only where the source wrote one. */
  datatype Graph = Graph(nodes: seq<Node>, outgoing: Adjacency, reciprocalPartners: map<Node, nat>,
      undirected: Adjacency)

  function At(m: Adjacency, v: Node): set<Node> {
    if v in m then m[v] else {}
  }

  function Members<T>(q: seq<T>): set<T> {
    set x | x in q
  }

  // ---------------------------------------------------------------------------
  // What the graph of an edge list is

  ghost function Targets(edges: seq<Edge>, v: Node): set<Node> {
    set e | e in edges && e.0 == v :: e.1
  }

  ghost function Sources(edges: seq<Edge>, v: Node): set<Node> {
    set e | e in edges && e.1 == v :: e.0
  }

  ghost function Neighbours(edges: seq<Edge>, v: Node): set<Node> {
    Targets(edges, v) + Sources(edges, v)
  }

  ghost function Mutual(edges: seq<Edge>, v: Node): set<Node> {
    Targets(edges, v) * Sources(edges, v)
  }

  ghost function MutualCount(edges: seq<Edge>, v: Node): nat {
    |Mutual(edges, v)|
  }

  ghost predicate IsGraphOf(g: Graph, edges: seq<Edge>, given: seq<Node>) {
    && Distinct(g.nodes)
    && (forall v :: v in g.nodes <==> v in given || Neighbours(edges, v) != {})
    && (forall v :: At(g.outgoing, v) == Targets(edges, v))
    && (forall v :: At(g.undirected, v) == Neighbours(edges, v))
    && (forall v {:trigger MutualCount(edges, v)} | v in g.nodes ::
          v in g.reciprocalPartners && g.reciprocalPartners[v] == MutualCount(edges, v))
  }

  lemma EdgeAppended(edges: seq<Edge>, e: Edge, v: Node)
    ensures Targets(edges + [e], v) == Targets(edges, v) + if v == e.0 then {e.1} else {}
    ensures Sources(edges + [e], v) == Sources(edges, v) + if v == e.1 then {e.0} else {}
  {
    assert forall x :: x in edges + [e] <==> x in edges || x == e;
  }

  method AddNode(nodes: seq<Node>, v: Node) returns (r: seq<Node>)
    requires Distinct(nodes)
    ensures Distinct(r) && forall x :: x in r <==> x in nodes || x == v
    ensures nodes <= r
  {
    r := if v in nodes then nodes else nodes + [v];
  }

  method AddNeighbour(m: Adjacency, v: Node, u: Node) returns (r: Adjacency)
    ensures forall x :: At(r, x) == At(m, x) + if x == v then {u} else {}
  {
    r := if v in m then m else m[v := {}];
    r := r[v := r[v] + {u}];
  }

  method BuildGraph(edges: seq<Edge>, given: seq<Node>) returns (g: Graph)
    ensures IsGraphOf(g, edges, given)
  {
    var nodes := CollectGiven(given);
    var outgoing, undirected;
    nodes, outgoing, undirected := ReadEdges(edges, given, nodes);
    var partners := CountPartners(edges, nodes, outgoing);
    g := Graph(nodes, outgoing, partners, undirected);
  }

  method CollectGiven(given: seq<Node>) returns (nodes: seq<Node>)
    ensures Distinct(nodes) && forall v :: v in nodes <==> v in given
  {
    nodes := [];
    for i := 0 to |given|
      invariant Distinct(nodes) && forall v :: v in nodes <==> v in given[..i]
    {
      nodes := AddNode(nodes, given[i]);
    }
    assert given[..|given|] == given;
  }

  /** The three collections hold what the edges read so far give them. */
  ghost predicate Reads(edges: seq<Edge>, given: seq<Node>, nodes: seq<Node>, outgoing: Adjacency,
                        undirected: Adjacency)
  {
    && Distinct(nodes)
    && (forall v :: v in nodes <==> v in given || Neighbours(edges, v) != {})
    && (forall v :: At(outgoing, v) == Targets(edges, v))
    && (forall v :: At(undirected, v) == Neighbours(edges, v))
  }

  lemma ReadOneMore(edges: seq<Edge>, e: Edge, given: seq<Node>, nodes: seq<Node>, outgoing: Adjacency,
                    undirected: Adjacency, nodes': seq<Node>, outgoing': Adjacency, undirected': Adjacency)
    requires Reads(edges, given, nodes, outgoing, undirected)
    requires Distinct(nodes') && forall v :: v in nodes' <==> v in nodes || v == e.0 || v == e.1
    requires forall v :: At(outgoing', v) == At(outgoing, v) + if v == e.0 then {e.1} else {}
    requires forall v ::
               At(undirected', v)
               == At(undirected, v) + (if v == e.0 then {e.1} else {}) + if v == e.1 then {e.0} else {}
    ensures Reads(edges + [e], given, nodes', outgoing', undirected')
  {
    NeighboursRead(edges, e, outgoing, undirected, outgoing', undirected');
    forall v ensures v in nodes' <==> v in given || Neighbours(edges + [e], v) != {} {
      EndpointsHaveNeighbours(edges, e, v);
    }
  }

  lemma NeighboursRead(edges: seq<Edge>, e: Edge, outgoing: Adjacency, undirected: Adjacency,
                       outgoing': Adjacency, undirected': Adjacency)
    requires forall v :: At(outgoing, v) == Targets(edges, v) && At(undirected, v) == Neighbours(edges, v)
    requires forall v :: At(outgoing', v) == At(outgoing, v) + if v == e.0 then {e.1} else {}
    requires forall v ::
               At(undirected', v)
               == At(undirected, v) + (if v == e.0 then {e.1} else {}) + if v == e.1 then {e.0} else {}
    ensures forall v :: At(outgoing', v) == Targets(edges + [e], v)
    ensures forall v :: At(undirected', v) == Neighbours(edges + [e], v)
  {
    forall v
      ensures At(outgoing', v) == Targets(edges + [e], v) && At(undirected', v) == Neighbours(edges + [e], v)
    {
      EdgeAppended(edges, e, v);
    }
  }

  lemma EndpointsHaveNeighbours(edges: seq<Edge>, e: Edge, v: Node)
    ensures Neighbours(edges + [e], v) != {} <==> Neighbours(edges, v) != {} || v == e.0 || v == e.1
  {
    EdgeAppended(edges, e, v);
    assert v == e.0 ==> e.1 in Neighbours(edges + [e], v);
    assert v == e.1 ==> e.0 in Neighbours(edges + [e], v);
  }

  method LinkBoth(m: Adjacency, from: Node, to: Node) returns (r: Adjacency)
    ensures forall v :: At(r, v) == At(m, v) + (if v == from then {to} else {}) + if v == to then {from} else {}
  {
    r := AddNeighbour(m, from, to);
    r := AddNeighbour(r, to, from);
  }

  method ReadEdges(edges: seq<Edge>, given: seq<Node>, start: seq<Node>)
    returns (nodes: seq<Node>, outgoing: Adjacency, undirected: Adjacency)
    requires Distinct(start) && forall v :: v in start <==> v in given
    ensures Reads(edges, given, nodes, outgoing, undirected)
  {
    nodes, outgoing, undirected := start, map[], map[];
    assert forall v :: Targets([], v) == {} && Sources([], v) == {};
    for i := 0 to |edges|
      invariant Reads(edges[..i], given, nodes, outgoing, undirected)
    {
      ghost var nodes', outgoing', undirected' := nodes, outgoing, undirected;
      var (from, to) := edges[i];
      nodes := AddNode(nodes, from);
      nodes := AddNode(nodes, to);
      outgoing := AddNeighbour(outgoing, from, to);
      undirected := LinkBoth(undirected, from, to);
      ReadOneMore(edges[..i], edges[i], given, nodes', outgoing', undirected', nodes, outgoing, undirected);
      assert edges[..i + 1] == edges[..i] + [edges[i]];
    }
    assert edges[..|edges|] == edges;
  }

  method CountPartners(edges: seq<Edge>, nodes: seq<Node>, outgoing: Adjacency) returns (partners: map<Node, nat>)
    requires forall v :: At(outgoing, v) == Targets(edges, v)
    ensures forall v | v in nodes :: v in partners && partners[v] == MutualCount(edges, v)
  {
    partners := map[];
    for i := 0 to |nodes|
      invariant forall v | v in nodes[..i] :: v in partners && partners[v] == MutualCount(edges, v)
    {
      var count := CountReciprocal(edges, At(outgoing, nodes[i]), nodes[i]);
      partners := partners[nodes[i] := count];
    }
    assert nodes[..|nodes|] == nodes;
  }

  method CountReciprocal(edges: seq<Edge>, targets: set<Node>, v: Node) returns (count: nat)
    requires targets == Targets(edges, v)
    ensures count == MutualCount(edges, v)
  {
    count := 0;
    var todo := targets;
    assert (targets - todo) * Sources(edges, v) == {};
    while todo != {}
      invariant todo <= targets && count == |(targets - todo) * Sources(edges, v)|
    {
      var u :| u in todo;
      CountStep(edges, v, targets, todo, u);
      todo := todo - {u};
      if (u, v) in edges { count := count + 1; }
    }
  }

  lemma CountStep(edges: seq<Edge>, v: Node, targets: set<Node>, todo: set<Node>, u: Node)
    requires u in todo && todo <= targets
    ensures |(targets - (todo - {u})) * Sources(edges, v)|
              == |(targets - todo) * Sources(edges, v)| + if (u, v) in edges then 1 else 0
  {
    var before, after := (targets - todo) * Sources(edges, v), (targets - (todo - {u})) * Sources(edges, v);
    assert u in Sources(edges, v) <==> (u, v) in edges;
    if (u, v) in edges {
      assert after == before + {u};
    } else {
      assert after == before;
    }
  }

  // ---------------------------------------------------------------------------
  // Detectors by share and by number of mutual ratings

  function PartnersOf(g: Graph, v: Node): nat {
    if v in g.reciprocalPartners then g.reciprocalPartners[v] else 0
  }

  /** `v` rates someone, and at least this share of those it rates rate it back. */
  predicate Reciprocates(g: Graph, threshold: real, v: Node) {
    |At(g.outgoing, v)| > 0 && PartnersOf(g, v) as real / |At(g.outgoing, v)| as real >= threshold
  }

  method DetectByReciprocity(g: Graph, threshold: real) returns (flagged: set<Node>)
    ensures forall v :: v in flagged <==> v in g.nodes && Reciprocates(g, threshold, v)
  {
    flagged := {};
    for i := 0 to |g.nodes|
      invariant forall v :: v in flagged <==> v in g.nodes[..i] && Reciprocates(g, threshold, v)
    {
      var v := g.nodes[i];
      if v in g.outgoing && |g.outgoing[v]| > 0 {
        var reciprocal := if v in g.reciprocalPartners then g.reciprocalPartners[v] else 0;
        if reciprocal as real / |g.outgoing[v]| as real >= threshold { flagged := flagged + {v}; }
      }
    }
    assert g.nodes[..|g.nodes|] == g.nodes;
  }

  method DetectByMutualDegree(g: Graph, minPartners: int) returns (flagged: set<Node>)
    ensures forall v :: v in flagged <==> v in g.nodes && PartnersOf(g, v) >= minPartners
  {
    flagged := {};
    for i := 0 to |g.nodes|
      invariant forall v :: v in flagged <==> v in g.nodes[..i] && PartnersOf(g, v) >= minPartners
    {
      var v := g.nodes[i];
      if (if v in g.reciprocalPartners then g.reciprocalPartners[v] else 0) >= minPartners { flagged := flagged + {v}; }
    }
    assert g.nodes[..|g.nodes|] == g.nodes;
  }
}
