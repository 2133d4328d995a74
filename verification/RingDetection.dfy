/** The detectors against a planted ring: every member rates every other, and honest agents rate only
    each other. */
module RingDetection {
  import opened Words
  import opened Sums
  import opened RatingGraph
  import opened KCore

  /** Honest agents are numbered from here, so a ring of at most this size stays apart from them. */
  const HONEST_BASE: nat := 1000

  datatype DetectorResult = DetectorResult(
    flagged: nat,
    truePositives: nat,
    falsePositives: nat,
    falseNegatives: nat,
    precision: real,
    recall: real,
    f1: real)

  /** How many of the flagged nodes were planted. */
  method CountPlanted(flagged: set<Node>, planted: set<Node>) returns (truePositives: nat)
    ensures truePositives == |flagged * planted|
  {
    truePositives := 0;
    var todo := flagged;
    while todo != {}
      invariant todo <= flagged && truePositives == |(flagged - todo) * planted|
    {
      var v :| v in todo;
      var rest := todo - {v};
      if v in planted {
        assert (flagged - rest) * planted == (flagged - todo) * planted + {v};
        truePositives := truePositives + 1;
      } else {
        assert (flagged - rest) * planted == (flagged - todo) * planted;
      }
      todo := rest;
    }
    assert flagged - todo == flagged;
  }

  /** `part` of `whole` as a share, zero where undefined. */
  ghost predicate IsShare(x: real, part: nat, whole: nat) {
    if whole == 0 then x == 0.0 else x * whole as real == part as real
  }

  /** The verdict on a flag set: hits and misses, the shares of hits among the flagged and among the
      planted, and the share of hits, counted twice, in both together. */
  ghost predicate IsVerdict(r: DetectorResult, flagged: set<Node>, planted: set<Node>) {
    && r.flagged == |flagged| && r.truePositives == |flagged * planted|
    && r.falsePositives == |flagged - planted| && r.falseNegatives == |planted - flagged|
    && IsShare(r.precision, r.truePositives, |flagged|)
    && IsShare(r.recall, r.truePositives, |planted|)
    && IsShare(r.f1, 2 * r.truePositives, |flagged| + |planted|)
  }

  /** The source computes the last share as the harmonic mean of the other two. */
  method Evaluate(flagged: set<Node>, planted: set<Node>) returns (r: DetectorResult)
    ensures IsVerdict(r, flagged, planted)
    ensures r.recall == 1.0 <==> planted != {} && planted <= flagged
    ensures r.recall == 0.0 <==> planted !! flagged
    ensures r.precision == 1.0 <==> flagged != {} && flagged <= planted
    ensures r.f1 == 0.0 <==> planted !! flagged
  {
    var truePositives := CountPlanted(flagged, planted);
    var precision := if |flagged| == 0 then 0.0 else truePositives as real / |flagged| as real;
    var recall := if |planted| == 0 then 0.0 else truePositives as real / |planted| as real;
    var f1 := if precision + recall == 0.0 then 0.0 else 2.0 * precision * recall / (precision + recall);
    SplitSize(flagged, planted);
    SplitSize(planted, flagged);
    assert planted * flagged == flagged * planted;
    ShareOf(flagged, planted, precision);
    ShareOf(planted, flagged, recall);
    HarmonicMean(precision, recall, f1, truePositives, |flagged|, |planted|);
    DisjointIsEmpty(flagged, planted);
    r := DetectorResult(|flagged|, truePositives, |flagged| - truePositives, |planted| - truePositives, precision,
        recall, f1);
  }

  lemma DisjointIsEmpty(a: set<Node>, b: set<Node>)
    ensures a !! b <==> |a * b| == 0
  {
    if |a * b| == 0 {
      assert a * b == {};
      forall v | v in a ensures v !in b { assert v in b ==> v in a * b; }
    }
  }

  lemma ShareOf(whole: set<Node>, other: set<Node>, share: real)
    requires share == if |whole| == 0 then 0.0 else |whole * other| as real / |whole| as real
    ensures share >= 0.0 && IsShare(share, |whole * other|, |whole|)
    ensures share == 0.0 <==> whole !! other
    ensures share == 1.0 <==> whole != {} && whole <= other
  {
    if whole == {} {
      assert whole * other == {};
    } else {
      WholeShare(|whole * other|, |whole|);
      SplitSize(whole, other);
      DisjointIsEmpty(whole, other);
      AllFound(other, whole);
    }
  }

  lemma HarmonicMean(precision: real, recall: real, f1: real, hits: nat, flagged: nat, planted: nat)
    requires precision >= 0.0 && recall >= 0.0 && hits <= flagged && hits <= planted
    requires IsShare(precision, hits, flagged) && IsShare(recall, hits, planted)
    requires f1 == if precision + recall == 0.0 then 0.0 else 2.0 * precision * recall / (precision + recall)
    ensures IsShare(f1, 2 * hits, flagged + planted)
    ensures f1 == 0.0 <==> hits == 0
  {
    if hits == 0 {
      NoShare(precision, flagged);
      NoShare(recall, planted);
    } else {
      assert precision > 0.0 && recall > 0.0;
      var sum, product, h := precision + recall, 2.0 * precision * recall, hits as real;
      assert product / sum * sum == product;
      HarmonicProduct(precision, recall, f1, h, flagged as real, planted as real);
    }
  }

  lemma NoShare(x: real, whole: nat)
    requires IsShare(x, 0, whole)
    ensures x == 0.0
  {
  }

  lemma HarmonicProduct(p: real, r: real, f: real, h: real, flagged: real, planted: real)
    requires p * flagged == h && r * planted == h && h > 0.0
    requires f * (p + r) == 2.0 * p * r
    ensures f * (flagged + planted) == 2.0 * h
  {
    calc {
      f * (flagged + planted) * h;
      f * (flagged * (r * planted) + planted * (p * flagged));
      f * (p + r) * (flagged * planted);
      2.0 * p * r * (flagged * planted);
      2.0 * (p * flagged) * (r * planted);
      2.0 * h * h;
    }
    CancelFactor(f * (flagged + planted), 2.0 * h, h);
  }

  lemma CancelFactor(a: real, b: real, h: real)
    requires a * h == b * h && h > 0.0
    ensures a == b
  {
  }

  lemma AllFound(flagged: set<Node>, planted: set<Node>)
    ensures planted <= flagged <==> |planted - flagged| == 0
  {
    forall v | v in planted ensures v in flagged || v in planted - flagged {}
    assert planted <= flagged ==> planted - flagged == {};
  }

  lemma SplitSize(a: set<Node>, b: set<Node>)
    ensures |a| == |a * b| + |a - b|
  {
    assert a == (a * b) + (a - b) && (a * b) !! (a - b);
  }

  lemma WholeShare(part: nat, whole: nat)
    requires whole > 0
    ensures var x := part as real / whole as real;
            x >= 0.0 && x * whole as real == part as real && (x == 1.0 <==> part == whole) && (x == 0.0 <==> part == 0)
  {
    var x := part as real / whole as real;
    assert x * whole as real == part as real;
  }

  // ---------------------------------------------------------------------------
  // The planted graph

  function RingNodes(size: nat): (nodes: seq<Node>)
    ensures |nodes| == size && forall v: nat :: v in nodes <==> v < size
  {
    if size == 0 then [] else RingNodes(size - 1) + [size - 1]
  }

  /** All ordered pairs of ring members, each at least once, and nothing else. */
  ghost predicate IsRing(edges: seq<Edge>, size: nat) {
    forall u: Node, v: Node :: (u, v) in edges <==> u < size && v < size && u != v
  }

  ghost predicate AmongHonest(edges: seq<Edge>) {
    forall e | e in edges :: e.0 >= HONEST_BASE && e.1 >= HONEST_BASE
  }

  ghost predicate IsHonest(nodes: seq<Node>) {
    forall v | v in nodes :: v >= HONEST_BASE
  }

  lemma RingNeighbours(ring: seq<Edge>, honest: seq<Edge>, size: nat, v: Node)
    requires IsRing(ring, size) && AmongHonest(honest) && size <= HONEST_BASE
    ensures v < size ==> Targets(ring + honest, v) == Sources(ring + honest, v) == Below(size) - {v}
    ensures v >= HONEST_BASE ==>
              && Neighbours(ring + honest, v) == Neighbours(honest, v)
              && Neighbours(honest, v) !! Below(size)
  {
    forall u
      ensures u in Targets(ring + honest, v) <==> (v, u) in ring || (v, u) in honest
      ensures u in Sources(ring + honest, v) <==> (u, v) in ring || (u, v) in honest
      ensures u in Neighbours(honest, v) <==> (u, v) in honest || (v, u) in honest
    {
      assert (v, u) in ring + honest <==> (v, u) in ring || (v, u) in honest;
      assert (u, v) in ring + honest <==> (u, v) in ring || (u, v) in honest;
    }
  }

  lemma OthersBelow(size: nat, v: Node)
    requires v < size
    ensures |Below(size) - {v}| == size - 1
  {
  }

  /** Every ring member is flagged by reciprocity when the threshold is at most one, and by mutual
      degree when it has enough partners. */
  lemma RingIsReciprocal(g: Graph, ring: seq<Edge>, honest: seq<Edge>, given: seq<Node>, size: nat, v: Node)
    requires IsGraphOf(g, ring + honest, given)
    requires IsRing(ring, size) && AmongHonest(honest) && size <= HONEST_BASE && v < size && v in given
    ensures v in g.nodes && v in g.reciprocalPartners && g.reciprocalPartners[v] == size - 1
    ensures |At(g.outgoing, v)| == size - 1
  {
    RingNeighbours(ring, honest, size, v);
    OthersBelow(size, v);
    assert At(g.outgoing, v) == Targets(ring + honest, v);
    assert Mutual(ring + honest, v) == Below(size) - {v};
    assert MutualCount(ring + honest, v) == size - 1;
  }

  /** Whether a set holds the whole ring or none of it. */
  ghost predicate HasRing(flagged: set<Node>, ring: set<Node>, whole: bool) {
    flagged * ring == if whole then ring else {}
  }

  /** Reciprocity flags the whole ring for a threshold of at most one, and else none of it; mutual degree
      flags the whole ring when it has enough partners, and else none of it. */
  lemma RingIsFlaggedAlike(g: Graph, ring: seq<Edge>, honest: seq<Edge>, given: seq<Node>, size: nat, threshold: real,
                           minPartners: int, reciprocity: set<Node>, mutualDegree: set<Node>)
    requires IsGraphOf(g, ring + honest, given)
    requires IsRing(ring, size) && AmongHonest(honest) && 2 <= size <= HONEST_BASE
    requires forall v: Node | v < size :: v in given
    requires forall v :: v in reciprocity <==> v in g.nodes && Reciprocates(g, threshold, v)
    requires forall v :: v in mutualDegree <==> v in g.nodes && PartnersOf(g, v) >= minPartners
    ensures HasRing(reciprocity, Below(size), threshold <= 1.0)
    ensures HasRing(mutualDegree, Below(size), minPartners <= size - 1)
  {
    forall v | v in Below(size)
      ensures v in reciprocity <==> threshold <= 1.0
      ensures v in mutualDegree <==> minPartners <= size - 1
    {
      RingIsReciprocal(g, ring, honest, given, size, v);
      WholeShare(size - 1, size - 1);
    }
    AlikeIsAllOrNone(reciprocity, Below(size), threshold <= 1.0);
    AlikeIsAllOrNone(mutualDegree, Below(size), minPartners <= size - 1);
  }

  lemma AlikeIsAllOrNone(flagged: set<Node>, ring: set<Node>, whole: bool)
    requires forall v | v in ring :: v in flagged <==> whole
    ensures HasRing(flagged, ring, whole)
  {
  }

  /** The mixed graph is the honest graph and a clique of the ring, with no edge between them. */
  ghost predicate Mixes(nodes: set<Node>, adj: Adjacency, honestNodes: set<Node>, honestAdj: Adjacency,
                        ring: set<Node>)
  {
    && nodes == honestNodes + ring
    && honestNodes !! ring
    && (forall v | v in honestNodes :: At(adj, v) == At(honestAdj, v) && At(honestAdj, v) !! ring)
    && (forall v | v in ring :: At(adj, v) == ring - {v})
  }

  /** The k-core of the mixed graph is the k-core of the honest graph alone, together with the whole
      ring exactly when the ring is dense enough. */
  lemma RingCore(nodes: set<Node>, adj: Adjacency, honestNodes: set<Node>, honestAdj: Adjacency, ring: set<Node>,
                 k: int, core: set<Node>, honestCore: set<Node>)
    requires Mixes(nodes, adj, honestNodes, honestAdj, ring)
    requires IsKCore(nodes, adj, k, core) && IsKCore(honestNodes, honestAdj, k, honestCore)
    ensures core == honestCore + RingIn(ring, k)
  {
    UnionIsDense(nodes, adj, honestNodes, honestAdj, ring, k, honestCore);
    HonestPartIsDense(nodes, adj, honestNodes, honestAdj, ring, k, core);
    var kept := RingIn(ring, k);
    assert honestCore + kept <= core && core - ring <= honestCore;
    forall v | v in core ensures v in honestCore + kept {
      if v in ring { RingNeedsSize(adj, ring, core, k, v); }
    }
  }

  function RingIn(ring: set<Node>, k: int): set<Node> {
    if k <= |ring| - 1 then ring else {}
  }

  lemma RingNeedsSize(adj: Adjacency, ring: set<Node>, core: set<Node>, k: int, v: Node)
    requires v in ring && At(adj, v) == ring - {v} && DegreeIn(adj, core, v) >= k
    ensures k <= |ring| - 1
  {
    SubsetSize(At(adj, v) * core, ring - {v});
  }

  /** A clique without outside neighbours lies in the k-core as a whole or not at all. */
  lemma RingInCore(nodes: set<Node>, adj: Adjacency, ring: set<Node>, k: int, core: set<Node>)
    requires ring <= nodes && (forall v | v in ring :: At(adj, v) == ring - {v}) && IsKCore(nodes, adj, k, core)
    ensures HasRing(core, ring, k <= |ring| - 1)
  {
    if k <= |ring| - 1 {
      forall v | v in ring ensures DegreeIn(adj, ring, v) >= k { RingDegree(adj, ring, ring, v); }
      assert Dense(nodes, adj, ring, k);
    } else {
      forall v | v in core ensures v !in ring {
        if v in ring {
          assert DegreeIn(adj, core, v) >= k;
          RingNeedsSize(adj, ring, core, k, v);
        }
      }
    }
  }

  lemma UnionIsDense(nodes: set<Node>, adj: Adjacency, honestNodes: set<Node>, honestAdj: Adjacency, ring: set<Node>,
                     k: int, honestCore: set<Node>)
    requires Mixes(nodes, adj, honestNodes, honestAdj, ring) && Dense(honestNodes, honestAdj, honestCore, k)
    ensures Dense(nodes, adj, honestCore + RingIn(ring, k), k)
  {
    var members := honestCore + RingIn(ring, k);
    forall v | v in members ensures DegreeIn(adj, members, v) >= k {
      if v in honestCore {
        assert DegreeIn(honestAdj, honestCore, v) >= k;
        SubsetSize(At(honestAdj, v) * honestCore, At(adj, v) * members);
      } else {
        RingDegree(adj, ring, members, v);
      }
    }
  }

  lemma RingDegree(adj: Adjacency, ring: set<Node>, members: set<Node>, v: Node)
    requires v in ring && At(adj, v) == ring - {v} && ring <= members
    ensures DegreeIn(adj, members, v) == |ring| - 1
  {
    assert At(adj, v) * members == ring - {v};
  }

  lemma HonestPartIsDense(nodes: set<Node>, adj: Adjacency, honestNodes: set<Node>, honestAdj: Adjacency,
                          ring: set<Node>, k: int, core: set<Node>)
    requires Mixes(nodes, adj, honestNodes, honestAdj, ring) && Dense(nodes, adj, core, k)
    ensures Dense(honestNodes, honestAdj, core - ring, k)
  {
    var rest := core - ring;
    forall v | v in rest ensures DegreeIn(honestAdj, rest, v) >= k {
      assert DegreeIn(adj, core, v) >= k;
      assert At(adj, v) * core == At(honestAdj, v) * rest;
    }
  }

  lemma GraphAt(g: Graph, edges: seq<Edge>, given: seq<Node>, v: Node)
    requires IsGraphOf(g, edges, given)
    ensures At(g.undirected, v) == Neighbours(edges, v)
    ensures v in g.nodes <==> v in given || Neighbours(edges, v) != {}
  {
  }

  lemma PlantedNode(ring: seq<Edge>, honest: seq<Edge>, size: nat, v: Node)
    requires IsRing(ring, size) && AmongHonest(honest) && size <= HONEST_BASE
    ensures v < size ==> Neighbours(ring + honest, v) == Below(size) - {v}
    ensures v >= size ==> Neighbours(ring + honest, v) == Neighbours(honest, v) && Neighbours(honest, v) !! Below(size)
    ensures v < HONEST_BASE ==> Neighbours(honest, v) == {}
  {
    RingNeighbours(ring, honest, size, v);
    if size <= v < HONEST_BASE {
      assert forall e | e in ring + honest :: e in ring || e in honest;
      assert Neighbours(ring + honest, v) == {};
    }
  }

  /** Where one node stands in the two graphs. */
  lemma PlantedStands(g: Graph, alone: Graph, ring: seq<Edge>, honest: seq<Edge>, given: seq<Node>,
                      honestNodes: seq<Node>, size: nat, v: Node)
    requires IsRing(ring, size) && AmongHonest(honest) && size <= HONEST_BASE && IsHonest(honestNodes)
    requires v in given <==> v < size || v in honestNodes
    requires IsGraphOf(g, ring + honest, given) && IsGraphOf(alone, honest, honestNodes)
    ensures v in g.nodes <==> v in alone.nodes || v < size
    ensures v in alone.nodes ==> v >= size
    ensures v in alone.nodes ==>
              && At(g.undirected, v) == At(alone.undirected, v)
              && At(alone.undirected, v) !! Below(size)
    ensures v < size ==> At(g.undirected, v) == Below(size) - {v}
  {
    GraphAt(g, ring + honest, given, v);
    GraphAt(alone, honest, honestNodes, v);
    PlantedNode(ring, honest, size, v);
  }

  lemma PlantedGraphMixes(g: Graph, alone: Graph, ring: seq<Edge>, honest: seq<Edge>, given: seq<Node>,
                          honestNodes: seq<Node>, size: nat)
    requires IsRing(ring, size) && AmongHonest(honest) && size <= HONEST_BASE && IsHonest(honestNodes)
    requires forall v: Node :: v in given <==> v < size || v in honestNodes
    requires IsGraphOf(g, ring + honest, given) && IsGraphOf(alone, honest, honestNodes)
    ensures Mixes(Members(g.nodes), g.undirected, Members(alone.nodes), alone.undirected, Below(size))
  {
    forall v: Node
      ensures v in Members(g.nodes) <==> v in Members(alone.nodes) || v in Below(size)
      ensures v in Members(alone.nodes) ==> v !in Below(size)
      ensures v in Members(alone.nodes) ==>
                At(g.undirected, v) == At(alone.undirected, v) && At(alone.undirected, v) !! Below(size)
      ensures v in Below(size) ==> At(g.undirected, v) == Below(size) - {v}
    {
      PlantedStands(g, alone, ring, honest, given, honestNodes, size, v);
    }
  }

  /** The verdicts in the order of the report, the ensemble last. */
  ghost predicate AreVerdicts(detectors: seq<DetectorResult>, reciprocity: set<Node>, mutualDegree: set<Node>,
                              kCore: set<Node>, planted: set<Node>)
  {
    && |detectors| == 4
    && IsVerdict(detectors[0], reciprocity, planted)
    && IsVerdict(detectors[1], mutualDegree, planted)
    && IsVerdict(detectors[2], kCore, planted)
    && IsVerdict(detectors[3], reciprocity + mutualDegree + kCore, planted)
  }

  method Judge(reciprocity: set<Node>, mutualDegree: set<Node>, kCore: set<Node>, planted: set<Node>)
    returns (detectors: seq<DetectorResult>)
    ensures AreVerdicts(detectors, reciprocity, mutualDegree, kCore, planted)
  {
    var first := Evaluate(reciprocity, planted);
    var second := Evaluate(mutualDegree, planted);
    var third := Evaluate(kCore, planted);
    var ensemble := Evaluate(reciprocity + mutualDegree + kCore, planted);
    detectors := [first, second, third, ensemble];
  }

  /** A flag set with all planted nodes or none of them has recall one or zero. */
  lemma RecallOfWhole(r: DetectorResult, flagged: set<Node>, planted: set<Node>, whole: bool)
    requires IsVerdict(r, flagged, planted) && HasRing(flagged, planted, whole) && planted != {}
    ensures r.recall == if whole then 1.0 else 0.0
    ensures r.falseNegatives == if whole then 0 else |planted|
  {
    MissedAll(planted, flagged);
    ShareIsWhole(r.recall, r.truePositives, |planted|);
  }

  lemma ShareIsWhole(x: real, part: nat, whole: nat)
    requires IsShare(x, part, whole) && whole > 0
    ensures part == whole ==> x == 1.0
    ensures part == 0 ==> x == 0.0
  {
    if part == whole { CancelFactor(x, 1.0, whole as real); }
  }

  lemma MissedAll(planted: set<Node>, flagged: set<Node>)
    ensures planted !! flagged ==> |planted - flagged| == |planted|
    ensures planted <= flagged ==> |planted - flagged| == 0
  {
    assert planted !! flagged ==> planted - flagged == planted;
    assert planted <= flagged ==> planted - flagged == {};
  }

  lemma EnsembleHasRing(a: set<Node>, b: set<Node>, c: set<Node>, planted: set<Node>, inA: bool, inB: bool, inC: bool)
    requires HasRing(a, planted, inA) && HasRing(b, planted, inB) && HasRing(c, planted, inC)
    ensures HasRing(a + b + c, planted, inA || inB || inC)
  {
    assert (a + b + c) * planted == a * planted + b * planted + c * planted;
  }

  /** The mixed graph over the nodes the scenario lists. */
  ghost predicate Planted(g: Graph, ring: seq<Edge>, honest: seq<Edge>, honestNodes: seq<Node>, size: nat) {
    && IsRing(ring, size) && AmongHonest(honest) && 2 <= size <= HONEST_BASE && IsHonest(honestNodes)
    && IsGraphOf(g, ring + honest, RingNodes(size) + honestNodes)
  }

  lemma FlagsOfPlanted(g: Graph, ring: seq<Edge>, honest: seq<Edge>, honestNodes: seq<Node>, size: nat,
                       threshold: real, minPartners: int, reciprocity: set<Node>, mutualDegree: set<Node>)
    requires Planted(g, ring, honest, honestNodes, size)
    requires forall v :: v in reciprocity <==> v in g.nodes && Reciprocates(g, threshold, v)
    requires forall v :: v in mutualDegree <==> v in g.nodes && PartnersOf(g, v) >= minPartners
    ensures HasRing(reciprocity, Below(size), threshold <= 1.0)
    ensures HasRing(mutualDegree, Below(size), minPartners <= size - 1)
  {
    var given := RingNodes(size) + honestNodes;
    forall v: Node | v < size ensures v in given { assert v in RingNodes(size); }
    RingIsFlaggedAlike(g, ring, honest, given, size, threshold, minPartners, reciprocity, mutualDegree);
  }

  lemma CoreHasRing(g: Graph, ring: seq<Edge>, honest: seq<Edge>, honestNodes: seq<Node>, size: nat, k: int,
                    core: set<Node>)
    requires Planted(g, ring, honest, honestNodes, size)
    requires IsKCore(Members(g.nodes), g.undirected, k, core)
    ensures HasRing(core, Below(size), k <= size - 1)
  {
    var given := RingNodes(size) + honestNodes;
    forall v | v in Below(size) ensures v in Members(g.nodes) && At(g.undirected, v) == Below(size) - {v} {
      assert v in RingNodes(size);
      GraphAt(g, ring + honest, given, v);
      PlantedNode(ring, honest, size, v);
    }
    RingInCore(Members(g.nodes), g.undirected, Below(size), k, core);
  }

  lemma CoreOfPlanted(g: Graph, alone: Graph, ring: seq<Edge>, honest: seq<Edge>, honestNodes: seq<Node>, size: nat,
                      k: int, core: set<Node>, honestCore: set<Node>)
    requires Planted(g, ring, honest, honestNodes, size) && IsGraphOf(alone, honest, honestNodes)
    requires IsKCore(Members(g.nodes), g.undirected, k, core)
    requires IsKCore(Members(alone.nodes), alone.undirected, k, honestCore)
    ensures core == honestCore + if k <= size - 1 then Below(size) else {}
  {
    var given := RingNodes(size) + honestNodes;
    forall v: Node ensures v in given <==> v < size || v in honestNodes {
      assert v in given <==> v in RingNodes(size) || v in honestNodes;
    }
    PlantedGraphMixes(g, alone, ring, honest, given, honestNodes, size);
    RingCore(Members(g.nodes), g.undirected, Members(alone.nodes), alone.undirected, Below(size), k, core, honestCore);
  }

  /** One of the detectors catches the ring. */
  predicate RingIsCaught(size: nat, reciprocityThreshold: real, coreThreshold: int) {
    reciprocityThreshold <= 1.0 || size >= 4 || coreThreshold <= size - 1
  }

  ghost function OutDegree(edges: seq<Edge>, v: Node): nat {
    |Targets(edges, v)|
  }

  /** `v` rates someone, and the given share of those it rates at least rate it back. */
  ghost predicate ReturnsShare(edges: seq<Edge>, threshold: real, v: Node) {
    OutDegree(edges, v) > 0 && MutualCount(edges, v) as real >= threshold * OutDegree(edges, v) as real
  }

  /** `v` has at least three mutual partners, and as many as half the other ring members. */
  ghost predicate HasPartners(edges: seq<Edge>, size: nat, v: Node) {
    MutualCount(edges, v) >= 3 && MutualCount(edges, v) >= (size - 1) / 2
  }

  ghost function NeighboursIn(edges: seq<Edge>, members: set<Node>, v: Node): nat {
    |Neighbours(edges, v) * members|
  }

  /** Listed or rating agents, each with `k` of the others it shares a rating with. */
  ghost predicate DenselyRated(edges: seq<Edge>, given: seq<Node>, members: set<Node>, k: int) {
    forall v {:trigger NeighboursIn(edges, members, v)} | v in members ::
      (v in given || Neighbours(edges, v) != {}) && NeighboursIn(edges, members, v) >= k
  }

  /** What the three detectors flag among all nodes, told by the ratings alone. */
  ghost predicate FlagsOf(edges: seq<Edge>, given: seq<Node>, size: nat, reciprocityThreshold: real,
                          coreThreshold: int, reciprocity: set<Node>, mutualDegree: set<Node>, kCore: set<Node>)
  {
    && (forall v :: v in reciprocity <==> ReturnsShare(edges, reciprocityThreshold, v))
    && (forall v :: v in mutualDegree <==> HasPartners(edges, size, v))
    && DenselyRated(edges, given, kCore, coreThreshold)
    && (forall members | DenselyRated(edges, given, members, coreThreshold) :: members <= kCore)
  }

  lemma ShareAtLeast(part: nat, whole: nat, threshold: real)
    requires whole > 0
    ensures part as real / whole as real >= threshold <==> part as real >= threshold * whole as real
  {
    var x, w := part as real / whole as real, whole as real;
    assert x * w == part as real;
    assert x >= threshold ==> (x - threshold) * w >= 0.0;
    assert x < threshold ==> (threshold - x) * w > 0.0;
  }

  lemma RatingsAreEdges(edges: seq<Edge>, v: Node)
    ensures OutDegree(edges, v) > 0 || MutualCount(edges, v) > 0 ==> Neighbours(edges, v) != {}
  {
    assert Targets(edges, v) <= Neighbours(edges, v) && Mutual(edges, v) <= Neighbours(edges, v);
  }

  lemma ReciprocityReads(g: Graph, edges: seq<Edge>, given: seq<Node>, threshold: real, v: Node)
    requires IsGraphOf(g, edges, given)
    ensures v in g.nodes && Reciprocates(g, threshold, v) <==> ReturnsShare(edges, threshold, v)
  {
    RatingsAreEdges(edges, v);
    assert At(g.outgoing, v) == Targets(edges, v);
    if v in g.nodes && OutDegree(edges, v) > 0 {
      assert PartnersOf(g, v) == MutualCount(edges, v);
      ShareAtLeast(MutualCount(edges, v), OutDegree(edges, v), threshold);
    }
  }

  lemma PartnersRead(g: Graph, edges: seq<Edge>, given: seq<Node>, minPartners: int, v: Node)
    requires IsGraphOf(g, edges, given) && minPartners > 0
    ensures v in g.nodes && PartnersOf(g, v) >= minPartners <==> MutualCount(edges, v) >= minPartners
  {
    RatingsAreEdges(edges, v);
    if v in g.nodes { assert PartnersOf(g, v) == MutualCount(edges, v); }
  }

  lemma CoreReads(g: Graph, edges: seq<Edge>, given: seq<Node>, members: set<Node>, k: int)
    requires IsGraphOf(g, edges, given)
    ensures Dense(Members(g.nodes), g.undirected, members, k) <==> DenselyRated(edges, given, members, k)
  {
    forall v
      ensures v in Members(g.nodes) <==> v in given || Neighbours(edges, v) != {}
      ensures DegreeIn(g.undirected, members, v) == NeighboursIn(edges, members, v)
    {
      GraphAt(g, edges, given, v);
    }
  }

  lemma DetectorsRead(g: Graph, edges: seq<Edge>, given: seq<Node>, size: nat, reciprocityThreshold: real,
                      coreThreshold: int, minPartners: int, reciprocity: set<Node>, mutualDegree: set<Node>,
                      kCore: set<Node>)
    requires IsGraphOf(g, edges, given) && minPartners == Max(3, (size - 1) / 2)
    requires forall v :: v in reciprocity <==> v in g.nodes && Reciprocates(g, reciprocityThreshold, v)
    requires forall v :: v in mutualDegree <==> v in g.nodes && PartnersOf(g, v) >= minPartners
    requires IsKCore(Members(g.nodes), g.undirected, coreThreshold, kCore)
    ensures FlagsOf(edges, given, size, reciprocityThreshold, coreThreshold, reciprocity, mutualDegree, kCore)
  {
    forall v ensures v in reciprocity <==> ReturnsShare(edges, reciprocityThreshold, v) {
      ReciprocityReads(g, edges, given, reciprocityThreshold, v);
    }
    forall v ensures v in mutualDegree <==> HasPartners(edges, size, v) {
      PartnersRead(g, edges, given, minPartners, v);
    }
    forall members
      ensures Dense(Members(g.nodes), g.undirected, members, coreThreshold)
         <==> DenselyRated(edges, given, members, coreThreshold)
    {
      CoreReads(g, edges, given, members, coreThreshold);
    }
  }

  /** The detection stage of the ring scenario. Each detector flags exactly the nodes of the mixed graph
      that its rule describes in terms of the ratings, and the verdicts are those on the three flag sets and
      on their union. For any honest-to-honest ratings each detector flags the whole ring or none of it, so
      the ensemble has recall one if one of them catches it and else zero. */
  method RunDetectors(ghost ring: seq<Edge>, ghost honest: seq<Edge>, edges: seq<Edge>, size: nat,
                      honestNodes: seq<Node>, reciprocityThreshold: real, coreThreshold: int)
    returns (reciprocity: set<Node>, mutualDegree: set<Node>, kCore: set<Node>, detectors: seq<DetectorResult>)
    requires edges == ring + honest
    requires IsRing(ring, size) && AmongHonest(honest) && 2 <= size <= HONEST_BASE && IsHonest(honestNodes)
    ensures FlagsOf(edges, RingNodes(size) + honestNodes, size, reciprocityThreshold, coreThreshold,
              reciprocity, mutualDegree, kCore)
    ensures AreVerdicts(detectors, reciprocity, mutualDegree, kCore, Below(size))
    ensures detectors[3].recall == if RingIsCaught(size, reciprocityThreshold, coreThreshold) then 1.0 else 0.0
    ensures detectors[3].falseNegatives == if RingIsCaught(size, reciprocityThreshold, coreThreshold) then 0 else size
    ensures forall alone, core |
              IsGraphOf(alone, honest, honestNodes)
                  && IsKCore(Members(alone.nodes), alone.undirected, coreThreshold, core) ::
              kCore == core + if coreThreshold <= size - 1 then Below(size) else {}
  {
    var minPartners := Max(3, (size - 1) / 2);
    var given := RingNodes(size) + honestNodes;
    var g := BuildGraph(edges, given);
    BuiltGraphsAreSymmetric(g, edges, given);
    reciprocity := DetectByReciprocity(g, reciprocityThreshold);
    mutualDegree := DetectByMutualDegree(g, minPartners);
    kCore := DetectByKCore(g, coreThreshold);
    DetectorsRead(g, edges, given, size, reciprocityThreshold, coreThreshold, minPartners, reciprocity, mutualDegree,
      kCore);
    detectors := Judge(reciprocity, mutualDegree, kCore, Below(size));
    EnsembleFinds(g, ring, honest, honestNodes, size, reciprocityThreshold, coreThreshold, minPartners, reciprocity,
      mutualDegree, kCore, detectors[3]);
    forall alone, core |
      IsGraphOf(alone, honest, honestNodes) && IsKCore(Members(alone.nodes), alone.undirected, coreThreshold, core)
      ensures kCore == core + if coreThreshold <= size - 1 then Below(size) else {}
    {
      CoreOfPlanted(g, alone, ring, honest, honestNodes, size, coreThreshold, kCore, core);
    }
  }

  lemma EnsembleFinds(g: Graph, ring: seq<Edge>, honest: seq<Edge>, honestNodes: seq<Node>, size: nat,
                      reciprocityThreshold: real, coreThreshold: int, minPartners: int, reciprocity: set<Node>,
                      mutualDegree: set<Node>, kCore: set<Node>, ensemble: DetectorResult)
    requires Planted(g, ring, honest, honestNodes, size) && minPartners == Max(3, (size - 1) / 2)
    requires forall v :: v in reciprocity <==> v in g.nodes && Reciprocates(g, reciprocityThreshold, v)
    requires forall v :: v in mutualDegree <==> v in g.nodes && PartnersOf(g, v) >= minPartners
    requires IsKCore(Members(g.nodes), g.undirected, coreThreshold, kCore)
    requires IsVerdict(ensemble, reciprocity + mutualDegree + kCore, Below(size))
    ensures ensemble.recall == if RingIsCaught(size, reciprocityThreshold, coreThreshold) then 1.0 else 0.0
    ensures ensemble.falseNegatives == if RingIsCaught(size, reciprocityThreshold, coreThreshold) then 0 else size
  {
    FlagsOfPlanted(g, ring, honest, honestNodes, size, reciprocityThreshold, minPartners, reciprocity, mutualDegree);
    CoreHasRing(g, ring, honest, honestNodes, size, coreThreshold, kCore);
    assert minPartners <= size - 1 <==> size >= 4;
    UnionFinds(reciprocity, mutualDegree, kCore, size, reciprocityThreshold <= 1.0, size >= 4,
      coreThreshold <= size - 1, ensemble);
  }

  lemma UnionFinds(a: set<Node>, b: set<Node>, c: set<Node>, size: nat, inA: bool, inB: bool, inC: bool,
                   ensemble: DetectorResult)
    requires HasRing(a, Below(size), inA) && HasRing(b, Below(size), inB) && HasRing(c, Below(size), inC)
    requires size > 0 && IsVerdict(ensemble, a + b + c, Below(size))
    ensures ensemble.recall == if inA || inB || inC then 1.0 else 0.0
    ensures ensemble.falseNegatives == if inA || inB || inC then 0 else size
  {
    assert 0 in Below(size);
    EnsembleHasRing(a, b, c, Below(size), inA, inB, inC);
    RecallOfWhole(ensemble, a + b + c, Below(size), inA || inB || inC);
  }
}
