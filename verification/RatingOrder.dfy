/** The ratings and attestations the ring scenario plays, in order, and how often each occurs. */
module RatingOrder {
  import opened Sequences
  import opened RatingGraph
  import opened RingDetection

  function Copies<T>(x: T, n: nat): (q: seq<T>)
    ensures |q| == n
  {
    if n == 0 then [] else Copies(x, n - 1) + [x]
  }

  /** `n` ratings in a row. */
  function Given(from: Node, to: Node, n: nat): seq<Edge> {
    if n == 0 then [] else Given(from, to, n - 1) + [(from, to)]
  }

  /** The ratings of `from` for the members before `to`. */
  function RowRatings(from: Node, to: nat, r: nat): seq<Edge> {
    if to == 0 then [] else RowRatings(from, to - 1, r) + if from == to - 1 then [] else Given(from, to - 1, r)
  }

  /** The ratings of the members before `from`. */
  function RingRatings(size: nat, r: nat, from: nat): seq<Edge> {
    if from == 0 then [] else RingRatings(size, r, from - 1) + RowRatings(from - 1, size, r)
  }

  /** The ratings of honest agent `i`, one per accepted draw. */
  function DrawnRow(i: nat, targets: seq<nat>): seq<Edge> {
    if targets == [] then []
    else DrawnRow(i, targets[..|targets| - 1]) + [(HONEST_BASE + i, HONEST_BASE + targets[|targets| - 1])]
  }

  /** `draws[i]` holds the accepted targets of honest agent `i`. */
  function DrawnRatings(draws: seq<seq<nat>>): seq<Edge> {
    if draws == [] then []
    else DrawnRatings(draws[..|draws| - 1]) + DrawnRow(|draws| - 1, draws[|draws| - 1])
  }

  function HonestNodes(n: nat): (nodes: seq<Node>)
    ensures |nodes| == n && IsHonest(nodes) && forall i | 0 <= i < n :: nodes[i] == HONEST_BASE + i
  {
    if n == 0 then [] else HonestNodes(n - 1) + [HONEST_BASE + n - 1]
  }

  /** The members before `member` attest once for every other member. */
  function MemberAttests(size: nat, member: nat): seq<Node>
    requires size >= 1
  {
    if member == 0 then [] else MemberAttests(size, member - 1) + Copies<Node>(member - 1, size - 1)
  }

  // ---------------------------------------------------------------------------
  // How often every pair was rated

  lemma {:induction false} CopiesCount<T>(x: T, n: nat, y: T)
    ensures Times(Copies(x, n), y) == if y == x then n else 0
  {
    if n > 0 {
      CopiesCount(x, n - 1, y);
      TimesPush(Copies(x, n - 1), x, y);
    }
  }

  lemma {:induction false} GivenCount(from: Node, to: Node, n: nat, e: Edge)
    ensures Times(Given(from, to, n), e) == if e == (from, to) then n else 0
  {
    if n > 0 {
      GivenCount(from, to, n - 1, e);
      TimesPush<Edge>(Given(from, to, n - 1), (from, to), e);
    }
  }

  /** How often the rating `e` occurs in the row of `from` up to `to`, and in all rows up to `from`. */
  function RowTimes(e: Edge, from: Node, to: Node, r: nat): nat {
    if e.0 == from && e.1 < to && e.1 != from then r else 0
  }

  function RingTimes(e: Edge, size: nat, r: nat, from: Node): nat {
    if e.0 < from && e.1 < size && e.0 != e.1 then r else 0
  }

  lemma RowTimesGrow(e: Edge, from: Node, to: Node, r: nat)
    ensures RowTimes(e, from, to + 1, r) == RowTimes(e, from, to, r) + if from != to && e == (from, to) then r else 0
  {
  }

  lemma RingTimesGrow(e: Edge, size: nat, r: nat, from: Node)
    ensures RingTimes(e, size, r, from + 1) == RingTimes(e, size, r, from) + RowTimes(e, from, size, r)
  {
  }

  lemma RowUnfolds(from: Node, to: Node, r: nat)
    ensures RowRatings(from, to + 1, r)
         == if from == to then RowRatings(from, to, r) else RowRatings(from, to, r) + Given(from, to, r)
  {
  }

  lemma RingUnfolds(size: nat, r: nat, from: nat)
    ensures RingRatings(size, r, from + 1) == RingRatings(size, r, from) + RowRatings(from, size, r)
  {
  }

  lemma RowCountStep(from: Node, to: Node, r: nat, e: Edge)
    requires Times(RowRatings(from, to, r), e) == RowTimes(e, from, to, r)
    ensures Times(RowRatings(from, to + 1, r), e) == RowTimes(e, from, to + 1, r)
  {
    RowUnfolds(from, to, r);
    RowTimesGrow(e, from, to, r);
    if from != to {
      TimesJoin(RowRatings(from, to, r), Given(from, to, r), e);
      GivenCount(from, to, r, e);
    }
  }

  lemma RowCount(from: Node, size: nat, r: nat, e: Edge)
    ensures Times(RowRatings(from, size, r), e) == RowTimes(e, from, size, r)
  {
    var to: Node := 0;
    while to < size
      invariant to <= size && Times(RowRatings(from, to, r), e) == RowTimes(e, from, to, r)
    {
      RowCountStep(from, to, r, e);
      to := to + 1;
    }
  }

  lemma RingCountStep(size: nat, r: nat, from: nat, e: Edge)
    requires Times(RingRatings(size, r, from), e) == RingTimes(e, size, r, from)
    ensures Times(RingRatings(size, r, from + 1), e) == RingTimes(e, size, r, from + 1)
  {
    RingUnfolds(size, r, from);
    TimesJoin(RingRatings(size, r, from), RowRatings(from, size, r), e);
    RowCount(from, size, r, e);
    RingTimesGrow(e, size, r, from);
  }

  /** Every ordered pair of different members is rated exactly `r` times, and nothing else. */
  lemma RingCount(size: nat, r: nat, n: nat, e: Edge)
    ensures Times(RingRatings(size, r, n), e) == RingTimes(e, size, r, n)
  {
    var from: nat := 0;
    while from < n
      invariant from <= n && Times(RingRatings(size, r, from), e) == RingTimes(e, size, r, from)
    {
      RingCountStep(size, r, from, e);
      from := from + 1;
    }
  }

  lemma RatingsFormRing(size: nat, r: nat)
    requires r >= 1
    ensures IsRing(RingRatings(size, r, size), size)
  {
    var edges := RingRatings(size, r, size);
    forall u: Node, v: Node ensures (u, v) in edges <==> u < size && v < size && u != v {
      RingCount(size, r, size, (u, v));
      OccursSometimes<Edge>(edges, (u, v));
    }
  }

  ghost predicate InRow(i: nat, targets: seq<nat>, e: Edge) {
    exists k :: 0 <= k < |targets| && e == (HONEST_BASE + i, HONEST_BASE + targets[k])
  }

  lemma {:induction false} DrawnRowHolds(i: nat, targets: seq<nat>, e: Edge)
    ensures e in DrawnRow(i, targets) <==> InRow(i, targets, e)
    decreases |targets|
  {
    if targets != [] {
      var front, last := targets[..|targets| - 1], targets[|targets| - 1];
      DrawnRowHolds(i, front, e);
      if InRow(i, front, e) {
        var k :| 0 <= k < |front| && e == (HONEST_BASE + i, HONEST_BASE + front[k]);
        assert targets[k] == front[k];
      }
      if e == (HONEST_BASE + i, HONEST_BASE + last) { assert targets[|targets| - 1] == last; }
      if InRow(i, targets, e) {
        var k :| 0 <= k < |targets| && e == (HONEST_BASE + i, HONEST_BASE + targets[k]);
        if k < |front| { assert front[k] == targets[k]; }
      }
    }
  }

  ghost predicate Drawn(draws: seq<seq<nat>>, e: Edge) {
    exists i :: 0 <= i < |draws| && InRow(i, draws[i], e)
  }

  lemma DrawnLater(draws: seq<seq<nat>>, e: Edge)
    requires draws != []
    ensures Drawn(draws, e) <==> Drawn(draws[..|draws| - 1], e) || InRow(|draws| - 1, draws[|draws| - 1], e)
  {
    var front := draws[..|draws| - 1];
    if Drawn(front, e) {
      var i :| 0 <= i < |front| && InRow(i, front[i], e);
      assert InRow(i, draws[i], e);
    }
    if Drawn(draws, e) {
      var i :| 0 <= i < |draws| && InRow(i, draws[i], e);
      assert i < |front| ==> InRow(i, front[i], e);
    }
  }

  /** The honest edges are exactly the draws. */
  lemma {:induction false} DrawnRatingsHold(draws: seq<seq<nat>>, e: Edge)
    ensures e in DrawnRatings(draws) <==> Drawn(draws, e)
    decreases |draws|
  {
    if draws != [] {
      DrawnRatingsHold(draws[..|draws| - 1], e);
      DrawnRowHolds(|draws| - 1, draws[|draws| - 1], e);
      DrawnLater(draws, e);
    }
  }

  lemma {:induction false} DrawnRowCount(i: nat, targets: seq<nat>, from: nat, to: nat)
    ensures Times(DrawnRow(i, targets), (HONEST_BASE + from, HONEST_BASE + to))
         == if from == i then Times(targets, to) else 0
    decreases |targets|
  {
    if targets != [] {
      var front, last := targets[..|targets| - 1], targets[|targets| - 1];
      DrawnRowCount(i, front, from, to);
      TimesPush<Edge>(DrawnRow(i, front), (HONEST_BASE + i, HONEST_BASE + last),
        (HONEST_BASE + from, HONEST_BASE + to));
      assert targets == front + [last];
      TimesPush(front, last, to);
    }
  }

  /** Every honest agent rates another exactly as often as it drew it. */
  lemma {:induction false} DrawnCount(draws: seq<seq<nat>>, from: nat, to: nat)
    ensures Times(DrawnRatings(draws), (HONEST_BASE + from, HONEST_BASE + to))
         == if from < |draws| then Times(draws[from], to) else 0
    decreases |draws|
  {
    if draws != [] {
      var front, last := draws[..|draws| - 1], draws[|draws| - 1];
      DrawnCount(front, from, to);
      DrawnRowCount(|draws| - 1, last, from, to);
      TimesJoin<Edge>(DrawnRatings(front), DrawnRow(|draws| - 1, last), (HONEST_BASE + from, HONEST_BASE + to));
    }
  }

  lemma DrawnAmongHonest(draws: seq<seq<nat>>)
    ensures AmongHonest(DrawnRatings(draws))
  {
    forall e | e in DrawnRatings(draws) ensures e.0 >= HONEST_BASE && e.1 >= HONEST_BASE {
      DrawnRatingsHold(draws, e);
      var i :| 0 <= i < |draws| && InRow(i, draws[i], e);
    }
  }

  function MemberTimes(v: Node, size: nat, member: Node): nat
    requires size >= 1
  {
    if v < member then size - 1 else 0
  }

  lemma MemberJoins(size: nat, member: nat, v: Node)
    requires size >= 1 && Times(MemberAttests(size, member), v) == MemberTimes(v, size, member)
    ensures Times(MemberAttests(size, member + 1), v) == MemberTimes(v, size, member + 1)
  {
    TimesJoin(MemberAttests(size, member), Copies<Node>(member, size - 1), v);
    CopiesCount<Node>(member, size - 1, v);
  }

  lemma MemberAttestCount(size: nat, n: nat, v: Node)
    requires size >= 1
    ensures Times(MemberAttests(size, n), v) == MemberTimes(v, size, n)
  {
    var member: nat := 0;
    while member < n
      invariant member <= n && Times(MemberAttests(size, member), v) == MemberTimes(v, size, member)
    {
      MemberJoins(size, member, v);
      member := member + 1;
    }
  }

  lemma {:induction false} HonestAttestCount(n: nat, v: Node)
    ensures Times(HonestNodes(n), v) == if HONEST_BASE <= v < HONEST_BASE + n then 1 else 0
  {
    if n > 0 {
      HonestAttestCount(n - 1, v);
      TimesPush<Node>(HonestNodes(n - 1), HONEST_BASE + n - 1, v);
    }
  }
}
