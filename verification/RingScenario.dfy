/** The collusive-ring scenario: the ring rates itself, honest agents rate each other, and the rating
    graph is inspected. */
module RingScenario {
  import opened Words
  import opened Wrappers
  import opened Sums
  import opened Sequences
  import opened RatingOrder
  import opened Mechanisms
  import opened RatingGraph
  import opened KCore
  import opened RingDetection

  // ---------------------------------------------------------------------------
  // Who has rated a member after it received `j` ratings

  /** The `i`-th agent to rate member `v`: the others in order. */
  function Rater(v: Id, i: nat): Id {
    if i < v then i else i + 1
  }

  ghost function FirstRaters(v: Id, n: nat): (r: set<Id>)
    ensures |r| == n && forall x: Id :: x in r <==> x != v && x < (if n <= v then n else n + 1)
  {
    if n == 0 then {} else FirstRaters(v, n - 1) + {Rater(v, n - 1)}
  }

  /** Ratings that count: under two-sided receipts only those a completion is left for. */
  function Counted(m: Mechanism, size: nat, j: nat): nat
    requires size >= 1
  {
    if m.kind.TwoSided? then Min(j, size - 1) else j
  }

  /** A member's record after it received `j` ratings, each rater giving `r` in a row. */
  ghost predicate MemberAt(m: Mechanism, b: Book, v: Id, size: nat, r: nat, j: nat)
    requires size >= 1 && r >= 1
  {
    var a := Record(b, v);
    && a.completions == (if m.kind.TwoSided? then size - 1 else 0)
    && a.disputes == 0 && a.lastActivity == 0 && a.locked == 0
    && a.confirmed == (if m.kind.TwoSided? then Counted(m, size, j) else 0)
    && a.raters == FirstRaters(v, CeilDiv(Counted(m, size, j), r))
  }

  lemma CeilDivStep(j: nat, r: nat)
    requires r >= 1
    ensures CeilDiv(j + 1, r) == j / r + 1
    ensures CeilDiv(j, r) == if j % r == 0 then j / r else j / r + 1
  {
    assert j == r * (j / r) + j % r;
    QuotientUnique(j + r, r, j / r + 1, j % r);
    if j % r == 0 {
      QuotientUnique(j + r - 1, r, j / r, r - 1);
    } else {
      assert j + r - 1 == r * (j / r + 1) + (j % r - 1);
      QuotientUnique(j + r - 1, r, j / r + 1, j % r - 1);
    }
  }

  lemma RatersGrow(v: Id, j: nat, r: nat)
    requires r >= 1
    ensures FirstRaters(v, CeilDiv(j + 1, r)) == FirstRaters(v, CeilDiv(j, r)) + {Rater(v, j / r)}
  {
    CeilDivStep(j, r);
    assert Rater(v, j / r) in FirstRaters(v, j / r + 1);
  }

  lemma OneRating(m: Mechanism, b: Book, from: Id, v: Id, size: nat, r: nat, j: nat)
    requires size >= 1 && r >= 1 && from != v
    requires MemberAt(m, b, v, size, r, j) && from == Rater(v, j / r)
    ensures MemberAt(m, Rated(m, b, from, v), v, size, r, j + 1)
  {
    if Counted(m, size, j) == j { RatersGrow(v, j, r); }
  }

  /** Rating someone leaves what counts in the other records alone. */
  lemma OthersUnrated(m: Mechanism, b: Book, from: Id, to: Id, v: Id)
    requires v != to
    ensures Record(Rated(m, b, from, to), v).(spent := 0) == Record(b, v).(spent := 0)
  {
  }

  lemma MemberUnrated(m: Mechanism, b: Book, from: Id, to: Id, v: Id, size: nat, r: nat, j: nat)
    requires size >= 1 && r >= 1 && v != to && MemberAt(m, b, v, size, r, j)
    ensures MemberAt(m, Rated(m, b, from, to), v, size, r, j)
  {
    OthersUnrated(m, b, from, to, v);
  }

  // ---------------------------------------------------------------------------
  // Progress through the loops

  /** How many ring members before `from` rate `v`. */
  function Before(v: Id, from: nat): nat {
    if from <= v then from else from - 1
  }

  /** `n` rounds of `r` ratings. */
  function Rounds(r: nat, n: nat): nat {
    if n == 0 then 0 else Rounds(r, n - 1) + r
  }

  lemma {:induction false} RoundsTimes(r: nat, n: nat)
    ensures Rounds(r, n) == r * n
  {
    if n > 0 { RoundsTimes(r, n - 1); }
  }

  /** Ratings `v` has received when `from` has given `k` ratings to `to` and `r` to each member before it. */
  function Received(v: Id, from: nat, to: nat, k: nat, r: nat): nat {
    Rounds(r, Before(v, from)) + if v == from then 0 else if v < to then r else if v == to then k else 0
  }

  ghost predicate Progress(m: Mechanism, b: Book, size: nat, r: nat, from: nat, to: nat, k: nat)
    requires size >= 1 && r >= 1
  {
    forall v: Id | v < size :: MemberAt(m, b, v, size, r, Received(v, from, to, k, r))
  }

  lemma RatingIndex(v: Id, from: nat, k: nat, r: nat)
    requires k < r && from != v
    ensures Received(v, from, v, k, r) / r == Before(v, from) && Rater(v, Before(v, from)) == from
    ensures Received(v, from, v, k + 1, r) == Received(v, from, v, k, r) + 1
  {
    RoundsTimes(r, Before(v, from));
    QuotientUnique(Received(v, from, v, k, r), r, Before(v, from), k);
  }

  lemma MemberAfterRating(m: Mechanism, b: Book, size: nat, r: nat, from: Id, to: Id, k: nat, v: Id)
    requires size >= 1 && k < r && from != to
    requires MemberAt(m, b, v, size, r, Received(v, from, to, k, r))
    ensures MemberAt(m, Rated(m, b, from, to), v, size, r, Received(v, from, to, k + 1, r))
  {
    var j := Received(v, from, to, k, r);
    if v == to {
      RatingIndex(v, from, k, r);
      OneRating(m, b, from, v, size, r, j);
    } else {
      assert Received(v, from, to, k + 1, r) == j;
      MemberUnrated(m, b, from, to, v, size, r, j);
    }
  }

  lemma RatingProgress(m: Mechanism, b: Book, size: nat, r: nat, from: Id, to: Id, k: nat)
    requires size >= 1 && k < r && from != to
    requires Progress(m, b, size, r, from, to, k)
    ensures Progress(m, Rated(m, b, from, to), size, r, from, to, k + 1)
  {
    var b', k' := Rated(m, b, from, to), k + 1;
    forall v: Id | v < size ensures MemberAt(m, b', v, size, r, Received(v, from, to, k', r)) {
      assert MemberAt(m, b, v, size, r, Received(v, from, to, k, r));
      MemberAfterRating(m, b, size, r, from, to, k, v);
    }
  }

  lemma SamePosition(m: Mechanism, b: Book, size: nat, r: nat, from: nat, to: nat, k: nat, from': nat, to': nat,
                     k': nat)
    requires size >= 1 && r >= 1 && Progress(m, b, size, r, from, to, k)
    requires forall v: Id | v < size :: Received(v, from', to', k', r) == Received(v, from, to, k, r)
    ensures Progress(m, b, size, r, from', to', k')
  {
    forall v: Id | v < size ensures MemberAt(m, b, v, size, r, Received(v, from', to', k', r)) {
      assert MemberAt(m, b, v, size, r, Received(v, from, to, k, r));
    }
  }

  lemma NextMember(m: Mechanism, b: Book, size: nat, r: nat, from: nat, to: nat)
    requires size >= 1 && r >= 1 && Progress(m, b, size, r, from, to, r)
    ensures Progress(m, b, size, r, from, to + 1, 0)
  {
    SamePosition(m, b, size, r, from, to, r, from, to + 1, 0);
  }

  lemma NextRow(m: Mechanism, b: Book, size: nat, r: nat, from: nat)
    requires size >= 1 && r >= 1 && Progress(m, b, size, r, from, size, 0)
    ensures Progress(m, b, size, r, from + 1, 0, 0)
  {
    forall v: Id | v < size ensures Received(v, from + 1, 0, 0, r) == Received(v, from, size, 0, r) {
      RowDone(v, from, size, r);
    }
    SamePosition(m, b, size, r, from, size, 0, from + 1, 0, 0);
  }

  lemma RowDone(v: Id, from: nat, size: nat, r: nat)
    requires v < size
    ensures Received(v, from + 1, 0, 0, r) == Received(v, from, size, 0, r)
  {
    assert v != from ==> Before(v, from + 1) == Before(v, from) + 1;
  }

  // ---------------------------------------------------------------------------
  // The book after what the loops play

  function AllRated(m: Mechanism, b: Book, edges: seq<Edge>): Book {
    if edges == [] then b
    else Rated(m, AllRated(m, b, edges[..|edges| - 1]), edges[|edges| - 1].0, edges[|edges| - 1].1)
  }

  function AllAttested(b: Book, ids: seq<Id>): Book {
    if ids == [] then b else Attested(AllAttested(b, ids[..|ids| - 1]), ids[|ids| - 1], 0)
  }

  /** Receipts need something to attach to: members and honest agents attest first. */
  function StartBook(m: Mechanism, size: nat, honestAgents: nat): Book
    requires size >= 1
  {
    if m.kind.TwoSided? then AllAttested(EmptyBook(0), MemberAttests(size, size) + HonestNodes(honestAgents))
    else EmptyBook(0)
  }

  /** The book after all ratings. */
  function RatedBook(m: Mechanism, size: nat, r: nat, draws: seq<seq<nat>>): Book
    requires size >= 1
  {
    AllRated(m, StartBook(m, size, |draws|), RingRatings(size, r, size) + DrawnRatings(draws))
  }

  lemma RateOneMore(m: Mechanism, b: Book, edges: seq<Edge>, e: Edge)
    ensures AllRated(m, b, edges + [e]) == Rated(m, AllRated(m, b, edges), e.0, e.1)
  {
    assert (edges + [e])[..|edges|] == edges;
  }

  lemma {:induction false} RateBoth(m: Mechanism, b: Book, first: seq<Edge>, second: seq<Edge>)
    ensures AllRated(m, b, first + second) == AllRated(m, AllRated(m, b, first), second)
    decreases |second|
  {
    if second == [] {
      assert first + second == first;
    } else {
      var front, last := second[..|second| - 1], second[|second| - 1];
      assert first + second == (first + front) + [last] && second == front + [last];
      RateBoth(m, b, first, front);
      RateOneMore(m, b, first + front, last);
    }
  }

  lemma AttestOneMore(b: Book, ids: seq<Id>, id: Id)
    ensures AllAttested(b, ids + [id]) == Attested(AllAttested(b, ids), id, 0)
  {
    assert (ids + [id])[..|ids|] == ids;
  }

  lemma {:induction false} AttestBoth(b: Book, first: seq<Id>, second: seq<Id>)
    ensures AllAttested(b, first + second) == AllAttested(AllAttested(b, first), second)
    decreases |second|
  {
    if second == [] {
      assert first + second == first;
    } else {
      var front, last := second[..|second| - 1], second[|second| - 1];
      assert first + second == (first + front) + [last] && second == front + [last];
      AttestBoth(b, first, front);
      AttestOneMore(b, first + front, last);
    }
  }

  // ---------------------------------------------------------------------------
  // What the members have when everything was played

  lemma {:induction false} CopiesProgress(m: Mechanism, b: Book, size: nat, r: nat, from: Id, to: Id, k: nat)
    requires size >= 1 && k <= r && r >= 1 && from != to && Progress(m, b, size, r, from, to, 0)
    ensures Progress(m, AllRated(m, b, Given(from, to, k)), size, r, from, to, k)
    decreases k
  {
    if k > 0 {
      CopiesProgress(m, b, size, r, from, to, k - 1);
      RateOneMore(m, b, Given(from, to, k - 1), (from, to));
      RatingProgress(m, AllRated(m, b, Given(from, to, k - 1)), size, r, from, to, k - 1);
    }
  }

  lemma PairProgress(m: Mechanism, b: Book, size: nat, r: nat, from: Id, to: Id)
    requires size >= 1 && r >= 1 && from != to && Progress(m, b, size, r, from, to, 0)
    ensures Progress(m, AllRated(m, b, Given(from, to, r)), size, r, from, to + 1, 0)
  {
    CopiesProgress(m, b, size, r, from, to, r);
    NextMember(m, AllRated(m, b, Given(from, to, r)), size, r, from, to);
  }

  lemma RowProgressStep(m: Mechanism, b: Book, size: nat, r: nat, from: Id, to: Id)
    requires size >= 1 && r >= 1
    requires Progress(m, AllRated(m, b, RowRatings(from, to, r)), size, r, from, to, 0)
    ensures Progress(m, AllRated(m, b, RowRatings(from, to + 1, r)), size, r, from, to + 1, 0)
  {
    var before := RowRatings(from, to, r);
    RowUnfolds(from, to, r);
    if from == to {
      SamePosition(m, AllRated(m, b, before), size, r, from, to, 0, from, to + 1, 0);
    } else {
      PairProgress(m, AllRated(m, b, before), size, r, from, to);
      RateBoth(m, b, before, Given(from, to, r));
    }
  }

  lemma RowProgress(m: Mechanism, b: Book, size: nat, r: nat, from: Id)
    requires size >= 1 && r >= 1 && Progress(m, b, size, r, from, 0, 0)
    ensures Progress(m, AllRated(m, b, RowRatings(from, size, r)), size, r, from + 1, 0, 0)
  {
    ghost var reached := (to: nat) => Progress(m, AllRated(m, b, RowRatings(from, to, r)), size, r, from, to, 0);
    assert RowRatings(from, 0, r) == [] && reached(0);
    forall to: nat | reached(to) ensures reached(to + 1) {
      RowProgressStep(m, b, size, r, from, to);
    }
    Climb(reached, size);
    NextRow(m, AllRated(m, b, RowRatings(from, size, r)), size, r, from);
  }

  /** What holds at first and survives every step holds at the end. */
  lemma Climb(reached: nat -> bool, n: nat)
    requires reached(0) && forall k: nat | reached(k) :: reached(k + 1)
    ensures reached(n)
  {
    var k: nat := 0;
    while k < n
      invariant k <= n && reached(k)
    {
      k := k + 1;
    }
  }

  lemma RingProgressStep(m: Mechanism, b: Book, size: nat, r: nat, from: nat)
    requires size >= 1 && r >= 1
    requires Progress(m, AllRated(m, b, RingRatings(size, r, from)), size, r, from, 0, 0)
    ensures Progress(m, AllRated(m, b, RingRatings(size, r, from + 1)), size, r, from + 1, 0, 0)
  {
    RowProgress(m, AllRated(m, b, RingRatings(size, r, from)), size, r, from);
    RateBoth(m, b, RingRatings(size, r, from), RowRatings(from, size, r));
    RingUnfolds(size, r, from);
  }

  lemma RingProgress(m: Mechanism, b: Book, size: nat, r: nat)
    requires size >= 1 && r >= 1 && Progress(m, b, size, r, 0, 0, 0)
    ensures Progress(m, AllRated(m, b, RingRatings(size, r, size)), size, r, size, 0, 0)
  {
    ghost var reached := (from: nat) => Progress(m, AllRated(m, b, RingRatings(size, r, from)), size, r, from, 0, 0);
    assert RingRatings(size, r, 0) == [] && reached(0);
    forall from: nat | reached(from) ensures reached(from + 1) {
      RingProgressStep(m, b, size, r, from);
    }
    Climb(reached, size);
  }

  lemma HonestRatingProgress(m: Mechanism, b: Book, size: nat, r: nat, from: Id, to: Id)
    requires 1 <= size <= HONEST_BASE && r >= 1 && from >= HONEST_BASE && to >= HONEST_BASE
    requires Progress(m, b, size, r, size, 0, 0)
    ensures Progress(m, Rated(m, b, from, to), size, r, size, 0, 0)
  {
    var b' := Rated(m, b, from, to);
    forall v: Id | v < size ensures MemberAt(m, b', v, size, r, Received(v, size, 0, 0, r)) {
      assert MemberAt(m, b, v, size, r, Received(v, size, 0, 0, r));
      OthersUnrated(m, b, from, to, v);
    }
  }

  /** Honest ratings, whatever the draws, change no member. */
  lemma {:induction false} HonestProgress(m: Mechanism, b: Book, size: nat, r: nat, edges: seq<Edge>)
    requires 1 <= size <= HONEST_BASE && r >= 1 && AmongHonest(edges) && Progress(m, b, size, r, size, 0, 0)
    ensures Progress(m, AllRated(m, b, edges), size, r, size, 0, 0)
    decreases |edges|
  {
    if edges != [] {
      var front, last := edges[..|edges| - 1], edges[|edges| - 1];
      assert last in edges && forall e | e in front :: e in edges;
      HonestProgress(m, b, size, r, front);
      HonestRatingProgress(m, AllRated(m, b, front), size, r, last.0, last.1);
    }
  }

  /** An attestation at time zero counts in the agent's record and nowhere else. */
  lemma {:induction false} AttestCounts(b: Book, ids: seq<Id>, v: Id)
    requires Record(b, v).lastActivity == 0
    ensures Record(AllAttested(b, ids), v).(spent := 0)
         == Record(b, v).(spent := 0, completions := Record(b, v).completions + Times(ids, v))
    decreases |ids|
  {
    if ids != [] {
      var front, last := ids[..|ids| - 1], ids[|ids| - 1];
      assert ids == front + [last];
      TimesPush(front, last, v);
      AttestCounts(b, front, v);
    }
  }

  /** Before the ratings each member has size - 1 completions and each honest agent one, if receipts are
      needed, and nobody has anything else. */
  lemma StartRecords(m: Mechanism, size: nat, honestAgents: nat, v: Id)
    requires 1 <= size <= HONEST_BASE
    ensures Record(StartBook(m, size, honestAgents), v).(spent := 0)
         == NewAgent(v).(completions :=
              if !m.kind.TwoSided? then 0
              else if v < size then size - 1
              else if HONEST_BASE <= v < HONEST_BASE + honestAgents then 1
              else 0)
  {
    if m.kind.TwoSided? {
      AttestCounts(EmptyBook(0), MemberAttests(size, size) + HonestNodes(honestAgents), v);
      MemberAttestCount(size, size, v);
      HonestAttestCount(honestAgents, v);
      TimesJoin(MemberAttests(size, size), HonestNodes(honestAgents), v);
    }
  }

  lemma StartProgress(m: Mechanism, size: nat, r: nat, honestAgents: nat)
    requires 1 <= size <= HONEST_BASE && r >= 1
    ensures Progress(m, StartBook(m, size, honestAgents), size, r, 0, 0, 0)
  {
    var b := StartBook(m, size, honestAgents);
    forall v: Id | v < size ensures MemberAt(m, b, v, size, r, Received(v, 0, 0, 0, r)) {
      StartRecords(m, size, honestAgents, v);
      QuotientUnique(r - 1, r, 0, r - 1);
    }
  }

  // ---------------------------------------------------------------------------
  // The points a ring member manufactures

  function RingScore(m: Mechanism, size: nat, r: nat): nat
    requires size >= 1 && r >= 1
  {
    match m.kind
    case PeerRatings => size - 1
    case TwoSided => Min(size - 1, RECEIPT_WEIGHT * CeilDiv(size - 1, r))
    case _ => 0
  }

  lemma MemberScore(m: Mechanism, b: Book, size: nat, r: nat, v: Id)
    requires size >= 1 && r >= 1 && v < size
    requires MemberAt(m, b, v, size, r, Rounds(r, size - 1))
    ensures ScoreOf(m, b, v, 0) == RingScore(m, size, r)
  {
    RoundsTimes(r, size - 1);
    WholeRounds(r, size - 1);
  }

  lemma WholeRounds(r: nat, n: nat)
    requires r >= 1
    ensures r * n >= n && CeilDiv(r * n, r) == n
  {
    assert r * n - n == (r - 1) * n;
    QuotientUnique(r * n + r - 1, r, n, r - 1);
  }

  /** For any draws, every member ends with the same score. */
  lemma MembersScoreAlike(m: Mechanism, size: nat, r: nat, draws: seq<seq<nat>>, v: Id)
    requires 1 <= size <= HONEST_BASE && r >= 1 && v < size
    ensures ScoreOf(m, RatedBook(m, size, r, draws), v, 0) == RingScore(m, size, r)
  {
    var start, ring, drawn := StartBook(m, size, |draws|), RingRatings(size, r, size), DrawnRatings(draws);
    StartProgress(m, size, r, |draws|);
    RingProgress(m, start, size, r);
    DrawnAmongHonest(draws);
    HonestProgress(m, AllRated(m, start, ring), size, r, drawn);
    RateBoth(m, start, ring, drawn);
    var b := RatedBook(m, size, r, draws);
    assert MemberAt(m, b, v, size, r, Received(v, size, 0, 0, r));
    MemberScore(m, b, size, r, v);
  }

  /** A score reads nothing but the agent's record. */
  lemma ScoreByRecord(m: Mechanism, b: Book, b': Book, v: Id, now: int)
    requires Record(b, v) == Record(b', v)
    ensures ScoreOf(m, b, v, now) == ScoreOf(m, b', v, now)
  {
  }

  // ---------------------------------------------------------------------------
  // The loops

  method AttestMember(state: MechanismState, member: Id, n: nat)
    modifies state
    ensures state.Contents() == AllAttested(old(state.Contents()), Copies(member, n))
  {
    ghost var start := state.Contents();
    for k := 0 to n
      invariant state.Contents() == AllAttested(start, Copies(member, k))
    {
      AttestOneMore(start, Copies(member, k), member);
      state.Attest(member, 0);
    }
  }

  method AttestHonest(state: MechanismState, n: nat)
    modifies state
    ensures state.Contents() == AllAttested(old(state.Contents()), HonestNodes(n))
  {
    ghost var start := state.Contents();
    for i: nat := 0 to n
      invariant state.Contents() == AllAttested(start, HonestNodes(i))
    {
      AttestOneMore(start, HonestNodes(i), HONEST_BASE + i);
      state.Attest(HONEST_BASE + i, 0);
    }
  }

  method AttestAll(state: MechanismState, size: nat, honestAgents: nat)
    requires size >= 1
    modifies state
    ensures state.Contents() == AllAttested(old(state.Contents()),
              MemberAttests(size, size) + HonestNodes(honestAgents))
  {
    ghost var start := state.Contents();
    for member: nat := 0 to size
      invariant state.Contents() == AllAttested(start, MemberAttests(size, member))
    {
      AttestBoth(start, MemberAttests(size, member), Copies(member, size - 1));
      AttestMember(state, member, size - 1);
    }
    AttestBoth(start, MemberAttests(size, size), HonestNodes(honestAgents));
    AttestHonest(state, honestAgents);
  }

  /** The edges a mechanism records of the ratings it plays. */
  function Recorded(m: Mechanism, edges: seq<Edge>): seq<Edge> {
    if UsesPeerRatings(m) then edges else []
  }

  lemma RecordBoth(m: Mechanism, edges: seq<Edge>, first: seq<Edge>, second: seq<Edge>)
    ensures (edges + Recorded(m, first)) + Recorded(m, second) == edges + Recorded(m, first + second)
  {
  }

  method RateOnce(m: Mechanism, state: MechanismState, from: Id, to: Id, edges: seq<Edge>) returns (edges': seq<Edge>)
    modifies state
    ensures state.Contents() == Rated(m, old(state.Contents()), from, to)
    ensures edges' == edges + Recorded(m, [(from, to)])
  {
    state.Rate(m, from, to);
    edges' := if UsesPeerRatings(m) then edges + [(from, to)] else edges;
  }

  method RatePair(m: Mechanism, state: MechanismState, r: nat, from: Id, to: Id, edges: seq<Edge>)
    returns (edges': seq<Edge>)
    modifies state
    ensures state.Contents() == AllRated(m, old(state.Contents()), Given(from, to, r))
    ensures edges' == edges + Recorded(m, Given(from, to, r))
  {
    ghost var start := state.Contents();
    edges' := edges;
    for k := 0 to r
      invariant state.Contents() == AllRated(m, start, Given(from, to, k))
      invariant edges' == edges + Recorded(m, Given(from, to, k))
    {
      RateOneMore(m, start, Given(from, to, k), (from, to));
      RecordBoth(m, edges, Given(from, to, k), [(from, to)]);
      edges' := RateOnce(m, state, from, to, edges');
    }
  }

  method RateRow(m: Mechanism, state: MechanismState, size: nat, r: nat, from: Id, edges: seq<Edge>)
    returns (edges': seq<Edge>)
    modifies state
    ensures state.Contents() == AllRated(m, old(state.Contents()), RowRatings(from, size, r))
    ensures edges' == edges + Recorded(m, RowRatings(from, size, r))
  {
    ghost var start := state.Contents();
    edges' := edges;
    for to: nat := 0 to size
      invariant state.Contents() == AllRated(m, start, RowRatings(from, to, r))
      invariant edges' == edges + Recorded(m, RowRatings(from, to, r))
    {
      if from == to {
        assert RowRatings(from, to + 1, r) == RowRatings(from, to, r);
      } else {
        RateBoth(m, start, RowRatings(from, to, r), Given(from, to, r));
        RecordBoth(m, edges, RowRatings(from, to, r), Given(from, to, r));
        edges' := RatePair(m, state, r, from, to, edges');
      }
    }
  }

  /** Every ring member gives every other `r` ratings in a row. */
  method RateRing(m: Mechanism, state: MechanismState, size: nat, r: nat) returns (edges: seq<Edge>)
    modifies state
    ensures state.Contents() == AllRated(m, old(state.Contents()), RingRatings(size, r, size))
    ensures edges == Recorded(m, RingRatings(size, r, size))
  {
    ghost var start := state.Contents();
    edges := [];
    for from: nat := 0 to size
      invariant state.Contents() == AllRated(m, start, RingRatings(size, r, from))
      invariant edges == Recorded(m, RingRatings(size, r, from))
    {
      RateBoth(m, start, RingRatings(size, r, from), RowRatings(from, size, r));
      RecordBoth(m, [], RingRatings(size, r, from), RowRatings(from, size, r));
      edges := RateRow(m, state, size, r, from, edges);
    }
  }

  method RateDraws(m: Mechanism, state: MechanismState, i: nat, targets: seq<nat>, edges: seq<Edge>)
    returns (edges': seq<Edge>)
    modifies state
    ensures state.Contents() == AllRated(m, old(state.Contents()), DrawnRow(i, targets))
    ensures edges' == edges + Recorded(m, DrawnRow(i, targets))
  {
    ghost var start := state.Contents();
    edges' := edges;
    for k := 0 to |targets|
      invariant state.Contents() == AllRated(m, start, DrawnRow(i, targets[..k]))
      invariant edges' == edges + Recorded(m, DrawnRow(i, targets[..k]))
    {
      var from, to := HONEST_BASE + i, HONEST_BASE + targets[k];
      assert targets[..k + 1][..k] == targets[..k];
      RateOneMore(m, start, DrawnRow(i, targets[..k]), (from, to));
      RecordBoth(m, edges, DrawnRow(i, targets[..k]), [(from, to)]);
      edges' := RateOnce(m, state, from, to, edges');
    }
    assert targets[..|targets|] == targets;
  }

  /** Honest agents rate each other: every accepted draw is one rating, in order. */
  method RateHonest(m: Mechanism, state: MechanismState, draws: seq<seq<nat>>) returns (edges: seq<Edge>)
    modifies state
    ensures state.Contents() == AllRated(m, old(state.Contents()), DrawnRatings(draws))
    ensures edges == Recorded(m, DrawnRatings(draws))
  {
    ghost var start := state.Contents();
    edges := [];
    for i: nat := 0 to |draws|
      invariant state.Contents() == AllRated(m, start, DrawnRatings(draws[..i]))
      invariant edges == Recorded(m, DrawnRatings(draws[..i]))
    {
      assert draws[..i + 1][..i] == draws[..i];
      RateBoth(m, start, DrawnRatings(draws[..i]), DrawnRow(i, draws[i]));
      RecordBoth(m, [], DrawnRatings(draws[..i]), DrawnRow(i, draws[i]));
      edges := RateDraws(m, state, i, draws[i], edges);
    }
    assert draws[..|draws|] == draws;
  }

  method StartRing(m: Mechanism, size: nat, honestAgents: nat) returns (state: MechanismState)
    requires size >= 1
    ensures fresh(state) && state.Contents() == StartBook(m, size, honestAgents)
  {
    state := new MechanismState(0);
    if m.kind.TwoSided? { AttestAll(state, size, honestAgents); }
  }

  /** The whole scenario, for any draws of the honest agents. The book is that of the ratings played, and all
      members end with the same score. Where the mechanism records ratings, the flags are exactly those the
      three rules describe on the ratings played, the verdicts those on these flags and on their union, and
      the ensemble finds the whole ring or, when no detector catches it, none of it. The k-core flags are
      those of the honest graph alone, with the ring when it is dense enough. */
  method RunCollusiveRing(m: Mechanism, size: nat, r: nat, draws: seq<seq<nat>>, reciprocityThreshold: real,
                          coreThreshold: int)
    returns (state: MechanismState, score: nat, flags: Option<Flags>, detectors: seq<DetectorResult>)
    requires 2 <= size <= HONEST_BASE && r >= 1
    ensures state.Contents() == Ensured(RatedBook(m, size, r, draws), 0)
    ensures score == RingScore(m, size, r)
    ensures forall v: Id | v < size :: ScoreOf(m, state.Contents(), v, 0) == RingScore(m, size, r)
    ensures flags.Some? <==> m.kind.PeerRatings? || m.kind.TwoSided?
    ensures flags.None? ==> detectors == []
    ensures flags.Some? ==>
              Inspected(RingRatings(size, r, size), DrawnRatings(draws), size, HonestNodes(|draws|),
                reciprocityThreshold, coreThreshold, flags.value, detectors)
  {
    state := StartRing(m, size, |draws|);
    var ring := RateRing(m, state, size, r);
    var others := RateHonest(m, state, draws);
    ghost var b := RatedBook(m, size, r, draws);
    RateBoth(m, StartBook(m, size, |draws|), RingRatings(size, r, size), DrawnRatings(draws));
    assert state.Contents() == b;
    forall v: Id | v < size
      ensures ScoreOf(m, b, v, 0) == RingScore(m, size, r) && ScoreOf(m, Ensured(b, 0), v, 0) == RingScore(m, size, r)
    {
      MembersScoreAlike(m, size, r, draws, v);
      ScoreByRecord(m, b, Ensured(b, 0), v, 0);
    }
    score := state.ScoreAgent(m, 0, 0);
    flags, detectors := None, [];
    if UsesPeerRatings(m) {
      RatingsFormRing(size, r);
      DrawnAmongHonest(draws);
      var found;
      found, detectors := Inspect(ring, others, size, HonestNodes(|draws|), reciprocityThreshold, coreThreshold);
      flags := Some(found);
    }
  }

  datatype Flags = Flags(reciprocity: set<Node>, mutualDegree: set<Node>, kCore: set<Node>)

  /** The outcome of the detection stage on the ratings of the ring and the others. */
  ghost predicate Inspected(ring: seq<Edge>, others: seq<Edge>, size: nat, honestNodes: seq<Node>,
                            reciprocityThreshold: real, coreThreshold: int, f: Flags, detectors: seq<DetectorResult>)
  {
    && FlagsOf(ring + others, RingNodes(size) + honestNodes, size, reciprocityThreshold, coreThreshold,
               f.reciprocity, f.mutualDegree, f.kCore)
    && AreVerdicts(detectors, f.reciprocity, f.mutualDegree, f.kCore, Below(size))
    && (var caught := RingIsCaught(size, reciprocityThreshold, coreThreshold);
        && detectors[3].recall == (if caught then 1.0 else 0.0)
        && detectors[3].falseNegatives == if caught then 0 else size)
    && (forall alone, core |
          IsGraphOf(alone, others, honestNodes)
          && IsKCore(Members(alone.nodes), alone.undirected, coreThreshold, core) ::
          f.kCore == core + if coreThreshold <= size - 1 then Below(size) else {})
  }

  /** The detection stage. */
  method Inspect(ring: seq<Edge>, others: seq<Edge>, size: nat, honestNodes: seq<Node>, reciprocityThreshold: real,
                 coreThreshold: int)
    returns (f: Flags, detectors: seq<DetectorResult>)
    requires IsRing(ring, size) && AmongHonest(others) && 2 <= size <= HONEST_BASE && IsHonest(honestNodes)
    ensures Inspected(ring, others, size, honestNodes, reciprocityThreshold, coreThreshold, f, detectors)
  {
    var reciprocity, mutualDegree, kCore;
    reciprocity, mutualDegree, kCore, detectors :=
      RunDetectors(ring, others, ring + others, size, honestNodes, reciprocityThreshold, coreThreshold);
    f := Flags(reciprocity, mutualDegree, kCore);
  }
}
