/** Capability discovery: by the on-chain index, or by scanning the program's accounts. */
module Discovery {
  import opened Words
  import opened Wrappers
  import opened Sequences
  import opened Ledger
  import opened LedgerInvariant
  import Score

  /** An account address as the client sees it. */
  datatype Account =
    | CapabilityAt(capability: CapabilityRef)
    | CompletionAt(completion: CompletionRef)
    | OtherAt(address: nat)

  datatype Item = Item(
    agent: Key,
    capability: CapabilityRef,
    capabilityId: nat,
    certified: bool,
    slashed: bool,
    bond: nat,
    completions: nat,
    disputes: nat,
    score: nat,
    decayed: bool)

  datatype Query = Query(capabilityType: Tag, includeUncertified: bool, minScore: int)

  /** What `getProgramAccounts` may answer: the filter compares 32 bytes at an offset where capabilities
      keep their type and completions keep theirs, and other records may match by accident. */
  ghost predicate IsScan(s: State, t: Tag, scan: seq<Account>) {
    && Distinct(scan)
    && (forall r :: CapabilityAt(r) in scan <==> r in s.capabilities && s.capabilities[r].capabilityType == t)
    && (forall r :: CompletionAt(r) in scan <==> r in s.completions && s.completions[r].taskType == t)
  }

  /** The decoder knows a capability record from the other kinds. */
  function Decode(s: State, a: Account): Option<Capability> {
    if a.CapabilityAt? && a.capability in s.capabilities then Some(s.capabilities[a.capability]) else None
  }

  predicate Eligible(k: Capability, q: Query) {
    k.active && !k.slashed && (q.includeUncertified || k.certified)
  }

  function AgentRecord(agents: map<Key, Agent>, creator: Key): Agent {
    if creator in agents then agents[creator] else Agent(creator, 0, 0, 0)
  }

  function ItemFor(s: State, r: CapabilityRef, k: Capability, period: i64): Item {
    var a := AgentRecord(s.agents, k.creator);
    var b := Score.SdkScore(a.completions, a.disputes, a.lastActivity, s.now, Some(period));
    Item(k.creator, r, k.id, k.certified, k.slashed, k.bondRemaining, a.completions, a.disputes, b.score, b.decayed)
  }

  /** The item an account contributes, if any. */
  function Offer(s: State, a: Account, q: Query, period: i64): Option<Item> {
    var k := Decode(s, a);
    if k.None? || !Eligible(k.value, q) then None
    else
      var item := ItemFor(s, a.capability, k.value, period);
      if item.score < q.minScore then None else Some(item)
  }

  function Offers(s: State, keys: seq<Account>, q: Query, period: i64): seq<Item> {
    if keys == [] then []
    else
      var last := Offer(s, keys[|keys| - 1], q, period);
      Offers(s, keys[..|keys| - 1], q, period) + if last.Some? then [last.value] else []
  }

  // ---------------------------------------------------------------------------
  // Sorting by score, best first, equal scores in their old order

  ghost predicate BestFirst(items: seq<Item>) {
    forall i, j | 0 <= i < j < |items| :: items[i].score >= items[j].score
  }

  function Insert(items: seq<Item>, x: Item): (r: seq<Item>)
    ensures multiset(r) == multiset(items) + multiset{x}
  {
    if items == [] || items[|items| - 1].score >= x.score then items + [x]
    else
      assert items == items[..|items| - 1] + [items[|items| - 1]];
      Insert(items[..|items| - 1], x) + [items[|items| - 1]]
  }

  function SortByScore(items: seq<Item>): (r: seq<Item>)
    ensures multiset(r) == multiset(items)
  {
    if items == [] then []
    else
      assert items == items[..|items| - 1] + [items[|items| - 1]];
      Insert(SortByScore(items[..|items| - 1]), items[|items| - 1])
  }

  lemma {:induction false} InsertBestFirst(items: seq<Item>, x: Item)
    requires BestFirst(items)
    ensures BestFirst(Insert(items, x))
    decreases |items|
  {
    if items != [] && items[|items| - 1].score < x.score {
      var front, last := items[..|items| - 1], items[|items| - 1];
      InsertBestFirst(front, x);
      var r := Insert(front, x);
      forall i | 0 <= i < |r| ensures r[i].score >= last.score {
        assert r[i] in multiset(r);
        assert r[i] in multiset(front) + multiset{x};
      }
    }
  }

  /** The items with one score, in their order. */
  function OfScore(items: seq<Item>, score: nat): seq<Item> {
    if items == [] then []
    else
      var last := items[|items| - 1];
      OfScore(items[..|items| - 1], score) + if last.score == score then [last] else []
  }

  lemma OfScorePush(items: seq<Item>, x: Item, score: nat)
    ensures OfScore(items + [x], score) == OfScore(items, score) + if x.score == score then [x] else []
  {
    assert (items + [x])[..|items|] == items;
  }

  /** An insertion puts the new item after those of its own score. */
  lemma {:induction false} InsertIsStable(items: seq<Item>, x: Item, score: nat)
    ensures OfScore(Insert(items, x), score) == OfScore(items, score) + if x.score == score then [x] else []
    decreases |items|
  {
    if items == [] || items[|items| - 1].score >= x.score {
      OfScorePush(items, x, score);
    } else {
      var front, last := items[..|items| - 1], items[|items| - 1];
      InsertIsStable(front, x, score);
      OfScorePush(Insert(front, x), last, score);
    }
  }

  /** Best score first, the same items, and items of equal score in their old order. */
  lemma {:induction false} SortBestFirst(items: seq<Item>)
    ensures BestFirst(SortByScore(items))
    ensures multiset(SortByScore(items)) == multiset(items)
    ensures forall score: nat :: OfScore(SortByScore(items), score) == OfScore(items, score)
    decreases |items|
  {
    if items != [] {
      var front, last := items[..|items| - 1], items[|items| - 1];
      SortBestFirst(front);
      InsertBestFirst(SortByScore(front), last);
      forall score: nat ensures OfScore(SortByScore(items), score) == OfScore(items, score) {
        InsertIsStable(SortByScore(front), last, score);
      }
    }
  }

  // ---------------------------------------------------------------------------
  // The client

  method GetMultipleAccountsChunked(s: State, keys: seq<Account>) returns (infos: seq<Option<Capability>>)
    ensures |infos| == |keys| && forall i | 0 <= i < |keys| :: infos[i] == Decode(s, keys[i])
  {
    infos := [];
    var i := 0;
    while i < |keys|
      invariant 0 <= i && |infos| == Min(i, |keys|)
      invariant forall j | 0 <= j < |infos| :: infos[j] == Decode(s, keys[j])
    {
      var chunk := keys[i..Min(i + 100, |keys|)];
      infos := infos + seq(|chunk|, j requires 0 <= j < |chunk| => Decode(s, chunk[j]));
      i := i + 100;
    }
  }

  method FetchAgents(s: State, authorities: seq<Key>) returns (agents: map<Key, Agent>)
    ensures agents == map a | a in authorities && a in s.agents :: s.agents[a]
  {
    var unique: seq<Key> := [];
    for i := 0 to |authorities|
      invariant forall a :: a in unique <==> a in authorities[..i]
    {
      if authorities[i] !in unique { unique := unique + [authorities[i]]; }
    }
    assert authorities[..|authorities|] == authorities;
    agents := map[];
    for i := 0 to |unique|
      invariant agents == map a | a in unique[..i] && a in s.agents :: s.agents[a]
    {
      if unique[i] in s.agents { agents := agents[unique[i] := s.agents[unique[i]]]; }
    }
    assert unique[..|unique|] == unique;
  }

  /** `indexRead` is false when reading the index account failed and the client treats it as absent. */
  method Discover(s: State, q: Query, indexRead: bool, scan: seq<Account>) returns (items: Option<seq<Item>>)
    ensures items.Some? <==> s.config.Some?
    ensures items.Some? ==>
              items.value == SortByScore(Offers(s, KeysUsed(s, q, indexRead, scan), q, s.config.value.decayPeriod))
  {
    var keys := scan;
    if indexRead && q.capabilityType in s.indexes {
      var listed := s.indexes[q.capabilityType].capabilities;
      keys := seq(|listed|, i requires 0 <= i < |listed| => CapabilityAt(listed[i]));
    }
    var infos := GetMultipleAccountsChunked(s, keys);

    var creators: seq<Key> := [];
    for i := 0 to |keys|
      invariant forall j | 0 <= j < i ::
                  infos[j].Some? && Eligible(infos[j].value, q) ==> infos[j].value.creator in creators
    {
      if infos[i].Some? && Eligible(infos[i].value, q) { creators := creators + [infos[i].value.creator]; }
    }
    var agents := FetchAgents(s, creators);
    if s.config.None? { return None; }
    var period := s.config.value.decayPeriod;

    var found: seq<Item> := [];
    for i := 0 to |keys|
      invariant found == Offers(s, keys[..i], q, period)
    {
      assert keys[..i + 1][..i] == keys[..i];
      if infos[i].Some? && Eligible(infos[i].value, q) {
        var k := infos[i].value;
        var a := AgentRecord(agents, k.creator);
        var b := Score.SdkScore(a.completions, a.disputes, a.lastActivity, s.now, Some(period));
        if b.score >= q.minScore {
          found := found + [Item(k.creator, keys[i].capability, k.id, k.certified, k.slashed, k.bondRemaining,
                                 a.completions, a.disputes, b.score, b.decayed)];
        }
      }
    }
    assert keys[..|keys|] == keys;
    return Some(SortByScore(found));
  }

  function KeysUsed(s: State, q: Query, indexRead: bool, scan: seq<Account>): seq<Account> {
    if indexRead && q.capabilityType in s.indexes then
      var listed := s.indexes[q.capabilityType].capabilities;
      seq(|listed|, i requires 0 <= i < |listed| => CapabilityAt(listed[i]))
    else scan
  }

  // ---------------------------------------------------------------------------
  // The two ways agree

  lemma {:induction false} OffersMembers(s: State, keys: seq<Account>, q: Query, period: i64)
    requires Distinct(keys)
    ensures Distinct(Offers(s, keys, q, period))
    ensures forall x :: x in Offers(s, keys, q, period) <==>
              CapabilityAt(x.capability) in keys && Offer(s, CapabilityAt(x.capability), q, period) == Some(x)
    decreases |keys|
  {
    if keys != [] {
      var front, last := keys[..|keys| - 1], keys[|keys| - 1];
      OffersMembers(s, front, q, period);
      assert keys == front + [last];
      var o, r := Offer(s, last, q, period), Offers(s, front, q, period);
      if o.Some? {
        assert last == CapabilityAt(o.value.capability);
        assert o.value !in r;
      }
    }
  }

  lemma {:induction false} DistinctMultiset<T>(a: seq<T>, b: seq<T>)
    requires Distinct(a) && Distinct(b) && forall x :: x in a <==> x in b
    ensures multiset(a) == multiset(b)
  {
    forall x ensures multiset(a)[x] == multiset(b)[x] {
      DistinctCount(a, x);
      DistinctCount(b, x);
    }
  }

  lemma {:induction false} DistinctCount<T>(a: seq<T>, x: T)
    requires Distinct(a)
    ensures multiset(a)[x] == if x in a then 1 else 0
    decreases |a|
  {
    if a != [] {
      assert a == [a[0]] + a[1..];
      DistinctCount(a[1..], x);
    }
  }

  /** What the records of the ledger say of an item: a live capability of the type asked for, never
      slashed, certified unless that is waived, with the data of its own record and of its creator's, whose
      score reaches the minimum. */
  ghost predicate Deserves(s: State, q: Query, period: i64, x: Item) {
    var r := x.capability;
    && r in s.capabilities
    && var k := s.capabilities[r];
       && r.capabilityType == q.capabilityType
       && k.active && !k.slashed && (q.includeUncertified || k.certified)
       && x.agent == r.creator && x.capabilityId == r.id
       && x.certified == k.certified && !x.slashed && x.bond == k.bondRemaining
       && x.completions == (if r.creator in s.agents then s.agents[r.creator].completions else 0)
       && x.disputes == (if r.creator in s.agents then s.agents[r.creator].disputes else 0)
       && var last := if r.creator in s.agents then s.agents[r.creator].lastActivity else 0;
          var shown := Score.SdkScore(x.completions, x.disputes, last, s.now, Some(period));
          x.score == shown.score && x.decayed == shown.decayed && x.score >= q.minScore
  }

  /** In every reachable ledger, whichever way the client reads it, it returns the same items: exactly
      one for each live, unslashed, certified (unless waived) capability of the type whose creator's
      score reaches the minimum, best score first. */
  lemma IndexEqualsScan(s: State, q: Query, indexRead: bool, scan: seq<Account>)
    requires Inv(s) && s.config.Some? && IsScan(s, q.capabilityType, scan)
    ensures var period := s.config.value.decayPeriod;
            var items := SortByScore(Offers(s, KeysUsed(s, q, indexRead, scan), q, period));
            && BestFirst(items)
            && multiset(items) == multiset(Offers(s, scan, q, period))
            && (forall x :: multiset(items)[x] == if Deserves(s, q, period, x) then 1 else 0)
  {
    var period := s.config.value.decayPeriod;
    var keys := KeysUsed(s, q, indexRead, scan);
    KeysUsedAgree(s, q, indexRead, scan);
    forall r ensures CapabilityAt(r) in scan <==> r in s.capabilities && r.capabilityType == q.capabilityType {}
    assert NamesAgree(s);
    OffersDeserved(s, keys, q, period);
    OffersDeserved(s, scan, q, period);
    DistinctMultiset(Offers(s, keys, q, period), Offers(s, scan, q, period));
    SortBestFirst(Offers(s, keys, q, period));
  }

  lemma OffersDeserved(s: State, keys: seq<Account>, q: Query, period: i64)
    requires Distinct(keys) && NamesAgree(s)
    requires forall r :: CapabilityAt(r) in keys <==> r in s.capabilities && r.capabilityType == q.capabilityType
    ensures Distinct(Offers(s, keys, q, period))
    ensures forall x :: x in Offers(s, keys, q, period) <==> Deserves(s, q, period, x)
    ensures forall x :: multiset(Offers(s, keys, q, period))[x] == if Deserves(s, q, period, x) then 1 else 0
  {
    OffersMembers(s, keys, q, period);
    forall x ensures x in Offers(s, keys, q, period) <==> Deserves(s, q, period, x) {
      OfferIsDeserved(s, q, period, x);
    }
    DistinctCounts(Offers(s, keys, q, period));
  }

  /** A record carries the id, creator and type its address is derived from. */
  ghost predicate NamesAgree(s: State) {
    forall r | r in s.capabilities ::
      var k := s.capabilities[r];
      k.id == r.id && k.creator == r.creator && k.capabilityType == r.capabilityType
  }

  lemma OfferIsDeserved(s: State, q: Query, period: i64, x: Item)
    requires NamesAgree(s)
    ensures Deserves(s, q, period, x) <==>
            && x.capability in s.capabilities && x.capability.capabilityType == q.capabilityType
            && Offer(s, CapabilityAt(x.capability), q, period) == Some(x)
  {
    if x.capability in s.capabilities { assert s.capabilities[x.capability].creator == x.capability.creator; }
  }

  lemma DistinctCounts(offers: seq<Item>)
    requires Distinct(offers)
    ensures forall x :: multiset(offers)[x] == if x in offers then 1 else 0
  {
    forall x ensures multiset(offers)[x] == if x in offers then 1 else 0 {
      DistinctCount(offers, x);
    }
  }

  lemma KeysUsedAgree(s: State, q: Query, indexRead: bool, scan: seq<Account>)
    requires IndexesAgree(s.capabilities, s.indexes) && IsScan(s, q.capabilityType, scan)
    requires forall r | r in s.capabilities :: s.capabilities[r].capabilityType == r.capabilityType
    ensures Distinct(KeysUsed(s, q, indexRead, scan))
    ensures forall r :: CapabilityAt(r) in KeysUsed(s, q, indexRead, scan) <==>
              r in s.capabilities && r.capabilityType == q.capabilityType
  {
    var keys := KeysUsed(s, q, indexRead, scan);
    if indexRead && q.capabilityType in s.indexes {
      var listed := s.indexes[q.capabilityType].capabilities;
      forall r ensures CapabilityAt(r) in keys <==> r in listed {
        if r in listed {
          var i :| 0 <= i < |listed| && listed[i] == r;
          assert keys[i] == CapabilityAt(r);
        }
      }
    }
  }

  /** A live, unslashed capability of the type, certified unless that is waived. */
  predicate Shown(s: State, q: Query, r: CapabilityRef) {
    && r in s.capabilities && r.capabilityType == q.capabilityType
    && s.capabilities[r].active && !s.capabilities[r].slashed
    && (q.includeUncertified || s.capabilities[r].certified)
  }

  /** The score the SDK computes for an agent now, zero without a record. */
  function ScoreNow(s: State, agent: Key, period: i64): nat {
    if agent in s.agents then
      var a := s.agents[agent];
      Score.SdkScore(a.completions, a.disputes, a.lastActivity, s.now, Some(period)).score
    else 0
  }

  /** Each deserved item once, and no others. */
  ghost predicate ListsDeserved(s: State, q: Query, period: i64, items: seq<Item>) {
    forall x :: multiset(items)[x] == if Deserves(s, q, period, x) then 1 else 0
  }

  ghost predicate HasItemOf(items: seq<Item>, r: CapabilityRef) {
    exists i :: 0 <= i < |items| && items[i].capability == r
  }

  ghost predicate AtMostOneOf(items: seq<Item>, r: CapabilityRef) {
    forall i, j | 0 <= i < j < |items| :: items[i].capability == r ==> items[j].capability != r
  }

  /** Seen from a record: exactly one of the items is its own if it is to be shown and its creator's score
      reaches the minimum, and else none. */
  lemma RecordIsOfferedOnce(s: State, q: Query, indexRead: bool, scan: seq<Account>, r: CapabilityRef)
    requires Inv(s) && s.config.Some? && IsScan(s, q.capabilityType, scan)
    ensures var period := s.config.value.decayPeriod;
            var items := SortByScore(Offers(s, KeysUsed(s, q, indexRead, scan), q, period));
            && AtMostOneOf(items, r)
            && (HasItemOf(items, r) <==> Shown(s, q, r) && ScoreNow(s, r.creator, period) >= q.minScore)
  {
    var period := s.config.value.decayPeriod;
    var items := SortByScore(Offers(s, KeysUsed(s, q, indexRead, scan), q, period));
    IndexEqualsScan(s, q, indexRead, scan);
    assert NamesAgree(s);
    OneItemAtMost(s, q, period, items, r);
    ItemIfWanted(s, q, period, items, r);
  }

  lemma OneItemAtMost(s: State, q: Query, period: i64, items: seq<Item>, r: CapabilityRef)
    requires ListsDeserved(s, q, period, items)
    ensures AtMostOneOf(items, r)
  {
    forall i, j | 0 <= i < j < |items| && items[i].capability == r ensures items[j].capability != r {
      var x, y := items[i], items[j];
      assert x in multiset(items) && y in multiset(items);
      if y.capability == r {
        SameRecordSameItem(s, q, period, x, y);
        TwiceIsTwo(items, i, j);
      }
    }
  }

  lemma ItemIfWanted(s: State, q: Query, period: i64, items: seq<Item>, r: CapabilityRef)
    requires NamesAgree(s) && ListsDeserved(s, q, period, items)
    ensures HasItemOf(items, r) <==> Shown(s, q, r) && ScoreNow(s, r.creator, period) >= q.minScore
  {
    if i :| 0 <= i < |items| && items[i].capability == r {
      assert items[i] in multiset(items);
      assert Deserves(s, q, period, items[i]);
    }
    if Shown(s, q, r) && ScoreNow(s, r.creator, period) >= q.minScore {
      RecordHasItem(s, q, period, r);
      var x := ItemFor(s, r, s.capabilities[r], period);
      assert x in multiset(items);
      assert x in items;
    }
  }

  lemma RecordHasItem(s: State, q: Query, period: i64, r: CapabilityRef)
    requires NamesAgree(s) && Shown(s, q, r) && ScoreNow(s, r.creator, period) >= q.minScore
    ensures Deserves(s, q, period, ItemFor(s, r, s.capabilities[r], period))
  {
    assert s.capabilities[r].creator == r.creator;
  }

  lemma SameRecordSameItem(s: State, q: Query, period: i64, x: Item, y: Item)
    requires Deserves(s, q, period, x) && Deserves(s, q, period, y) && x.capability == y.capability
    ensures x == y
  {
  }

  lemma TwiceIsTwo<T>(q: seq<T>, i: nat, j: nat)
    requires i < j < |q| && q[i] == q[j]
    ensures multiset(q)[q[i]] >= 2
  {
    assert q == q[..j] + ([q[j]] + q[j + 1..]);
    assert q[i] in q[..j] && q[j] in [q[j]] + q[j + 1..];
  }
}
