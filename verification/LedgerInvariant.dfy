/** What every reachable ledger satisfies: counters equal to the records they count, challenges that
    match their completions, vaults that hold their bonds, and indexes that list the live records. */
module LedgerInvariant {
  import opened Words
  import opened Sums
  import opened Ledger

  // ---------------------------------------------------------------------------
  // The parts

  ghost function Disputed(completions: map<CompletionRef, Completion>, agent: Key): set<CompletionRef> {
    set r | r in completions && r.agent == agent && completions[r].disputed
  }

  ghost function DisputeCount(completions: map<CompletionRef, Completion>, agent: Key): nat {
    |Disputed(completions, agent)|
  }

  /** Each agent's sequence numbers are exactly 0..completions, and its disputes are counted. */
  ghost predicate CountersAgree(agents: map<Key, Agent>, completions: map<CompletionRef, Completion>) {
    && (forall a | a in agents :: agents[a].authority == a)
    && (forall r | r in completions :: r.agent in agents && completions[r].agent == r.agent)
    && (forall r: CompletionRef :: r.agent in agents ==> (r in completions <==> r.seqNo < agents[r.agent].completions))
    && (forall a {:trigger DisputeCount(completions, a)} | a in agents ::
        agents[a].disputes == DisputeCount(completions, a))
  }

  ghost function CompletionCounts(agents: map<Key, Agent>): map<Key, nat> {
    map a | a in agents :: agents[a].completions
  }

  ghost predicate IdUsed(completions: map<CompletionRef, Completion>, id: nat) {
    exists r :: r in completions && completions[r].id == id
  }

  /** Completion ids are exactly 1..next, each used once, and the agents' counts add up to them. */
  ghost predicate IdsAgree(agents: map<Key, Agent>, completions: map<CompletionRef, Completion>, next: nat) {
    && (forall r | r in completions :: 1 <= completions[r].id < next)
    && (forall r, q | r in completions && q in completions :: completions[r].id == completions[q].id ==> r == q)
    && (forall id: nat | 1 <= id < next :: IdUsed(completions, id))
    && Sum(CompletionCounts(agents)) + 1 == next
  }

  /** A challenge exists exactly for a challenged completion; disputed means resolved and upheld. */
  ghost predicate ChallengesAgree(completions: map<CompletionRef, Completion>,
                                  challenges: map<CompletionRef, Challenge>)
  {
    && (forall r :: r in challenges <==> r in completions && completions[r].challenged)
    && (forall r | r in challenges ::
          challenges[r].completion == r && (challenges[r].upheld ==> challenges[r].resolved))
    && (forall r | r in completions :: completions[r].disputed <==> r in challenges && challenges[r].upheld)
  }

  /** A pending challenge's vault holds at least the bond recorded when it was made. */
  ghost predicate EscrowsHold(rentMin: nat, challenges: map<CompletionRef, Challenge>, lamports: map<Addr, nat>) {
    forall r | r in challenges ::
      && challenges[r].bond >= rentMin
      && (!challenges[r].resolved ==> Get(lamports, ChallengeVault(r)) >= challenges[r].bond)
  }

  ghost predicate BondsHold(rentMin: nat, capabilities: map<CapabilityRef, Capability>, next: nat,
                            lamports: map<Addr, nat>)
  {
    forall r | r in capabilities ::
      var k := capabilities[r];
      && k.id == r.id && k.creator == r.creator && k.capabilityType == r.capabilityType
      && 1 <= k.id < next && k.active
      && (k.bondRemaining == 0 ==> k.slashed)
      && (k.bondRemaining > 0 ==> k.bondRemaining >= rentMin)
      && Get(lamports, CapabilityVault(r)) >= k.bondRemaining
  }

  /** No id is used by two live capabilities. */
  ghost predicate CapabilityIdsDistinct(capabilities: map<CapabilityRef, Capability>) {
    forall r, q | r in capabilities && q in capabilities :: r.id == q.id ==> r == q
  }

  ghost predicate InIdOrder(q: seq<CapabilityRef>) {
    forall i, j | 0 <= i < j < |q| :: q[i].id < q[j].id
  }

  /** An index lists exactly the live records of its type, once each, in id order. */
  ghost predicate Lists(capabilities: map<CapabilityRef, Capability>, t: Tag, i: Index) {
    && i.capabilityType == t
    && |i.capabilities| <= CAP_INDEX_CAPACITY
    && InIdOrder(i.capabilities)
    && (forall r :: r in i.capabilities <==> r in capabilities && r.capabilityType == t)
  }

  ghost predicate IndexesAgree(capabilities: map<CapabilityRef, Capability>, indexes: map<Tag, Index>) {
    && (forall t | t in indexes :: Lists(capabilities, t, indexes[t]))
    && (forall r | r in capabilities :: r.capabilityType in indexes)
  }

  ghost function NextCompletion(s: State): nat {
    if s.config.Some? then s.config.value.nextCompletionId else 1
  }

  ghost function NextCapability(s: State): nat {
    if s.config.Some? then s.config.value.nextCapabilityId else 1
  }

  ghost predicate Inv(s: State) {
    && CountersAgree(s.agents, s.completions)
    && IdsAgree(s.agents, s.completions, NextCompletion(s))
    && ChallengesAgree(s.completions, s.challenges)
    && EscrowsHold(s.rentMin, s.challenges, s.lamports)
    && BondsHold(s.rentMin, s.capabilities, NextCapability(s), s.lamports)
    && NextCapability(s) >= 1
    && CapabilityIdsDistinct(s.capabilities)
    && IndexesAgree(s.capabilities, s.indexes)
    && (s.config.None? ==> s.completions == map[] && s.capabilities == map[])
    && (s.config.Some? ==> SoundSettings(s.config.value, s.rentMin))
  }

  /** The bond pays its vault's rent, and the decay period is positive and at most 366 days. */
  predicate SoundSettings(c: Config, rentMin: nat) {
    c.challengeBond >= rentMin && 0 < c.decayPeriod <= MAX_DECAY_PERIOD_SECS
  }

  // ---------------------------------------------------------------------------
  // Disputes never outrun completions

  ghost function OwnRefs(agent: Key, n: nat): (r: set<CompletionRef>)
    ensures |r| == n && forall x :: x in r <==> x.agent == agent && x.seqNo < n
  {
    if n == 0 then {} else OwnRefs(agent, n - 1) + {CompletionRef(agent, n - 1)}
  }

  lemma DisputesBounded(agents: map<Key, Agent>, completions: map<CompletionRef, Completion>, agent: Key)
    requires CountersAgree(agents, completions) && agent in agents
    ensures agents[agent].disputes <= agents[agent].completions
    ensures (exists r | r in completions :: r.agent == agent && !completions[r].disputed) ==>
              agents[agent].disputes < agents[agent].completions
  {
    var own := OwnRefs(agent, agents[agent].completions);
    assert agents[agent].disputes == DisputeCount(completions, agent);
    assert Disputed(completions, agent) <= own;
    SubsetSize(Disputed(completions, agent), own);
    if r :| r in completions && r.agent == agent && !completions[r].disputed {
      assert r in own && r !in Disputed(completions, agent);
    }
  }

  lemma DisputeCountAfter(completions: map<CompletionRef, Completion>, ref: CompletionRef, k: Completion, x: Key)
    requires ref in completions && completions[ref].disputed ==> k.disputed
    ensures DisputeCount(completions[ref := k], x) == DisputeCount(completions, x)
              + if k.disputed && x == ref.agent && !(ref in completions && completions[ref].disputed) then 1 else 0
  {
    var before, after := Disputed(completions, x), Disputed(completions[ref := k], x);
    if k.disputed && x == ref.agent {
      assert after == before + {ref};
    } else {
      assert after == before;
    }
  }

  lemma NoCompletionsNoDisputes(completions: map<CompletionRef, Completion>, x: Key)
    requires forall r | r in completions :: r.agent != x
    ensures DisputeCount(completions, x) == 0
  {
    assert Disputed(completions, x) == {};
  }

  // ---------------------------------------------------------------------------
  // Counters

  lemma CountersAfterJoin(agents: map<Key, Agent>, completions: map<CompletionRef, Completion>, authority: Key,
                          a: Agent)
    requires CountersAgree(agents, completions) && a.authority == authority
    requires if authority in agents then a == agents[authority] else a.completions == a.disputes == 0
    ensures CountersAgree(agents[authority := a], completions)
  {
    if authority !in agents { NoCompletionsNoDisputes(completions, authority); }
  }

  lemma CountersAfterAttest(agents: map<Key, Agent>, completions: map<CompletionRef, Completion>, ref: CompletionRef,
                            k: Completion, a: Agent)
    requires CountersAgree(agents, completions) && ref !in completions
    requires !k.disputed && k.agent == ref.agent
    requires a.authority == ref.agent && a.completions == ref.seqNo + 1
    requires if ref.agent in agents
             then a.completions == agents[ref.agent].completions + 1 && a.disputes == agents[ref.agent].disputes
             else a.completions == 1 && a.disputes == 0
    ensures CountersAgree(agents[ref.agent := a], completions[ref := k])
  {
    if ref.agent !in agents { NoCompletionsNoDisputes(completions, ref.agent); }
    var agents', completions' := agents[ref.agent := a], completions[ref := k];
    forall x | x in agents' ensures agents'[x].disputes == DisputeCount(completions', x) {
      DisputeCountAfter(completions, ref, k, x);
    }
  }

  /** Marking a completion challenged, or disputed together with its agent's counter, keeps the count. */
  lemma CountersAfterFlags(agents: map<Key, Agent>, completions: map<CompletionRef, Completion>, ref: CompletionRef,
                           k: Completion, a: Agent)
    requires CountersAgree(agents, completions) && ref in completions && k.agent == completions[ref].agent
    requires a.authority == ref.agent && a.completions == agents[ref.agent].completions
    requires completions[ref].disputed ==> k.disputed
    requires a.disputes == agents[ref.agent].disputes + if k.disputed && !completions[ref].disputed then 1 else 0
    ensures CountersAgree(agents[ref.agent := a], completions[ref := k])
  {
    var agents', completions' := agents[ref.agent := a], completions[ref := k];
    forall x | x in agents' ensures agents'[x].disputes == DisputeCount(completions', x) {
      DisputeCountAfter(completions, ref, k, x);
    }
  }

  // ---------------------------------------------------------------------------
  // Ids

  lemma IdsAfterJoin(agents: map<Key, Agent>, completions: map<CompletionRef, Completion>, next: nat, authority: Key,
                     a: Agent)
    requires IdsAgree(agents, completions, next)
    requires a.completions == if authority in agents then agents[authority].completions else 0
    ensures IdsAgree(agents[authority := a], completions, next)
  {
    var counts := CompletionCounts(agents);
    assert CompletionCounts(agents[authority := a]) == counts[authority := a.completions];
    SumPut(counts, authority, a.completions);
  }

  lemma IdsAfterAttest(agents: map<Key, Agent>, completions: map<CompletionRef, Completion>, next: nat,
                       ref: CompletionRef, k: Completion, authority: Key, a: Agent)
    requires IdsAgree(agents, completions, next) && next >= 1
    requires ref !in completions && k.id == next
    requires a.completions == 1 + if authority in agents then agents[authority].completions else 0
    ensures IdsAgree(agents[authority := a], completions[ref := k], next + 1)
  {
    var counts := CompletionCounts(agents);
    assert CompletionCounts(agents[authority := a]) == counts[authority := a.completions];
    SumPut(counts, authority, a.completions);
    var completions' := completions[ref := k];
    forall id: nat | 1 <= id < next + 1 ensures IdUsed(completions', id) {
      if id < next {
        assert IdUsed(completions, id);
        var r :| r in completions && completions[r].id == id;
        assert r in completions' && completions'[r].id == id;
      } else {
        assert completions'[ref].id == id;
      }
    }
  }

  lemma IdsAfterFlags(agents: map<Key, Agent>, completions: map<CompletionRef, Completion>, next: nat,
                      ref: CompletionRef, k: Completion, authority: Key, a: Agent)
    requires IdsAgree(agents, completions, next)
    requires ref in completions && k.id == completions[ref].id
    requires authority in agents && a.completions == agents[authority].completions
    ensures IdsAgree(agents[authority := a], completions[ref := k], next)
  {
    var completions' := completions[ref := k];
    assert CompletionCounts(agents[authority := a]) == CompletionCounts(agents);
    forall id: nat | 1 <= id < next ensures IdUsed(completions', id) {
      assert IdUsed(completions, id);
      var r :| r in completions && completions[r].id == id;
      assert r in completions' && completions'[r].id == id;
    }
  }

  // ---------------------------------------------------------------------------
  // Challenges

  lemma ChallengesAfterAttest(completions: map<CompletionRef, Completion>, challenges: map<CompletionRef, Challenge>,
                              ref: CompletionRef, k: Completion)
    requires ChallengesAgree(completions, challenges) && ref !in completions && !k.challenged && !k.disputed
    ensures ChallengesAgree(completions[ref := k], challenges)
  {
  }

  lemma ChallengesAfterChallenge(completions: map<CompletionRef, Completion>, challenges: map<CompletionRef, Challenge>,
                                 ref: CompletionRef, ch: Challenge)
    requires ChallengesAgree(completions, challenges) && ref in completions && !completions[ref].challenged
    requires ch.completion == ref && !ch.upheld
    ensures ChallengesAgree(completions[ref := completions[ref].(challenged := true)], challenges[ref := ch])
  {
  }

  lemma ChallengesAfterClose(completions: map<CompletionRef, Completion>, challenges: map<CompletionRef, Challenge>,
                             ref: CompletionRef, upheld: bool)
    requires ChallengesAgree(completions, challenges) && ref in challenges && !challenges[ref].resolved
    ensures ChallengesAgree(completions[ref := completions[ref].(disputed := upheld)],
              challenges[ref := challenges[ref].(resolved := true, upheld := upheld)])
  {
  }

  // ---------------------------------------------------------------------------
  // Escrowed lamports: no vault but the debited one gets poorer

  lemma OutsideMove(m: map<Addr, nat>, from: Addr, to: Addr, amount: nat, vault: Addr)
    requires amount <= Get(m, from) && !vault.Wallet? && vault != from
    ensures Get(Moved(m, from, to, amount), vault) == Get(m, vault) + if vault == to then amount else 0
  {
  }

  lemma EscrowsAfterMove(rentMin: nat, challenges: map<CompletionRef, Challenge>, m: map<Addr, nat>,
                         from: Addr, to: Addr, amount: nat)
    requires EscrowsHold(rentMin, challenges, m) && amount <= Get(m, from)
    requires from.ChallengeVault? && from.completion in challenges ==> challenges[from.completion].resolved
    ensures EscrowsHold(rentMin, challenges, Moved(m, from, to, amount))
  {
    forall r | r in challenges && !challenges[r].resolved
      ensures Get(Moved(m, from, to, amount), ChallengeVault(r)) >= challenges[r].bond
    {
      OutsideMove(m, from, to, amount, ChallengeVault(r));
    }
  }

  lemma BondsAfterMove(rentMin: nat, capabilities: map<CapabilityRef, Capability>, next: nat, m: map<Addr, nat>,
                       from: Addr, to: Addr, amount: nat)
    requires BondsHold(rentMin, capabilities, next, m) && amount <= Get(m, from)
    requires from.CapabilityVault? ==> from.capability !in capabilities
    ensures BondsHold(rentMin, capabilities, next, Moved(m, from, to, amount))
  {
    forall r | r in capabilities
      ensures Get(Moved(m, from, to, amount), CapabilityVault(r)) >= capabilities[r].bondRemaining
    {
      OutsideMove(m, from, to, amount, CapabilityVault(r));
    }
  }

  // ---------------------------------------------------------------------------
  // Indexes

  lemma IndexesAfterRegister(capabilities: map<CapabilityRef, Capability>, indexes: map<Tag, Index>,
                             ref: CapabilityRef, k: Capability, i: Index)
    requires IndexesAgree(capabilities, indexes)
    requires ref !in capabilities
    requires i.capabilityType == ref.capabilityType && |i.capabilities| < CAP_INDEX_CAPACITY
    requires if ref.capabilityType in indexes then i.capabilities == indexes[ref.capabilityType].capabilities
              else i.capabilities == []
    requires forall r | r in capabilities :: r.id < ref.id
    ensures IndexesAgree(capabilities[ref := k],
              indexes[ref.capabilityType := i.(capabilities := i.capabilities + [ref])])
  {
    var q := i.capabilities;
    forall r ensures r in q + [ref] <==> r in q || r == ref {}
    forall j | 0 <= j < |q| ensures q[j].id < ref.id { assert q[j] in q; }
    if ref.capabilityType !in indexes {
      assert forall r | r in capabilities :: r.capabilityType != ref.capabilityType;
    }
  }

  lemma {:induction false} WithoutMembers<T>(q: seq<T>, x: T)
    ensures forall y :: y in Without(q, x) <==> y in q && y != x
  {
    if q != [] { WithoutMembers(q[1..], x); }
  }

  /** Pruning keeps the order of an index and frees exactly one slot if the entry was there. */
  lemma {:induction false} WithoutKeepsOrder(q: seq<CapabilityRef>, x: CapabilityRef)
    requires InIdOrder(q)
    ensures InIdOrder(Without(q, x))
    ensures |Without(q, x)| == |q| - if x in q then 1 else 0
  {
    if q != [] {
      var rest := Without(q[1..], x);
      WithoutKeepsOrder(q[1..], x);
      WithoutMembers(q[1..], x);
      forall j | 0 <= j < |rest| ensures q[0].id < rest[j].id {
        assert rest[j] in q[1..];
      }
      assert q[0] !in q[1..];
    }
  }

  lemma IndexesAfterWithdraw(capabilities: map<CapabilityRef, Capability>, indexes: map<Tag, Index>, ref: CapabilityRef)
    requires IndexesAgree(capabilities, indexes) && ref in capabilities
    ensures var i := indexes[ref.capabilityType];
            IndexesAgree(capabilities - {ref},
                indexes[ref.capabilityType := i.(capabilities := Without(i.capabilities, ref))])
  {
    var t := ref.capabilityType;
    PrunedLists(capabilities, ref, indexes[t]);
    forall u | u in indexes && u != t ensures Lists(capabilities - {ref}, u, indexes[u]) {
      assert Lists(capabilities, u, indexes[u]);
    }
  }

  lemma PrunedLists(capabilities: map<CapabilityRef, Capability>, ref: CapabilityRef, i: Index)
    requires Lists(capabilities, ref.capabilityType, i)
    ensures Lists(capabilities - {ref}, ref.capabilityType, i.(capabilities := Without(i.capabilities, ref)))
  {
    WithoutMembers(i.capabilities, ref);
    WithoutKeepsOrder(i.capabilities, ref);
  }

  // ---------------------------------------------------------------------------
  // Each instruction keeps the invariant

  lemma RegisterAgentKeeps(s: State, authority: Key, uriLen: nat)
    requires Inv(s) && RegisterAgent(s, authority, uriLen).Ok?
    ensures Inv(RegisterAgent(s, authority, uriLen).value)
  {
    var a := Claimed(AgentOrNew(s, authority), authority);
    CountersAfterJoin(s.agents, s.completions, authority, a);
    IdsAfterJoin(s.agents, s.completions, NextCompletion(s), authority, a);
  }

  lemma AttestKeeps(s: State, authority: Key, taskType: Tag, uriLen: nat, seqNo: u64)
    requires Inv(s) && Attest(s, authority, taskType, uriLen, seqNo).Ok?
    ensures Inv(Attest(s, authority, taskType, uriLen, seqNo).value)
  {
    var s' := Attest(s, authority, taskType, uriLen, seqNo).value;
    var ref := CompletionRef(authority, seqNo);
    CountersAfterAttest(s.agents, s.completions, ref, s'.completions[ref], s'.agents[authority]);
    IdsAfterAttest(s.agents, s.completions, NextCompletion(s), ref, s'.completions[ref], authority,
        s'.agents[authority]);
    ChallengesAfterAttest(s.completions, s.challenges, ref, s'.completions[ref]);
  }

  lemma OpenKeepsVaults(s: State, ref: CompletionRef, ch: Challenge)
    requires EscrowsHold(s.rentMin, s.challenges, s.lamports)
    requires BondsHold(s.rentMin, s.capabilities, NextCapability(s), s.lamports)
    requires ref !in s.challenges && s.rentMin <= ch.bond <= Balance(s, Wallet(ch.challenger))
    ensures var m := Moved(s.lamports, Wallet(ch.challenger), ChallengeVault(ref), ch.bond);
            && EscrowsHold(s.rentMin, s.challenges[ref := ch], m)
            && BondsHold(s.rentMin, s.capabilities, NextCapability(s), m)
  {
    var from, to := Wallet(ch.challenger), ChallengeVault(ref);
    EscrowsAfterMove(s.rentMin, s.challenges, s.lamports, from, to, ch.bond);
    OutsideMove(s.lamports, from, to, ch.bond, to);
    BondsAfterMove(s.rentMin, s.capabilities, NextCapability(s), s.lamports, from, to, ch.bond);
  }

  lemma ChallengeKeeps(s: State, challenger: Key, ref: CompletionRef, uriLen: nat)
    requires Inv(s) && ChallengeCompletion(s, challenger, ref, uriLen).Ok?
    ensures Inv(ChallengeCompletion(s, challenger, ref, uriLen).value)
  {
    var s' := ChallengeCompletion(s, challenger, ref, uriLen).value;
    var bond := s.config.value.challengeBond;
    CountersAfterFlags(s.agents, s.completions, ref, s'.completions[ref], s.agents[ref.agent]);
    IdsAfterFlags(s.agents, s.completions, NextCompletion(s), ref, s'.completions[ref], ref.agent, s.agents[ref.agent]);
    assert s.agents[ref.agent := s.agents[ref.agent]] == s.agents;
    ChallengesAfterChallenge(s.completions, s.challenges, ref, s'.challenges[ref]);
    OpenKeepsVaults(s, ref, s'.challenges[ref]);
  }

  /** The counters survive a resolution. */
  lemma ResolveKeepsCounters(s: State, authority: Key, ref: CompletionRef, upheld: bool)
    requires CountersAgree(s.agents, s.completions) && IdsAgree(s.agents, s.completions, NextCompletion(s))
    requires ChallengesAgree(s.completions, s.challenges) && ResolveChallenge(s, authority, ref, upheld).Ok?
    ensures var s' := ResolveChallenge(s, authority, ref, upheld).value;
            CountersAgree(s'.agents, s'.completions) && IdsAgree(s'.agents, s'.completions, NextCompletion(s'))
  {
    if upheld {
      var s' := ResolveChallenge(s, authority, ref, upheld).value;
      var k, a := s'.completions[ref], s'.agents[ref.agent];
      CountersAfterFlags(s.agents, s.completions, ref, k, a);
      IdsAfterFlags(s.agents, s.completions, NextCompletion(s), ref, k, ref.agent, a);
    }
  }

  lemma ResolveKeepsChallenges(s: State, authority: Key, ref: CompletionRef, upheld: bool)
    requires ChallengesAgree(s.completions, s.challenges) && ResolveChallenge(s, authority, ref, upheld).Ok?
    ensures var s' := ResolveChallenge(s, authority, ref, upheld).value;
            ChallengesAgree(s'.completions, s'.challenges)
  {
    var k := s.completions[ref];
    ChallengesAfterClose(s.completions, s.challenges, ref, upheld);
    assert !upheld ==> s.completions[ref := k.(disputed := upheld)] == s.completions;
  }

  lemma ResolveKeeps(s: State, authority: Key, ref: CompletionRef, upheld: bool)
    requires Inv(s) && ResolveChallenge(s, authority, ref, upheld).Ok?
    ensures Inv(ResolveChallenge(s, authority, ref, upheld).value)
  {
    var s' := ResolveChallenge(s, authority, ref, upheld).value;
    ResolveKeepsCounters(s, authority, ref, upheld);
    ResolveKeepsChallenges(s, authority, ref, upheld);
    CloseKeepsVaults(s, ref, s'.challenges[ref],
        if upheld then s.challenges[ref].challenger else s.config.value.treasury);
  }

  lemma CloseKeepsVaults(s: State, ref: CompletionRef, closed: Challenge, to: Key)
    requires EscrowsHold(s.rentMin, s.challenges, s.lamports)
    requires BondsHold(s.rentMin, s.capabilities, NextCapability(s), s.lamports)
    requires ref in s.challenges && closed.resolved && closed.bond == s.challenges[ref].bond
    ensures var m := Moved(s.lamports, ChallengeVault(ref), Wallet(to), Balance(s, ChallengeVault(ref)));
            && EscrowsHold(s.rentMin, s.challenges[ref := closed], m)
            && BondsHold(s.rentMin, s.capabilities, NextCapability(s), m)
  {
    var amount := Balance(s, ChallengeVault(ref));
    assert EscrowsHold(s.rentMin, s.challenges[ref := closed], s.lamports);
    EscrowsAfterMove(s.rentMin, s.challenges[ref := closed], s.lamports, ChallengeVault(ref), Wallet(to), amount);
    BondsAfterMove(s.rentMin, s.capabilities, NextCapability(s), s.lamports, ChallengeVault(ref), Wallet(to), amount);
  }

  lemma CancelKeeps(s: State, signer: Key, ref: CompletionRef)
    requires Inv(s) && CancelChallenge(s, signer, ref).Ok?
    ensures Inv(CancelChallenge(s, signer, ref).value)
  {
    var s' := CancelChallenge(s, signer, ref).value;
    ChallengesAfterClose(s.completions, s.challenges, ref, false);
    assert s.completions[ref := s.completions[ref].(disputed := false)] == s.completions;
    CloseKeepsVaults(s, ref, s'.challenges[ref], signer);
  }

  lemma RegisterKeepsVaults(s: State, ref: CapabilityRef, k: Capability)
    requires EscrowsHold(s.rentMin, s.challenges, s.lamports)
    requires BondsHold(s.rentMin, s.capabilities, NextCapability(s), s.lamports)
    requires CapabilityIdsDistinct(s.capabilities)
    requires ref.id == k.id == NextCapability(s) >= 1 && ref.creator == k.creator
              && ref.capabilityType == k.capabilityType
    requires k.active && s.rentMin <= k.bondRemaining <= Balance(s, Wallet(k.creator)) && k.bondRemaining > 0
    ensures var m := Moved(s.lamports, Wallet(k.creator), CapabilityVault(ref), k.bondRemaining);
            && EscrowsHold(s.rentMin, s.challenges, m)
            && BondsHold(s.rentMin, s.capabilities[ref := k], NextCapability(s) + 1, m)
            && CapabilityIdsDistinct(s.capabilities[ref := k])
  {
    var from, to := Wallet(k.creator), CapabilityVault(ref);
    EscrowsAfterMove(s.rentMin, s.challenges, s.lamports, from, to, k.bondRemaining);
    BondsAfterMove(s.rentMin, s.capabilities, NextCapability(s), s.lamports, from, to, k.bondRemaining);
    OutsideMove(s.lamports, from, to, k.bondRemaining, to);
  }

  lemma RegisterKeeps(s: State, creator: Key, t: Tag, uriLen: nat, id: u64, bond: u64)
    requires Inv(s) && RegisterCapability(s, creator, t, uriLen, id, bond).Ok?
    ensures Inv(RegisterCapability(s, creator, t, uriLen, id, bond).value)
  {
    var s' := RegisterCapability(s, creator, t, uriLen, id, bond).value;
    var ref := CapabilityRef(t, creator, id);
    IndexesAfterRegister(s.capabilities, s.indexes, ref, s'.capabilities[ref], Tagged(IndexOrNew(s, t), t));
    RegisterKeepsVaults(s, ref, s'.capabilities[ref]);
  }

  lemma SlashKeepsVaults(s: State, ref: CapabilityRef, k: Capability, to: Key, amount: nat)
    requires EscrowsHold(s.rentMin, s.challenges, s.lamports)
    requires BondsHold(s.rentMin, s.capabilities, NextCapability(s), s.lamports)
    requires ref in s.capabilities && amount <= Balance(s, CapabilityVault(ref))
    requires k.slashed && k == s.capabilities[ref].(slashed := true, bondRemaining := k.bondRemaining)
    requires k.bondRemaining == 0 || k.bondRemaining >= s.rentMin
    requires k.bondRemaining + amount <= Balance(s, CapabilityVault(ref))
    ensures var m := Moved(s.lamports, CapabilityVault(ref), Wallet(to), amount);
            && EscrowsHold(s.rentMin, s.challenges, m)
            && BondsHold(s.rentMin, s.capabilities[ref := k], NextCapability(s), m)
  {
    EscrowsAfterMove(s.rentMin, s.challenges, s.lamports, CapabilityVault(ref), Wallet(to), amount);
    BondsAfterMove(s.rentMin, s.capabilities - {ref}, NextCapability(s), s.lamports, CapabilityVault(ref), Wallet(to),
        amount);
  }

  lemma SlashKeeps(s: State, authority: Key, ref: CapabilityRef, penalty: u64)
    requires Inv(s) && SlashCapability(s, authority, ref, penalty).Ok?
    ensures Inv(SlashCapability(s, authority, ref, penalty).value)
  {
    var s' := SlashCapability(s, authority, ref, penalty).value;
    var k, balance := s.capabilities[ref], Balance(s, CapabilityVault(ref));
    var amount := if k.bondRemaining == penalty then balance else penalty;
    FlagKeepsIndexes(s.capabilities, s.indexes, ref, s'.capabilities[ref]);
    SlashKeepsVaults(s, ref, s'.capabilities[ref], s.config.value.treasury, amount);
  }

  lemma WithdrawKeeps(s: State, signer: Key, ref: CapabilityRef)
    requires Inv(s) && WithdrawBond(s, signer, ref).Ok?
    ensures Inv(WithdrawBond(s, signer, ref).value)
  {
    var balance := Balance(s, CapabilityVault(ref));
    IndexesAfterWithdraw(s.capabilities, s.indexes, ref);
    EscrowsAfterMove(s.rentMin, s.challenges, s.lamports, CapabilityVault(ref), Wallet(signer), balance);
    BondsAfterMove(s.rentMin, s.capabilities - {ref}, NextCapability(s), s.lamports, CapabilityVault(ref),
        Wallet(signer), balance);
  }

  lemma SendKeeps(s: State, from: Key, to: Addr, amount: nat)
    requires Inv(s) && Send(s, from, to, amount).Ok?
    ensures Inv(Send(s, from, to, amount).value)
  {
    EscrowsAfterMove(s.rentMin, s.challenges, s.lamports, Wallet(from), to, amount);
    BondsAfterMove(s.rentMin, s.capabilities, NextCapability(s), s.lamports, Wallet(from), to, amount);
  }

  lemma InitializeKeeps(s: State, admin: Key, treasury: Key, certifier: Key, bond: u64, period: i64)
    requires Inv(s) && InitializeConfig(s, admin, treasury, certifier, bond, period).Ok?
    ensures Inv(InitializeConfig(s, admin, treasury, certifier, bond, period).value)
  {
    EscrowsAfterMove(s.rentMin, s.challenges, s.lamports, Wallet(admin), Wallet(treasury), s.rentMin);
  }

  lemma CertifyKeeps(s: State, authority: Key, ref: CapabilityRef)
    requires Inv(s) && CertifyCapability(s, authority, ref).Ok?
    ensures Inv(CertifyCapability(s, authority, ref).value)
  {
    var k := s.capabilities[ref].(certified := true);
    FlagKeepsIndexes(s.capabilities, s.indexes, ref, k);
    FlagKeepsBonds(s.rentMin, s.capabilities, NextCapability(s), s.lamports, ref);
  }

  lemma FlagKeepsBonds(rentMin: nat, capabilities: map<CapabilityRef, Capability>, next: nat, m: map<Addr, nat>,
                       ref: CapabilityRef)
    requires BondsHold(rentMin, capabilities, next, m) && ref in capabilities
    ensures BondsHold(rentMin, capabilities[ref := capabilities[ref].(certified := true)], next, m)
  {
  }

  lemma FlagKeepsIndexes(capabilities: map<CapabilityRef, Capability>, indexes: map<Tag, Index>, ref: CapabilityRef,
                         k: Capability)
    requires IndexesAgree(capabilities, indexes) && CapabilityIdsDistinct(capabilities) && ref in capabilities
    ensures IndexesAgree(capabilities[ref := k], indexes) && CapabilityIdsDistinct(capabilities[ref := k])
  {
  }

  /** Instructions that leave every record and every lamport where it was. */
  lemma RecordsUntouchedKeeps(s: State, s': State)
    requires Inv(s)
    requires s' == s.(config := s'.config, pendingAdmin := s'.pendingAdmin, now := s'.now)
    requires s.config.Some? == s'.config.Some?
    requires NextCompletion(s') == NextCompletion(s) && NextCapability(s') == NextCapability(s)
    requires s'.config.Some? ==> SoundSettings(s'.config.value, s.rentMin)
    ensures Inv(s')
  {
  }

  lemma ReputationStepKeeps(s: State, i: Instr)
    requires Inv(s) && (i.IRegisterAgent? || i.IAttest? || i.IChallenge? || i.IResolve? || i.ICancel?)
              && Apply(s, i).Ok?
    ensures Inv(Apply(s, i).value)
  {
    match i
    case IRegisterAgent(authority, uriLen) => RegisterAgentKeeps(s, authority, uriLen);
    case IAttest(authority, taskType, uriLen, seqNo) => AttestKeeps(s, authority, taskType, uriLen, seqNo);
    case IChallenge(challenger, ref, uriLen) => ChallengeKeeps(s, challenger, ref, uriLen);
    case IResolve(authority, ref, upheld) => ResolveKeeps(s, authority, ref, upheld);
    case ICancel(signer, ref) => CancelKeeps(s, signer, ref);
  }

  lemma CapabilityStepKeeps(s: State, i: Instr)
    requires Inv(s) && (i.IRegister? || i.ICertify? || i.ISlash? || i.IWithdraw?) && Apply(s, i).Ok?
    ensures Inv(Apply(s, i).value)
  {
    match i
    case IRegister(creator, t, uriLen, id, bond) => RegisterKeeps(s, creator, t, uriLen, id, bond);
    case ICertify(authority, ref) => CertifyKeeps(s, authority, ref);
    case ISlash(authority, ref, penalty) => SlashKeeps(s, authority, ref, penalty);
    case IWithdraw(signer, ref) => WithdrawKeeps(s, signer, ref);
  }

  lemma OtherStepKeeps(s: State, i: Instr)
    requires Inv(s) && Apply(s, i).Ok?
    requires i.IUpdate? || i.ISetCertifier? || i.ITransferAdmin? || i.IAcceptAdmin? || i.ITick?
    ensures Inv(Apply(s, i).value)
  {
    var s' := Apply(s, i).value;
    ConfigOnly(s, i);
    RecordsUntouchedKeeps(s, s');
  }

  lemma ConfigOnly(s: State, i: Instr)
    requires Apply(s, i).Ok? && (s.config.Some? ==> SoundSettings(s.config.value, s.rentMin))
    requires i.IUpdate? || i.ISetCertifier? || i.ITransferAdmin? || i.IAcceptAdmin? || i.ITick?
    ensures var s' := Apply(s, i).value;
            && s' == s.(config := s'.config, pendingAdmin := s'.pendingAdmin, now := s'.now)
            && s.config.Some? == s'.config.Some?
            && NextCompletion(s') == NextCompletion(s) && NextCapability(s') == NextCapability(s)
            && (s'.config.Some? ==> SoundSettings(s'.config.value, s.rentMin))
  {
  }

  /** Every accepted instruction keeps the invariant; a rejected one leaves the ledger alone. */
  lemma StepKeeps(s: State, i: Instr)
    requires Inv(s)
    ensures Inv(Step(s, i))
  {
    if Apply(s, i).Ok? {
      if i.IRegisterAgent? || i.IAttest? || i.IChallenge? || i.IResolve? || i.ICancel? {
        ReputationStepKeeps(s, i);
      } else if i.IRegister? || i.ICertify? || i.ISlash? || i.IWithdraw? {
        CapabilityStepKeeps(s, i);
      } else if i.IInitialize? {
        InitializeKeeps(s, i.admin, i.treasury, i.certifier, i.newBond, i.newPeriod);
      } else if i.ISend? {
        SendKeeps(s, i.from, i.to, i.amount);
      } else {
        OtherStepKeeps(s, i);
      }
    }
  }

  lemma GenesisHolds(s: State)
    requires Genesis(s)
    ensures Inv(s)
  {
    assert CompletionCounts(s.agents) == map[];
  }

  /** The invariant holds in every reachable ledger. */
  lemma {:induction false} RunKeeps(s: State, t: seq<Instr>)
    requires Genesis(s)
    ensures Inv(Run(s, t))
    decreases |t|
  {
    if t == [] {
      GenesisHolds(s);
    } else {
      RunKeeps(s, t[..|t| - 1]);
      StepKeeps(Run(s, t[..|t| - 1]), t[|t| - 1]);
    }
  }
}
