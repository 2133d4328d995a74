/** Which instructions are enabled in a reachable ledger: no bond is ever trapped, and no payout is
    ever refused because a vault or a counter went wrong. */
module LedgerLiveness {
  import opened Words
  import opened Wrappers
  import opened Sums
  import opened Ledger
  import opened LedgerInvariant
  import opened LedgerChallenges

  /** Paused or not, and whatever the authorities did: a cancellation is accepted exactly when the
      challenge is pending, its challenger signs, and ninety days have passed. */
  lemma CancelEnabled(s: State, signer: Key, ref: CompletionRef)
    requires Inv(s)
    ensures CancelChallenge(s, signer, ref).Ok?
       <==> Pending(s, ref) && signer == s.challenges[ref].challenger
            && s.now - s.challenges[ref].timestamp >= CHALLENGE_TIMEOUT_SECS
  {
    if ref in s.challenges { assert s.completions[ref].challenged && s.challenges[ref].completion == ref; }
  }

  /** In every future of a ledger with a pending challenge, either the challenge was settled on the way
      or, once its time is up, its challenger gets back at least the bond. */
  lemma BondComesBack(s: State, t: seq<Instr>, ref: CompletionRef)
    requires Inv(s) && Pending(s, ref)
    ensures var u, ch := Run(s, t), s.challenges[ref];
            Settled(u, ref) ||
            (u.now - ch.timestamp >= CHALLENGE_TIMEOUT_SECS ==>
              && CancelChallenge(u, ch.challenger, ref).Ok?
              && Balance(CancelChallenge(u, ch.challenger, ref).value, Wallet(ch.challenger))
                   >= Balance(u, Wallet(ch.challenger)) + ch.bond)
  {
    var u, ch := Run(s, t), s.challenges[ref];
    ChallengeIsFixed(s, t, ref);
    if !Settled(u, ref) && u.now - ch.timestamp >= CHALLENGE_TIMEOUT_SECS {
      assert Terms(u.challenges[ref]) == Terms(ch);
      CancelEnabled(u, ch.challenger, ref);
      CancelPays(u, ch.challenger, ref);
    }
  }

  lemma CancelPays(s: State, signer: Key, ref: CompletionRef)
    requires EscrowsHold(s.rentMin, s.challenges, s.lamports) && CancelChallenge(s, signer, ref).Ok?
    ensures Balance(CancelChallenge(s, signer, ref).value, Wallet(signer))
         >= Balance(s, Wallet(signer)) + s.challenges[ref].bond
  {
    assert Get(s.lamports, ChallengeVault(ref)) >= s.challenges[ref].bond;
  }

  /** A resolution is accepted exactly for a pending challenge and an authority's signature. */
  lemma ResolveEnabled(s: State, authority: Key, ref: CompletionRef, upheld: bool)
    requires Inv(s)
    ensures ResolveChallenge(s, authority, ref, upheld).Ok?
       <==> s.config.Some? && Pending(s, ref)
            && (authority == s.config.value.admin || authority == s.config.value.certifier)
  {
    if ref in s.challenges {
      assert s.completions[ref].challenged && s.challenges[ref].completion == ref;
      if s.config.Some? && Pending(s, ref) {
        assert !s.completions[ref].disputed;
        DisputesBounded(s.agents, s.completions, ref.agent);
        assert Get(s.lamports, ChallengeVault(ref)) >= s.challenges[ref].bond;
      }
    }
  }

  /** A withdrawal is accepted exactly for the creator of a live capability whose bond is not fully
      slashed. It pays at least the bond, removes the record, and frees exactly one index slot. */
  lemma WithdrawEnabled(s: State, signer: Key, ref: CapabilityRef)
    requires Inv(s)
    ensures WithdrawBond(s, signer, ref).Ok?
       <==> ref in s.capabilities && signer == ref.creator && s.capabilities[ref].bondRemaining > 0
    ensures WithdrawBond(s, signer, ref).Ok? ==>
              var s', k := WithdrawBond(s, signer, ref).value, s.capabilities[ref];
              && Balance(s', Wallet(signer)) >= Balance(s, Wallet(signer)) + k.bondRemaining
              && s'.capabilities == s.capabilities - {ref}
              && ref.capabilityType in s'.indexes && ref.capabilityType in s.indexes
              && |s'.indexes[ref.capabilityType].capabilities| == |s.indexes[ref.capabilityType].capabilities| - 1
              && (forall t | t in s.indexes && t != ref.capabilityType ::
                  t in s'.indexes && s'.indexes[t] == s.indexes[t])
  {
    if ref in s.capabilities {
      assert ref.capabilityType in s.indexes;
      assert Get(s.lamports, CapabilityVault(ref)) >= s.capabilities[ref].bondRemaining;
      if WithdrawBond(s, signer, ref).Ok? { WithdrawPays(s, signer, ref); }
    }
  }

  lemma WithdrawPays(s: State, signer: Key, ref: CapabilityRef)
    requires BondsHold(s.rentMin, s.capabilities, NextCapability(s), s.lamports)
              && IndexesAgree(s.capabilities, s.indexes)
    requires WithdrawBond(s, signer, ref).Ok?
    ensures var s', k, t := WithdrawBond(s, signer, ref).value, s.capabilities[ref], ref.capabilityType;
            && Balance(s', Wallet(signer)) >= Balance(s, Wallet(signer)) + k.bondRemaining
            && s'.capabilities == s.capabilities - {ref}
            && t in s.indexes && t in s'.indexes
            && |s'.indexes[t].capabilities| == |s.indexes[t].capabilities| - 1
            && s'.indexes == s.indexes[t := s'.indexes[t]]
  {
    var index := s.indexes[ref.capabilityType];
    assert Get(s.lamports, CapabilityVault(ref)) >= s.capabilities[ref].bondRemaining;
    assert ref in index.capabilities;
    WithoutKeepsOrder(index.capabilities, ref);
  }

  /** A slash is accepted exactly within the bond, leaving nothing or at least the rent minimum. */
  lemma SlashEnabled(s: State, authority: Key, ref: CapabilityRef, penalty: u64)
    requires Inv(s)
    ensures SlashCapability(s, authority, ref, penalty).Ok?
       <==> ref in s.capabilities
            && (authority == s.config.value.admin || authority == s.config.value.certifier)
            && 0 < penalty <= s.capabilities[ref].bondRemaining
            && (penalty == s.capabilities[ref].bondRemaining
                || s.capabilities[ref].bondRemaining - penalty >= s.rentMin)
  {
    if ref in s.capabilities {
      assert Get(s.lamports, CapabilityVault(ref)) >= s.capabilities[ref].bondRemaining;
    }
  }

  /** Where vaults hold their bonds, no instruction finds one short of its record. */
  lemma VaultsNeverMismatch(s: State, i: Instr)
    requires EscrowsHold(s.rentMin, s.challenges, s.lamports)
    requires BondsHold(s.rentMin, s.capabilities, NextCapability(s), s.lamports)
    ensures Apply(s, i) != Err(VaultBalanceMismatch)
  {
    if i.IResolve? {
      assert i.completion in s.challenges && !s.challenges[i.completion].resolved ==>
          Get(s.lamports, ChallengeVault(i.completion)) >= s.challenges[i.completion].bond;
    } else if i.ISlash? || i.IWithdraw? {
      assert i.capability in s.capabilities ==>
          Get(s.lamports, CapabilityVault(i.capability)) >= s.capabilities[i.capability].bondRemaining;
    }
  }

  // ---------------------------------------------------------------------------
  // Index capacity

  ghost function LiveOf(capabilities: map<CapabilityRef, Capability>, t: Tag): set<CapabilityRef> {
    set r | r in capabilities && r.capabilityType == t
  }

  lemma {:induction false} OrderedListSize(q: seq<CapabilityRef>, members: set<CapabilityRef>)
    requires InIdOrder(q) && forall r :: r in q <==> r in members
    ensures |q| == |members|
    decreases |q|
  {
    if q == [] {
      assert members == {};
    } else {
      var x, rest := q[0], q[1..];
      assert x in members;
      forall r ensures r in rest <==> r in members - {x} {
        if r in rest { assert r in q; }
        if r in members - {x} { assert r in q; }
      }
      OrderedListSize(rest, members - {x});
    }
  }

  /** A registration is refused for a full index exactly when 64 capabilities of its type are live and
      the same registration with empty indexes would be accepted. */
  lemma IndexFullMeans64Live(s: State, creator: Key, t: Tag, uriLen: nat, id: u64, bond: u64)
    requires Inv(s)
    ensures |LiveOf(s.capabilities, t)| <= CAP_INDEX_CAPACITY
    ensures RegisterCapability(s, creator, t, uriLen, id, bond) == Err(IndexFull) <==>
              && |LiveOf(s.capabilities, t)| == CAP_INDEX_CAPACITY
              && RegisterCapability(s.(indexes := map[]), creator, t, uriLen, id, bond).Ok?
    ensures |LiveOf(s.capabilities, t)| == CAP_INDEX_CAPACITY ==>
              RegisterCapability(s, creator, t, uriLen, id, bond).Err?
  {
    IndexCountsLive(s, t);
    FullIndexRefuses(s, creator, t, uriLen, id, bond);
  }

  lemma IndexCountsLive(s: State, t: Tag)
    requires IndexesAgree(s.capabilities, s.indexes)
    ensures |IndexOrNew(s, t).capabilities| == |LiveOf(s.capabilities, t)| <= CAP_INDEX_CAPACITY
  {
    if t in s.indexes {
      OrderedListSize(s.indexes[t].capabilities, LiveOf(s.capabilities, t));
    } else {
      assert LiveOf(s.capabilities, t) == {};
    }
  }

  lemma FullIndexRefuses(s: State, creator: Key, t: Tag, uriLen: nat, id: u64, bond: u64)
    ensures var r := RegisterCapability(s, creator, t, uriLen, id, bond);
            && (r == Err(IndexFull) <==>
                && |IndexOrNew(s, t).capabilities| >= CAP_INDEX_CAPACITY
                && RegisterCapability(s.(indexes := map[]), creator, t, uriLen, id, bond).Ok?)
            && (|IndexOrNew(s, t).capabilities| >= CAP_INDEX_CAPACITY ==> r.Err?)
  {
  }

  /** A fully slashed capability can never be withdrawn: it keeps its record and its index slot in
      every future of the ledger. */
  lemma {:induction false} FullySlashedStaysIndexed(s: State, t: seq<Instr>, ref: CapabilityRef)
    requires Inv(s) && ref in s.capabilities && s.capabilities[ref].bondRemaining == 0
    ensures Inv(Run(s, t))
    ensures ref in Run(s, t).capabilities && Run(s, t).capabilities[ref].bondRemaining == 0
    ensures ref.capabilityType in Run(s, t).indexes && ref in Run(s, t).indexes[ref.capabilityType].capabilities
    decreases |t|
  {
    if t != [] {
      var u := Run(s, t[..|t| - 1]);
      FullySlashedStaysIndexed(s, t[..|t| - 1], ref);
      StepKeeps(u, t[|t| - 1]);
      EmptyBondStays(u, t[|t| - 1], ref);
    }
  }

  lemma EmptyBondStays(s: State, i: Instr, ref: CapabilityRef)
    requires ref in s.capabilities && s.capabilities[ref].bondRemaining == 0
    ensures ref in Step(s, i).capabilities && Step(s, i).capabilities[ref].bondRemaining == 0
  {
  }

  /** An agent's score never loses to saturation: disputes count distinct completions. */
  lemma NetIsExact(s: State, agent: Key)
    requires Inv(s) && agent in s.agents
    ensures var a := s.agents[agent];
            && a.disputes <= a.completions
            && SaturatingSubU64(a.completions, a.disputes) == a.completions - a.disputes
            && a.disputes == |Disputed(s.completions, agent)|
            && (forall n: nat :: CompletionRef(agent, n) in s.completions <==> n < a.completions)
  {
    DisputesBounded(s.agents, s.completions, agent);
    assert s.agents[agent].disputes == DisputeCount(s.completions, agent);
  }
}
