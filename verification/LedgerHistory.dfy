/** The accounts against the history of accepted instructions: what is recorded, and when it changes. */
module LedgerHistory {
  import opened Words
  import opened Wrappers
  import opened Ledger
  import opened LedgerInvariant
  import opened LedgerChallenges
  import opened LedgerLiveness

  /** The settings of the configuration account. */
  datatype Setting = Admin | Certifier | Treasury | Bond | Period | Paused

  /** What can be counted or added up along a run. */
  datatype Deed =
    | Attestations(agent: Key)
    | AllAttestations
    | Joinings(agent: Key)
    | UpheldAgainst(agent: Key)
    | UpheldOn(completion: CompletionRef)
    | Registrations(capability: CapabilityRef)
    | AllRegistrations
    | PostedBonds(capability: CapabilityRef)
    | Certifications(capability: CapabilityRef)
    | Penalties(capability: CapabilityRef)
    | Withdrawals(capability: CapabilityRef)
    | Changes(setting: Setting)
    | Handovers

  /** What an accepted instruction adds to a tally. */
  function Weight(i: Instr, d: Deed): nat {
    match d
    case Attestations(agent) => if i.IAttest? && i.authority == agent then 1 else 0
    case AllAttestations => if i.IAttest? then 1 else 0
    case Joinings(agent) => if (i.IAttest? || i.IRegisterAgent?) && i.authority == agent then 1 else 0
    case UpheldAgainst(agent) => if i.IResolve? && i.upheld && i.completion.agent == agent then 1 else 0
    case UpheldOn(ref) => if i.IResolve? && i.upheld && i.completion == ref then 1 else 0
    case Registrations(ref) => if i.IRegister? && Registered(i) == ref then 1 else 0
    case AllRegistrations => if i.IRegister? then 1 else 0
    case PostedBonds(ref) => if i.IRegister? && Registered(i) == ref then i.bond else 0
    case Certifications(ref) => if i.ICertify? && i.capability == ref then 1 else 0
    case Penalties(ref) => if i.ISlash? && i.capability == ref then i.penalty else 0
    case Withdrawals(ref) => if i.IWithdraw? && i.capability == ref then 1 else 0
    case Changes(f) => if Writes(i, f) then 1 else 0
    case Handovers => if i.ITransferAdmin? || i.IAcceptAdmin? then 1 else 0
  }

  function Adds(s: State, i: Instr, d: Deed): nat {
    if Apply(s, i).Ok? then Weight(i, d) else 0
  }

  function Registered(i: Instr): CapabilityRef
    requires i.IRegister?
  {
    CapabilityRef(i.capabilityType, i.creator, i.id)
  }

  /** The instructions that write a setting. */
  predicate Writes(i: Instr, f: Setting) {
    || i.IInitialize?
    || match f
       case Admin => i.IAcceptAdmin?
       case Certifier => i.ISetCertifier?
       case Treasury => false
       case Bond => i.IUpdate? && i.bondChange.Some?
       case Period => i.IUpdate? && i.periodChange.Some?
       case Paused => i.IUpdate? && i.pauseChange.Some?
  }

  ghost function Tally(s: State, t: seq<Instr>, d: Deed): nat {
    if t == [] then 0 else Tally(s, t[..|t| - 1], d) + Adds(Run(s, t[..|t| - 1]), t[|t| - 1], d)
  }

  // ---------------------------------------------------------------------------
  // Challenges

  /** An accepted challenge records its challenger, the bond configured then, and the time of the clock. */
  lemma ChallengeRecords(s: State, i: Instr, ref: CompletionRef)
    requires Opens(s, i, ref)
    ensures s.config.Some? && ref in Step(s, i).challenges
    ensures Step(s, i).challenges[ref]
         == Challenge(ref, i.challenger, s.now, false, false, s.config.value.challengeBond)
  {
    assert Apply(s, i) == ChallengeCompletion(s, i.challenger, ref, i.uriLen);
  }

  lemma {:induction false} ClosingsSettle(s: State, t: seq<Instr>, ref: CompletionRef)
    requires Inv(s) && Pending(s, ref)
    ensures Closings(s, t, ref) == if Settled(Run(s, t), ref) then 1 else 0
    decreases |t|
  {
    if t != [] {
      var before := t[..|t| - 1];
      ClosingsSettle(s, before, ref);
      ChallengeIsFixed(s, before, ref);
      OneMoreClosing(Run(s, before), t[|t| - 1], ref);
    }
  }

  lemma OneMoreClosing(s: State, i: Instr, ref: CompletionRef)
    requires Inv(s) && ref in s.challenges
    ensures Settled(Step(s, i), ref) <==> Settled(s, ref) || Closes(s, i, ref)
    ensures !(Settled(s, ref) && Closes(s, i, ref))
  {
    StepOfOneChallenge(s, i, ref);
  }

  /** Whatever happens after a challenge is made, its cancellation is accepted exactly when nothing has
      closed it meanwhile, its challenger signs, and ninety days have passed since it was made. It then
      pays back at least the bond that was configured when it was made. */
  lemma CancelAfterChallenge(s: State, i: Instr, t: seq<Instr>, signer: Key, ref: CompletionRef)
    requires Inv(s) && Opens(s, i, ref)
    ensures var later := Run(Step(s, i), t);
            && (CancelChallenge(later, signer, ref).Ok?
                <==> && Closings(Step(s, i), t, ref) == 0 && signer == i.challenger
                     && later.now - s.now >= 90 * 24 * 60 * 60)
            && (CancelChallenge(later, signer, ref).Ok? ==>
                  Balance(CancelChallenge(later, signer, ref).value, Wallet(signer))
                    >= Balance(later, Wallet(signer)) + s.config.value.challengeBond)
  {
    var after := Step(s, i);
    ChallengeRecords(s, i, ref);
    StepKeeps(s, i);
    ChallengeIsFixed(after, t, ref);
    ClosingsSettle(after, t, ref);
    var later := Run(after, t);
    assert Terms(later.challenges[ref]) == Terms(after.challenges[ref]);
    CancelEnabled(later, signer, ref);
    if CancelChallenge(later, signer, ref).Ok? { CancelPays(later, signer, ref); }
  }

  /** No bond is ever stuck: in every reachable ledger with a pending challenge, letting ninety days pass
      since it was made is enough for its challenger to get the bond back. */
  lemma BondIsNeverStuck(s: State, ref: CompletionRef)
    requires Inv(s) && Pending(s, ref) && s.challenges[ref].timestamp + CHALLENGE_TIMEOUT_SECS <= I64_MAX
    ensures var ch := s.challenges[ref];
            var waited := Tick(s, Max(s.now, ch.timestamp + CHALLENGE_TIMEOUT_SECS));
            && waited.Ok?
            && var paid := CancelChallenge(waited.value, ch.challenger, ref);
               && paid.Ok?
               && Balance(paid.value, Wallet(ch.challenger)) >= Balance(s, Wallet(ch.challenger)) + ch.bond
  {
    var ch := s.challenges[ref];
    var due := Max(s.now, ch.timestamp + CHALLENGE_TIMEOUT_SECS);
    var waited := Tick(s, due).value;
    TickKeeps(s, due);
    CancelEnabled(waited, ch.challenger, ref);
    CancelPays(waited, ch.challenger, ref);
  }

  lemma TickKeeps(s: State, time: i64)
    requires Inv(s) && time >= s.now
    ensures Tick(s, time) == Ok(s.(now := time)) && Inv(s.(now := time))
  {
    StepKeeps(s, ITick(time));
  }

  // ---------------------------------------------------------------------------
  // Capabilities

  /** An accepted slash takes exactly the penalty from the recorded bond and changes no other record. */
  lemma SlashTakesPenalty(s: State, i: Instr)
    requires i.ISlash? && Apply(s, i).Ok?
    ensures i.capability in s.capabilities && i.penalty <= s.capabilities[i.capability].bondRemaining
    ensures var k := s.capabilities[i.capability];
            Step(s, i).capabilities
            == s.capabilities[i.capability := k.(bondRemaining := k.bondRemaining - i.penalty, slashed := true)]
  {
    assert Apply(s, i) == SlashCapability(s, i.authority, i.capability, i.penalty);
  }

  /** A partial slash leaves the creator free to withdraw what is left of the bond. */
  lemma PartialSlashLeavesTheRest(s: State, i: Instr)
    requires Inv(s) && i.ISlash? && Apply(s, i).Ok?
    requires i.penalty < s.capabilities[i.capability].bondRemaining
    ensures var left, after := s.capabilities[i.capability].bondRemaining - i.penalty, Step(s, i);
            var paid := WithdrawBond(after, i.capability.creator, i.capability);
            && after.capabilities[i.capability].bondRemaining == left
            && paid.Ok?
            && Balance(paid.value, Wallet(i.capability.creator))
               >= Balance(after, Wallet(i.capability.creator)) + left
  {
    SlashTakesPenalty(s, i);
    StepKeeps(s, i);
    WithdrawEnabled(Step(s, i), i.capability.creator, i.capability);
  }

  /** How instruction `i` may rewrite the capability records. */
  ghost predicate Amends(next: nat, before: map<CapabilityRef, Capability>, after: map<CapabilityRef, Capability>,
                         i: Instr, accepted: bool)
  {
    if accepted && i.IRegister? then
      && Registered(i) !in before && i.id == next
      && after == before[Registered(i) :=
                    Capability(i.id, i.creator, i.capabilityType, i.bond, false, false, true)]
    else if accepted && i.ICertify? then
      i.capability in before && after == before[i.capability := before[i.capability].(certified := true)]
    else if accepted && i.ISlash? then
      && i.capability in before && 0 < i.penalty <= before[i.capability].bondRemaining
      && after == before[i.capability :=
                    before[i.capability].(bondRemaining := before[i.capability].bondRemaining - i.penalty,
                                          slashed := true)]
    else if accepted && i.IWithdraw? then
      i.capability in before && after == before - {i.capability}
    else after == before
  }

  lemma StepAmends(s: State, i: Instr)
    ensures Amends(NextCapability(s), s.capabilities, Step(s, i).capabilities, i, Apply(s, i).Ok?)
  {
    match i
    case IRegister(creator, t, uriLen, id, bond) =>
      assert Apply(s, i) == RegisterCapability(s, creator, t, uriLen, id, bond);
    case ICertify(authority, ref) => assert Apply(s, i) == CertifyCapability(s, authority, ref);
    case ISlash(authority, ref, penalty) => assert Apply(s, i) == SlashCapability(s, authority, ref, penalty);
    case IWithdraw(signer, ref) => assert Apply(s, i) == WithdrawBond(s, signer, ref);
    case _ => OtherRecordsStay(s, i);
  }

  lemma OtherRecordsStay(s: State, i: Instr)
    requires !i.IRegister? && !i.ICertify? && !i.ISlash? && !i.IWithdraw?
    ensures Step(s, i).capabilities == s.capabilities
  {
  }

  lemma IdsCountRegistrations(s: State, i: Instr)
    ensures NextCapability(Step(s, i)) == NextCapability(s) + Adds(s, i, AllRegistrations)
    ensures NextCompletion(Step(s, i)) == NextCompletion(s) + Adds(s, i, AllAttestations)
  {
    match i
    case IAttest(authority, taskType, uriLen, seqNo) =>
      assert Apply(s, i) == Attest(s, authority, taskType, uriLen, seqNo);
    case IRegister(creator, t, uriLen, id, bond) =>
      assert Apply(s, i) == RegisterCapability(s, creator, t, uriLen, id, bond);
    case IInitialize(admin, treasury, certifier, bond, period) =>
      assert Apply(s, i) == InitializeConfig(s, admin, treasury, certifier, bond, period);
    case IUpdate(admin, bond, period, paused) => UpdateKeepsIds(s, admin, bond, period, paused);
    case _ => OtherIdsStay(s, i);
  }

  lemma UpdateKeepsIds(s: State, admin: Key, bond: Option<u64>, period: Option<i64>, paused: Option<bool>)
    ensures var r := UpdateConfig(s, admin, bond, period, paused);
            r.Ok? ==> NextCapability(r.value) == NextCapability(s) && NextCompletion(r.value) == NextCompletion(s)
  {
  }

  lemma OtherIdsStay(s: State, i: Instr)
    requires !i.IAttest? && !i.IRegister? && !i.IInitialize? && !i.IUpdate?
    ensures NextCapability(Step(s, i)) == NextCapability(s) && NextCompletion(Step(s, i)) == NextCompletion(s)
  {
  }

  /** The record at `ref` against the sums of what was accepted for it so far. */
  ghost predicate IsHistory(next: nat, capabilities: map<CapabilityRef, Capability>, ref: CapabilityRef,
                            registrations: nat, withdrawals: nat, posted: nat, penalties: nat, certifications: nat)
  {
    && withdrawals <= registrations <= 1
    && (ref in capabilities <==> registrations == 1 && withdrawals == 0)
    && (registrations == 0 ==> posted == penalties == certifications == 0)
    && (ref.id >= next ==> registrations == 0)
    && (ref in capabilities ==>
          var k := capabilities[ref];
          && k.bondRemaining + penalties == posted
          && (k.certified <==> certifications > 0) && (k.slashed <==> penalties > 0))
  }

  lemma HistoryStep(next: nat, before: map<CapabilityRef, Capability>, after: map<CapabilityRef, Capability>,
                    i: Instr, accepted: bool, ref: CapabilityRef, registrations: nat, withdrawals: nat, posted: nat,
                    penalties: nat, certifications: nat)
    requires IsHistory(next, before, ref, registrations, withdrawals, posted, penalties, certifications)
    requires Amends(next, before, after, i, accepted)
    ensures var on := (d: Deed) => if accepted then Weight(i, d) else 0;
            IsHistory(next + on(AllRegistrations), after, ref, registrations + on(Registrations(ref)),
              withdrawals + on(Withdrawals(ref)), posted + on(PostedBonds(ref)), penalties + on(Penalties(ref)),
              certifications + on(Certifications(ref)))
  {
  }

  /** From genesis, over every run: a capability is live exactly when its registration was accepted, which
      happens at most once, and its withdrawal was not. A live record's bond is the bond posted less the
      sum of its accepted penalties; it is certified, or slashed, exactly when that was accepted; and ids
      count the accepted registrations. */
  lemma {:induction false} CapabilityIsHistory(s: State, t: seq<Instr>, ref: CapabilityRef)
    requires Genesis(s)
    ensures IsHistory(NextCapability(Run(s, t)), Run(s, t).capabilities, ref,
              Tally(s, t, Registrations(ref)), Tally(s, t, Withdrawals(ref)), Tally(s, t, PostedBonds(ref)),
              Tally(s, t, Penalties(ref)), Tally(s, t, Certifications(ref)))
    ensures NextCapability(Run(s, t)) == Tally(s, t, AllRegistrations) + 1
    decreases |t|
  {
    if t != [] {
      var before := t[..|t| - 1];
      var u, i := Run(s, before), t[|t| - 1];
      CapabilityIsHistory(s, before, ref);
      StepAmends(u, i);
      IdsCountRegistrations(u, i);
      HistoryStep(NextCapability(u), u.capabilities, Step(u, i).capabilities, i, Apply(u, i).Ok?, ref,
          Tally(s, before, Registrations(ref)), Tally(s, before, Withdrawals(ref)),
          Tally(s, before, PostedBonds(ref)), Tally(s, before, Penalties(ref)),
          Tally(s, before, Certifications(ref)));
    }
  }

  // ---------------------------------------------------------------------------
  // Agents

  /** How instruction `i` may rewrite the agents: it joins or counts for one of them. */
  ghost predicate Counts(now: i64, before: map<Key, Agent>, after: map<Key, Agent>, i: Instr, accepted: bool) {
    if accepted && i.IRegisterAgent? then
      after == before[i.authority := Known(before, i.authority)]
    else if accepted && i.IAttest? then
      var a := Known(before, i.authority);
      && a.completions < U64_MAX
      && after == before[i.authority := a.(completions := a.completions + 1, lastActivity := now)]
    else if accepted && i.IResolve? && i.upheld then
      var agent := i.completion.agent;
      && agent in before && before[agent].disputes < U64_MAX
      && after == before[agent := before[agent].(disputes := before[agent].disputes + 1)]
    else after == before
  }

  /** An agent's record, or the one it starts with. */
  function Known(agents: map<Key, Agent>, x: Key): Agent {
    if x in agents then agents[x] else Agent(x, 0, 0, 0)
  }

  lemma StepCounts(s: State, i: Instr)
    requires CountersAgree(s.agents, s.completions)
    ensures Counts(s.now, s.agents, Step(s, i).agents, i, Apply(s, i).Ok?)
  {
    if Apply(s, i).Ok? {
      if i.IRegisterAgent? {
        assert Claimed(AgentOrNew(s, i.authority), i.authority) == Known(s.agents, i.authority);
      } else if i.IAttest? {
        AttestCountsOne(s, i);
      } else if i.IResolve? {
        assert Apply(s, i) == ResolveChallenge(s, i.authority, i.completion, i.upheld);
      } else {
        OtherAgentsStay(s, i);
      }
    }
  }

  lemma AttestCountsOne(s: State, i: Instr)
    requires CountersAgree(s.agents, s.completions) && i.IAttest? && Apply(s, i).Ok?
    ensures Counts(s.now, s.agents, Step(s, i).agents, i, true)
  {
    assert Apply(s, i) == Attest(s, i.authority, i.taskType, i.uriLen, i.seqNo);
    assert Claimed(AgentOrNew(s, i.authority), i.authority) == Known(s.agents, i.authority);
  }

  lemma OtherAgentsStay(s: State, i: Instr)
    requires !i.IRegisterAgent? && !i.IAttest? && !i.IResolve?
    ensures Step(s, i).agents == s.agents
  {
  }

  /** The time of the last accepted attestation of `x`, or zero. */
  ghost function LastAttested(s: State, t: seq<Instr>, x: Key): i64 {
    if t == [] then 0
    else if Adds(Run(s, t[..|t| - 1]), t[|t| - 1], Attestations(x)) > 0 then Run(s, t[..|t| - 1]).now
    else LastAttested(s, t[..|t| - 1], x)
  }

  lemma AgentStep(now: i64, before: map<Key, Agent>, after: map<Key, Agent>, i: Instr, accepted: bool, x: Key)
    requires Counts(now, before, after, i, accepted)
    ensures var on := (d: Deed) => if accepted then Weight(i, d) else 0;
            var a := Known(before, x);
            && (x in after <==> x in before || on(Joinings(x)) > 0)
            && Known(after, x) == a.(
                   completions := a.completions + on(Attestations(x)),
                   disputes := a.disputes + on(UpheldAgainst(x)),
                   lastActivity := if on(Attestations(x)) > 0 then now else a.lastActivity)
  {
  }

  /** From genesis, over every run: an agent has a record exactly when it joined or attested; its
      completions count its accepted attestations, its disputes the challenges upheld against it, and its
      last activity is the time of the last accepted attestation. */
  lemma {:induction false} AgentIsHistory(s: State, t: seq<Instr>, x: Key)
    requires Genesis(s)
    ensures x in Run(s, t).agents <==> Tally(s, t, Joinings(x)) > 0
    ensures var a := Known(Run(s, t).agents, x);
            && a.authority == x
            && a.completions == Tally(s, t, Attestations(x))
            && a.disputes == Tally(s, t, UpheldAgainst(x))
            && a.lastActivity == LastAttested(s, t, x)
    decreases |t|
  {
    if t != [] {
      var before := t[..|t| - 1];
      var u, i := Run(s, before), t[|t| - 1];
      AgentIsHistory(s, before, x);
      RunKeeps(s, before);
      StepCounts(u, i);
      AgentStep(u.now, u.agents, Step(u, i).agents, i, Apply(u, i).Ok?, x);
    }
  }

  // ---------------------------------------------------------------------------
  // Completions

  /** How instruction `i` may rewrite the completions. */
  ghost predicate Reports(next: nat, now: i64, before: map<CompletionRef, Completion>,
                          after: map<CompletionRef, Completion>, i: Instr, accepted: bool)
  {
    if accepted && i.IAttest? then
      var ref := CompletionRef(i.authority, i.seqNo);
      && ref !in before && next < U64_MAX
      && after == before[ref := Completion(next, i.authority, i.taskType, now, false, false)]
    else if accepted && i.IChallenge? then
      i.completion in before && after == before[i.completion := before[i.completion].(challenged := true)]
    else if accepted && i.IResolve? && i.upheld then
      i.completion in before && after == before[i.completion := before[i.completion].(disputed := true)]
    else after == before
  }

  lemma StepReports(s: State, i: Instr)
    requires CountersAgree(s.agents, s.completions)
    ensures Reports(NextCompletion(s), s.now, s.completions, Step(s, i).completions, i, Apply(s, i).Ok?)
  {
    if Apply(s, i).Ok? {
      if i.IAttest? {
        assert Apply(s, i) == Attest(s, i.authority, i.taskType, i.uriLen, i.seqNo);
        assert Claimed(AgentOrNew(s, i.authority), i.authority) == Known(s.agents, i.authority);
      } else if i.IChallenge? {
        assert Apply(s, i) == ChallengeCompletion(s, i.challenger, i.completion, i.uriLen);
      } else if i.IResolve? {
        assert Apply(s, i) == ResolveChallenge(s, i.authority, i.completion, i.upheld);
      } else {
        OtherCompletionsStay(s, i);
      }
    }
  }

  lemma OtherCompletionsStay(s: State, i: Instr)
    requires !i.IAttest? && !i.IChallenge? && !i.IResolve?
    ensures Step(s, i).completions == s.completions
  {
  }

  lemma ReportStep(next: nat, now: i64, before: map<CompletionRef, Completion>,
                   after: map<CompletionRef, Completion>, i: Instr, accepted: bool, ref: CompletionRef)
    requires Reports(next, now, before, after, i, accepted) && ref in before
    ensures ref in after
    ensures after[ref] == before[ref].(
                            challenged := before[ref].challenged || (accepted && i.IChallenge? && i.completion == ref),
                            disputed := before[ref].disputed || (accepted && Weight(i, UpheldOn(ref)) > 0))
  {
  }

  /** A completion on record stays on record: its id, agent, task type and time never change, and its two
      flags say whether a challenge was accepted and whether one was upheld. */
  lemma {:induction false} CompletionStays(s: State, t: seq<Instr>, ref: CompletionRef)
    requires Inv(s) && ref in s.completions
    ensures Inv(Run(s, t)) && ref in Run(s, t).completions
    ensures Run(s, t).completions[ref] == s.completions[ref].(
              challenged := s.completions[ref].challenged || Openings(s, t, ref) > 0,
              disputed := s.completions[ref].disputed || Tally(s, t, UpheldOn(ref)) > 0)
    decreases |t|
  {
    if t != [] {
      var before := t[..|t| - 1];
      var u, i := Run(s, before), t[|t| - 1];
      CompletionStays(s, before, ref);
      StepKeeps(u, i);
      StepReports(u, i);
      ReportStep(NextCompletion(u), u.now, u.completions, Step(u, i).completions, i, Apply(u, i).Ok?, ref);
    }
  }

  lemma {:induction false} IdsCountAttestations(s: State, t: seq<Instr>)
    requires Genesis(s)
    ensures NextCompletion(Run(s, t)) == Tally(s, t, AllAttestations) + 1
    decreases |t|
  {
    if t != [] {
      IdsCountAttestations(s, t[..|t| - 1]);
      IdsCountRegistrations(Run(s, t[..|t| - 1]), t[|t| - 1]);
    }
  }

  /** The `n`-th accepted attestation of the ledger is on record for ever under id `n`, with its agent, its
      task type and the time of the clock when it was made; it is challenged, or disputed, exactly when that
      was accepted later. */
  lemma CompletionIsHistory(s: State, t: seq<Instr>, i: Instr, later: seq<Instr>)
    requires Genesis(s) && i.IAttest? && Apply(Run(s, t), i).Ok?
    ensures var ref, after := CompletionRef(i.authority, i.seqNo), Step(Run(s, t), i);
            var n := Tally(s, t, AllAttestations) + 1;
            && n < U64_MAX
            && ref in Run(after, later).completions
            && Run(after, later).completions[ref]
               == Completion(n, i.authority, i.taskType, Run(s, t).now, Openings(after, later, ref) > 0,
                    Tally(after, later, UpheldOn(ref)) > 0)
  {
    var u := Run(s, t);
    RunKeeps(s, t);
    IdsCountAttestations(s, t);
    StepReports(u, i);
    StepKeeps(u, i);
    CompletionStays(Step(u, i), later, CompletionRef(i.authority, i.seqNo));
  }
}
