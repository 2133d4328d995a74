/** Who may do what and when: acceptance in reachable ledgers, the pause switch, the settings and the
    handover of the admin role. */
module LedgerRules {
  import opened Words
  import opened Wrappers
  import opened Sums
  import opened Ledger
  import opened LedgerInvariant
  import opened LedgerLiveness
  import opened LedgerHistory

  // ---------------------------------------------------------------------------
  // What is accepted

  lemma OneOfTheSum<K>(m: map<K, nat>, k: K)
    ensures Get(m, k) <= Sum(m)
  {
    if k in m { SumRemove(m, k); }
  }

  /** An attestation is accepted exactly with the agent's next number while the ledger has ids left: the
      agent's own counter cannot overflow before them, and the number is never taken. */
  lemma AttestEnabled(s: State, authority: Key, taskType: Tag, uriLen: nat, seqNo: u64)
    requires Inv(s)
    ensures Attest(s, authority, taskType, uriLen, seqNo).Ok?
       <==> s.config.Some? && !s.config.value.paused && uriLen <= MAX_URI_LEN
            && seqNo == Known(s.agents, authority).completions && NextCompletion(s) < U64_MAX
  {
    OneOfTheSum(CompletionCounts(s.agents), authority);
    var ref := CompletionRef(authority, seqNo);
    assert authority in s.agents ==> (ref in s.completions <==> ref.seqNo < s.agents[authority].completions);
    assert ref in s.completions ==> ref.agent in s.agents;
  }

  /** Joining needs no configuration and no earlier record, only a short URI. */
  lemma JoinEnabled(s: State, authority: Key, uriLen: nat)
    ensures RegisterAgent(s, authority, uriLen).Ok? <==> uriLen <= MAX_URI_LEN
  {
  }

  /** A challenge is accepted exactly for a completion on record that has no challenge, settled or not,
      from a signer who can pay the bond. */
  lemma ChallengeEnabled(s: State, challenger: Key, ref: CompletionRef, uriLen: nat)
    requires Inv(s)
    ensures ChallengeCompletion(s, challenger, ref, uriLen).Ok?
       <==> s.config.Some? && !s.config.value.paused && uriLen <= MAX_URI_LEN
            && ref in s.completions && ref !in s.challenges
            && Balance(s, Wallet(challenger)) >= s.config.value.challengeBond
  {
    assert ref in s.challenges <==> ref in s.completions && s.completions[ref].challenged;
  }

  /** A registration is accepted exactly under the ledger's next id, with a positive bond that pays the
      vault's rent and that the creator has, while its type has room. */
  lemma RegisterEnabled(s: State, creator: Key, t: Tag, uriLen: nat, id: u64, bond: u64)
    requires Inv(s)
    ensures RegisterCapability(s, creator, t, uriLen, id, bond).Ok?
       <==> s.config.Some? && !s.config.value.paused && uriLen <= MAX_URI_LEN
            && bond > 0 && s.rentMin <= bond <= Balance(s, Wallet(creator))
            && id == NextCapability(s) < U64_MAX
            && |LiveOf(s.capabilities, t)| < CAP_INDEX_CAPACITY
  {
    IndexCountsLive(s, t);
    var ref := CapabilityRef(t, creator, id);
    if ref in s.capabilities { assert s.capabilities[ref].id < NextCapability(s); }
  }

  /** Every live capability can be certified, by an authority. */
  lemma CertifyEnabled(s: State, authority: Key, ref: CapabilityRef)
    requires Inv(s)
    ensures CertifyCapability(s, authority, ref).Ok?
       <==> ref in s.capabilities && s.config.Some?
            && (authority == s.config.value.admin || authority == s.config.value.certifier)
  {
  }

  predicate PeriodAllowed(period: i64) {
    0 < period <= MAX_DECAY_PERIOD_SECS
  }

  /** The program is initialized once, by its upgrade authority, with sound settings. */
  lemma InitializeEnabled(s: State, admin: Key, treasury: Key, certifier: Key, bond: u64, period: i64)
    ensures InitializeConfig(s, admin, treasury, certifier, bond, period).Ok?
       <==> s.config.None? && admin == s.upgradeAuthority
            && certifier != DEFAULT_KEY && treasury != DEFAULT_KEY
            && bond >= s.rentMin && PeriodAllowed(period)
            && Balance(s, Wallet(admin)) >= s.rentMin
    ensures InitializeConfig(s, admin, treasury, certifier, bond, period).Ok? ==>
              InitializeConfig(s, admin, treasury, certifier, bond, period).value.config
                == Some(Config(admin, certifier, treasury, bond, period, false, 1, 1))
  {
  }

  /** Afterwards the admin alone changes settings and proposes a successor, and only the one proposed
      takes over. */
  lemma ConfigureEnabled(s: State, i: Instr)
    requires i.IUpdate? || i.ISetCertifier? || i.ITransferAdmin? || i.IAcceptAdmin?
    ensures Apply(s, i).Ok? <==>
            && s.config.Some?
            && (if i.IAcceptAdmin? then s.pendingAdmin == Some(i.signer) else i.admin == s.config.value.admin)
            && (i.IUpdate? ==>
                  && (i.bondChange.Some? ==> i.bondChange.value >= s.rentMin)
                  && (i.periodChange.Some? ==> PeriodAllowed(i.periodChange.value)))
            && (i.ISetCertifier? ==> i.certifier != DEFAULT_KEY)
            && (i.ITransferAdmin? ==> i.newAdmin != DEFAULT_KEY)
  {
  }

  // ---------------------------------------------------------------------------
  // The pause switch

  ghost function WithPause(s: State, paused: bool): State {
    if s.config.Some? then s.(config := Some(s.config.value.(paused := paused))) else s
  }

  predicate StoppedByPause(i: Instr) {
    i.IAttest? || i.IChallenge? || i.IRegister?
  }

  /** The same error, or the same state but for the configuration account. */
  ghost predicate SameButConfig(a: Outcome, b: Outcome) {
    if a.Err? then a == b else b.Ok? && a.value.(config := b.value.config) == b.value
  }

  /** Pausing stops attestations, challenges and registrations, and nothing else: every other instruction
      ends with the same error, or moves the same lamports and writes the same records. */
  lemma PauseStopsExactly(s: State, i: Instr)
    requires s.config.Some?
    ensures var paused, open := Apply(WithPause(s, true), i), Apply(WithPause(s, false), i);
            if StoppedByPause(i) then paused.Err? else SameButConfig(paused, open)
  {
    var p, q := WithPause(s, true), WithPause(s, false);
    match i
    case IAttest(_, _, _, _) => PauseStops(p, i);
    case IChallenge(_, _, _) => PauseStops(p, i);
    case IRegister(_, _, _, _, _) => PauseStops(p, i);
    case IResolve(authority, ref, upheld) => PauseLeavesResolve(s, authority, ref, upheld);
    case ICancel(signer, ref) => assert SameButConfig(CancelChallenge(p, signer, ref), CancelChallenge(q, signer, ref));
    case ISlash(authority, ref, penalty) => PauseLeavesSlash(s, authority, ref, penalty);
    case IWithdraw(signer, ref) => PauseLeavesWithdraw(s, signer, ref);
    case ICertify(authority, ref) =>
      assert SameButConfig(CertifyCapability(p, authority, ref), CertifyCapability(q, authority, ref));
    case IUpdate(admin, bond, period, pause) => PauseLeavesUpdate(s, admin, bond, period, pause);
    case _ => PauseLeavesOthers(s, i);
  }

  lemma PauseStops(s: State, i: Instr)
    requires StoppedByPause(i) && s.config.Some? && s.config.value.paused
    ensures Apply(s, i).Err?
  {
  }

  lemma PauseLeavesResolve(s: State, authority: Key, ref: CompletionRef, upheld: bool)
    requires s.config.Some?
    ensures SameButConfig(ResolveChallenge(WithPause(s, true), authority, ref, upheld),
              ResolveChallenge(WithPause(s, false), authority, ref, upheld))
  {
  }

  lemma PauseLeavesSlash(s: State, authority: Key, ref: CapabilityRef, penalty: u64)
    requires s.config.Some?
    ensures SameButConfig(SlashCapability(WithPause(s, true), authority, ref, penalty),
              SlashCapability(WithPause(s, false), authority, ref, penalty))
  {
  }

  lemma PauseLeavesWithdraw(s: State, signer: Key, ref: CapabilityRef)
    requires s.config.Some?
    ensures SameButConfig(WithdrawBond(WithPause(s, true), signer, ref), WithdrawBond(WithPause(s, false), signer, ref))
  {
  }

  lemma PauseLeavesUpdate(s: State, admin: Key, bond: Option<u64>, period: Option<i64>, pause: Option<bool>)
    requires s.config.Some?
    ensures SameButConfig(UpdateConfig(WithPause(s, true), admin, bond, period, pause),
              UpdateConfig(WithPause(s, false), admin, bond, period, pause))
  {
  }

  lemma PauseLeavesOthers(s: State, i: Instr)
    requires s.config.Some?
    requires i.IRegisterAgent? || i.IInitialize? || i.ISetCertifier? || i.ITransferAdmin? || i.IAcceptAdmin?
              || i.ISend? || i.ITick?
    ensures SameButConfig(Apply(WithPause(s, true), i), Apply(WithPause(s, false), i))
  {
  }

  // ---------------------------------------------------------------------------
  // The clock

  lemma StepClock(s: State, i: Instr)
    ensures Step(s, i).now == if i.ITick? && i.time >= s.now then i.time else s.now
  {
  }

  /** No instruction moves the clock, and time only passes. */
  lemma {:induction false} ClockNeverGoesBack(s: State, t: seq<Instr>)
    ensures Run(s, t).now >= s.now
    ensures (forall i | 0 <= i < |t| :: !t[i].ITick?) ==> Run(s, t).now == s.now
    decreases |t|
  {
    if t != [] {
      ClockNeverGoesBack(s, t[..|t| - 1]);
      StepClock(Run(s, t[..|t| - 1]), t[|t| - 1]);
    }
  }

  // ---------------------------------------------------------------------------
  // Settings

  /** A setting as a number. */
  function SettingOf(c: Config, f: Setting): int {
    match f
    case Admin => c.admin
    case Certifier => c.certifier
    case Treasury => c.treasury
    case Bond => c.challengeBond
    case Period => c.decayPeriod
    case Paused => if c.paused then 1 else 0
  }

  /** The value an instruction gives to a setting it writes. */
  function Written(i: Instr, f: Setting): int
    requires Writes(i, f)
  {
    match f
    case Admin => if i.IInitialize? then i.admin else i.signer
    case Certifier => i.certifier
    case Treasury => i.treasury
    case Bond => if i.IInitialize? then i.newBond else i.bondChange.value
    case Period => if i.IInitialize? then i.newPeriod else i.periodChange.value
    case Paused => if i.IInitialize? then 0 else if i.pauseChange.value then 1 else 0
  }

  /** How instruction `i` may rewrite the configuration. */
  ghost predicate Configures(before: Option<Config>, after: Option<Config>, i: Instr, accepted: bool) {
    if !accepted then after == before
    else if i.IInitialize? then
      && before.None?
      && after == Some(Config(i.admin, i.certifier, i.treasury, i.newBond, i.newPeriod, false, 1, 1))
    else if before.None? then after.None?
    else
      && after.Some?
      && forall f: Setting :: SettingOf(after.value, f) == if Writes(i, f) then Written(i, f)
                                                          else SettingOf(before.value, f)
  }

  lemma StepConfigures(s: State, i: Instr)
    ensures Configures(s.config, Step(s, i).config, i, Apply(s, i).Ok?)
  {
    match i
    case IInitialize(admin, treasury, certifier, bond, period) =>
      InitializeEnabled(s, admin, treasury, certifier, bond, period);
    case IUpdate(_, _, _, _) => UpdateConfigures(s, i);
    case ISetCertifier(admin, certifier) => assert Apply(s, i) == SetCertifier(s, admin, certifier);
    case IAcceptAdmin(signer) => assert Apply(s, i) == AcceptAdmin(s, signer);
    case _ => OtherStepConfigures(s, i);
  }

  lemma UpdateConfigures(s: State, i: Instr)
    requires i.IUpdate?
    ensures Configures(s.config, Step(s, i).config, i, Apply(s, i).Ok?)
  {
    assert Apply(s, i) == UpdateConfig(s, i.admin, i.bondChange, i.periodChange, i.pauseChange);
  }

  lemma OtherStepConfigures(s: State, i: Instr)
    requires !i.IInitialize? && !i.IUpdate? && !i.ISetCertifier? && !i.IAcceptAdmin?
    ensures Configures(s.config, Step(s, i).config, i, Apply(s, i).Ok?)
  {
  }

  lemma OneSetting(before: Option<Config>, after: Option<Config>, i: Instr, accepted: bool, f: Setting)
    requires Configures(before, after, i, accepted) && before.Some?
    ensures after.Some?
    ensures SettingOf(after.value, f) == if accepted && Writes(i, f) then Written(i, f) else SettingOf(before.value, f)
  {
  }

  lemma StepSetting(s: State, i: Instr, f: Setting)
    requires s.config.Some?
    ensures Step(s, i).config.Some?
    ensures SettingOf(Step(s, i).config.value, f)
         == if Adds(s, i, Changes(f)) > 0 then Written(i, f) else SettingOf(s.config.value, f)
  {
    StepConfigures(s, i);
    OneSetting(s.config, Step(s, i).config, i, Apply(s, i).Ok?, f);
  }

  lemma {:induction false} SettingStays(s: State, t: seq<Instr>, f: Setting)
    requires s.config.Some? && Tally(s, t, Changes(f)) == 0
    ensures Run(s, t).config.Some?
    ensures SettingOf(Run(s, t).config.value, f) == SettingOf(s.config.value, f)
    decreases |t|
  {
    if t != [] {
      SettingStays(s, t[..|t| - 1], f);
      StepSetting(Run(s, t[..|t| - 1]), t[|t| - 1], f);
    }
  }

  /** A setting has the value that was last written to it: whatever else happens meanwhile, until another
      accepted instruction writes it. */
  lemma LastWriteHolds(s: State, i: Instr, t: seq<Instr>, f: Setting)
    requires Adds(s, i, Changes(f)) > 0 && Tally(Step(s, i), t, Changes(f)) == 0
    ensures var later := Run(Step(s, i), t);
            later.config.Some? && SettingOf(later.config.value, f) == Written(i, f)
  {
    StepConfigures(s, i);
    if !i.IInitialize? {
      ConfigureEnabled(s, i);
      StepSetting(s, i, f);
    }
    SettingStays(Step(s, i), t, f);
  }

  lemma StepProposal(s: State, i: Instr)
    ensures Adds(s, i, Handovers) == 0 ==> Step(s, i).pendingAdmin == s.pendingAdmin
    ensures Apply(s, i).Ok? && i.ITransferAdmin? ==> Step(s, i) == s.(pendingAdmin := Some(i.newAdmin))
    ensures Apply(s, i).Ok? && i.IAcceptAdmin? ==>
              && Step(s, i).pendingAdmin.None?
              && Step(s, i).config.Some? && Step(s, i).config.value.admin == i.signer
  {
  }

  lemma {:induction false} ProposalStays(s: State, t: seq<Instr>)
    requires Tally(s, t, Handovers) == 0
    ensures Run(s, t).pendingAdmin == s.pendingAdmin
    decreases |t|
  {
    if t != [] {
      ProposalStays(s, t[..|t| - 1]);
      StepProposal(Run(s, t[..|t| - 1]), t[|t| - 1]);
    }
  }

  lemma {:induction false} ConfigStays(s: State, t: seq<Instr>)
    requires s.config.Some?
    ensures Run(s, t).config.Some?
    decreases |t|
  {
    if t != [] {
      ConfigStays(s, t[..|t| - 1]);
      StepSetting(Run(s, t[..|t| - 1]), t[|t| - 1], Admin);
    }
  }

  lemma {:induction false} AdminIsHandedOver(s: State, t: seq<Instr>)
    requires s.config.Some? && Tally(s, t, Handovers) == 0
    ensures Tally(s, t, Changes(Admin)) == 0
    decreases |t|
  {
    if t != [] {
      var u, i := Run(s, t[..|t| - 1]), t[|t| - 1];
      AdminIsHandedOver(s, t[..|t| - 1]);
      ConfigStays(s, t[..|t| - 1]);
      if i.IInitialize? { InitializeEnabled(u, i.admin, i.treasury, i.certifier, i.newBond, i.newPeriod); }
    }
  }

  /** The two-step handover. After a proposal, and until another proposal or acceptance, the old admin
      stays in office and exactly the proposed key can take over. */
  lemma OnlyTheProposedTakesOver(s: State, i: Instr, t: seq<Instr>, x: Key)
    requires i.ITransferAdmin? && Apply(s, i).Ok? && Tally(Step(s, i), t, Handovers) == 0
    ensures var later := Run(Step(s, i), t);
            && later.config.Some? && later.config.value.admin == i.admin
            && (AcceptAdmin(later, x).Ok? <==> x == i.newAdmin)
  {
    var after := Step(s, i);
    ConfigureEnabled(s, i);
    StepProposal(s, i);
    ProposalStays(after, t);
    AdminIsHandedOver(after, t);
    SettingStays(after, t, Admin);
    ConfigureEnabled(Run(after, t), IAcceptAdmin(x));
  }

  /** After an acceptance the new admin is in office and the proposal is gone: nobody can take over until
      another proposal. */
  lemma HandoverIsFinal(s: State, i: Instr, t: seq<Instr>, x: Key)
    requires i.IAcceptAdmin? && Apply(s, i).Ok? && Tally(Step(s, i), t, Handovers) == 0
    ensures var later := Run(Step(s, i), t);
            && later.config.Some? && later.config.value.admin == i.signer
            && AcceptAdmin(later, x).Err?
  {
    var after := Step(s, i);
    StepProposal(s, i);
    ProposalStays(after, t);
    AdminIsHandedOver(after, t);
    SettingStays(after, t, Admin);
  }
}
