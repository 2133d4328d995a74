/** The program's instruction handlers, updating account fields in place. */
module LedgerProgram {
  import opened Words
  import opened Wrappers
  import opened Sums
  import opened Ledger
  import opened LedgerInvariant
  import opened LedgerLiveness
  import opened LedgerMoney
  import Score

  /** An accepted instruction leaves the state its specification gives; a rejected one leaves nothing. */
  ghost predicate Commits(before: State, after: State, outcome: Outcome, e: Option<Error>) {
    match outcome
    case Ok(s) => e.None? && after == s
    case Err(x) => e == Some(x) && after == before
  }

  lemma ViewIsGrounded(s: State, agent: Key)
    requires Inv(s) && s.config.Some? && agent in s.agents
    ensures var a, period := s.agents[agent], s.config.value.decayPeriod;
            var v := Score.ComputeScore(a.completions, a.disputes, a.lastActivity, s.now, period);
            && (forall n: nat :: CompletionRef(agent, n) in s.completions <==> n < a.completions)
            && a.disputes == |Disputed(s.completions, agent)| <= a.completions
            && v.score <= a.completions - a.disputes
            && (v.decayed ==> s.now - a.lastActivity > period)
            && (a.lastActivity > 0 && Score.CastIsExact(a.lastActivity, s.now, period) ==>
                  v.score == Shr(a.completions - a.disputes, Score.Halvings(s.now - a.lastActivity, period)))
  {
    var a, period := s.agents[agent], s.config.value.decayPeriod;
    NetIsExact(s, agent);
    Score.ScoreIsQuotient(a.completions, a.disputes, a.lastActivity, s.now, period);
    if a.lastActivity > 0 && Score.CastIsExact(a.lastActivity, s.now, period) {
      Score.OnChainShift(a.completions, a.disputes, a.lastActivity, s.now, period);
    }
  }

  class Program {
    const rentMin: nat
    const upgradeAuthority: Key
    var now: i64
    var config: Option<Config>
    var pendingAdmin: Option<Key>
    var agents: map<Key, Agent>
    var completions: map<CompletionRef, Completion>
    var challenges: map<CompletionRef, Challenge>
    var capabilities: map<CapabilityRef, Capability>
    var indexes: map<Tag, Index>
    var lamports: map<Addr, nat>

    ghost function Snapshot(): State
      reads this
    {
      State(rentMin, upgradeAuthority, now, config, pendingAdmin, agents, completions, challenges, capabilities,
          indexes, lamports)
    }

    constructor (rentMin: nat, upgradeAuthority: Key, now: i64, lamports: map<Addr, nat>)
      ensures Genesis(Snapshot())
      ensures Snapshot().rentMin == rentMin && Snapshot().upgradeAuthority == upgradeAuthority
      ensures Snapshot().now == now && Snapshot().lamports == lamports
    {
      this.rentMin, this.upgradeAuthority, this.now, this.lamports := rentMin, upgradeAuthority, now, lamports;
      config, pendingAdmin := None, None;
      agents, completions, challenges, capabilities, indexes := map[], map[], map[], map[], map[];
    }

    method SystemTransfer(from: Addr, to: Addr, amount: nat) returns (ok: bool)
      modifies this`lamports
      ensures ok == (amount <= Get(old(lamports), from))
      ensures lamports == if ok then Moved(old(lamports), from, to, amount) else old(lamports)
    {
      ok := amount <= Get(lamports, from);
      if ok {
        lamports := lamports[from := Get(lamports, from) - amount];
        lamports := lamports[to := Get(lamports, to) + amount];
      }
    }

    method AttestCompletion(authority: Key, taskType: Tag, uriLen: nat, seqNo: u64) returns (e: Option<Error>)
      modifies this
      ensures Commits(old(Snapshot()), Snapshot(), Attest(old(Snapshot()), authority, taskType, uriLen, seqNo), e)
    {
      var ref := CompletionRef(authority, seqNo);
      if config.None? { return Some(AccountMissing); }
      if ref in completions { return Some(AccountInUse); }
      if config.value.paused { return Some(Paused); }
      if uriLen > MAX_URI_LEN { return Some(UriTooLong); }
      var agent := if authority in agents then agents[authority] else NewAgent();
      if seqNo != agent.completions { return Some(InvalidCompletionSeq); }
      if agent.authority == DEFAULT_KEY { agent := agent.(authority := authority); }
      var id := config.value.nextCompletionId;
      if id == U64_MAX { return Some(ArithmeticOverflow); }
      if agent.completions == U64_MAX { return Some(ArithmeticOverflow); }
      config := Some(config.value.(nextCompletionId := id + 1));
      agent := agent.(completions := agent.completions + 1);
      agent := agent.(lastActivity := now);
      agents := agents[authority := agent];
      completions := completions[ref := Completion(id, agent.authority, taskType, now, false, false)];
      return None;
    }

    method Challenge(challenger: Key, ref: CompletionRef, uriLen: nat) returns (e: Option<Error>)
      modifies this
      ensures Commits(old(Snapshot()), Snapshot(), ChallengeCompletion(old(Snapshot()), challenger, ref, uriLen), e)
    {
      if config.None? || ref !in completions { return Some(AccountMissing); }
      if completions[ref].challenged { return Some(AlreadyChallenged); }
      if config.value.paused { return Some(Paused); }
      if uriLen > MAX_URI_LEN { return Some(UriTooLong); }
      var bond := config.value.challengeBond;
      var paid := SystemTransfer(Wallet(challenger), ChallengeVault(ref), bond);
      if !paid { return Some(InsufficientFunds); }
      challenges := challenges[ref := Ledger.Challenge(ref, challenger, now, false, false, bond)];
      completions := completions[ref := completions[ref].(challenged := true)];
      return None;
    }

    method Resolve(authority: Key, ref: CompletionRef, upheld: bool) returns (e: Option<Error>)
      modifies this
      ensures Commits(old(Snapshot()), Snapshot(), ResolveChallenge(old(Snapshot()), authority, ref, upheld), e)
    {
      if config.None? || ref !in completions || completions[ref].agent !in agents || ref !in challenges {
        return Some(AccountMissing);
      }
      if challenges[ref].completion != ref { return Some(ConstraintViolated); }
      if authority != config.value.admin && authority != config.value.certifier { return Some(Unauthorized); }
      if challenges[ref].resolved { return Some(ChallengeNotPending); }
      if !completions[ref].challenged { return Some(ChallengeNotPending); }
      var recordedBond := challenges[ref].bond;
      var amount := Get(lamports, ChallengeVault(ref));
      if amount < recordedBond { return Some(VaultBalanceMismatch); }
      var agent := completions[ref].agent;
      if upheld && agents[agent].disputes == U64_MAX { return Some(ArithmeticOverflow); }
      var destination := if upheld then challenges[ref].challenger else config.value.treasury;
      var paid := SystemTransfer(ChallengeVault(ref), Wallet(destination), amount);
      if upheld { CountDispute(ref, agent); }
      CloseRecord(ref, upheld);
      return None;
    }

    method CountDispute(ref: CompletionRef, agent: Key)
      requires ref in completions && agent in agents && agents[agent].disputes < U64_MAX
      modifies this`completions, this`agents
      ensures completions == old(completions)[ref := old(completions[ref]).(disputed := true)]
      ensures agents == old(agents)[agent := old(agents[agent]).(disputes := old(agents[agent].disputes) + 1)]
    {
      completions := completions[ref := completions[ref].(disputed := true)];
      agents := agents[agent := agents[agent].(disputes := agents[agent].disputes + 1)];
    }

    method CloseRecord(ref: CompletionRef, upheld: bool)
      requires ref in challenges
      modifies this`challenges
      ensures challenges == old(challenges)[ref := old(challenges[ref]).(resolved := true, upheld := upheld)]
    {
      challenges := challenges[ref := challenges[ref].(resolved := true)];
      challenges := challenges[ref := challenges[ref].(upheld := upheld)];
    }

    method Cancel(signer: Key, ref: CompletionRef) returns (e: Option<Error>)
      modifies this
      ensures Commits(old(Snapshot()), Snapshot(), CancelChallenge(old(Snapshot()), signer, ref), e)
    {
      if ref !in completions || ref !in challenges { return Some(AccountMissing); }
      if challenges[ref].completion != ref || challenges[ref].challenger != signer { return Some(ConstraintViolated); }
      if challenges[ref].resolved { return Some(ChallengeNotPending); }
      if !completions[ref].challenged { return Some(ChallengeNotPending); }
      var waited := SaturatingSubI64(now, challenges[ref].timestamp);
      if waited < CHALLENGE_TIMEOUT_SECS { return Some(ChallengeNotTimedOut); }
      var amount := Get(lamports, ChallengeVault(ref));
      var paid := SystemTransfer(ChallengeVault(ref), Wallet(signer), amount);
      CloseRecord(ref, false);
      return None;
    }

    /** In a reachable ledger the view needs no trust: the counters count the agent's own records, the
        score never exceeds their difference, and while the chain's cast is exact it is that difference
        halved once per period of inactivity. */
    method GetScore(agent: Key) returns (e: Option<Error>, completions: u64, disputes: u64, view: Score.View)
      ensures e == if config.Some? && agent in agents then None else Some(AccountMissing)
      ensures e.None? && Inv(Snapshot()) ==>
                && (forall n: nat :: CompletionRef(agent, n) in this.completions <==> n < completions)
                && disputes == |Disputed(this.completions, agent)| <= completions
                && view.score <= completions - disputes
                && (view.decayed ==> now - agents[agent].lastActivity > config.value.decayPeriod)
                && (agents[agent].lastActivity > 0
                    && Score.CastIsExact(agents[agent].lastActivity, now, config.value.decayPeriod) ==>
                      view.score == Shr(completions - disputes,
                                      Score.Halvings(now - agents[agent].lastActivity, config.value.decayPeriod)))
      ensures e.None? ==>
                && completions == agents[agent].completions && disputes == agents[agent].disputes
                && view == Score.ComputeScore(completions, disputes, agents[agent].lastActivity, now,
                    config.value.decayPeriod)
    {
      if config.None? || agent !in agents { return Some(AccountMissing), 0, 0, Score.View(0, false); }
      var a := agents[agent];
      if Inv(Snapshot()) { ViewIsGrounded(Snapshot(), agent); }
      return None, a.completions, a.disputes,
        Score.ComputeScore(a.completions, a.disputes, a.lastActivity, now, config.value.decayPeriod);
    }

    method Register(creator: Key, t: Tag, uriLen: nat, id: u64, bond: u64) returns (e: Option<Error>)
      modifies this
      ensures Commits(old(Snapshot()), Snapshot(), RegisterCapability(old(Snapshot()), creator, t, uriLen, id, bond), e)
    {
      var ref := CapabilityRef(t, creator, id);
      if config.None? { return Some(AccountMissing); }
      if ref in capabilities { return Some(AccountInUse); }
      if config.value.paused { return Some(Paused); }
      if uriLen > MAX_URI_LEN { return Some(UriTooLong); }
      if bond == 0 { return Some(ZeroBond); }
      if bond < rentMin { return Some(BondBelowRentExempt); }
      if id != config.value.nextCapabilityId { return Some(InvalidCapabilityId); }
      var index := if t in indexes then indexes[t] else Index(ZERO_TAG, []);
      var before := lamports;
      var paid := SystemTransfer(Wallet(creator), CapabilityVault(ref), bond);
      if !paid { return Some(InsufficientFunds); }
      if id == U64_MAX { lamports := before; return Some(ArithmeticOverflow); }
      if index.capabilityType == ZERO_TAG { index := index.(capabilityType := t); }
      if |index.capabilities| >= CAP_INDEX_CAPACITY { lamports := before; return Some(IndexFull); }
      config := Some(config.value.(nextCapabilityId := id + 1));
      capabilities := capabilities[ref := Capability(id, creator, t, bond, false, false, true)];
      index := index.(capabilities := index.capabilities + [ref]);
      indexes := indexes[t := index];
      return None;
    }

    method Certify(authority: Key, ref: CapabilityRef) returns (e: Option<Error>)
      modifies this
      ensures Commits(old(Snapshot()), Snapshot(), CertifyCapability(old(Snapshot()), authority, ref), e)
    {
      if config.None? || ref !in capabilities { return Some(AccountMissing); }
      if authority != config.value.admin && authority != config.value.certifier { return Some(Unauthorized); }
      if !capabilities[ref].active { return Some(CapabilityNotActive); }
      capabilities := capabilities[ref := capabilities[ref].(certified := true)];
      return None;
    }

    method Slash(authority: Key, ref: CapabilityRef, penalty: u64) returns (e: Option<Error>)
      modifies this
      ensures Commits(old(Snapshot()), Snapshot(), SlashCapability(old(Snapshot()), authority, ref, penalty), e)
    {
      if config.None? || ref !in capabilities { return Some(AccountMissing); }
      if authority != config.value.admin && authority != config.value.certifier { return Some(Unauthorized); }
      if !capabilities[ref].active { return Some(CapabilityNotActive); }
      if penalty == 0 { return Some(ZeroBond); }
      if penalty > capabilities[ref].bondRemaining { return Some(PenaltyExceedsBond); }
      if Get(lamports, CapabilityVault(ref)) < capabilities[ref].bondRemaining { return Some(VaultBalanceMismatch); }
      var remaining := capabilities[ref].bondRemaining - penalty;
      var amount := penalty;
      if remaining == 0 {
        amount := Get(lamports, CapabilityVault(ref));
      } else if remaining < rentMin {
        return Some(InvalidPenalty);
      }
      var paid := SystemTransfer(CapabilityVault(ref), Wallet(config.value.treasury), amount);
      capabilities := capabilities[ref := capabilities[ref].(bondRemaining := remaining)];
      capabilities := capabilities[ref := capabilities[ref].(slashed := true)];
      return None;
    }

    /** The index entries that survive a withdrawal. */
    static method Retain(q: seq<CapabilityRef>, x: CapabilityRef) returns (r: seq<CapabilityRef>)
      ensures r == Without(q, x)
    {
      r := [];
      var i := 0;
      while i < |q|
        invariant 0 <= i <= |q|
        invariant r + Without(q[i..], x) == Without(q, x)
      {
        assert q[i..][1..] == q[i + 1..];
        if q[i] != x { r := r + [q[i]]; }
        i := i + 1;
      }
    }

    method Withdraw(signer: Key, ref: CapabilityRef) returns (e: Option<Error>)
      modifies this
      ensures Commits(old(Snapshot()), Snapshot(), WithdrawBond(old(Snapshot()), signer, ref), e)
    {
      if config.None? || ref !in capabilities { return Some(AccountMissing); }
      if capabilities[ref].creator != signer { return Some(ConstraintViolated); }
      var t := capabilities[ref].capabilityType;
      if t !in indexes { return Some(AccountMissing); }
      if !capabilities[ref].active { return Some(CapabilityNotActive); }
      var remaining := capabilities[ref].bondRemaining;
      if remaining == 0 { return Some(BondStillSlashed); }
      var balance := Get(lamports, CapabilityVault(ref));
      if balance < remaining { return Some(VaultBalanceMismatch); }
      var paid := SystemTransfer(CapabilityVault(ref), Wallet(signer), balance);
      var kept := Retain(indexes[t].capabilities, ref);
      indexes := indexes[t := indexes[t].(capabilities := kept)];
      capabilities := capabilities - {ref};
      return None;
    }

    method JoinAgent(authority: Key, uriLen: nat) returns (e: Option<Error>)
      modifies this
      ensures Commits(old(Snapshot()), Snapshot(), RegisterAgent(old(Snapshot()), authority, uriLen), e)
    {
      if uriLen > MAX_URI_LEN { return Some(UriTooLong); }
      var agent := if authority in agents then agents[authority] else NewAgent();
      if agent.authority == DEFAULT_KEY { agent := agent.(authority := authority); }
      agents := agents[authority := agent];
      return None;
    }

    method Initialize(admin: Key, treasury: Key, certifier: Key, bond: u64, period: i64) returns (e: Option<Error>)
      modifies this
      ensures Commits(old(Snapshot()), Snapshot(),
                InitializeConfig(old(Snapshot()), admin, treasury, certifier, bond, period), e)
    {
      if config.Some? { return Some(AccountInUse); }
      if admin != upgradeAuthority { return Some(Unauthorized); }
      if bond < rentMin { return Some(BondBelowRentExempt); }
      if period <= 0 { return Some(InvalidDecayPeriod); }
      if period > MAX_DECAY_PERIOD_SECS { return Some(DecayPeriodTooLong); }
      if certifier == DEFAULT_KEY { return Some(InvalidAuthority); }
      if treasury == DEFAULT_KEY { return Some(InvalidAuthority); }
      var paid := SystemTransfer(Wallet(admin), Wallet(treasury), rentMin);
      if !paid { return Some(InsufficientFunds); }
      config := Some(Config(admin, certifier, treasury, bond, period, false, 1, 1));
      return None;
    }

    method Update(admin: Key, bond: Option<u64>, period: Option<i64>, paused: Option<bool>) returns (e: Option<Error>)
      modifies this
      ensures Commits(old(Snapshot()), Snapshot(), UpdateConfig(old(Snapshot()), admin, bond, period, paused), e)
    {
      if config.None? { return Some(AccountMissing); }
      if admin != config.value.admin { return Some(Unauthorized); }
      var updated := config.value;
      if bond.Some? {
        if bond.value < rentMin { return Some(BondBelowRentExempt); }
        updated := updated.(challengeBond := bond.value);
      }
      if period.Some? {
        if period.value <= 0 { return Some(InvalidDecayPeriod); }
        if period.value > MAX_DECAY_PERIOD_SECS { return Some(DecayPeriodTooLong); }
        updated := updated.(decayPeriod := period.value);
      }
      if paused.Some? { updated := updated.(paused := paused.value); }
      config := Some(updated);
      return None;
    }

    method ChangeCertifier(admin: Key, certifier: Key) returns (e: Option<Error>)
      modifies this
      ensures Commits(old(Snapshot()), Snapshot(), SetCertifier(old(Snapshot()), admin, certifier), e)
    {
      if config.None? { return Some(AccountMissing); }
      if admin != config.value.admin { return Some(Unauthorized); }
      if certifier == DEFAULT_KEY { return Some(InvalidAuthority); }
      config := Some(config.value.(certifier := certifier));
      return None;
    }

    method ProposeAdmin(admin: Key, newAdmin: Key) returns (e: Option<Error>)
      modifies this
      ensures Commits(old(Snapshot()), Snapshot(), TransferAdmin(old(Snapshot()), admin, newAdmin), e)
    {
      if config.None? { return Some(AccountMissing); }
      if admin != config.value.admin { return Some(Unauthorized); }
      if newAdmin == DEFAULT_KEY { return Some(InvalidAuthority); }
      pendingAdmin := Some(newAdmin);
      return None;
    }

    method TakeAdmin(signer: Key) returns (e: Option<Error>)
      modifies this
      ensures Commits(old(Snapshot()), Snapshot(), AcceptAdmin(old(Snapshot()), signer), e)
    {
      if config.None? || pendingAdmin.None? { return Some(AccountMissing); }
      if pendingAdmin.value != signer { return Some(Unauthorized); }
      config := Some(config.value.(admin := signer));
      pendingAdmin := None;
      return None;
    }

    // -------------------------------------------------------------------------
    // The outside world

    /** Anyone may send lamports to any address, vaults included. */
    method SendLamports(from: Key, to: Addr, amount: nat) returns (e: Option<Error>)
      modifies this
      ensures Commits(old(Snapshot()), Snapshot(), Send(old(Snapshot()), from, to, amount), e)
    {
      var sent := SystemTransfer(Wallet(from), to, amount);
      return if sent then None else Some(InsufficientFunds);
    }

    method AdvanceClock(time: i64) returns (e: Option<Error>)
      modifies this
      ensures Commits(old(Snapshot()), Snapshot(), Tick(old(Snapshot()), time), e)
    {
      if time < now { return Some(ConstraintViolated); }
      now := time;
      return None;
    }

    // -------------------------------------------------------------------------
    // Runs

    method ExecuteReputation(i: Instr) returns (e: Option<Error>)
      requires i.IRegisterAgent? || i.IAttest? || i.IChallenge? || i.IResolve? || i.ICancel?
      modifies this
      ensures Commits(old(Snapshot()), Snapshot(), Apply(old(Snapshot()), i), e)
    {
      match i
      case IRegisterAgent(authority, uriLen) => e := JoinAgent(authority, uriLen);
      case IAttest(authority, taskType, uriLen, seqNo) => e := AttestCompletion(authority, taskType, uriLen, seqNo);
      case IChallenge(challenger, ref, uriLen) => e := Challenge(challenger, ref, uriLen);
      case IResolve(authority, ref, upheld) => e := Resolve(authority, ref, upheld);
      case ICancel(signer, ref) => e := Cancel(signer, ref);
    }

    method ExecuteCapability(i: Instr) returns (e: Option<Error>)
      requires i.IRegister? || i.ICertify? || i.ISlash? || i.IWithdraw?
      modifies this
      ensures Commits(old(Snapshot()), Snapshot(), Apply(old(Snapshot()), i), e)
    {
      match i
      case IRegister(creator, t, uriLen, id, bond) => e := Register(creator, t, uriLen, id, bond);
      case ICertify(authority, ref) => e := Certify(authority, ref);
      case ISlash(authority, ref, penalty) => e := Slash(authority, ref, penalty);
      case IWithdraw(signer, ref) => e := Withdraw(signer, ref);
    }

    method ExecuteOther(i: Instr) returns (e: Option<Error>)
      requires i.IInitialize? || i.IUpdate? || i.ISetCertifier? || i.ITransferAdmin? || i.IAcceptAdmin? || i.ISend?
                || i.ITick?
      modifies this
      ensures Commits(old(Snapshot()), Snapshot(), Apply(old(Snapshot()), i), e)
    {
      match i
      case IInitialize(admin, treasury, certifier, bond, period) =>
        e := Initialize(admin, treasury, certifier, bond, period);
      case IUpdate(admin, bond, period, paused) => e := Update(admin, bond, period, paused);
      case ISetCertifier(admin, certifier) => e := ChangeCertifier(admin, certifier);
      case ITransferAdmin(admin, newAdmin) => e := ProposeAdmin(admin, newAdmin);
      case IAcceptAdmin(signer) => e := TakeAdmin(signer);
      case ISend(from, to, amount) => e := SendLamports(from, to, amount);
      case ITick(time) => e := AdvanceClock(time);
    }

    /** Dispatches one instruction to its handler: one step of the ledger. */
    method Execute(i: Instr) returns (e: Option<Error>)
      modifies this
      ensures Snapshot() == Step(old(Snapshot()), i)
      ensures e == match Apply(old(Snapshot()), i) { case Ok(_) => None case Err(x) => Some(x) }
    {
      if i.IRegisterAgent? || i.IAttest? || i.IChallenge? || i.IResolve? || i.ICancel? {
        e := ExecuteReputation(i);
      } else if i.IRegister? || i.ICertify? || i.ISlash? || i.IWithdraw? {
        e := ExecuteCapability(i);
      } else {
        e := ExecuteOther(i);
      }
    }

    /** Any instructions in any order: the program plays the run of the specification, so every law
        about runs is a law about it. It keeps the invariant, and no lamport appears or disappears. */
    method ExecuteAll(t: seq<Instr>) returns (accepted: nat)
      modifies this
      ensures Snapshot() == Run(old(Snapshot()), t)
      ensures old(Inv(Snapshot())) ==> Inv(Snapshot())
      ensures Sum(Snapshot().lamports) == Sum(old(Snapshot().lamports))
      ensures accepted <= |t|
    {
      accepted := 0;
      ghost var start := Snapshot();
      for k := 0 to |t|
        invariant accepted <= k
        invariant Snapshot() == Run(start, t[..k])
        invariant Inv(start) ==> Inv(Snapshot())
      {
        ghost var before := Snapshot();
        assert t[..k + 1][..k] == t[..k];
        if Inv(before) { StepKeeps(before, t[k]); }
        var e := Execute(t[k]);
        if e.None? { accepted := accepted + 1; }
      }
      assert t[..|t|] == t;
      MoneyEquation(start, t);
    }
  }
}
