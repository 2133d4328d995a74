/** The accounts of the bonded reputation program, and what each instruction does to them. */
module Ledger {
  import opened Words
  import opened Wrappers
  import opened Sums

  const MAX_URI_LEN: nat := 200
  const CAP_INDEX_CAPACITY: nat := 64
  const MAX_DECAY_PERIOD_SECS: int := 366 * 24 * 60 * 60
  const CHALLENGE_TIMEOUT_SECS: int := 90 * 24 * 60 * 60

  type Key = nat
  type Tag = nat
  const DEFAULT_KEY: Key := 0
  const ZERO_TAG: Tag := 0

  /** Derived addresses, named by their seeds. */
  datatype CompletionRef = CompletionRef(agent: Key, seqNo: nat)
  datatype CapabilityRef = CapabilityRef(capabilityType: Tag, creator: Key, id: nat)

  /** The lamport holders: outside wallets, and the two families of vaults. */
  datatype Addr =
    | Wallet(key: Key)
    | ChallengeVault(completion: CompletionRef)
    | CapabilityVault(capability: CapabilityRef)

  datatype Config = Config(
    admin: Key,
    certifier: Key,
    treasury: Key,
    challengeBond: u64,
    decayPeriod: i64,
    paused: bool,
    nextCompletionId: u64,
    nextCapabilityId: u64)

  datatype Agent = Agent(authority: Key, completions: u64, disputes: u64, lastActivity: i64)

  datatype Completion = Completion(id: u64, agent: Key, taskType: Tag, timestamp: i64, challenged: bool, disputed: bool)

  datatype Challenge = Challenge(
    completion: CompletionRef,
    challenger: Key,
    timestamp: i64,
    resolved: bool,
    upheld: bool,
    bond: u64)

  datatype Capability = Capability(
    id: u64,
    creator: Key,
    capabilityType: Tag,
    bondRemaining: u64,
    certified: bool,
    slashed: bool,
    active: bool)

  datatype Index = Index(capabilityType: Tag, capabilities: seq<CapabilityRef>)

  datatype State = State(
    rentMin: nat,
    upgradeAuthority: Key,
    now: i64,
    config: Option<Config>,
    pendingAdmin: Option<Key>,
    agents: map<Key, Agent>,
    completions: map<CompletionRef, Completion>,
    challenges: map<CompletionRef, Challenge>,
    capabilities: map<CapabilityRef, Capability>,
    indexes: map<Tag, Index>,
    lamports: map<Addr, nat>)

  datatype Error =
    // raised by the handlers
    | Unauthorized | Paused | UriTooLong | BondBelowRentExempt | AlreadyChallenged | ChallengeNotPending
    | InvalidCompletionSeq | InvalidDecayPeriod | ZeroBond | PenaltyExceedsBond | InvalidPenalty
    | CapabilityNotActive | BondStillSlashed | IndexFull | VaultBalanceMismatch | ArithmeticOverflow
    | InvalidCapabilityId | InvalidAuthority | DecayPeriodTooLong | ChallengeNotTimedOut
    // raised by account checks and by the system program
    | AccountMissing | AccountInUse | ConstraintViolated | InsufficientFunds

  type Outcome = Result<State, Error>

  // ---------------------------------------------------------------------------
  // Lamports

  function Balance(s: State, a: Addr): nat {
    Get(s.lamports, a)
  }

  function Moved(m: map<Addr, nat>, from: Addr, to: Addr, amount: nat): map<Addr, nat>
    requires amount <= Get(m, from)
  {
    var debited := m[from := Get(m, from) - amount];
    debited[to := Get(debited, to) + amount]
  }

  // ---------------------------------------------------------------------------
  // Reputation instructions

  function NewAgent(): Agent {
    Agent(DEFAULT_KEY, 0, 0, 0)
  }

  function AgentOrNew(s: State, authority: Key): Agent {
    if authority in s.agents then s.agents[authority] else NewAgent()
  }

  function Claimed(a: Agent, authority: Key): Agent {
    if a.authority == DEFAULT_KEY then a.(authority := authority) else a
  }

  function RegisterAgent(s: State, authority: Key, uriLen: nat): Outcome {
    if uriLen > MAX_URI_LEN then Err(UriTooLong)
    else Ok(s.(agents := s.agents[authority := Claimed(AgentOrNew(s, authority), authority)]))
  }

  function Attest(s: State, authority: Key, taskType: Tag, uriLen: nat, seqNo: u64): Outcome {
    var ref := CompletionRef(authority, seqNo);
    if s.config.None? then Err(AccountMissing)
    else if ref in s.completions then Err(AccountInUse)
    else
      var c, a := s.config.value, AgentOrNew(s, authority);
      if c.paused then Err(Paused)
      else if uriLen > MAX_URI_LEN then Err(UriTooLong)
      else if seqNo != a.completions then Err(InvalidCompletionSeq)
      else if c.nextCompletionId == U64_MAX || a.completions == U64_MAX then Err(ArithmeticOverflow)
      else
        var claimed := Claimed(a, authority);
        Ok(s.(
          config := Some(c.(nextCompletionId := c.nextCompletionId + 1)),
          agents := s.agents[authority := claimed.(completions := a.completions + 1, lastActivity := s.now)],
          completions := s.completions[ref :=
            Completion(c.nextCompletionId, claimed.authority, taskType, s.now, false, false)]))
  }

  function ChallengeCompletion(s: State, challenger: Key, ref: CompletionRef, uriLen: nat): Outcome {
    if s.config.None? || ref !in s.completions then Err(AccountMissing)
    else if s.completions[ref].challenged then Err(AlreadyChallenged)
    else
      var c := s.config.value;
      if c.paused then Err(Paused)
      else if uriLen > MAX_URI_LEN then Err(UriTooLong)
      else if Balance(s, Wallet(challenger)) < c.challengeBond then Err(InsufficientFunds)
      else
        Ok(s.(
          lamports := Moved(s.lamports, Wallet(challenger), ChallengeVault(ref), c.challengeBond),
          challenges := s.challenges[ref := Challenge(ref, challenger, s.now, false, false, c.challengeBond)],
          completions := s.completions[ref := s.completions[ref].(challenged := true)]))
  }

  predicate IsAuthority(c: Config, key: Key) {
    key == c.admin || key == c.certifier
  }

  function ResolveChallenge(s: State, authority: Key, ref: CompletionRef, upheld: bool): Outcome {
    if s.config.None? || ref !in s.completions || s.completions[ref].agent !in s.agents || ref !in s.challenges then
      Err(AccountMissing)
    else
      var c, k, ch := s.config.value, s.completions[ref], s.challenges[ref];
      var a := s.agents[k.agent];
      var amount := Balance(s, ChallengeVault(ref));
      if ch.completion != ref then Err(ConstraintViolated)
      else if !IsAuthority(c, authority) then Err(Unauthorized)
      else if ch.resolved || !k.challenged then Err(ChallengeNotPending)
      else if amount < ch.bond then Err(VaultBalanceMismatch)
      else if upheld && a.disputes == U64_MAX then Err(ArithmeticOverflow)
      else
        var s' := s.(
          lamports := Moved(s.lamports, ChallengeVault(ref), Wallet(if upheld then ch.challenger else c.treasury),
              amount),
          challenges := s.challenges[ref := ch.(resolved := true, upheld := upheld)]);
        if !upheld then Ok(s')
        else
          Ok(s'.(
            completions := s.completions[ref := k.(disputed := true)],
            agents := s.agents[k.agent := a.(disputes := a.disputes + 1)]))
  }

  function CancelChallenge(s: State, signer: Key, ref: CompletionRef): Outcome {
    if ref !in s.completions || ref !in s.challenges then Err(AccountMissing)
    else
      var ch := s.challenges[ref];
      if ch.completion != ref || ch.challenger != signer then Err(ConstraintViolated)
      else if ch.resolved || !s.completions[ref].challenged then Err(ChallengeNotPending)
      else if SaturatingSubI64(s.now, ch.timestamp) < CHALLENGE_TIMEOUT_SECS then Err(ChallengeNotTimedOut)
      else
        Ok(s.(
          lamports := Moved(s.lamports, ChallengeVault(ref), Wallet(signer), Balance(s, ChallengeVault(ref))),
          challenges := s.challenges[ref := ch.(resolved := true, upheld := false)]))
  }

  // ---------------------------------------------------------------------------
  // Capability instructions

  function IndexOrNew(s: State, t: Tag): Index {
    if t in s.indexes then s.indexes[t] else Index(ZERO_TAG, [])
  }

  function Tagged(i: Index, t: Tag): Index {
    if i.capabilityType == ZERO_TAG then i.(capabilityType := t) else i
  }

  function RegisterCapability(s: State, creator: Key, t: Tag, uriLen: nat, id: u64, bond: u64): Outcome {
    var ref := CapabilityRef(t, creator, id);
    if s.config.None? then Err(AccountMissing)
    else if ref in s.capabilities then Err(AccountInUse)
    else
      var c, index := s.config.value, Tagged(IndexOrNew(s, t), t);
      if c.paused then Err(Paused)
      else if uriLen > MAX_URI_LEN then Err(UriTooLong)
      else if bond == 0 then Err(ZeroBond)
      else if bond < s.rentMin then Err(BondBelowRentExempt)
      else if id != c.nextCapabilityId then Err(InvalidCapabilityId)
      else if Balance(s, Wallet(creator)) < bond then Err(InsufficientFunds)
      else if id == U64_MAX then Err(ArithmeticOverflow)
      else if |index.capabilities| >= CAP_INDEX_CAPACITY then Err(IndexFull)
      else
        Ok(s.(
          lamports := Moved(s.lamports, Wallet(creator), CapabilityVault(ref), bond),
          config := Some(c.(nextCapabilityId := id + 1)),
          capabilities := s.capabilities[ref := Capability(id, creator, t, bond, false, false, true)],
          indexes := s.indexes[t := index.(capabilities := index.capabilities + [ref])]))
  }

  function CertifyCapability(s: State, authority: Key, ref: CapabilityRef): Outcome {
    if s.config.None? || ref !in s.capabilities then Err(AccountMissing)
    else if !IsAuthority(s.config.value, authority) then Err(Unauthorized)
    else if !s.capabilities[ref].active then Err(CapabilityNotActive)
    else Ok(s.(capabilities := s.capabilities[ref := s.capabilities[ref].(certified := true)]))
  }

  function SlashCapability(s: State, authority: Key, ref: CapabilityRef, penalty: u64): Outcome {
    if s.config.None? || ref !in s.capabilities then Err(AccountMissing)
    else
      var c, k := s.config.value, s.capabilities[ref];
      var balance := Balance(s, CapabilityVault(ref));
      if !IsAuthority(c, authority) then Err(Unauthorized)
      else if !k.active then Err(CapabilityNotActive)
      else if penalty == 0 then Err(ZeroBond)
      else if penalty > k.bondRemaining then Err(PenaltyExceedsBond)
      else if balance < k.bondRemaining then Err(VaultBalanceMismatch)
      else
        var remaining := k.bondRemaining - penalty;
        if 0 < remaining < s.rentMin then Err(InvalidPenalty)
        else
          var amount := if remaining == 0 then balance else penalty;
          Ok(s.(
            lamports := Moved(s.lamports, CapabilityVault(ref), Wallet(c.treasury), amount),
            capabilities := s.capabilities[ref := k.(bondRemaining := remaining, slashed := true)]))
  }

  /** The index entries that are not `x`, in their order. */
  function Without<T(==)>(q: seq<T>, x: T): seq<T> {
    if q == [] then []
    else if q[0] == x then Without(q[1..], x)
    else [q[0]] + Without(q[1..], x)
  }

  function WithdrawBond(s: State, signer: Key, ref: CapabilityRef): Outcome {
    if s.config.None? || ref !in s.capabilities then Err(AccountMissing)
    else
      var k := s.capabilities[ref];
      var balance := Balance(s, CapabilityVault(ref));
      if k.creator != signer then Err(ConstraintViolated)
      else if k.capabilityType !in s.indexes then Err(AccountMissing)
      else if !k.active then Err(CapabilityNotActive)
      else if k.bondRemaining == 0 then Err(BondStillSlashed)
      else if balance < k.bondRemaining then Err(VaultBalanceMismatch)
      else
        var index := s.indexes[k.capabilityType];
        Ok(s.(
          lamports := Moved(s.lamports, CapabilityVault(ref), Wallet(signer), balance),
          indexes := s.indexes[k.capabilityType := index.(capabilities := Without(index.capabilities, ref))],
          capabilities := s.capabilities - {ref}))
  }

  // ---------------------------------------------------------------------------
  // Configuration instructions

  function InitializeConfig(s: State, admin: Key, treasury: Key, certifier: Key, bond: u64, period: i64): Outcome {
    if s.config.Some? then Err(AccountInUse)
    else if admin != s.upgradeAuthority then Err(Unauthorized)
    else if bond < s.rentMin then Err(BondBelowRentExempt)
    else if period <= 0 then Err(InvalidDecayPeriod)
    else if period > MAX_DECAY_PERIOD_SECS then Err(DecayPeriodTooLong)
    else if certifier == DEFAULT_KEY || treasury == DEFAULT_KEY then Err(InvalidAuthority)
    else if Balance(s, Wallet(admin)) < s.rentMin then Err(InsufficientFunds)
    else
      Ok(s.(
        lamports := Moved(s.lamports, Wallet(admin), Wallet(treasury), s.rentMin),
        config := Some(Config(admin, certifier, treasury, bond, period, false, 1, 1))))
  }

  function UpdateConfig(s: State, admin: Key, bond: Option<u64>, period: Option<i64>, paused: Option<bool>): Outcome {
    if s.config.None? then Err(AccountMissing)
    else
      var c := s.config.value;
      if admin != c.admin then Err(Unauthorized)
      else if bond.Some? && bond.value < s.rentMin then Err(BondBelowRentExempt)
      else if period.Some? && period.value <= 0 then Err(InvalidDecayPeriod)
      else if period.Some? && period.value > MAX_DECAY_PERIOD_SECS then Err(DecayPeriodTooLong)
      else
        Ok(s.(config := Some(c.(
          challengeBond := if bond.Some? then bond.value else c.challengeBond,
          decayPeriod := if period.Some? then period.value else c.decayPeriod,
          paused := if paused.Some? then paused.value else c.paused))))
  }

  function SetCertifier(s: State, admin: Key, certifier: Key): Outcome {
    if s.config.None? then Err(AccountMissing)
    else if admin != s.config.value.admin then Err(Unauthorized)
    else if certifier == DEFAULT_KEY then Err(InvalidAuthority)
    else Ok(s.(config := Some(s.config.value.(certifier := certifier))))
  }

  function TransferAdmin(s: State, admin: Key, newAdmin: Key): Outcome {
    if s.config.None? then Err(AccountMissing)
    else if admin != s.config.value.admin then Err(Unauthorized)
    else if newAdmin == DEFAULT_KEY then Err(InvalidAuthority)
    else Ok(s.(pendingAdmin := Some(newAdmin)))
  }

  function AcceptAdmin(s: State, signer: Key): Outcome {
    if s.config.None? || s.pendingAdmin.None? then Err(AccountMissing)
    else if s.pendingAdmin.value != signer then Err(Unauthorized)
    else Ok(s.(config := Some(s.config.value.(admin := signer)), pendingAdmin := None))
  }

  // ---------------------------------------------------------------------------
  // The outside world: anyone may send lamports to any address, and time passes

  function Send(s: State, from: Key, to: Addr, amount: nat): Outcome {
    if Balance(s, Wallet(from)) < amount then Err(InsufficientFunds)
    else Ok(s.(lamports := Moved(s.lamports, Wallet(from), to, amount)))
  }

  function Tick(s: State, time: i64): Outcome {
    if time < s.now then Err(ConstraintViolated) else Ok(s.(now := time))
  }

  // ---------------------------------------------------------------------------
  // Runs

  datatype Instr =
    | IRegisterAgent(authority: Key, uriLen: nat)
    | IAttest(authority: Key, taskType: Tag, uriLen: nat, seqNo: u64)
    | IChallenge(challenger: Key, completion: CompletionRef, uriLen: nat)
    | IResolve(authority: Key, completion: CompletionRef, upheld: bool)
    | ICancel(signer: Key, completion: CompletionRef)
    | IRegister(creator: Key, capabilityType: Tag, uriLen: nat, id: u64, bond: u64)
    | ICertify(authority: Key, capability: CapabilityRef)
    | ISlash(authority: Key, capability: CapabilityRef, penalty: u64)
    | IWithdraw(signer: Key, capability: CapabilityRef)
    | IInitialize(admin: Key, treasury: Key, certifier: Key, newBond: u64, newPeriod: i64)
    | IUpdate(admin: Key, bondChange: Option<u64>, periodChange: Option<i64>, pauseChange: Option<bool>)
    | ISetCertifier(admin: Key, certifier: Key)
    | ITransferAdmin(admin: Key, newAdmin: Key)
    | IAcceptAdmin(signer: Key)
    | ISend(from: Key, to: Addr, amount: nat)
    | ITick(time: i64)

  function Apply(s: State, i: Instr): Outcome {
    match i
    case IRegisterAgent(authority, uriLen) => RegisterAgent(s, authority, uriLen)
    case IAttest(authority, taskType, uriLen, seqNo) => Attest(s, authority, taskType, uriLen, seqNo)
    case IChallenge(challenger, ref, uriLen) => ChallengeCompletion(s, challenger, ref, uriLen)
    case IResolve(authority, ref, upheld) => ResolveChallenge(s, authority, ref, upheld)
    case ICancel(signer, ref) => CancelChallenge(s, signer, ref)
    case IRegister(creator, t, uriLen, id, bond) => RegisterCapability(s, creator, t, uriLen, id, bond)
    case ICertify(authority, ref) => CertifyCapability(s, authority, ref)
    case ISlash(authority, ref, penalty) => SlashCapability(s, authority, ref, penalty)
    case IWithdraw(signer, ref) => WithdrawBond(s, signer, ref)
    case IInitialize(admin, treasury, certifier, bond, period) =>
      InitializeConfig(s, admin, treasury, certifier, bond, period)
    case IUpdate(admin, bond, period, paused) => UpdateConfig(s, admin, bond, period, paused)
    case ISetCertifier(admin, certifier) => SetCertifier(s, admin, certifier)
    case ITransferAdmin(admin, newAdmin) => TransferAdmin(s, admin, newAdmin)
    case IAcceptAdmin(signer) => AcceptAdmin(s, signer)
    case ISend(from, to, amount) => Send(s, from, to, amount)
    case ITick(time) => Tick(s, time)
  }

  /** A failed instruction is rolled back. */
  function Step(s: State, i: Instr): State {
    var r := Apply(s, i);
    if r.Ok? then r.value else s
  }

  function Run(s: State, t: seq<Instr>): State {
    if t == [] then s else Step(Run(s, t[..|t| - 1]), t[|t| - 1])
  }

  /** The ledger before anything was created: lamports may already lie anywhere. */
  ghost predicate Genesis(s: State) {
    && s.config.None? && s.pendingAdmin.None?
    && s.agents == map[] && s.completions == map[] && s.challenges == map[]
    && s.capabilities == map[] && s.indexes == map[]
  }
}
