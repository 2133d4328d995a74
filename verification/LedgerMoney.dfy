/** Where every lamport goes, over whole runs of the ledger. */
module LedgerMoney {
  import opened Wrappers
  import opened Sums
  import opened Ledger

  datatype Kind = Deposit | Donation | Refund | Forfeit | Slash | Withdrawal | Funding | Outside

  /** One transfer of lamports. */
  datatype Move = Move(kind: Kind, from: Addr, to: Addr, amount: nat)

  /** The transfer an accepted instruction is meant to make; rejected ones and the others move nothing. */
  ghost function MoveOf(s: State, i: Instr): Option<Move> {
    if Apply(s, i).Err? then None
    else
      match i
      case IChallenge(challenger, ref, _) =>
        Some(Move(Deposit, Wallet(challenger), ChallengeVault(ref), s.config.value.challengeBond))
      case IResolve(_, ref, true) =>
        Some(Move(Refund, ChallengeVault(ref), Wallet(s.challenges[ref].challenger), Balance(s, ChallengeVault(ref))))
      case IResolve(_, ref, false) =>
        Some(Move(Forfeit, ChallengeVault(ref), Wallet(s.config.value.treasury), Balance(s, ChallengeVault(ref))))
      case ICancel(_, ref) =>
        Some(Move(Refund, ChallengeVault(ref), Wallet(s.challenges[ref].challenger), Balance(s, ChallengeVault(ref))))
      case IRegister(creator, t, _, id, bond) =>
        Some(Move(Deposit, Wallet(creator), CapabilityVault(CapabilityRef(t, creator, id)), bond))
      case ISlash(_, ref, penalty) =>
        Some(Move(Slash, CapabilityVault(ref), Wallet(s.config.value.treasury),
          if penalty == s.capabilities[ref].bondRemaining then Balance(s, CapabilityVault(ref)) else penalty))
      case IWithdraw(_, ref) =>
        Some(Move(Withdrawal, CapabilityVault(ref), Wallet(s.capabilities[ref].creator),
            Balance(s, CapabilityVault(ref))))
      case IInitialize(admin, treasury, _, _, _) =>
        Some(Move(Funding, Wallet(admin), Wallet(treasury), s.rentMin))
      case ISend(from, to, amount) =>
        Some(Move(if to.Wallet? then Outside else Donation, Wallet(from), to, amount))
      case _ => None
  }

  ghost predicate Makes(s: State, after: map<Addr, nat>, m: Option<Move>) {
    if m.None? then after == s.lamports
    else
      && m.value.amount <= Balance(s, m.value.from)
      && after == Moved(s.lamports, m.value.from, m.value.to, m.value.amount)
  }

  lemma ReputationMoves(s: State, i: Instr)
    requires i.IRegisterAgent? || i.IAttest? || i.IChallenge? || i.IResolve? || i.ICancel?
    ensures Makes(s, Step(s, i).lamports, MoveOf(s, i))
  {
  }

  lemma CapabilityMoves(s: State, i: Instr)
    requires i.IRegister? || i.ICertify? || i.ISlash? || i.IWithdraw?
    ensures Makes(s, Step(s, i).lamports, MoveOf(s, i))
  {
  }

  /** Every step moves exactly that transfer, in full, and no other lamport. */
  lemma StepMoves(s: State, i: Instr)
    ensures Makes(s, Step(s, i).lamports, MoveOf(s, i))
  {
    if i.IRegisterAgent? || i.IAttest? || i.IChallenge? || i.IResolve? || i.ICancel? {
      ReputationMoves(s, i);
    } else if i.IRegister? || i.ICertify? || i.ISlash? || i.IWithdraw? {
      CapabilityMoves(s, i);
    }
  }

  // ---------------------------------------------------------------------------
  // Sums over the vaults and over everything

  ghost function Vaults(m: map<Addr, nat>): map<Addr, nat> {
    map a | a in m && !a.Wallet? :: m[a]
  }

  ghost function VaultTotal(s: State): nat {
    Sum(Vaults(s.lamports))
  }

  lemma VaultsAfterPut(m: map<Addr, nat>, a: Addr, v: nat)
    ensures if a.Wallet? then Sum(Vaults(m[a := v])) == Sum(Vaults(m))
            else Sum(Vaults(m[a := v])) + Get(m, a) == Sum(Vaults(m)) + v
  {
    if a.Wallet? {
      assert Vaults(m[a := v]) == Vaults(m);
    } else {
      assert Vaults(m[a := v]) == Vaults(m)[a := v];
      SumPut(Vaults(m), a, v);
    }
  }

  /** What an amount at an address adds to the vault total. */
  function InVault(a: Addr, amount: nat): nat {
    if a.Wallet? then 0 else amount
  }

  lemma SumsAfterMove(m: map<Addr, nat>, from: Addr, to: Addr, amount: nat)
    requires amount <= Get(m, from)
    ensures Sum(Moved(m, from, to, amount)) == Sum(m)
    ensures Sum(Vaults(Moved(m, from, to, amount))) + InVault(from, amount) == Sum(Vaults(m)) + InVault(to, amount)
  {
    var debited := m[from := Get(m, from) - amount];
    var moved := debited[to := Get(debited, to) + amount];
    assert moved == Moved(m, from, to, amount);
    DebitSums(m, from, amount);
    assert Sum(debited) + amount == Sum(m) && Sum(Vaults(debited)) + InVault(from, amount) == Sum(Vaults(m));
    CreditSums(debited, to, amount);
  }

  lemma DebitSums(m: map<Addr, nat>, a: Addr, amount: nat)
    requires amount <= Get(m, a)
    ensures var m' := m[a := Get(m, a) - amount];
            Sum(m') + amount == Sum(m) && Sum(Vaults(m')) + InVault(a, amount) == Sum(Vaults(m))
  {
    SumPut(m, a, Get(m, a) - amount);
    VaultsAfterPut(m, a, Get(m, a) - amount);
  }

  lemma CreditSums(m: map<Addr, nat>, a: Addr, amount: nat)
    ensures var m' := m[a := Get(m, a) + amount];
            Sum(m') == Sum(m) + amount && Sum(Vaults(m')) == Sum(Vaults(m)) + InVault(a, amount)
  {
    SumPut(m, a, Get(m, a) + amount);
    VaultsAfterPut(m, a, Get(m, a) + amount);
  }

  // ---------------------------------------------------------------------------
  // Totals over a run

  /** The lamports a step moves under one heading. */
  ghost function StepFlow(s: State, i: Instr, kind: Kind): nat {
    var m := MoveOf(s, i);
    if m.Some? && m.value.kind == kind then m.value.amount else 0
  }

  ghost function Flow(s: State, t: seq<Instr>, kind: Kind): nat {
    if t == [] then 0
    else Flow(s, t[..|t| - 1], kind) + StepFlow(Run(s, t[..|t| - 1]), t[|t| - 1], kind)
  }

  ghost predicate LeavesVault(kind: Kind) {
    kind.Refund? || kind.Forfeit? || kind.Slash? || kind.Withdrawal?
  }

  ghost predicate EntersVault(kind: Kind) {
    kind.Deposit? || kind.Donation?
  }

  /** The kind of a transfer says on which side a vault stands. */
  lemma MoveEnds(s: State, i: Instr)
    ensures var m := MoveOf(s, i);
            m.Some? ==>
              && (m.value.from.Wallet? <==> !LeavesVault(m.value.kind))
              && (m.value.to.Wallet? <==> !EntersVault(m.value.kind))
  {
  }

  lemma StepMoney(s: State, i: Instr)
    ensures Sum(Step(s, i).lamports) == Sum(s.lamports)
    ensures VaultTotal(Step(s, i)) + StepFlow(s, i, Refund) + StepFlow(s, i, Forfeit)
            + StepFlow(s, i, Slash) + StepFlow(s, i, Withdrawal)
         == VaultTotal(s) + StepFlow(s, i, Deposit) + StepFlow(s, i, Donation)
  {
    StepMoves(s, i);
    MoveEnds(s, i);
    FlowsOfMove(s, i);
    var m := MoveOf(s, i);
    if m.Some? { SumsAfterMove(s.lamports, m.value.from, m.value.to, m.value.amount); }
  }

  lemma FlowsOfMove(s: State, i: Instr)
    ensures var m := MoveOf(s, i);
            && StepFlow(s, i, Refund) + StepFlow(s, i, Forfeit) + StepFlow(s, i, Slash) + StepFlow(s, i, Withdrawal)
               == (if m.Some? && LeavesVault(m.value.kind) then m.value.amount else 0)
            && StepFlow(s, i, Deposit) + StepFlow(s, i, Donation)
               == (if m.Some? && EntersVault(m.value.kind) then m.value.amount else 0)
  {
  }

  /** Over every run and interleaving, from any ledger: the vaults hold what was deposited and donated
      less what was refunded, forfeited, slashed and withdrawn, and no lamport appears or disappears. */
  lemma {:induction false} MoneyEquation(s: State, t: seq<Instr>)
    ensures Sum(Run(s, t).lamports) == Sum(s.lamports)
    ensures VaultTotal(Run(s, t)) + Flow(s, t, Refund) + Flow(s, t, Forfeit)
            + Flow(s, t, Slash) + Flow(s, t, Withdrawal)
         == VaultTotal(s) + Flow(s, t, Deposit) + Flow(s, t, Donation)
    decreases |t|
  {
    if t != [] {
      MoneyEquation(s, t[..|t| - 1]);
      StepMoney(Run(s, t[..|t| - 1]), t[|t| - 1]);
    }
  }

  // ---------------------------------------------------------------------------
  // One wallet at a time

  ghost function StepReceipt(s: State, i: Instr, w: Key): nat {
    var m := MoveOf(s, i);
    if m.Some? && m.value.to == Wallet(w) && (m.value.kind.Refund? || m.value.kind.Withdrawal? || m.value.kind.Outside?)
    then m.value.amount else 0
  }

  ghost function StepPayment(s: State, i: Instr, w: Key): nat {
    var m := MoveOf(s, i);
    if m.Some? && m.value.from == Wallet(w) then m.value.amount else 0
  }

  /** What reached `w` as a refunded challenger, a withdrawing creator or by an outside transfer. */
  ghost function Receipts(s: State, t: seq<Instr>, w: Key): nat {
    if t == [] then 0 else Receipts(s, t[..|t| - 1], w) + StepReceipt(Run(s, t[..|t| - 1]), t[|t| - 1], w)
  }

  /** What left `w` by its own signature. */
  ghost function Payments(s: State, t: seq<Instr>, w: Key): nat {
    if t == [] then 0 else Payments(s, t[..|t| - 1], w) + StepPayment(Run(s, t[..|t| - 1]), t[|t| - 1], w)
  }

  ghost predicate IsTreasury(s: State, w: Key) {
    s.config.Some? && s.config.value.treasury == w
  }

  lemma TreasuryIsFixed(s: State, i: Instr)
    requires s.config.Some?
    ensures Step(s, i).config.Some? && Step(s, i).config.value.treasury == s.config.value.treasury
  {
  }

  lemma StepKeepsRent(s: State, i: Instr)
    ensures Step(s, i).rentMin == s.rentMin
  {
  }

  lemma {:induction false} RentIsFixed(s: State, t: seq<Instr>)
    ensures Run(s, t).rentMin == s.rentMin
    decreases |t|
  {
    if t != [] {
      RentIsFixed(s, t[..|t| - 1]);
      StepKeepsRent(Run(s, t[..|t| - 1]), t[|t| - 1]);
    }
  }

  lemma StepWallet(s: State, i: Instr, w: Key)
    ensures Balance(Step(s, i), Wallet(w)) + StepPayment(s, i, w)
         == Balance(s, Wallet(w)) + StepReceipt(s, i, w)
            + (if IsTreasury(Step(s, i), w)
               then StepFlow(s, i, Funding) + StepFlow(s, i, Forfeit) + StepFlow(s, i, Slash) else 0)
  {
    StepMoves(s, i);
    var m := MoveOf(s, i);
    if m.Some? { TreasuryGains(s, i); }
  }

  /** Only an initialization funds the treasury, and only forfeits and slashes reach it besides. */
  lemma TreasuryGains(s: State, i: Instr)
    ensures StepFlow(s, i, Funding) == if s.config.None? && Step(s, i).config.Some? then s.rentMin else 0
    ensures Step(s, i).config.None? ==> StepFlow(s, i, Forfeit) == StepFlow(s, i, Slash) == 0
    ensures var m := MoveOf(s, i);
            m.Some? && m.value.kind in {Funding, Forfeit, Slash} ==>
              m.value.to.Wallet? && IsTreasury(Step(s, i), m.value.to.key)
  {
    TreasuryReceives(s, i);
    if Step(s, i).config.None? || s.config.None? { NothingBeforeConfig(s, i); }
  }

  lemma TreasuryReceives(s: State, i: Instr)
    ensures var m := MoveOf(s, i);
            m.Some? && m.value.kind in {Funding, Forfeit, Slash} ==>
              m.value.to.Wallet? && IsTreasury(Step(s, i), m.value.to.key)
    ensures s.config.Some? ==> Step(s, i).config.Some? && StepFlow(s, i, Funding) == 0
  {
  }

  lemma NothingBeforeConfig(s: State, i: Instr)
    requires s.config.None?
    ensures StepFlow(s, i, Forfeit) == StepFlow(s, i, Slash) == 0
    ensures StepFlow(s, i, Funding) == if Step(s, i).config.Some? then s.rentMin else 0
  {
  }

  /** From the empty ledger, every wallet's balance is its start plus its receipts less its payments,
      and the treasury alone gains besides exactly the rent minimum, the forfeits and the slashes. */
  lemma {:induction false} WalletEquation(s: State, t: seq<Instr>, w: Key)
    requires Genesis(s)
    ensures Balance(Run(s, t), Wallet(w)) + Payments(s, t, w)
         == Balance(s, Wallet(w)) + Receipts(s, t, w)
            + (if IsTreasury(Run(s, t), w) then s.rentMin + Flow(s, t, Forfeit) + Flow(s, t, Slash) else 0)
    ensures Run(s, t).config.None? ==> Flow(s, t, Forfeit) == Flow(s, t, Slash) == 0
    decreases |t|
  {
    if t != [] {
      var u := Run(s, t[..|t| - 1]);
      WalletEquation(s, t[..|t| - 1], w);
      StepWallet(u, t[|t| - 1], w);
      TreasuryGains(u, t[|t| - 1]);
      RentIsFixed(s, t[..|t| - 1]);
      if u.config.Some? { TreasuryIsFixed(u, t[|t| - 1]); }
    }
  }
}
