/** One challenge and one payout per completion, for all time. */
module LedgerChallenges {
  import opened Sums
  import opened Ledger
  import opened LedgerInvariant
  import opened LedgerMoney

  /** An accepted challenge of `ref`. */
  ghost predicate Opens(s: State, i: Instr, ref: CompletionRef) {
    Apply(s, i).Ok? && i.IChallenge? && i.completion == ref
  }

  /** An accepted resolution or cancellation of the challenge of `ref`. */
  ghost predicate Closes(s: State, i: Instr, ref: CompletionRef) {
    Apply(s, i).Ok? && (i.IResolve? || i.ICancel?) && i.completion == ref
  }

  ghost function Openings(s: State, t: seq<Instr>, ref: CompletionRef): nat {
    if t == [] then 0
    else Openings(s, t[..|t| - 1], ref) + if Opens(Run(s, t[..|t| - 1]), t[|t| - 1], ref) then 1 else 0
  }

  ghost function Closings(s: State, t: seq<Instr>, ref: CompletionRef): nat {
    if t == [] then 0
    else Closings(s, t[..|t| - 1], ref) + if Closes(Run(s, t[..|t| - 1]), t[|t| - 1], ref) then 1 else 0
  }

  ghost predicate Pending(s: State, ref: CompletionRef) {
    ref in s.challenges && !s.challenges[ref].resolved
  }

  ghost predicate Settled(s: State, ref: CompletionRef) {
    ref in s.challenges && s.challenges[ref].resolved
  }

  /** What a recorded challenge keeps for ever. */
  ghost function Terms(ch: Challenge): Challenge {
    ch.(resolved := false, upheld := false)
  }

  /** How instruction `i` may rewrite the challenge records. */
  ghost predicate Rewrites(completions: map<CompletionRef, Completion>, before: map<CompletionRef, Challenge>,
                           after: map<CompletionRef, Challenge>, i: Instr, accepted: bool)
  {
    if !accepted || !(i.IChallenge? || i.IResolve? || i.ICancel?) then after == before
    else if i.IChallenge? then
      && i.completion in completions && !completions[i.completion].challenged
      && i.completion in after && !after[i.completion].resolved
      && after == before[i.completion := after[i.completion]]
    else
      && i.completion in before && !before[i.completion].resolved
      && after == before[i.completion := before[i.completion].(resolved := true, upheld := i.IResolve? && i.upheld)]
  }

  lemma StepRewrites(s: State, i: Instr)
    ensures Rewrites(s.completions, s.challenges, Step(s, i).challenges, i, Apply(s, i).Ok?)
  {
  }

  lemma StepOfOneChallenge(s: State, i: Instr, ref: CompletionRef)
    requires ChallengesAgree(s.completions, s.challenges)
    ensures Opens(s, i, ref) <==> ref !in s.challenges && ref in Step(s, i).challenges
    ensures Closes(s, i, ref) <==> Pending(s, ref) && Settled(Step(s, i), ref)
    ensures ref in s.challenges ==>
              && ref in Step(s, i).challenges
              && Terms(Step(s, i).challenges[ref]) == Terms(s.challenges[ref])
    ensures Settled(s, ref) ==> Step(s, i).challenges[ref] == s.challenges[ref]
  {
    StepRewrites(s, i);
    OneRecordRewritten(s.completions, s.challenges, Step(s, i).challenges, i, Apply(s, i).Ok?, ref);
  }

  lemma OneRecordRewritten(completions: map<CompletionRef, Completion>, before: map<CompletionRef, Challenge>,
                           after: map<CompletionRef, Challenge>, i: Instr, accepted: bool, ref: CompletionRef)
    requires ChallengesAgree(completions, before) && Rewrites(completions, before, after, i, accepted)
    ensures (accepted && i.IChallenge? && i.completion == ref) <==> (ref !in before && ref in after)
    ensures (accepted && (i.IResolve? || i.ICancel?) && i.completion == ref)
       <==> (ref in before && !before[ref].resolved && ref in after && after[ref].resolved)
    ensures ref in before ==> ref in after && Terms(after[ref]) == Terms(before[ref])
    ensures ref in before && before[ref].resolved ==> after[ref] == before[ref]
  {
  }

  lemma DisputedIsUpheld(s: State, s': State, ref: CompletionRef)
    requires Inv(s) && Inv(s') && ref in s.challenges && ref in s'.challenges
    requires s'.challenges[ref] == s.challenges[ref]
    ensures s'.completions[ref].disputed == s.completions[ref].disputed
  {
    assert ref in s.completions && ref in s'.completions;
  }

  /** In every run a completion is challenged at most once, and the challenge is resolved or cancelled
      at most once and never both: exactly once if and only if its record says so. */
  lemma {:induction false} OneChallengeOnePayout(s: State, t: seq<Instr>, ref: CompletionRef)
    requires Genesis(s)
    ensures Openings(s, t, ref) == if ref in Run(s, t).challenges then 1 else 0
    ensures Closings(s, t, ref) == if Settled(Run(s, t), ref) then 1 else 0
    decreases |t|
  {
    if t != [] {
      var u := Run(s, t[..|t| - 1]);
      OneChallengeOnePayout(s, t[..|t| - 1], ref);
      RunKeeps(s, t[..|t| - 1]);
      StepOfOneChallenge(u, t[|t| - 1], ref);
    }
  }

  /** Once made, a challenge keeps its challenger, bond and time, and once settled its outcome,
      whatever happens later. */
  lemma {:induction false} ChallengeIsFixed(s: State, t: seq<Instr>, ref: CompletionRef)
    requires Inv(s) && ref in s.challenges
    ensures Inv(Run(s, t)) && ref in Run(s, t).challenges
    ensures Terms(Run(s, t).challenges[ref]) == Terms(s.challenges[ref])
    ensures Settled(s, ref) ==> Run(s, t).challenges[ref] == s.challenges[ref]
    ensures Settled(s, ref) ==> Run(s, t).completions[ref].disputed == s.completions[ref].disputed
    decreases |t|
  {
    if t != [] {
      ChallengeIsFixed(s, t[..|t| - 1], ref);
      StepKeeps(Run(s, t[..|t| - 1]), t[|t| - 1]);
      StepOfOneChallenge(Run(s, t[..|t| - 1]), t[|t| - 1], ref);
    }
    if Settled(s, ref) { DisputedIsUpheld(s, Run(s, t), ref); }
  }

  /** Closing a challenge is the one transfer out of its vault. */
  lemma VaultIsDebitedOnClose(s: State, i: Instr, ref: CompletionRef)
    ensures (MoveOf(s, i).Some? && MoveOf(s, i).value.from == ChallengeVault(ref)) <==> Closes(s, i, ref)
  {
  }

  lemma OtherStepsFillVault(s: State, i: Instr, ref: CompletionRef)
    requires !Closes(s, i, ref)
    ensures Balance(Step(s, i), ChallengeVault(ref)) >= Balance(s, ChallengeVault(ref))
  {
    StepMoves(s, i);
    VaultIsDebitedOnClose(s, i, ref);
    var m := MoveOf(s, i);
    if m.Some? { OutsideMove(s.lamports, m.value.from, m.value.to, m.value.amount, ChallengeVault(ref)); }
  }

  /** In every reachable ledger, a challenge vault loses lamports exactly when its pending challenge is
      closed with a non-empty vault. It then loses everything, at least the recorded bond: to the
      recorded challenger if upheld or cancelled, to the treasury if rejected. */
  lemma EscrowLeavesOnce(s: State, i: Instr, ref: CompletionRef)
    requires Inv(s)
    ensures Balance(Step(s, i), ChallengeVault(ref)) < Balance(s, ChallengeVault(ref))
       <==> Closes(s, i, ref) && Balance(s, ChallengeVault(ref)) > 0
    ensures Closes(s, i, ref) ==>
              && Pending(s, ref) && Settled(Step(s, i), ref)
              && Balance(s, ChallengeVault(ref)) >= s.challenges[ref].bond
              && Balance(Step(s, i), ChallengeVault(ref)) == 0
              && Step(s, i).lamports
                 == Moved(s.lamports, ChallengeVault(ref), Wallet(Payee(s, i, ref)), Balance(s, ChallengeVault(ref)))
              && Step(s, i).challenges[ref].upheld == (i.IResolve? && i.upheld)
  {
    if Closes(s, i, ref) {
      StepOfOneChallenge(s, i, ref);
      CloseEmptiesVault(s, i, ref);
    } else {
      OtherStepsFillVault(s, i, ref);
    }
  }

  lemma CloseEmptiesVault(s: State, i: Instr, ref: CompletionRef)
    requires EscrowsHold(s.rentMin, s.challenges, s.lamports) && Pending(s, ref) && Closes(s, i, ref)
    ensures Balance(s, ChallengeVault(ref)) >= s.challenges[ref].bond
    ensures Step(s, i).lamports
         == Moved(s.lamports, ChallengeVault(ref), Wallet(Payee(s, i, ref)), Balance(s, ChallengeVault(ref)))
    ensures Balance(Step(s, i), ChallengeVault(ref)) == 0
    ensures Settled(Step(s, i), ref) && Step(s, i).challenges[ref].upheld == (i.IResolve? && i.upheld)
  {
    assert s.challenges[ref].bond <= Get(s.lamports, ChallengeVault(ref));
    if i.IResolve? {
      assert Apply(s, i) == ResolveChallenge(s, i.authority, ref, i.upheld);
    } else {
      assert Apply(s, i) == CancelChallenge(s, i.signer, ref);
    }
  }

  /** The challenger recorded with the bond, or the treasury for a rejected challenge. */
  ghost function Payee(s: State, i: Instr, ref: CompletionRef): Key
    requires ref in s.challenges
  {
    if i.IResolve? && !i.upheld && s.config.Some? then s.config.value.treasury else s.challenges[ref].challenger
  }
}
