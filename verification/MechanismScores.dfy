/** What a point of score takes under each mechanism, and which scores fade. */
module MechanismScores {
  import opened Words
  import opened Mechanisms
  import Score

  /** The two mechanisms whose scores fade with inactivity. */
  predicate Fades(m: Mechanism) {
    m.kind.Taop? || m.kind.TwoSided?
  }

  /** Under these two the score is what it was at the last activity, halved once for every period due since;
      under the others it does not depend on the time. */
  lemma FadingIsHalving(m: Mechanism, b: Book, agent: Id, now: int)
    ensures var a, period := Record(b, agent), m.params.decayPeriodSecs;
            if Fades(m) && a.lastActivity > 0 && period > 0 then
              ScoreOf(m, b, agent, now)
              == Score.HalveU64(ScoreOf(m, b, agent, a.lastActivity), Score.Halvings(now - a.lastActivity, period))
            else ScoreOf(m, b, agent, now) == ScoreOf(m, b, agent, a.lastActivity)
  {
    var a, period := Record(b, agent), m.params.decayPeriodSecs;
    if Fades(m) && a.lastActivity > 0 && period > 0 {
      if now - a.lastActivity > period { Score.QuotientBounds(now - a.lastActivity, period); }
      NothingToHalve(Score.Halvings(now - a.lastActivity, period));
    }
  }

  lemma NothingToHalve(halvings: nat)
    ensures Score.HalveU64(0, halvings) == 0
  {
    Score.HalveIsShift(0, halvings);
    ShrBelow(0, halvings);
  }

  /** What it takes to have a score of at least `target` at the time of the last activity: every dispute
      costs a point wherever disputes count, and what makes points differs. */
  lemma TargetTakes(m: Mechanism, b: Book, agent: Id, target: nat)
    requires target >= 1
    ensures var a := Record(b, agent);
            ScoreOf(m, b, agent, a.lastActivity) >= target <==>
              match m.kind
              case Taop => a.completions >= target + a.disputes
              case NaiveCount => a.completions >= target
              case NoDecay => a.completions >= target + a.disputes
              case PeerRatings => |a.raters| >= target + a.disputes
              case StakeGated => a.completions >= target + a.disputes && a.locked >= STAKE_PER_POINT * target
              case TwoSided => a.confirmed >= target + a.disputes && RECEIPT_WEIGHT * |a.raters| >= target + a.disputes
  {
    var a := Record(b, agent);
    if m.kind.StakeGated? { StakeBuys(a.locked, target); }
  }

  lemma StakeBuys(locked: int, target: nat)
    ensures locked / STAKE_PER_POINT >= target <==> locked >= STAKE_PER_POINT * target
  {
  }

  /** The counterparties the mechanism asks for are exactly enough for the points of `target`. */
  lemma CounterpartiesAreEnough(m: Mechanism, target: nat, n: nat)
    requires UsesPeerRatings(m) && target >= 1
    ensures n >= CounterpartiesRequired(m, target)
       <==> (if m.kind.TwoSided? then RECEIPT_WEIGHT * n else n) >= target
  {
  }

  /** Slashing moves locked lamports of the agent to its slashed ones: everything under the stake-gated
      mechanism, whose score is then gone, and under the others at most the capability bond. */
  lemma SlashMovesStake(m: Mechanism, b: Book, agent: Id, now: int)
    requires Record(b, agent).locked >= 0
    ensures var before, after := Record(b, agent), Record(SlashedFor(m, b, agent), agent);
            && after.locked + after.slashed == before.locked + before.slashed
            && after.spent - after.slashed == before.spent - before.slashed
            && (m.kind.StakeGated? ==> after.locked == 0 && ScoreOf(m, SlashedFor(m, b, agent), agent, now) == 0)
            && (!m.kind.StakeGated? ==>
                  after.locked == Max(0, before.locked - m.params.capabilityBondLamports))
    ensures forall x: Id | x != agent :: Record(SlashedFor(m, b, agent), x) == Record(b, x)
  {
  }
}
