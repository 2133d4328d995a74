/** The score as the on-chain program computes it and as the SDK recomputes it. */
module Score {
  import opened Words
  import opened Wrappers

  datatype View = View(score: u64, decayed: bool)

  datatype Breakdown = Breakdown(score: nat, decayed: bool, halvings: nat)

  const DEFAULT_PERIOD: int := 30 * 24 * 60 * 60

  /** The on-chain score. The quotient passes through a 32-bit cast before the cap. */
  function ComputeScore(completions: u64, disputes: u64, lastActivity: i64, now: i64, period: i64): (v: View)
    ensures v.score <= SaturatingSubU64(completions, disputes)
  {
    var net := SaturatingSubU64(completions, disputes);
    if net == 0 || lastActivity <= 0 || period <= 0 then
      View(net, false)
    else
      var elapsed := SaturatingSubI64(now, lastActivity);
      if elapsed <= period then
        View(net, false)
      else
        var quotient := (elapsed / period) % U32_SIZE;
        var halvings := if quotient > 63 then 63 else quotient;
        ShrBelow(net, halvings);
        View(Shr(net, halvings), true)
  }

  /** The SDK's stand-in for the word shift. */
  function HalveU64(net: nat, halvings: int): nat {
    if halvings <= 0 then net
    else if halvings >= 53 then 0
    else Quotient(net, Pow2(halvings))
  }

  function SdkScore(completions: nat, disputes: nat, lastActivity: int, now: int, period: Option<int>): Breakdown {
    var p := if period.Some? then period.value else DEFAULT_PERIOD;
    var net := Max(0, completions - disputes);
    if net == 0 || lastActivity <= 0 || p <= 0 then
      Breakdown(net, false, 0)
    else
      var elapsed := Max(0, now - lastActivity);
      if elapsed <= p then
        Breakdown(net, false, 0)
      else
        var halvings := Min(63, elapsed / p);
        Breakdown(HalveU64(net, halvings), true, halvings)
  }

  // ---------------------------------------------------------------------------
  // The vocabulary of the laws

  /** Halvings due after `elapsed` seconds: none in the first period, then one a period, at most 63. */
  function Halvings(elapsed: int, period: int): nat
    requires period > 0
  {
    if elapsed <= period then 0 else Min(63, elapsed / period)
  }

  /** The elapsed time is fewer than 2^32 periods, so the 32-bit cast loses nothing. */
  ghost predicate CastIsExact(lastActivity: int, now: int, period: int)
    requires period > 0
  {
    now - lastActivity < U32_SIZE * period
  }

  lemma QuotientBounds(elapsed: int, period: int)
    requires period > 0 && elapsed > period
    ensures 1 <= elapsed / period
    ensures elapsed < U32_SIZE * period <==> elapsed / period < U32_SIZE
  {
    var q := elapsed / period;
    assert elapsed == q * period + elapsed % period;
    if q < U32_SIZE { StepMultiple(period, q, U32_SIZE); }
  }

  /** Inside the cast's range, the on-chain score is the net shifted by the halvings due. */
  lemma OnChainShift(completions: u64, disputes: u64, lastActivity: i64, now: i64, period: i64)
    requires lastActivity > 0 && period > 0
    requires CastIsExact(lastActivity, now, period)
    ensures var v := ComputeScore(completions, disputes, lastActivity, now, period);
            var net := SaturatingSubU64(completions, disputes);
            && v.score == Shr(net, Halvings(now - lastActivity, period))
            && (v.decayed <==> net > 0 && now - lastActivity > period)
  {
    var net := SaturatingSubU64(completions, disputes);
    if net == 0 {
      ShrBelow(net, Halvings(now - lastActivity, period));
    } else if now - lastActivity > period {
      QuotientBounds(now - lastActivity, period);
      assert ((now - lastActivity) / period) % U32_SIZE == (now - lastActivity) / period;
    }
  }

  /** For every input, the score is the net divided by a power of two and rounded down: one halving per
      whole period once the first is over, as counted by the truncated quotient and capped at 63. */
  lemma ScoreIsQuotient(completions: u64, disputes: u64, lastActivity: i64, now: i64, period: i64)
    ensures var v := ComputeScore(completions, disputes, lastActivity, now, period);
            var net := SaturatingSubU64(completions, disputes);
            && (v.decayed <==> net > 0 && lastActivity > 0 && period > 0 && now - lastActivity > period)
            && (!v.decayed ==> v.score == net)
            && (v.decayed ==>
                  var halvings := Min(63, ((now - lastActivity) / period) % U32_SIZE);
                  Pow2(halvings) > 0 && v.score == net / Pow2(halvings))
  {
    var net := SaturatingSubU64(completions, disputes);
    if net > 0 && lastActivity > 0 && period > 0 && now - lastActivity > period {
      var halvings := Min(63, ((now - lastActivity) / period) % U32_SIZE);
      ShrIsDivision(net, halvings);
    }
  }

  lemma HalveIsShift(net: nat, halvings: nat)
    ensures halvings < 53 ==> HalveU64(net, halvings) == Shr(net, halvings)
    ensures net < SAFE_LIMIT ==> HalveU64(net, halvings) == Shr(net, halvings)
  {
    ShrIsDivision(net, halvings);
    if halvings >= 53 && net < SAFE_LIMIT {
      assert Pow2(53) == SAFE_LIMIT by { PowersUsed(); }
      Pow2Monotone(53, halvings);
      ShrZero(net, halvings);
    }
  }

  lemma PowersUsed()
    ensures Pow2(53) == SAFE_LIMIT
    ensures Pow2(63) == I64_MAX + 1
  {
    assert Pow2(10) == 0x400;
    assert Pow2(20) == 0x10_0000;
    assert Pow2(30) == 0x4000_0000;
    assert Pow2(40) == 0x100_0000_0000;
    assert Pow2(50) == 0x4_0000_0000_0000;
    assert Pow2(60) == 0x1000_0000_0000_0000;
  }

  // ---------------------------------------------------------------------------
  // The SDK against the chain

  /** For every input with exact numbers, the SDK and the chain agree on `decayed`, and they agree
      on the score exactly when the 32-bit cast is exact or the truncated shift clears the net too. */
  lemma SdkRefinesOnChain(completions: u64, disputes: u64, lastActivity: i64, now: i64, period: i64)
    requires completions < SAFE_LIMIT
    ensures var chain := ComputeScore(completions, disputes, lastActivity, now, period);
            var sdk := SdkScore(completions, disputes, lastActivity, now, Some(period));
            var net := SaturatingSubU64(completions, disputes);
            && chain.decayed == sdk.decayed
            && (chain.score == sdk.score <==>
                || lastActivity <= 0
                || period <= 0
                || CastIsExact(lastActivity, now, period)
                || net < Pow2(Min(63, ((now - lastActivity) / period) % U32_SIZE)))
  {
    var net := SaturatingSubU64(completions, disputes);
    if lastActivity > 0 && period > 0 {
      var elapsed := now - lastActivity;
      if CastIsExact(lastActivity, now, period) {
        OnChainShift(completions, disputes, lastActivity, now, period);
        HalveIsShift(net, Halvings(elapsed, period));
      } else {
        assert elapsed >= U32_SIZE * period > period;
        QuotientBounds(elapsed, period);
        if net == 0 {
        } else {
          ShrZero(net, Min(63, (elapsed / period) % U32_SIZE));
        }
      }
    }
  }

  /** The bound is real: 2^32 periods after its last activity an agent's net is back on chain,
      still marked decayed, while the SDK reports zero. */
  lemma CastRestoresScore(completions: u64, disputes: u64, lastActivity: i64, period: i64)
    requires disputes < completions < SAFE_LIMIT && lastActivity > 0 && period > 0
    requires lastActivity + U32_SIZE * period <= I64_MAX
    ensures var now := lastActivity + U32_SIZE * period;
            && ComputeScore(completions, disputes, lastActivity, now, period) == View(completions - disputes, true)
            && SdkScore(completions, disputes, lastActivity, now, Some(period)).score == 0
  {
    var elapsed := U32_SIZE * period;
    QuotientUnique(elapsed, period, U32_SIZE, 0);
    assert elapsed > period;
  }

  // ---------------------------------------------------------------------------
  // Decay laws of the on-chain score

  lemma HalvingsMonotone(e1: int, e2: int, period: int)
    requires period > 0 && e1 <= e2
    ensures Halvings(e1, period) <= Halvings(e2, period)
  {
    if e1 > period {
      DivisionMonotone(e1, e2, period);
      QuotientBounds(e1, period);
    } else if e2 > period {
      QuotientBounds(e2, period);
    }
  }

  lemma DivisionMonotone(a: int, b: int, d: int)
    requires d > 0 && a <= b
    ensures a / d <= b / d
  {
    assert a == d * (a / d) + a % d && b == d * (b / d) + b % d;
    if a / d > b / d { StepMultiple(d, b / d, a / d); }
  }

  lemma DivisionAntitone(a: int, d: int, e: int)
    requires a >= 0 && 0 < d <= e
    ensures a / e <= a / d
  {
    var k := a / e;
    assert a == e * k + a % e;
    assert d * k <= e * k;
    DivisionMonotone(d * k, a, d);
    QuotientUnique(d * k, d, k, 0);
  }

  lemma ScoreFallsOverTime(completions: u64, disputes: u64, lastActivity: i64, now: i64, later: i64, period: i64)
    requires now <= later
    requires lastActivity > 0 && period > 0 ==> CastIsExact(lastActivity, later, period)
    ensures ComputeScore(completions, disputes, lastActivity, later, period).score
         <= ComputeScore(completions, disputes, lastActivity, now, period).score
  {
    if lastActivity > 0 && period > 0 {
      OnChainShift(completions, disputes, lastActivity, now, period);
      OnChainShift(completions, disputes, lastActivity, later, period);
      HalvingsMonotone(now - lastActivity, later - lastActivity, period);
      ShrAntitone(SaturatingSubU64(completions, disputes),
        Halvings(now - lastActivity, period), Halvings(later - lastActivity, period));
    }
  }

  /** More completions or fewer disputes never lower the score, at any time and for any quotient. */
  lemma ScoreRisesWithRecord(completions: u64, disputes: u64, completions': u64, disputes': u64,
                             lastActivity: i64, now: i64, period: i64)
    requires completions <= completions' && disputes' <= disputes
    ensures ComputeScore(completions, disputes, lastActivity, now, period).score
         <= ComputeScore(completions', disputes', lastActivity, now, period).score
  {
    var net, net' := SaturatingSubU64(completions, disputes), SaturatingSubU64(completions', disputes');
    if net > 0 && lastActivity > 0 && period > 0 && SaturatingSubI64(now, lastActivity) > period {
      ShrMonotone(net, net', Min(63, (SaturatingSubI64(now, lastActivity) / period) % U32_SIZE));
    }
  }

  lemma ScoreRisesWithPeriod(completions: u64, disputes: u64, lastActivity: i64, now: i64, period: i64, longer: i64)
    requires 0 < period <= longer
    requires CastIsExact(lastActivity, now, period)
    ensures ComputeScore(completions, disputes, lastActivity, now, period).score
         <= ComputeScore(completions, disputes, lastActivity, now, longer).score
  {
    if lastActivity > 0 {
      var elapsed := now - lastActivity;
      assert U32_SIZE * period <= U32_SIZE * longer;
      OnChainShift(completions, disputes, lastActivity, now, period);
      OnChainShift(completions, disputes, lastActivity, now, longer);
      if elapsed > longer { DivisionAntitone(elapsed, period, longer); }
      ShrAntitone(SaturatingSubU64(completions, disputes), Halvings(elapsed, longer), Halvings(elapsed, period));
    }
  }

  /** Past the first period, waiting `j` more periods shifts the score by `j`. */
  lemma WaitingShifts(completions: u64, disputes: u64, lastActivity: i64, now: i64, period: i64, j: nat)
    requires lastActivity > 0 && period > 0 && now - lastActivity > period
    requires (now - lastActivity) / period + j <= 63
    requires now + j * period <= I64_MAX
    ensures ComputeScore(completions, disputes, lastActivity, now + j * period, period).score
         == Shr(ComputeScore(completions, disputes, lastActivity, now, period).score, j)
  {
    var elapsed := now - lastActivity;
    var q := elapsed / period;
    assert elapsed == period * q + elapsed % period;
    assert elapsed + j * period == period * (q + j) + elapsed % period;
    QuotientUnique(elapsed + j * period, period, q + j, elapsed % period);
    assert j * period >= 0;
    QuotientBounds(elapsed, period);
    QuotientBounds(elapsed + j * period, period);
    OnChainShift(completions, disputes, lastActivity, now, period);
    OnChainShift(completions, disputes, lastActivity, now + j * period, period);
    ShrAdd(SaturatingSubU64(completions, disputes), q, j);
  }

  /** Inactivity ever brings the score to zero exactly when the net is below 2^63: the cap on the
      halvings keeps a larger net alive for ever. */
  lemma InactivityReachesZero(completions: u64, disputes: u64, lastActivity: i64, period: i64)
    requires lastActivity > 0 && period > 0 && lastActivity + 63 * period <= I64_MAX
    ensures (exists now: i64 :: ComputeScore(completions, disputes, lastActivity, now, period).score == 0)
       <==> SaturatingSubU64(completions, disputes) < Pow2(63)
  {
    var net := SaturatingSubU64(completions, disputes);
    if net < Pow2(63) {
      var now: i64 := lastActivity + 63 * period;
      QuotientUnique(63 * period, period, 63, 0);
      OnChainShift(completions, disputes, lastActivity, now, period);
      ShrZero(net, 63);
      assert ComputeScore(completions, disputes, lastActivity, now, period).score == 0;
    } else {
      forall now: i64
        ensures ComputeScore(completions, disputes, lastActivity, now, period).score != 0
      {
        var elapsed := SaturatingSubI64(now, lastActivity);
        if elapsed > period {
          var h := Min(63, (elapsed / period) % U32_SIZE);
          Pow2Monotone(h, 63);
          ShrZero(net, h);
        }
      }
    }
  }
}
