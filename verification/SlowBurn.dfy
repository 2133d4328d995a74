/** The slow-burn scenario: an attacker accumulates just enough score, harvests, and is slashed. */
module SlowBurn {
  import opened Words
  import opened Wrappers
  import opened Mechanisms

  const DAY: int := 24 * 60 * 60
  const ATTACKER: Id := 0
  const ACCOMPLICE_BASE: Id := 100

  datatype Config = Config(targetScore: nat, attestsPerDay: nat, horizonDays: nat, harvestValueLamports: int)

  datatype Outcome = Outcome(
    daysToThreshold: Option<nat>,
    scoreAtHarvest: nat,
    attestations: nat,
    spentLamports: int,
    slashableLamports: int,
    slashCoverage: real,
    netProfitLamports: int,
    scoreAfterSlash: nat)

  // ---------------------------------------------------------------------------
  // Round-robin accomplices

  function Index(start: nat, n: nat, j: nat): Id
    requires n > 0
  {
    ACCOMPLICE_BASE + (start + j) % n
  }

  /** The accomplices hit by `t` consecutive round-robin indices starting at `start`. */
  ghost function Hit(start: nat, n: nat, t: nat): set<Id>
    requires n > 0
  {
    if t == 0 then {} else Hit(start, n, t - 1) + {Index(start, n, t - 1)}
  }

  lemma {:induction false} HitIncludes(start: nat, n: nat, t: nat, j: nat)
    requires n > 0 && j < t
    ensures Index(start, n, j) in Hit(start, n, t)
    decreases t
  {
    if j < t - 1 { HitIncludes(start, n, t - 1, j); }
  }

  lemma {:induction false} HitOnly(start: nat, n: nat, t: nat, x: Id) returns (j: nat)
    requires n > 0 && x in Hit(start, n, t)
    ensures j < t && x == Index(start, n, j)
    decreases t
  {
    if x == Index(start, n, t - 1) {
      j := t - 1;
    } else {
      j := HitOnly(start, n, t - 1, x);
    }
  }

  lemma SameResidue(a: nat, b: nat, n: nat)
    requires n > 0 && a < b && a % n == b % n
    ensures b - a >= n
  {
    assert a == n * (a / n) + a % n && b == n * (b / n) + b % n;
    if b / n > a / n { StepMultiple(n, a / n, b / n); }
    if b / n < a / n { StepMultiple(n, b / n, a / n); }
  }

  lemma AddModulus(a: nat, n: nat)
    requires n > 0
    ensures (a + n) % n == a % n
  {
    assert a == n * (a / n) + a % n;
    assert a + n == n * (a / n + 1) + a % n;
    QuotientUnique(a + n, n, a / n + 1, a % n);
    assert a + n == n * ((a + n) / n) + (a + n) % n;
  }

  /** Once everyone was hit, the next index hits nobody new. */
  lemma WrapsAround(start: nat, n: nat, t: nat)
    requires n > 0 && t >= n
    ensures Index(start, n, t) in Hit(start, n, t)
  {
    HitIncludes(start, n, t, t - n);
    AddModulus(start + (t - n), n);
  }

  /** Before that, the next index hits someone new. */
  lemma HitsSomeoneNew(start: nat, n: nat, t: nat)
    requires n > 0 && t < n
    ensures Index(start, n, t) !in Hit(start, n, t)
  {
    if Index(start, n, t) in Hit(start, n, t) {
      var j := HitOnly(start, n, t, Index(start, n, t));
      SameResidue(start + j, start + t, n);
    }
  }

  /** `t` consecutive indices hit exactly min(t, n) distinct accomplices. */
  lemma {:induction false} RoundRobinHits(start: nat, n: nat, t: nat)
    requires n > 0
    ensures |Hit(start, n, t)| == Min(t, n)
    decreases t
  {
    if t > 0 {
      RoundRobinHits(start, n, t - 1);
      if t - 1 >= n {
        WrapsAround(start, n, t - 1);
        assert Hit(start, n, t) == Hit(start, n, t - 1);
      } else {
        HitsSomeoneNew(start, n, t - 1);
      }
    }
  }

  // ---------------------------------------------------------------------------
  // The accumulated record

  function Accomplices(m: Mechanism, target: nat): nat {
    if m.kind.TwoSided? then CounterpartiesRequired(m, target)
    else if m.kind.PeerRatings? then target
    else 0
  }

  function Stake(m: Mechanism, target: nat): int {
    if m.kind.StakeGated? then target * STAKE_PER_POINT else m.params.capabilityBondLamports
  }

  ghost function Raters(m: Mechanism, cfg: Config, t: nat): set<Id> {
    var n := Accomplices(m, cfg.targetScore);
    if n == 0 then {} else Hit(cfg.attestsPerDay, n, t)
  }

  /** The attacker's record after `t` attestations, the last of them at `time`. */
  ghost predicate Accumulated(m: Mechanism, cfg: Config, b: Book, t: nat, time: int) {
    var a := Record(b, ATTACKER);
    && ATTACKER in b.agents
    && a.completions == t && a.disputes == 0 && (t > 0 ==> a.lastActivity == time)
    && a.raters == Raters(m, cfg, t)
    && a.confirmed == (if m.kind.TwoSided? then t else 0)
    && a.locked == Stake(m, cfg.targetScore)
  }

  lemma AttestAccumulates(m: Mechanism, cfg: Config, b: Book, t: nat, before: int, time: int)
    requires Accumulated(m, cfg, b, t, before)
    ensures var b' := Attested(b, ATTACKER, time);
            var n := Accomplices(m, cfg.targetScore);
            if n == 0 then Accumulated(m, cfg, b', t + 1, time)
            else Accumulated(m, cfg, Rated(m, b', Index(cfg.attestsPerDay, n, t), ATTACKER), t + 1, time)
  {
  }

  /** The score after `t` attestations, measured at the time of the last one. */
  function ExpectedScore(m: Mechanism, target: nat, t: nat): nat {
    match m.kind
    case PeerRatings => Min(t, target)
    case StakeGated => Min(t, target)
    case TwoSided => Min(t, RECEIPT_WEIGHT * Accomplices(m, target))
    case _ => t
  }

  lemma AccumulatedScore(m: Mechanism, cfg: Config, b: Book, t: nat, time: int)
    requires Accumulated(m, cfg, b, t, time)
    ensures ScoreOf(m, b, ATTACKER, time) == ExpectedScore(m, cfg.targetScore, t)
    ensures ScoreOf(m, b, ATTACKER, time) >= cfg.targetScore <==> t >= cfg.targetScore
    ensures |Record(b, ATTACKER).raters| <= t
  {
    var n := Accomplices(m, cfg.targetScore);
    if n > 0 { RoundRobinHits(cfg.attestsPerDay, n, t); }
    if m.kind.StakeGated? {
      QuotientUnique(cfg.targetScore * STAKE_PER_POINT, STAKE_PER_POINT, cfg.targetScore, 0);
    }
  }

  /** After the slash and the retroactive disputes, only the naive count keeps a score. */
  lemma SlashedScore(m: Mechanism, cfg: Config, b: Book, t: nat, time: int, now: int)
    requires Accumulated(m, cfg, b, t, time)
    ensures ScoreOf(m, Disgraced(m, b), ATTACKER, now) == if m.kind.NaiveCount? then t else 0
  {
    AccumulatedScore(m, cfg, b, t, time);
  }

  /** The capability is slashed, and every completion is disputed. */
  function Disgraced(m: Mechanism, b: Book): Book {
    var b' := SlashedFor(m, b, ATTACKER);
    Put(b', ATTACKER, b'.agents[ATTACKER].(disputes := b'.agents[ATTACKER].completions))
  }

  // ---------------------------------------------------------------------------
  // What the accumulation costs

  /** Fees and rents of the attacker for `t` attestations and one lock. */
  function AttackerCosts(t: nat): int {
    TX_FEE + t * (TX_FEE + RentExempt(COMPLETION_BYTES)) + if t == 0 then 0 else RentExempt(AGENT_BYTES)
  }

  /** The accomplices pay one fee per receipt. */
  function AccompliceCosts(n: nat, t: nat): int {
    if n == 0 then 0 else t * TX_FEE
  }

  ghost function AccompliceSpent(b: Book, n: nat): int {
    if n == 0 then 0 else AccompliceSpent(b, n - 1) + Record(b, ACCOMPLICE_BASE + n - 1).spent
  }

  lemma {:induction false} SpentElsewhere(b: Book, b': Book, n: nat)
    requires forall x: Id | x >= ACCOMPLICE_BASE :: Record(b', x).spent == Record(b, x).spent
    ensures AccompliceSpent(b', n) == AccompliceSpent(b, n)
  {
    if n > 0 { SpentElsewhere(b, b', n - 1); }
  }

  lemma {:induction false} SpentByOne(b: Book, b': Book, n: nat, k: nat, fee: int)
    requires forall x: Id | x >= ACCOMPLICE_BASE ::
               Record(b', x).spent == Record(b, x).spent + if x == ACCOMPLICE_BASE + k then fee else 0
    ensures AccompliceSpent(b', n) == AccompliceSpent(b, n) + if k < n then fee else 0
  {
    if n > 0 { SpentByOne(b, b', n - 1, k, fee); }
  }

  ghost predicate Paid(m: Mechanism, cfg: Config, b: Book, t: nat) {
    var n := Accomplices(m, cfg.targetScore);
    && Record(b, ATTACKER).spent == AttackerCosts(t)
    && AccompliceSpent(b, n) == AccompliceCosts(n, t)
  }

  lemma AttestPays(m: Mechanism, cfg: Config, b: Book, t: nat, time: int)
    requires Paid(m, cfg, b, t) && Record(b, ATTACKER).completions == t
    ensures var b' := Attested(b, ATTACKER, time);
            var n := Accomplices(m, cfg.targetScore);
            if n == 0 then Paid(m, cfg, b', t + 1)
            else Paid(m, cfg, Rated(m, b', Index(cfg.attestsPerDay, n, t), ATTACKER), t + 1)
  {
    var b', n := Attested(b, ATTACKER, time), Accomplices(m, cfg.targetScore);
    SpentElsewhere(b, b', n);
    if n > 0 { ReceiptPays(m, b', n, (cfg.attestsPerDay + t) % n); }
  }

  /** A receipt costs its accomplice one fee and the attacker nothing. */
  lemma ReceiptPays(m: Mechanism, b: Book, n: nat, k: nat)
    requires k < n && ATTACKER in b.agents
    ensures var b' := Rated(m, b, ACCOMPLICE_BASE + k, ATTACKER);
            && Record(b', ATTACKER).spent == Record(b, ATTACKER).spent
            && AccompliceSpent(b', n) == AccompliceSpent(b, n) + TX_FEE
  {
    SpentByOne(b, Rated(m, b, ACCOMPLICE_BASE + k, ATTACKER), n, k, TX_FEE);
  }

  // ---------------------------------------------------------------------------
  // The first day the target is met

  /** The day on which `attestsPerDay` attestations a day first add up to the target, if ever. */
  function FirstDay(target: nat, attestsPerDay: nat): Option<nat> {
    if target == 0 then Some(1)
    else if attestsPerDay == 0 then None
    else Some(CeilDiv(target, attestsPerDay))
  }

  lemma FirstDayIsFirst(target: nat, attestsPerDay: nat, day: nat)
    requires day >= 1
    ensures day * attestsPerDay >= target
       <==> FirstDay(target, attestsPerDay).Some? && FirstDay(target, attestsPerDay).value <= day
  {
    if target > 0 && attestsPerDay > 0 {
      var first := CeilDiv(target, attestsPerDay);
      var r := (target + attestsPerDay - 1) % attestsPerDay;
      assert target + attestsPerDay - 1 == attestsPerDay * first + r;
      assert day * attestsPerDay == attestsPerDay * day && first * attestsPerDay == attestsPerDay * first;
      if day < first { StepMultiple(attestsPerDay, day, first); } else { assert attestsPerDay * (day - first) >= 0; }
    }
  }

  // ---------------------------------------------------------------------------
  // The scenario

  method AttestOnce(m: Mechanism, cfg: Config, state: MechanismState, day: nat, i: nat, ghost t: nat, ghost before: int)
    requires Accumulated(m, cfg, state.Contents(), t, before) && Paid(m, cfg, state.Contents(), t)
    requires day * cfg.attestsPerDay + i == cfg.attestsPerDay + t
    modifies state
    ensures Accumulated(m, cfg, state.Contents(), t + 1, day * DAY) && Paid(m, cfg, state.Contents(), t + 1)
  {
    AttestPays(m, cfg, state.Contents(), t, day * DAY);
    AttestAccumulates(m, cfg, state.Contents(), t, before, day * DAY);
    state.Attest(ATTACKER, day * DAY);
    var n := Accomplices(m, cfg.targetScore);
    if n > 0 {
      var confirmer := ACCOMPLICE_BASE + (day * cfg.attestsPerDay + i) % n;
      state.Rate(m, confirmer, ATTACKER);
    }
  }

  method AccumulateDay(m: Mechanism, cfg: Config, state: MechanismState, day: nat, total: nat) returns (total': nat)
    requires day >= 1 && total == (day - 1) * cfg.attestsPerDay
    requires Accumulated(m, cfg, state.Contents(), total, (day - 1) * DAY) && Paid(m, cfg, state.Contents(), total)
    modifies state
    ensures total' == day * cfg.attestsPerDay
    ensures Accumulated(m, cfg, state.Contents(), total', day * DAY) && Paid(m, cfg, state.Contents(), total')
  {
    total' := total;
    assert day * cfg.attestsPerDay == (day - 1) * cfg.attestsPerDay + cfg.attestsPerDay;
    for i := 0 to cfg.attestsPerDay
      invariant total' == total + i
      invariant Accumulated(m, cfg, state.Contents(), total', if i > 0 then day * DAY else (day - 1) * DAY)
      invariant Paid(m, cfg, state.Contents(), total')
    {
      AttestOnce(m, cfg, state, day, i, total', if i > 0 then day * DAY else (day - 1) * DAY);
      total' := total' + 1;
    }
    if cfg.attestsPerDay == 0 { assert (day - 1) * cfg.attestsPerDay == 0; }
  }

  /** The attacker, its accomplices and the locked capital, before the first day. */
  method StartAttack(m: Mechanism, cfg: Config) returns (state: MechanismState, accomplices: nat)
    ensures fresh(state) && accomplices == Accomplices(m, cfg.targetScore)
    ensures Accumulated(m, cfg, state.Contents(), 0, 0) && Paid(m, cfg, state.Contents(), 0)
  {
    state := new MechanismState(0);
    var attacker := state.Ensure(ATTACKER);
    accomplices := Accomplices(m, cfg.targetScore);
    for i := 0 to accomplices
      invariant forall x: Id :: Record(state.Contents(), x) == NewAgent(x)
    {
      var a := state.Ensure(ACCOMPLICE_BASE + i);
    }
    ghost var idle := state.Contents();
    state.LockCapital(ATTACKER,
      if m.kind.StakeGated? then cfg.targetScore * STAKE_PER_POINT else m.params.capabilityBondLamports);
    NothingSpent(idle, accomplices);
    SpentElsewhere(idle, state.Contents(), accomplices);
  }

  lemma {:induction false} NothingSpent(b: Book, n: nat)
    requires forall x: Id :: Record(b, x) == NewAgent(x)
    ensures AccompliceSpent(b, n) == 0
  {
    if n > 0 { NothingSpent(b, n - 1); }
  }

  /** Adds up what the attacker and its accomplices spent. */
  method TotalSpent(state: MechanismState, accomplices: nat) returns (spent: int)
    modifies state
    ensures forall x: Id :: Record(state.Contents(), x) == Record(old(state.Contents()), x)
    ensures state.agents.Keys >= old(state.agents.Keys)
    ensures spent == Record(old(state.Contents()), ATTACKER).spent + AccompliceSpent(old(state.Contents()), accomplices)
  {
    ghost var b := state.Contents();
    var attacker := state.Ensure(ATTACKER);
    spent := attacker.spent;
    for i := 0 to accomplices
      invariant forall x: Id :: Record(state.Contents(), x) == Record(b, x)
      invariant state.agents.Keys >= b.agents.Keys
      invariant spent == Record(b, ATTACKER).spent + AccompliceSpent(b, i)
    {
      var a := state.Ensure(ACCOMPLICE_BASE + i);
      spent := spent + a.spent;
    }
  }

  /** How many attestations were made: up to the harvest, or over the whole horizon. */
  function Attestations(cfg: Config, daysToThreshold: Option<nat>): nat {
    (if daysToThreshold.Some? then daysToThreshold.value else cfg.horizonDays) * cfg.attestsPerDay
  }

  function HarvestDay(cfg: Config): Option<nat> {
    var first := FirstDay(cfg.targetScore, cfg.attestsPerDay);
    if first.Some? && first.value <= cfg.horizonDays then first else None
  }

  /** The days up to the harvest, or the whole horizon. */
  method Accumulate(m: Mechanism, cfg: Config, state: MechanismState)
    returns (daysToThreshold: Option<nat>, scoreAtHarvest: nat, total: nat, ghost time: int)
    requires Accumulated(m, cfg, state.Contents(), 0, 0) && Paid(m, cfg, state.Contents(), 0)
    modifies state
    ensures daysToThreshold == HarvestDay(cfg) && total == Attestations(cfg, daysToThreshold)
    ensures daysToThreshold.Some? ==> scoreAtHarvest == ExpectedScore(m, cfg.targetScore, total) >= cfg.targetScore
    ensures daysToThreshold.None? ==> scoreAtHarvest == 0 && time == cfg.horizonDays * DAY
    ensures Accumulated(m, cfg, state.Contents(), total, time) && Paid(m, cfg, state.Contents(), total)
  {
    daysToThreshold, scoreAtHarvest, total, time := None, 0, 0, 0;
    var day: nat := 1;
    while day <= cfg.horizonDays && daysToThreshold.None?
      invariant 1 <= day <= cfg.horizonDays + 1
      invariant total == (if daysToThreshold.Some? then day else day - 1) * cfg.attestsPerDay
      invariant time == (if daysToThreshold.Some? then day else day - 1) * DAY
      invariant Accumulated(m, cfg, state.Contents(), total, time) && Paid(m, cfg, state.Contents(), total)
      invariant daysToThreshold.Some? ==> daysToThreshold.value == day <= cfg.horizonDays
      invariant daysToThreshold.Some? ==> scoreAtHarvest == ExpectedScore(m, cfg.targetScore, total) >= cfg.targetScore
      invariant daysToThreshold.None? ==> scoreAtHarvest == 0
      invariant daysToThreshold.Some? ==> FirstDay(cfg.targetScore, cfg.attestsPerDay) == Some(day)
      invariant daysToThreshold.None? ==>
                  FirstDay(cfg.targetScore, cfg.attestsPerDay).None?
                      || FirstDay(cfg.targetScore, cfg.attestsPerDay).value >= day
      decreases cfg.horizonDays - day, daysToThreshold.None?
    {
      total := AccumulateDay(m, cfg, state, day, total);
      time := day * DAY;
      AccumulatedScore(m, cfg, state.Contents(), total, day * DAY);
      FirstDayIsFirst(cfg.targetScore, cfg.attestsPerDay, day);
      ghost var before := state.Contents();
      var score := state.ScoreAgent(m, ATTACKER, day * DAY);
      SpentElsewhere(before, state.Contents(), Accomplices(m, cfg.targetScore));
      if score >= cfg.targetScore {
        daysToThreshold, scoreAtHarvest := Some(day), score;
      } else {
        day := day + 1;
      }
    }
  }

  /** The closed form of the scenario. */
  ghost predicate IsHarvest(m: Mechanism, cfg: Config, o: Outcome) {
    var t, expected := Attestations(cfg, HarvestDay(cfg)), ExpectedScore(m, cfg.targetScore, o.attestations);
    && o.daysToThreshold == HarvestDay(cfg)
    && o.attestations == t
    && o.slashableLamports == Stake(m, cfg.targetScore)
    && o.spentLamports == AttackerCosts(t) + AccompliceCosts(Accomplices(m, cfg.targetScore), t)
    && if o.daysToThreshold.Some? then
         && o.scoreAtHarvest == expected >= cfg.targetScore
         && o.scoreAfterSlash == (if m.kind.NaiveCount? then t else 0)
         && o.netProfitLamports == cfg.harvestValueLamports - o.slashableLamports - o.spentLamports
       else
         o.scoreAtHarvest == 0 && o.scoreAfterSlash == expected && o.netProfitLamports == 0
  }

  /** The scenario up to the ratio of slash and harvest. */
  method PlayHarvest(m: Mechanism, cfg: Config) returns (o: Outcome)
    ensures IsHarvest(m, cfg, o)
  {
    var state, accomplices := StartAttack(m, cfg);
    var daysToThreshold, scoreAtHarvest, total, time := Accumulate(m, cfg, state);
    var slashable := if m.kind.StakeGated? then state.agents[ATTACKER].locked else m.params.capabilityBondLamports;
    var spent := TotalSpent(state, accomplices);
    var scoreAfterSlash := Aftermath(m, cfg, state, daysToThreshold.Some?, total, time);
    var profit := if daysToThreshold.None? then 0 else cfg.harvestValueLamports - slashable - spent;
    o := Outcome(daysToThreshold, scoreAtHarvest, total, spent, slashable, 0.0, profit, scoreAfterSlash);
  }

  method RunSlowBurnHarvest(m: Mechanism, cfg: Config) returns (o: Outcome)
    ensures IsHarvest(m, cfg, o)
    ensures o.slashCoverage * cfg.harvestValueLamports as real
         == if cfg.harvestValueLamports == 0 then 0.0 else o.slashableLamports as real
  {
    o := PlayHarvest(m, cfg);
    var coverage := Coverage(o.slashableLamports, cfg.harvestValueLamports);
    o := o.(slashCoverage := coverage);
  }

  method Coverage(slashable: int, harvestValue: int) returns (coverage: real)
    ensures coverage * harvestValue as real == if harvestValue == 0 then 0.0 else slashable as real
  {
    coverage := if harvestValue == 0 then 0.0 else slashable as real / harvestValue as real;
  }

  /** After a harvest the capability is slashed and every completion disputed. */
  method Aftermath(m: Mechanism, cfg: Config, state: MechanismState, harvested: bool, ghost t: nat, ghost time: int)
    returns (score: nat)
    requires Accumulated(m, cfg, state.Contents(), t, time)
    requires !harvested ==> time == cfg.horizonDays * DAY
    modifies state
    ensures score == if !harvested then ExpectedScore(m, cfg.targetScore, t) else if m.kind.NaiveCount? then t else 0
  {
    ghost var b := state.Contents();
    if harvested {
      SlashedScore(m, cfg, b, t, time, cfg.horizonDays * DAY);
      state.SlashCapability(m, ATTACKER);
      state.agents := state.agents[ATTACKER := state.agents[ATTACKER].(disputes := state.agents[ATTACKER].completions)];
      assert state.Contents() == Disgraced(m, b);
    } else {
      AccumulatedScore(m, cfg, b, t, time);
    }
    score := state.ScoreAgent(m, ATTACKER, cfg.horizonDays * DAY);
  }
}
