/** The benchmark's TAOP mechanism simulates the on-chain program. */
module Simulation {
  import opened Words
  import opened Wrappers
  import opened Sums
  import L = Ledger
  import I = LedgerInvariant
  import opened Mechanisms
  import opened BenchmarkAccounts
  import Score

  /** The on-chain address of a completion of the book: its agent, and how many that agent attested before. */
  ghost function RefOf(b: Book, i: nat): L.CompletionRef
    requires i < |b.completions|
  {
    var agent := b.completions[i].agent;
    L.CompletionRef(agent, Count(b.completions[..i], (c: CompletionState) => c.agent == agent))
  }

  /** The address of completion `id`, or one that no completion has. */
  ghost function RefFor(b: Book, id: nat): L.CompletionRef {
    if 1 <= id <= |b.completions| then RefOf(b, id - 1) else L.CompletionRef(0, |b.completions|)
  }

  // ---------------------------------------------------------------------------
  // The relation

  ghost predicate SameAgent(s: L.State, b: Book, x: Id) {
    var a, r := L.AgentOrNew(s, x), Record(b, x);
    a.completions == r.completions && a.disputes == r.disputes && a.lastActivity == r.lastActivity
  }

  ghost predicate SameCompletion(s: L.State, b: Book, bond: nat, i: nat)
    requires i < |b.completions|
  {
    var ref, c := RefOf(b, i), b.completions[i];
    && ref in s.completions
    && s.completions[ref].id == i + 1
    && s.completions[ref].agent == c.agent
    && s.completions[ref].timestamp == c.timestamp
    && s.completions[ref].challenged == c.challenged
    && s.completions[ref].disputed == c.disputed
    && (c.challenger.Some? ==>
          && ref in s.challenges
          && s.challenges[ref].challenger == c.challenger.value
          && s.challenges[ref].resolved == c.resolved
          && s.challenges[ref].bond == bond)
  }

  /** Program and benchmark run with the same parameters, unpaused. */
  ghost predicate SameParameters(m: Mechanism, s: L.State) {
    && s.config.Some? && !s.config.value.paused
    && s.config.value.challengeBond == m.params.bondLamports
    && s.config.value.decayPeriod == m.params.decayPeriodSecs
  }

  ghost predicate Matches(m: Mechanism, s: L.State, b: Book) {
    && SameParameters(m, s) && s.config.value.nextCompletionId == b.nextCompletionId
    && (forall x: Id :: SameAgent(s, b, x))
    && (forall i: nat | i < |b.completions| :: SameCompletion(s, b, m.params.bondLamports, i))
  }

  ghost predicate Mirrors(m: Mechanism, s: L.State, b: Book) {
    Matches(m, s, b) && I.Inv(s) && BookAgrees(m, b)
  }

  // ---------------------------------------------------------------------------
  // The program's instructions for an operation

  /** The times and counters of an operation fit into the program's words. */
  ghost predicate Expressible(b: Book, op: Op) {
    match op
    case OAttest(agent, now) => I64_MIN <= now <= I64_MAX && Record(b, agent).completions <= U64_MAX
    case _ => true
  }

  /** The authority resolves, and an attestation happens at its own time. */
  ghost function Instrs(s: L.State, b: Book, op: Op): seq<L.Instr>
    requires Expressible(b, op) && s.config.Some?
  {
    match op
    case OAttest(agent, now) => [L.ITick(now), L.IAttest(agent, 0, 0, Record(b, agent).completions)]
    case ORate(_, _) => []
    case OChallenge(id, challenger) => [L.IChallenge(challenger, RefFor(b, id), 0)]
    case OResolve(id, upheld) => [L.IResolve(s.config.value.admin, RefFor(b, id), upheld)]
  }

  /** What the program asks for and the benchmark does not: time moves forward, ids are not used up, and
      whoever opens a challenge can pay the bond. */
  ghost predicate Fits(s: L.State, b: Book, op: Op) {
    match op
    case OAttest(agent, now) =>
      s.now <= now <= I64_MAX && b.nextCompletionId < U64_MAX && Record(b, agent).completions < U64_MAX
    case OChallenge(id, challenger) =>
      s.config.Some? && (Challengeable(b, id) ==> L.Balance(s, L.Wallet(challenger)) >= s.config.value.challengeBond)
    case _ => true
  }

  // ---------------------------------------------------------------------------
  // Addresses

  lemma {:induction false} CountSame<T>(q: seq<T>, q': seq<T>, p: T -> bool)
    requires |q| == |q'| && forall i | 0 <= i < |q| :: p(q[i]) == p(q'[i])
    ensures Count(q, p) == Count(q', p)
    decreases |q|
  {
    if q != [] { CountSame(q[..|q| - 1], q'[..|q| - 1], p); }
  }

  /** Addresses depend only on who attested, in what order. */
  lemma RefsStay(b: Book, b': Book, i: nat)
    requires i < |b.completions| <= |b'.completions|
    requires forall j: nat | j <= i :: b'.completions[j].agent == b.completions[j].agent
    ensures RefOf(b', i) == RefOf(b, i)
  {
    var agent := b.completions[i].agent;
    CountSame(b.completions[..i], b'.completions[..i], (c: CompletionState) => c.agent == agent);
  }

  lemma MissingRef(m: Mechanism, s: L.State, b: Book, id: nat)
    requires Mirrors(m, s, b) && !(1 <= id <= |b.completions|)
    ensures RefFor(b, id) !in s.completions && RefFor(b, id) !in s.challenges
  {
    assert SameAgent(s, b, 0) && Accounts(m, b, 0);
    CountBelow(b.completions, (c: CompletionState) => c.agent == 0);
  }

  lemma DistinctRefs(m: Mechanism, s: L.State, b: Book, i: nat, j: nat)
    requires Matches(m, s, b) && i < |b.completions| && j < |b.completions| && i != j
    ensures RefOf(b, i) != RefOf(b, j)
  {
    assert SameCompletion(s, b, m.params.bondLamports, i) && SameCompletion(s, b, m.params.bondLamports, j);
  }

  lemma RunTwo(s: L.State, i: L.Instr, j: L.Instr)
    ensures L.Run(s, [i, j]) == L.Step(L.Step(s, i), j)
  {
    assert [i, j][..1] == [i] && [i][..0] == [];
    assert L.Run(s, [i]) == L.Step(s, i);
  }

  lemma RunOne(s: L.State, i: L.Instr)
    ensures L.Run(s, [i]) == L.Step(s, i)
  {
    assert [i][..0] == [];
  }

  // ---------------------------------------------------------------------------
  // Attestations

  lemma AttestAccepted(m: Mechanism, s: L.State, b: Book, agent: Id)
    requires Mirrors(m, s, b) && b.nextCompletionId < U64_MAX && Record(b, agent).completions < U64_MAX
    ensures L.Attest(s, agent, 0, 0, Record(b, agent).completions).Ok?
  {
    assert SameAgent(s, b, agent);
  }

  lemma AttestMatches(m: Mechanism, s: L.State, b: Book, agent: Id)
    requires Matches(m, s, b) && Accounts(m, b, agent) && ListAgrees(b)
    requires agent in s.agents ==> s.agents[agent].authority == agent
    requires Record(b, agent).completions <= U64_MAX && L.Attest(s, agent, 0, 0, Record(b, agent).completions).Ok?
    ensures Matches(m, L.Attest(s, agent, 0, 0, Record(b, agent).completions).value, Attested(b, agent, s.now))
  {
    var b' := Attested(b, agent, s.now);
    var n: u64 := Record(b, agent).completions;
    var ref, s' := L.CompletionRef(agent, n), L.Attest(s, agent, 0, 0, n).value;
    forall x: Id ensures SameAgent(s', b', x) { assert SameAgent(s, b, x); }
    forall i: nat | i < |b'.completions| ensures SameCompletion(s', b', m.params.bondLamports, i) {
      if i < |b.completions| {
        assert SameCompletion(s, b, m.params.bondLamports, i);
        RefsStay(b, b', i);
      } else {
        assert b'.completions[..i] == b.completions;
        assert RefOf(b', i) == ref;
        assert s.completions[ref := s'.completions[ref]] == s'.completions;
      }
    }
  }

  lemma AttestMirrors(m: Mechanism, s: L.State, b: Book, agent: Id, now: int)
    requires Mirrors(m, s, b) && Fits(s, b, OAttest(agent, now))
    ensures Mirrors(m, L.Run(s, Instrs(s, b, OAttest(agent, now))), Attested(b, agent, now))
  {
    var n: u64 := Record(b, agent).completions;
    var tick, attest := L.ITick(now), L.IAttest(agent, 0, 0, n);
    var ticked := L.Step(s, tick);
    I.StepKeeps(s, tick);
    TickMatches(m, s, b, now);
    AttestAccepted(m, ticked, b, agent);
    assert Accounts(m, b, agent);
    AttestMatches(m, ticked, b, agent);
    I.StepKeeps(ticked, attest);
    AttestAgrees(m, b, agent, now);
    RunTwo(s, tick, attest);
    assert L.Apply(ticked, attest) == L.Attest(ticked, agent, 0, 0, n);
  }

  lemma TickMatches(m: Mechanism, s: L.State, b: Book, now: i64)
    requires Matches(m, s, b) && s.now <= now
    ensures Matches(m, L.Step(s, L.ITick(now)), b) && L.Step(s, L.ITick(now)) == s.(now := now)
  {
    var s' := s.(now := now);
    assert L.Apply(s, L.ITick(now)) == L.Tick(s, now);
    forall x: Id ensures SameAgent(s', b, x) { assert SameAgent(s, b, x); }
    forall i: nat | i < |b.completions| ensures SameCompletion(s', b, m.params.bondLamports, i) {
      assert SameCompletion(s, b, m.params.bondLamports, i);
    }
  }

  // ---------------------------------------------------------------------------
  // Challenges and resolutions

  /** Rewriting one completion, in both worlds, keeps the others matched. */
  lemma OthersMatch(m: Mechanism, s: L.State, b: Book, s': L.State, b': Book, k: nat)
    requires Matches(m, s, b) && k < |b.completions|
    requires |b'.completions| == |b.completions| && b'.completions[k].agent == b.completions[k].agent
    requires forall i: nat | i < |b.completions| && i != k :: b'.completions[i] == b.completions[i]
    requires forall r | r in s.completions && r != RefOf(b, k) ::
              r in s'.completions && s'.completions[r] == s.completions[r]
    requires forall r | r in s.challenges && r != RefOf(b, k) ::
              r in s'.challenges && s'.challenges[r] == s.challenges[r]
    ensures RefOf(b', k) == RefOf(b, k)
    ensures forall i: nat | i < |b.completions| && i != k :: SameCompletion(s', b', m.params.bondLamports, i)
  {
    RefsStay(b, b', k);
    forall i: nat | i < |b.completions| && i != k ensures SameCompletion(s', b', m.params.bondLamports, i) {
      RefsStay(b, b', i);
      DistinctRefs(m, s, b, i, k);
      assert SameCompletion(s, b, m.params.bondLamports, i);
    }
  }

  lemma ChallengeMatches(m: Mechanism, s: L.State, b: Book, k: nat, challenger: Id)
    requires Matches(m, s, b) && ListAgrees(b) && Fits(s, b, OChallenge(k + 1, challenger))
    requires k < |b.completions| && !b.completions[k].challenged
    ensures L.ChallengeCompletion(s, challenger, RefOf(b, k), 0).Ok?
    ensures Matches(m, L.ChallengeCompletion(s, challenger, RefOf(b, k), 0).value, Challenged(m, b, k + 1, challenger))
  {
    FindInBook(b, k + 1);
    var ref, b' := RefOf(b, k), Challenged(m, b, k + 1, challenger);
    assert SameCompletion(s, b, m.params.bondLamports, k) && FlagsAgree(b.completions[k]);
    var s' := L.ChallengeCompletion(s, challenger, ref, 0).value;
    OthersMatch(m, s, b, s', b', k);
    assert SameCompletion(s', b', m.params.bondLamports, k);
    forall x: Id ensures SameAgent(s', b', x) { assert SameAgent(s, b, x); }
  }

  ghost function AfterResolve(s: L.State, ref: L.CompletionRef, upheld: bool): L.State
    requires s.config.Some? && L.ResolveChallenge(s, s.config.value.admin, ref, upheld).Ok?
  {
    L.ResolveChallenge(s, s.config.value.admin, ref, upheld).value
  }

  lemma ResolveMatchesCompletions(m: Mechanism, s: L.State, b: Book, k: nat, upheld: bool)
    requires Matches(m, s, b) && ListAgrees(b)
    requires k < |b.completions| && b.completions[k].challenged && !b.completions[k].resolved
    requires L.ResolveChallenge(s, s.config.value.admin, RefOf(b, k), upheld).Ok?
    ensures var s', b' := AfterResolve(s, RefOf(b, k), upheld), Resolved(m, b, k + 1, upheld);
            && SameParameters(m, s') && s'.config.value.nextCompletionId == b'.nextCompletionId
            && forall i: nat | i < |b'.completions| :: SameCompletion(s', b', m.params.bondLamports, i)
  {
    FindInBook(b, k + 1);
    var s', b' := AfterResolve(s, RefOf(b, k), upheld), Resolved(m, b, k + 1, upheld);
    assert SameCompletion(s, b, m.params.bondLamports, k) && FlagsAgree(b.completions[k]);
    OthersMatch(m, s, b, s', b', k);
    assert SameCompletion(s', b', m.params.bondLamports, k);
  }

  lemma ResolveMatchesAgent(m: Mechanism, s: L.State, b: Book, k: nat, upheld: bool, x: Id)
    requires SameAgent(s, b, x) && ListAgrees(b)
    requires k < |b.completions| && b.completions[k].challenged && !b.completions[k].resolved
    requires SameCompletion(s, b, m.params.bondLamports, k)
    requires s.config.Some? && L.ResolveChallenge(s, s.config.value.admin, RefOf(b, k), upheld).Ok?
    ensures SameAgent(AfterResolve(s, RefOf(b, k), upheld), Resolved(m, b, k + 1, upheld), x)
  {
    FindInBook(b, k + 1);
    assert FlagsAgree(b.completions[k]);
  }

  lemma ResolveMatches(m: Mechanism, s: L.State, b: Book, k: nat, upheld: bool)
    requires Matches(m, s, b) && ListAgrees(b)
    requires k < |b.completions| && b.completions[k].challenged && !b.completions[k].resolved
    requires L.ResolveChallenge(s, s.config.value.admin, RefOf(b, k), upheld).Ok?
    ensures Matches(m, AfterResolve(s, RefOf(b, k), upheld), Resolved(m, b, k + 1, upheld))
  {
    ResolveMatchesCompletions(m, s, b, k, upheld);
    assert SameCompletion(s, b, m.params.bondLamports, k);
    var s', b' := AfterResolve(s, RefOf(b, k), upheld), Resolved(m, b, k + 1, upheld);
    forall x: Id ensures SameAgent(s', b', x) {
      assert SameAgent(s, b, x);
      ResolveMatchesAgent(m, s, b, k, upheld, x);
    }
  }

  lemma ResolveAccepted(s: L.State, ref: L.CompletionRef, upheld: bool)
    requires I.Inv(s) && s.config.Some? && ref in s.challenges && !s.challenges[ref].resolved
    ensures L.ResolveChallenge(s, s.config.value.admin, ref, upheld).Ok?
  {
    assert s.completions[ref].challenged && s.challenges[ref].completion == ref;
    assert !s.completions[ref].disputed;
    I.DisputesBounded(s.agents, s.completions, ref.agent);
    assert Get(s.lamports, L.ChallengeVault(ref)) >= s.challenges[ref].bond;
  }

  /** The program accepts a challenge exactly when the benchmark does. */
  lemma ChallengeMirrors(m: Mechanism, s: L.State, b: Book, id: nat, challenger: Id)
    requires Mirrors(m, s, b) && Fits(s, b, OChallenge(id, challenger))
    ensures Mirrors(m, L.Step(s, L.IChallenge(challenger, RefFor(b, id), 0)), Challenged(m, b, id, challenger))
    ensures L.Apply(s, L.IChallenge(challenger, RefFor(b, id), 0)).Ok?
       <==> Challengeable(b, id)
  {
    FindInBook(b, id);
    ChallengeAgrees(m, b, id, challenger);
    var ref := RefFor(b, id);
    var i := L.IChallenge(challenger, ref, 0);
    assert L.Apply(s, i) == L.ChallengeCompletion(s, challenger, ref, 0);
    if Challengeable(b, id) {
      ChallengeMatches(m, s, b, id - 1, challenger);
      I.ChallengeKeeps(s, challenger, ref, 0);
    } else {
      ChallengeRefused(m, s, b, id, challenger);
    }
  }

  lemma ChallengeRefused(m: Mechanism, s: L.State, b: Book, id: nat, challenger: Id)
    requires Mirrors(m, s, b) && !Challengeable(b, id)
    ensures Challenged(m, b, id, challenger) == b
    ensures L.ChallengeCompletion(s, challenger, RefFor(b, id), 0).Err?
  {
    FindInBook(b, id);
    if 1 <= id <= |b.completions| {
      assert SameCompletion(s, b, m.params.bondLamports, id - 1);
    } else {
      MissingRef(m, s, b, id);
    }
  }

  lemma ResolveRefused(m: Mechanism, s: L.State, b: Book, id: nat, upheld: bool)
    requires Mirrors(m, s, b) && !Resolvable(b, id)
    ensures Resolved(m, b, id, upheld) == b
    ensures L.ResolveChallenge(s, s.config.value.admin, RefFor(b, id), upheld).Err?
  {
    FindInBook(b, id);
    if 1 <= id <= |b.completions| {
      assert SameCompletion(s, b, m.params.bondLamports, id - 1) && FlagsAgree(b.completions[id - 1]);
    } else {
      MissingRef(m, s, b, id);
    }
  }

  lemma ResolveTaken(m: Mechanism, s: L.State, b: Book, id: nat, upheld: bool)
    requires Mirrors(m, s, b) && Resolvable(b, id)
    ensures L.ResolveChallenge(s, s.config.value.admin, RefFor(b, id), upheld).Ok?
    ensures Matches(m, AfterResolve(s, RefFor(b, id), upheld), Resolved(m, b, id, upheld))
  {
    assert SameCompletion(s, b, m.params.bondLamports, id - 1) && FlagsAgree(b.completions[id - 1]);
    ResolveAccepted(s, RefFor(b, id), upheld);
    ResolveMatches(m, s, b, id - 1, upheld);
  }

  /** The program accepts a resolution exactly when the benchmark does. */
  lemma ResolveMirrors(m: Mechanism, s: L.State, b: Book, id: nat, upheld: bool)
    requires Mirrors(m, s, b)
    ensures Mirrors(m, L.Step(s, L.IResolve(s.config.value.admin, RefFor(b, id), upheld)), Resolved(m, b, id, upheld))
    ensures L.Apply(s, L.IResolve(s.config.value.admin, RefFor(b, id), upheld)).Ok? <==> Resolvable(b, id)
  {
    var ref := RefFor(b, id);
    var i := L.IResolve(s.config.value.admin, ref, upheld);
    assert L.Apply(s, i) == L.ResolveChallenge(s, s.config.value.admin, ref, upheld);
    if Resolvable(b, id) {
      ResolveTaken(m, s, b, id, upheld);
      assert L.Step(s, i) == AfterResolve(s, ref, upheld);
    } else {
      ResolveRefused(m, s, b, id, upheld);
      assert L.Step(s, i) == s;
    }
    I.StepKeeps(s, i);
    ResolveAgrees(m, b, id, upheld);
  }

  lemma RateMatches(m: Mechanism, s: L.State, b: Book, from: Id, to: Id)
    requires Matches(m, s, b)
    ensures Matches(m, s, Rated(m, b, from, to))
  {
    var b' := Rated(m, b, from, to);
    forall x: Id ensures SameAgent(s, b', x) { assert SameAgent(s, b, x); }
    forall i: nat | i < |b'.completions| ensures SameCompletion(s, b', m.params.bondLamports, i) {
      assert SameCompletion(s, b, m.params.bondLamports, i);
      RefsStay(b, b', i);
    }
  }

  lemma OpMirrors(m: Mechanism, s: L.State, b: Book, op: Op)
    requires Mirrors(m, s, b) && Fits(s, b, op)
    ensures Mirrors(m, L.Run(s, Instrs(s, b, op)), Applied(m, b, op))
  {
    match op
    case OAttest(agent, now) => AttestMirrors(m, s, b, agent, now);
    case ORate(from, to) =>
      RateMatches(m, s, b, from, to);
      RateAgrees(m, b, from, to);
    case OChallenge(id, challenger) =>
      ChallengeMirrors(m, s, b, id, challenger);
      RunOne(s, L.IChallenge(challenger, RefFor(b, id), 0));
    case OResolve(id, upheld) =>
      ResolveMirrors(m, s, b, id, upheld);
      RunOne(s, L.IResolve(s.config.value.admin, RefFor(b, id), upheld));
  }

  // ---------------------------------------------------------------------------
  // Where the two part

  lemma DatedOtherwise(m: Mechanism, s: L.State, b: Book, x: Id)
    requires L.AgentOrNew(s, x).lastActivity != Record(b, x).lastActivity
    ensures !Mirrors(m, s, b)
  {
    assert !SameAgent(s, b, x);
  }

  lemma CountedOtherwise(m: Mechanism, s: L.State, b: Book)
    requires s.config.Some? && s.config.value.nextCompletionId != b.nextCompletionId
    ensures !Mirrors(m, s, b)
  {
  }

  /** An accepted attestation is dated by the clock and uses up one id; a refused one does neither. */
  lemma AttestOutcome(s: L.State, agent: Id, n: u64)
    requires s.config.Some?
    ensures var s' := L.Step(s, L.IAttest(agent, 0, 0, n));
            if L.Attest(s, agent, 0, 0, n).Ok? then
              && s.config.value.nextCompletionId < U64_MAX && n < U64_MAX
              && L.AgentOrNew(s', agent).lastActivity == s.now
            else s' == s
  {
    assert L.Apply(s, L.IAttest(agent, 0, 0, n)) == L.Attest(s, agent, 0, 0, n);
  }

  lemma TickOutcome(s: L.State, now: i64)
    ensures L.Step(s, L.ITick(now)) == if now < s.now then s else s.(now := now)
  {
    assert L.Apply(s, L.ITick(now)) == L.Tick(s, now);
  }

  /** An attestation the program refuses, or dates otherwise, shows in the counters. */
  lemma AttestParts(m: Mechanism, s: L.State, b: Book, agent: Id, now: i64)
    requires Mirrors(m, s, b) && Record(b, agent).completions <= U64_MAX && !Fits(s, b, OAttest(agent, now))
    ensures !Mirrors(m, L.Run(s, Instrs(s, b, OAttest(agent, now))), Attested(b, agent, now))
  {
    var n: u64 := Record(b, agent).completions;
    var ticked := L.Step(s, L.ITick(now));
    RunTwo(s, L.ITick(now), L.IAttest(agent, 0, 0, n));
    TickOutcome(s, now);
    AttestOutcome(ticked, agent, n);
    var s' := L.Step(ticked, L.IAttest(agent, 0, 0, n));
    if L.Attest(ticked, agent, 0, 0, n).Ok? {
      DatedOtherwise(m, s', Attested(b, agent, now), agent);
    } else {
      CountedOtherwise(m, s', Attested(b, agent, now));
    }
  }

  /** A challenge whose bond cannot be paid is open in the book and not in the program. */
  lemma ChallengeParts(m: Mechanism, s: L.State, b: Book, id: nat, challenger: Id)
    requires Mirrors(m, s, b) && !Fits(s, b, OChallenge(id, challenger))
    ensures !Mirrors(m, L.Run(s, Instrs(s, b, OChallenge(id, challenger))), Challenged(m, b, id, challenger))
  {
    var ref, b' := RefFor(b, id), Challenged(m, b, id, challenger);
    var i := L.IChallenge(challenger, ref, 0);
    FindInBook(b, id);
    RunOne(s, i);
    assert L.Apply(s, i) == L.ChallengeCompletion(s, challenger, ref, 0);
    assert L.Step(s, i) == s;
    RefsStay(b, b', id - 1);
    assert SameCompletion(s, b, m.params.bondLamports, id - 1);
    assert !SameCompletion(s, b', m.params.bondLamports, id - 1);
  }

  /** One operation keeps program and benchmark matched exactly when the program can follow it. */
  lemma OpMirrorsExactly(m: Mechanism, s: L.State, b: Book, op: Op)
    requires Mirrors(m, s, b) && Expressible(b, op)
    ensures Mirrors(m, L.Run(s, Instrs(s, b, op)), Applied(m, b, op)) <==> Fits(s, b, op)
  {
    if Fits(s, b, op) {
      OpMirrors(m, s, b, op);
    } else {
      match op
      case OAttest(agent, now) => AttestParts(m, s, b, agent, now);
      case OChallenge(id, challenger) => ChallengeParts(m, s, b, id, challenger);
    }
  }

  // ---------------------------------------------------------------------------
  // Whole traces

  /** The program's state after its instructions for each operation in turn. */
  ghost function Played(m: Mechanism, s: L.State, b: Book, ops: seq<Op>): L.State
    requires Mirrors(m, s, b) && FitsAll(m, s, b, ops)
    decreases |ops|
  {
    if ops == [] then s
    else
      OpMirrors(m, s, b, ops[0]);
      Played(m, L.Run(s, Instrs(s, b, ops[0])), Applied(m, b, ops[0]), ops[1..])
  }

  ghost predicate FitsAll(m: Mechanism, s: L.State, b: Book, ops: seq<Op>)
    requires s.config.Some?
    decreases |ops|
  {
    ops == [] ||
    (Fits(s, b, ops[0]) &&
     L.Run(s, Instrs(s, b, ops[0])).config.Some? &&
     FitsAll(m, L.Run(s, Instrs(s, b, ops[0])), Applied(m, b, ops[0]), ops[1..]))
  }

  ghost function Replayed(m: Mechanism, b: Book, ops: seq<Op>): Book
    decreases |ops|
  {
    if ops == [] then b else Replayed(m, Applied(m, b, ops[0]), ops[1..])
  }

  lemma {:induction false} PlayMirrors(m: Mechanism, s: L.State, b: Book, ops: seq<Op>)
    requires Mirrors(m, s, b) && FitsAll(m, s, b, ops)
    ensures Mirrors(m, Played(m, s, b, ops), Replayed(m, b, ops))
    decreases |ops|
  {
    if ops != [] {
      OpMirrors(m, s, b, ops[0]);
      PlayMirrors(m, L.Run(s, Instrs(s, b, ops[0])), Applied(m, b, ops[0]), ops[1..]);
    }
  }

  lemma NoIdsNoCompletions(s: L.State)
    requires I.IdsAgree(s.agents, s.completions, 1)
    ensures s.completions == map[]
  {
    forall r ensures r !in s.completions {}
  }

  /** A freshly configured ledger mirrors the empty book. */
  lemma StartMirrors(m: Mechanism, s: L.State, now: int)
    requires I.Inv(s) && SameParameters(m, s) && s.config.value.nextCompletionId == 1
    requires forall a | a in s.agents :: s.agents[a].lastActivity == 0
    ensures Mirrors(m, s, EmptyBook(now))
  {
    TraceAccounts(m, now, []);
    NoIdsNoCompletions(s);
    forall x: Id ensures SameAgent(s, EmptyBook(now), x) {
      if x in s.agents {
        assert s.agents[x].disputes == I.DisputeCount(s.completions, x);
        assert I.Disputed(s.completions, x) == {};
        assert L.CompletionRef(x, 0) !in s.completions;
      }
    }
  }

  /** From a freshly configured ledger, any trace the program can follow leaves the same counters,
      flags and escrowed bonds on both sides. */
  lemma BenchmarkSimulatesProgram(m: Mechanism, s: L.State, now: int, ops: seq<Op>)
    requires I.Inv(s) && SameParameters(m, s) && s.config.value.nextCompletionId == 1
    requires forall a | a in s.agents :: s.agents[a].lastActivity == 0
    requires FitsAll(m, s, EmptyBook(now), ops)
    ensures Mirrors(m, s, EmptyBook(now))
    ensures Mirrors(m, Played(m, s, EmptyBook(now), ops), Replayed(m, EmptyBook(now), ops))
  {
    StartMirrors(m, s, now);
    PlayMirrors(m, s, EmptyBook(now), ops);
  }

  /** In mirrored states the scores agree exactly when the chain's 32-bit cast is exact or harmless. */
  lemma ScoresAgree(m: Mechanism, s: L.State, b: Book, agent: Id, now: i64)
    requires Mirrors(m, s, b) && m.kind.Taop? && agent in s.agents
    requires s.agents[agent].completions < SAFE_LIMIT
    ensures var a, period := s.agents[agent], s.config.value.decayPeriod;
            var chain := Score.ComputeScore(a.completions, a.disputes, a.lastActivity, now, period);
            chain.score == ScoreOf(m, b, agent, now) <==>
              || a.lastActivity <= 0 || period <= 0
              || Score.CastIsExact(a.lastActivity, now, period)
              || SaturatingSubU64(a.completions, a.disputes)
                 < Pow2(Min(63, ((now - a.lastActivity) / period) % U32_SIZE))
  {
    var a := s.agents[agent];
    ScoreOfMirrored(m, s, b, agent, now);
    Score.SdkRefinesOnChain(a.completions, a.disputes, a.lastActivity, now, s.config.value.decayPeriod);
  }

  lemma ScoreOfMirrored(m: Mechanism, s: L.State, b: Book, agent: Id, now: i64)
    requires Mirrors(m, s, b) && m.kind.Taop? && agent in s.agents
    ensures var a, period := s.agents[agent], s.config.value.decayPeriod;
            ScoreOf(m, b, agent, now)
            == Score.SdkScore(a.completions, a.disputes, a.lastActivity, now, Some(period)).score
  {
    assert SameAgent(s, b, agent);
  }
}
