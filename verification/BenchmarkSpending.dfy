/** What the benchmark's agents spend: fees and rents for good, bonds until they are returned. */
module BenchmarkSpending {
  import opened Mechanisms
  import opened BenchmarkAccounts

  /** Everything that can be done to a book. */
  datatype Deal =
    | Play(op: Op)
    | Lock(agent: Id, lamports: int)
    | Slash(agent: Id)

  function Dealt(m: Mechanism, b: Book, d: Deal): Book {
    match d
    case Play(op) => Applied(m, b, op)
    case Lock(agent, lamports) => LockedBy(b, agent, lamports)
    case Slash(agent) => SlashedFor(m, b, agent)
  }

  function AllDealt(m: Mechanism, b: Book, deals: seq<Deal>): Book {
    if deals == [] then b else Dealt(m, AllDealt(m, b, deals[..|deals| - 1]), deals[|deals| - 1])
  }

  /** The fee and rents a deal costs `x`: a fee for each attestation, rating, challenge and lock of its
      own, the rent of each completion, and once the rent of its record. */
  ghost function Cost(m: Mechanism, b: Book, d: Deal, x: Id): int {
    match d
    case Play(OAttest(agent, _)) =>
      if agent != x then 0
      else TX_FEE + RentExempt(COMPLETION_BYTES) + if AttestedBy(b, x) == 0 then RentExempt(AGENT_BYTES) else 0
    case Play(ORate(from, to)) => if from != x || (m.kind.TwoSided? && from == to) then 0 else TX_FEE
    case Play(OChallenge(id, challenger)) => if challenger != x || !Challengeable(b, id) then 0 else TX_FEE
    case Play(OResolve(_, _)) => 0
    case Lock(agent, _) => if agent != x then 0 else TX_FEE
    case Slash(_) => 0
  }

  ghost function Costs(m: Mechanism, start: Book, deals: seq<Deal>, x: Id): int {
    if deals == [] then 0
    else
      var before := deals[..|deals| - 1];
      Costs(m, start, before, x) + Cost(m, AllDealt(m, start, before), deals[|deals| - 1], x)
  }

  /** The counters of an agent against the list, without the bonds. */
  ghost predicate Counters(b: Book, x: Id) {
    Record(b, x).completions == AttestedBy(b, x) && Record(b, x).disputes == DisputedOf(b, x)
  }

  ghost predicate Spends(m: Mechanism, b: Book, x: Id, costs: int) {
    Record(b, x).spent == costs + Record(b, x).slashed + m.params.bondLamports * PendingOf(b, x)
  }

  lemma AttestSpends(m: Mechanism, b: Book, agent: Id, now: int, x: Id, costs: int)
    requires ListAgrees(b) && Counters(b, x) && Spends(m, b, x, costs)
    ensures var b' := Attested(b, agent, now);
            && ListAgrees(b') && Counters(b', x)
            && Spends(m, b', x, costs + Cost(m, b, Play(OAttest(agent, now)), x))
  {
    var b' := Attested(b, agent, now);
    CountsAfterPush(b, b', b'.completions[|b.completions|], x);
  }

  lemma RateSpends(m: Mechanism, b: Book, from: Id, to: Id, x: Id, costs: int)
    requires ListAgrees(b) && Counters(b, x) && Spends(m, b, x, costs)
    ensures var b' := Rated(m, b, from, to);
            && ListAgrees(b') && Counters(b', x) && Spends(m, b', x, costs + Cost(m, b, Play(ORate(from, to)), x))
  {
    var b' := Rated(m, b, from, to);
    assert b'.completions == b.completions && b'.nextCompletionId == b.nextCompletionId;
    RateCharges(m, b, from, to, x);
  }

  lemma RateCharges(m: Mechanism, b: Book, from: Id, to: Id, x: Id)
    ensures var before, after := Record(b, x), Record(Rated(m, b, from, to), x);
            && after.completions == before.completions && after.disputes == before.disputes
            && after.slashed == before.slashed
            && after.spent == before.spent + if from != x || (m.kind.TwoSided? && from == to) then 0 else TX_FEE
  {
  }

  lemma ChallengeSpends(m: Mechanism, b: Book, id: nat, challenger: Id, x: Id, costs: int)
    requires ListAgrees(b) && Counters(b, x) && Spends(m, b, x, costs)
    ensures var b' := Challenged(m, b, id, challenger);
            && ListAgrees(b') && Counters(b', x)
            && Spends(m, b', x, costs + Cost(m, b, Play(OChallenge(id, challenger)), x))
  {
    var i, b' := Find(b.completions, id), Challenged(m, b, id, challenger);
    FindInBook(b, id);
    if i < |b.completions| {
      assert FlagsAgree(b.completions[i]);
      if Challengeable(b, id) {
        CountsAfterSet(b, b', i, b'.completions[i], x);
        Distribute(m.params.bondLamports, PendingOf(b, x));
      }
    }
  }

  /** A resolution that takes effect closes one completion and settles its two agents. */
  lemma ResolveTouches(m: Mechanism, b: Book, id: nat, upheld: bool, x: Id)
    requires ListAgrees(b) && Resolvable(b, id)
    ensures b.completions[id - 1].challenger.Some?
    ensures var c, b' := b.completions[id - 1], Resolved(m, b, id, upheld);
            var before, after, bond := Record(b, x), Record(b', x), m.params.bondLamports;
            && b'.nextCompletionId == b.nextCompletionId
            && b'.completions == b.completions[id - 1 := c.(resolved := true, disputed := upheld)]
            && after.completions == before.completions
            && after.disputes == before.disputes + (if upheld && c.agent == x then 1 else 0)
            && after.spent == before.spent - (if upheld && c.challenger.value == x then bond else 0)
            && after.slashed == before.slashed + if !upheld && c.challenger.value == x then bond else 0
  {
    FindInBook(b, id);
    assert FlagsAgree(b.completions[id - 1]);
  }

  lemma ResolveSpends(m: Mechanism, b: Book, id: nat, upheld: bool, x: Id, costs: int)
    requires ListAgrees(b) && Counters(b, x) && Spends(m, b, x, costs)
    ensures var b' := Resolved(m, b, id, upheld);
            && ListAgrees(b') && Counters(b', x)
            && Spends(m, b', x, costs + Cost(m, b, Play(OResolve(id, upheld)), x))
  {
    if Resolvable(b, id) {
      var b' := Resolved(m, b, id, upheld);
      ResolveTouches(m, b, id, upheld, x);
      assert FlagsAgree(b.completions[id - 1]);
      CountsAfterSet(b, b', id - 1, b'.completions[id - 1], x);
      Distribute(m.params.bondLamports, PendingOf(b', x));
    } else {
      NothingToResolve(m, b, id, upheld);
    }
  }

  lemma NothingToResolve(m: Mechanism, b: Book, id: nat, upheld: bool)
    requires ListAgrees(b) && !Resolvable(b, id)
    ensures Resolved(m, b, id, upheld) == b
  {
    FindInBook(b, id);
    if 1 <= id <= |b.completions| { assert FlagsAgree(b.completions[id - 1]); }
  }

  /** Locking and slashing capital: what is slashed is spent. */
  lemma CapitalSpends(m: Mechanism, b: Book, d: Deal, x: Id, costs: int)
    requires !d.Play? && ListAgrees(b) && Counters(b, x) && Spends(m, b, x, costs)
    ensures var b' := Dealt(m, b, d);
            ListAgrees(b') && Counters(b', x) && Spends(m, b', x, costs + Cost(m, b, d, x))
  {
    assert PendingOf(Dealt(m, b, d), x) == PendingOf(b, x);
  }

  lemma DealSpends(m: Mechanism, b: Book, d: Deal, x: Id, costs: int)
    requires ListAgrees(b) && Counters(b, x) && Spends(m, b, x, costs)
    ensures var b' := Dealt(m, b, d);
            ListAgrees(b') && Counters(b', x) && Spends(m, b', x, costs + Cost(m, b, d, x))
  {
    match d
    case Play(OAttest(agent, now)) => AttestSpends(m, b, agent, now, x, costs);
    case Play(ORate(from, to)) => RateSpends(m, b, from, to, x, costs);
    case Play(OChallenge(id, challenger)) => ChallengeSpends(m, b, id, challenger, x, costs);
    case Play(OResolve(id, upheld)) => ResolveSpends(m, b, id, upheld, x, costs);
    case _ => CapitalSpends(m, b, d, x, costs);
  }

  /** After any operations, slashes and locks of capital included, an agent has spent its fees and rents,
      what was slashed, and one bond for each of its challenges that is still pending: an upheld challenge
      returns its bond in full. */
  lemma {:induction false} SpendingIsAccounted(m: Mechanism, now: int, deals: seq<Deal>, x: Id)
    ensures var b := AllDealt(m, EmptyBook(now), deals);
            && ListAgrees(b)
            && Record(b, x).completions == AttestedBy(b, x) && Record(b, x).disputes == DisputedOf(b, x)
            && Record(b, x).spent
               == Costs(m, EmptyBook(now), deals, x) + Record(b, x).slashed + m.params.bondLamports * PendingOf(b, x)
    decreases |deals|
  {
    if deals != [] {
      var before := deals[..|deals| - 1];
      SpendingIsAccounted(m, now, before, x);
      DealSpends(m, AllDealt(m, EmptyBook(now), before), deals[|deals| - 1], x, Costs(m, EmptyBook(now), before, x));
    }
  }
}
