/** The benchmark's book against its own list of completions: counters, and bonds locked and lost. */
module BenchmarkAccounts {
  import opened Wrappers
  import opened Sums
  import opened Mechanisms

  ghost function PendingOf(b: Book, w: Id): nat {
    Count(b.completions, (c: CompletionState) => c.challenger == Some(w) && !c.resolved)
  }

  ghost function RejectedOf(b: Book, w: Id): nat {
    Count(b.completions, (c: CompletionState) => c.challenger == Some(w) && c.resolved && !c.disputed)
  }

  ghost function AttestedBy(b: Book, a: Id): nat {
    Count(b.completions, (c: CompletionState) => c.agent == a)
  }

  ghost function DisputedOf(b: Book, a: Id): nat {
    Count(b.completions, (c: CompletionState) => c.agent == a && c.disputed)
  }

  /** An agent's counters and bonds are those of its completions and of its challenges. */
  ghost predicate Accounts(m: Mechanism, b: Book, x: Id) {
    var a := Record(b, x);
    && a.completions == AttestedBy(b, x)
    && a.disputes == DisputedOf(b, x)
    && a.locked == m.params.bondLamports * PendingOf(b, x)
    && a.slashed == m.params.bondLamports * RejectedOf(b, x)
  }

  ghost predicate FlagsAgree(c: CompletionState) {
    (c.challenger.Some? <==> c.challenged) && (c.resolved ==> c.challenged) && (c.disputed ==> c.resolved)
  }

  ghost predicate ListAgrees(b: Book) {
    && b.nextCompletionId == |b.completions| + 1
    && (forall i: nat | i < |b.completions| :: b.completions[i].id == i + 1 && FlagsAgree(b.completions[i]))
  }

  ghost predicate BookAgrees(m: Mechanism, b: Book) {
    ListAgrees(b) && forall x: Id :: Accounts(m, b, x)
  }

  /** Whether the benchmark acts on a challenge of this id. */
  predicate Challengeable(b: Book, id: nat) {
    1 <= id <= |b.completions| && !b.completions[id - 1].challenged
  }

  /** Whether it acts on a resolution. */
  predicate Resolvable(b: Book, id: nat) {
    1 <= id <= |b.completions| && b.completions[id - 1].challenged && !b.completions[id - 1].resolved
  }

  lemma {:induction false} FindById(completions: seq<CompletionState>, first: nat, id: nat)
    requires forall i: nat | i < |completions| :: completions[i].id == first + i
    ensures Find(completions, id) == if first <= id < first + |completions| then id - first else |completions|
    decreases |completions|
  {
    if completions != [] && completions[0].id != id { FindById(completions[1..], first + 1, id); }
  }

  /** In an agreeing book, completion `id` sits at position `id - 1`. */
  lemma FindInBook(b: Book, id: nat)
    requires ListAgrees(b)
    ensures Find(b.completions, id) == if 1 <= id <= |b.completions| then id - 1 else |b.completions|
  {
    FindById(b.completions, 1, id);
  }

  /** What appending or rewriting one completion does to the four counts. */
  lemma CountsAfterPush(b: Book, b': Book, c: CompletionState, x: Id)
    requires b'.completions == b.completions + [c] && c.challenger.None? && !c.disputed
    ensures PendingOf(b', x) == PendingOf(b, x) && RejectedOf(b', x) == RejectedOf(b, x)
    ensures DisputedOf(b', x) == DisputedOf(b, x)
    ensures AttestedBy(b', x) == AttestedBy(b, x) + if c.agent == x then 1 else 0
  {
    CountPush(b.completions, c, (c: CompletionState) => c.challenger == Some(x) && !c.resolved);
    CountPush(b.completions, c, (c: CompletionState) => c.challenger == Some(x) && c.resolved && !c.disputed);
    CountPush(b.completions, c, (c: CompletionState) => c.agent == x);
    CountPush(b.completions, c, (c: CompletionState) => c.agent == x && c.disputed);
  }

  lemma CountsAfterSet(b: Book, b': Book, i: nat, c: CompletionState, x: Id)
    requires i < |b.completions| && b'.completions == b.completions[i := c] && c.agent == b.completions[i].agent
    ensures var o := b.completions[i];
            && PendingOf(b', x) + (if o.challenger == Some(x) && !o.resolved then 1 else 0)
                 == PendingOf(b, x) + (if c.challenger == Some(x) && !c.resolved then 1 else 0)
            && RejectedOf(b', x) + (if o.challenger == Some(x) && o.resolved && !o.disputed then 1 else 0)
                 == RejectedOf(b, x) + (if c.challenger == Some(x) && c.resolved && !c.disputed then 1 else 0)
            && DisputedOf(b', x) + (if o.agent == x && o.disputed then 1 else 0)
                 == DisputedOf(b, x) + (if o.agent == x && c.disputed then 1 else 0)
            && AttestedBy(b', x) == AttestedBy(b, x)
  {
    CountSet(b.completions, i, c, (c: CompletionState) => c.challenger == Some(x) && !c.resolved);
    CountSet(b.completions, i, c, (c: CompletionState) => c.challenger == Some(x) && c.resolved && !c.disputed);
    CountSet(b.completions, i, c, (c: CompletionState) => c.agent == x);
    CountSet(b.completions, i, c, (c: CompletionState) => c.agent == x && c.disputed);
  }

  lemma AttestAgrees(m: Mechanism, b: Book, agent: Id, now: int)
    requires BookAgrees(m, b)
    ensures BookAgrees(m, Attested(b, agent, now))
  {
    var b' := Attested(b, agent, now);
    forall x: Id ensures Accounts(m, b', x) {
      assert Accounts(m, b, x);
      CountsAfterPush(b, b', b'.completions[|b.completions|], x);
    }
  }

  lemma RateAgrees(m: Mechanism, b: Book, from: Id, to: Id)
    requires BookAgrees(m, b)
    ensures BookAgrees(m, Rated(m, b, from, to))
  {
    forall x: Id ensures Accounts(m, Rated(m, b, from, to), x) {
      assert Accounts(m, b, x);
    }
  }

  lemma ChallengeAgrees(m: Mechanism, b: Book, id: nat, challenger: Id)
    requires BookAgrees(m, b)
    ensures BookAgrees(m, Challenged(m, b, id, challenger))
  {
    var i, b' := Find(b.completions, id), Challenged(m, b, id, challenger);
    if b' != b {
      forall x: Id ensures Accounts(m, b', x) {
        assert Accounts(m, b, x);
        CountsAfterSet(b, b', i, b'.completions[i], x);
        Distribute(m.params.bondLamports, PendingOf(b, x));
      }
    }
  }

  lemma Distribute(bond: nat, n: nat)
    ensures bond * (n + 1) == bond * n + bond
  {
  }

  /** A resolution that takes effect finds the bond locked, so the clamp at zero changes nothing. */
  lemma ClampNeverFires(m: Mechanism, b: Book, i: nat)
    requires BookAgrees(m, b)
    requires i < |b.completions| && b.completions[i].challenger.Some? && !b.completions[i].resolved
    ensures Record(b, b.completions[i].challenger.value).locked >= m.params.bondLamports
  {
    var w := b.completions[i].challenger.value;
    var closed := b.(completions := b.completions[i := b.completions[i].(resolved := true)]);
    CountsAfterSet(b, closed, i, closed.completions[i], w);
    assert Accounts(m, b, w);
    Distribute(m.params.bondLamports, PendingOf(closed, w));
  }

  lemma ResolveAgrees(m: Mechanism, b: Book, id: nat, upheld: bool)
    requires BookAgrees(m, b)
    ensures BookAgrees(m, Resolved(m, b, id, upheld))
  {
    var i, b' := Find(b.completions, id), Resolved(m, b, id, upheld);
    if i < |b.completions| && b.completions[i].challenger.Some? && !b.completions[i].resolved {
      ClampNeverFires(m, b, i);
      assert FlagsAgree(b.completions[i]);
      forall x: Id ensures Accounts(m, b', x) {
        assert Accounts(m, b, x);
        CountsAfterSet(b, b', i, b'.completions[i], x);
        Distribute(m.params.bondLamports, PendingOf(b', x));
        Distribute(m.params.bondLamports, RejectedOf(b, x));
      }
      assert ListAgrees(b');
    }
  }

  /** After any trace from the empty book, every agent's completions and disputes count its records,
      and its locked and slashed lamports are the bond times its pending and its rejected challenges. */
  lemma {:induction false} TraceAccounts(m: Mechanism, now: int, ops: seq<Op>)
    ensures BookAgrees(m, Trace(m, EmptyBook(now), ops))
    decreases |ops|
  {
    if ops == [] {
      forall x: Id ensures Accounts(m, EmptyBook(now), x) {}
    } else {
      var b := Trace(m, EmptyBook(now), ops[..|ops| - 1]);
      TraceAccounts(m, now, ops[..|ops| - 1]);
      match ops[|ops| - 1]
      case OAttest(agent, time) => AttestAgrees(m, b, agent, time);
      case ORate(from, to) => RateAgrees(m, b, from, to);
      case OChallenge(id, challenger) => ChallengeAgrees(m, b, id, challenger);
      case OResolve(id, upheld) => ResolveAgrees(m, b, id, upheld);
    }
  }
}
