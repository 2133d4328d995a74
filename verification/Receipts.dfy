/** Two-sided receipts: a point of score needs confirmed completions and distinct confirmers. */
module Receipts {
  import opened Words
  import opened Wrappers
  import opened Mechanisms
  import Score

  ghost predicate ReceiptsAgree(a: AgentState) {
    |a.raters| <= a.confirmed <= a.completions
  }

  ghost predicate AllAgree(b: Book) {
    forall id | id in b.agents :: ReceiptsAgree(b.agents[id])
  }

  lemma AttestKeepsReceipts(b: Book, agent: Id, now: int)
    requires AllAgree(b)
    ensures AllAgree(Attested(b, agent, now))
  {
    assert ReceiptsAgree(Record(b, agent));
  }

  /** A rating that counts confirms one completion and adds at most one rater. */
  lemma RateKeepsReceipts(m: Mechanism, b: Book, from: Id, to: Id)
    requires m.kind.TwoSided? && AllAgree(b)
    ensures AllAgree(Rated(m, b, from, to))
  {
    var rater, target := Record(b, from), Record(b, to);
    assert ReceiptsAgree(rater) && ReceiptsAgree(target);
    assert |target.raters + {from}| <= |target.raters| + 1;
    var b' := Rated(m, b, from, to);
    forall id | id in b'.agents ensures ReceiptsAgree(b'.agents[id]) {
      if id != from && id != to { assert b'.agents[id] == b.agents[id]; }
    }
  }

  lemma ChallengeKeepsReceipts(m: Mechanism, b: Book, id: nat, challenger: Id)
    requires AllAgree(b)
    ensures AllAgree(Challenged(m, b, id, challenger))
  {
    assert ReceiptsAgree(Record(b, challenger));
  }

  lemma DisputeKeepsReceipts(b: Book, agent: Id)
    requires AllAgree(b)
    ensures AllAgree(Disputed(b, agent))
  {
    assert ReceiptsAgree(Record(b, agent));
  }

  lemma SettleKeepsReceipts(b: Book, w: Id, bond: nat, upheld: bool)
    requires AllAgree(b)
    ensures AllAgree(Settled(b, w, bond, upheld))
  {
    assert ReceiptsAgree(Record(b, w));
  }

  lemma ResolveKeepsReceipts(m: Mechanism, b: Book, id: nat, upheld: bool)
    requires AllAgree(b)
    ensures AllAgree(Resolved(m, b, id, upheld))
  {
    var i := Find(b.completions, id);
    if i < |b.completions| && b.completions[i].challenger.Some? && !b.completions[i].resolved {
      var c := b.completions[i];
      var closed := b.(completions := b.completions[i := c.(resolved := true, disputed := c.disputed || upheld)]);
      DisputeKeepsReceipts(closed, c.agent);
      SettleKeepsReceipts(if upheld then Disputed(closed, c.agent) else closed, c.challenger.value,
          m.params.bondLamports, upheld);
    }
  }

  lemma StepAgrees(m: Mechanism, b: Book, op: Op)
    requires m.kind.TwoSided? && AllAgree(b)
    ensures AllAgree(Applied(m, b, op))
  {
    match op
    case OAttest(agent, now) => AttestKeepsReceipts(b, agent, now);
    case ORate(from, to) => RateKeepsReceipts(m, b, from, to);
    case OChallenge(id, challenger) => ChallengeKeepsReceipts(m, b, id, challenger);
    case OResolve(id, upheld) => ResolveKeepsReceipts(m, b, id, upheld);
  }

  lemma {:induction false} TraceAgrees(m: Mechanism, now: int, ops: seq<Op>)
    requires m.kind.TwoSided?
    ensures AllAgree(Trace(m, EmptyBook(now), ops))
    decreases |ops|
  {
    if ops != [] {
      TraceAgrees(m, now, ops[..|ops| - 1]);
      StepAgrees(m, Trace(m, EmptyBook(now), ops[..|ops| - 1]), ops[|ops| - 1]);
    }
  }

  lemma SdkScoreBelowNet(completions: nat, disputes: nat, lastActivity: int, now: int, period: Option<int>)
    ensures Score.SdkScore(completions, disputes, lastActivity, now, period).score <= Max(0, completions - disputes)
  {
    var net := Max(0, completions - disputes);
    var p := if period.Some? then period.value else Score.DEFAULT_PERIOD;
    if net > 0 && lastActivity > 0 && p > 0 && now - lastActivity > p {
      Score.QuotientBounds(now - lastActivity, p);
      var h := Min(63, (now - lastActivity) / p);
      Score.HalveIsShift(net, h);
      ShrBelow(net, h);
    }
  }

  /** After any sequence of attestations, ratings, challenges and resolutions, an agent with score
      `s` of at least one has that many confirmed completions and at least as many distinct confirmers
      as the mechanism says an attacker must recruit for `s`. */
  lemma ScoreNeedsConfirmers(m: Mechanism, start: int, ops: seq<Op>, agent: Id, now: int)
    requires m.kind.TwoSided?
    ensures var b := Trace(m, EmptyBook(start), ops);
            var s, a := ScoreOf(m, b, agent, now), Record(b, agent);
            && |a.raters| <= a.confirmed <= a.completions
            && s <= a.confirmed
            && (s >= 1 ==> |a.raters| >= CounterpartiesRequired(m, s))
  {
    var b := Trace(m, EmptyBook(start), ops);
    TraceAgrees(m, start, ops);
    var s, a := ScoreOf(m, b, agent, now), Record(b, agent);
    assert ReceiptsAgree(a);
    SdkScoreBelowNet(Min(a.confirmed, |a.raters| * RECEIPT_WEIGHT), a.disputes, a.lastActivity, now,
        Some(m.params.decayPeriodSecs));
    assert s <= |a.raters| * RECEIPT_WEIGHT;
    assert CeilDiv(s, RECEIPT_WEIGHT) <= |a.raters|;
  }
}
