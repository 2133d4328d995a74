/** The benchmark's reputation mechanisms: one mutable book of agents and completions, and six scores. */
module Mechanisms {
  import opened Words
  import opened Wrappers
  import Score

  const TX_FEE: int := 5_000
  const LAMPORTS_PER_BYTE: int := 6_333
  const AGENT_BYTES: int := 269
  const COMPLETION_BYTES: int := 295
  /** Lamports of stake behind one point of the stake-gated score. */
  const STAKE_PER_POINT: int := 10_000_000
  /** Completions a single counterparty can vouch for. */
  const RECEIPT_WEIGHT: nat := 5

  type Id = nat

  datatype Params = Params(bondLamports: nat, decayPeriodSecs: int, capabilityBondLamports: nat)

  datatype Kind = Taop | NaiveCount | NoDecay | PeerRatings | StakeGated | TwoSided

  datatype Mechanism = Mechanism(kind: Kind, params: Params)

  datatype AgentState = AgentState(
    id: Id,
    completions: nat,
    disputes: nat,
    lastActivity: int,
    raters: set<Id>,
    confirmed: nat,
    spent: int,
    locked: int,
    slashed: int)

  datatype CompletionState = CompletionState(
    id: nat,
    agent: Id,
    timestamp: int,
    challenged: bool,
    disputed: bool,
    resolved: bool,
    challenger: Option<Id>)

  datatype Book = Book(now: int, nextCompletionId: nat, agents: map<Id, AgentState>, completions: seq<CompletionState>)

  function RentExempt(bytes: int): int {
    (128 + bytes) * LAMPORTS_PER_BYTE
  }

  function EmptyBook(now: int): Book {
    Book(now, 1, map[], [])
  }

  function NewAgent(id: Id): AgentState {
    AgentState(id, 0, 0, 0, {}, 0, 0, 0, 0)
  }

  function Record(b: Book, id: Id): AgentState {
    if id in b.agents then b.agents[id] else NewAgent(id)
  }

  function Put(b: Book, id: Id, a: AgentState): Book {
    b.(agents := b.agents[id := a])
  }

  function Ensured(b: Book, id: Id): Book {
    Put(b, id, Record(b, id))
  }

  // ---------------------------------------------------------------------------
  // What each operation makes of the book

  function Attested(b: Book, agent: Id, now: int): Book {
    var a := Record(b, agent);
    var fees := TX_FEE + RentExempt(COMPLETION_BYTES) + if a.completions == 0 then RentExempt(AGENT_BYTES) else 0;
    var b' := Put(b, agent, a.(completions := a.completions + 1, lastActivity := now, spent := a.spent + fees));
    b'.(nextCompletionId := b.nextCompletionId + 1,
        completions := b.completions + [CompletionState(b.nextCompletionId, agent, now, false, false, false, None)])
  }

  function Rated(m: Mechanism, b: Book, from: Id, to: Id): Book {
    if m.kind.TwoSided? && from == to then b
    else
      var b1 := Ensured(Ensured(b, from), to);
      var b2 := Put(b1, from, b1.agents[from].(spent := b1.agents[from].spent + TX_FEE));
      var target := b2.agents[to];
      if !m.kind.TwoSided? then Put(b2, to, target.(raters := target.raters + {from}))
      else if target.completions > target.confirmed then
        Put(b2, to, target.(confirmed := target.confirmed + 1, raters := target.raters + {from}))
      else b2
  }

  /** The position of the first completion with this id, or the end of the list. */
  function Find(completions: seq<CompletionState>, id: nat): (i: nat)
    ensures i <= |completions|
  {
    if completions == [] || completions[0].id == id then 0 else 1 + Find(completions[1..], id)
  }

  function Challenged(m: Mechanism, b: Book, id: nat, challenger: Id): Book {
    var i, bond := Find(b.completions, id), m.params.bondLamports;
    if i == |b.completions| || b.completions[i].challenged then b
    else
      var a := Record(b, challenger);
      Put(b, challenger, a.(spent := a.spent + TX_FEE + bond, locked := a.locked + bond))
        .(completions := b.completions[i := b.completions[i].(challenged := true, challenger := Some(challenger))])
  }

  function Disputed(b: Book, agent: Id): Book {
    Put(b, agent, Record(b, agent).(disputes := Record(b, agent).disputes + 1))
  }

  /** A closed challenge frees the bond: back to the challenger if upheld, lost if not. */
  function Settled(b: Book, w: Id, bond: nat, upheld: bool): Book {
    var a := Record(b, w).(locked := Max(0, Record(b, w).locked - bond));
    Put(b, w, if upheld then a.(spent := a.spent - bond) else a.(slashed := a.slashed + bond))
  }

  function Resolved(m: Mechanism, b: Book, id: nat, upheld: bool): Book {
    var i := Find(b.completions, id);
    if i == |b.completions| || b.completions[i].challenger.None? || b.completions[i].resolved then b
    else
      var c := b.completions[i];
      var closed := b.(completions := b.completions[i := c.(resolved := true, disputed := c.disputed || upheld)]);
      Settled(if upheld then Disputed(closed, c.agent) else closed, c.challenger.value, m.params.bondLamports, upheld)
  }

  function Slashable(m: Mechanism, b: Book, agent: Id): int {
    if m.kind.StakeGated? then Record(b, agent).locked else m.params.capabilityBondLamports
  }

  function SlashedFor(m: Mechanism, b: Book, agent: Id): Book {
    var a := Record(b, agent);
    var amount := Min(Slashable(m, b, agent), a.locked);
    Put(b, agent, a.(locked := a.locked - amount, slashed := a.slashed + amount, spent := a.spent + amount))
  }

  function LockedBy(b: Book, agent: Id, lamports: int): Book {
    var a := Record(b, agent);
    Put(b, agent, a.(locked := a.locked + lamports, spent := a.spent + TX_FEE))
  }

  /** The score rules of the six mechanisms. */
  function ScoreOf(m: Mechanism, b: Book, agent: Id, now: int): nat {
    var a := Record(b, agent);
    match m.kind
    case Taop => Score.SdkScore(a.completions, a.disputes, a.lastActivity, now, Some(m.params.decayPeriodSecs)).score
    case NaiveCount => a.completions
    case NoDecay => Max(0, a.completions - a.disputes)
    case PeerRatings => Max(0, |a.raters| - a.disputes)
    case StakeGated => Max(0, Min(a.completions - a.disputes, a.locked / STAKE_PER_POINT))
    case TwoSided =>
      var counted := Min(a.confirmed, |a.raters| * RECEIPT_WEIGHT);
      Score.SdkScore(counted, a.disputes, a.lastActivity, now, Some(m.params.decayPeriodSecs)).score
  }

  predicate UsesPeerRatings(m: Mechanism) {
    m.kind.PeerRatings? || m.kind.TwoSided?
  }

  /** Distinct counterparties needed for a target score, where the mechanism says. */
  function CounterpartiesRequired(m: Mechanism, target: nat): nat {
    if m.kind.TwoSided? then Max(1, CeilDiv(target, RECEIPT_WEIGHT)) else Max(1, target)
  }

  // ---------------------------------------------------------------------------
  // The mutable book

  class MechanismState {
    var now: int
    var nextCompletionId: nat
    var agents: map<Id, AgentState>
    var completions: seq<CompletionState>

    ghost function Contents(): Book
      reads this
    {
      Book(now, nextCompletionId, agents, completions)
    }

    constructor (now: int)
      ensures Contents() == EmptyBook(now)
    {
      this.now, nextCompletionId, agents, completions := now, 1, map[], [];
    }

    method Ensure(id: Id) returns (a: AgentState)
      modifies this
      ensures Contents() == Ensured(old(Contents()), id)
      ensures a == Record(old(Contents()), id)
    {
      if id !in agents { agents := agents[id := NewAgent(id)]; }
      a := agents[id];
      assert agents == old(agents)[id := a];
    }

    method Attest(agent: Id, now: int)
      modifies this
      ensures Contents() == Attested(old(Contents()), agent, now)
    {
      var a := Ensure(agent);
      var first := a.completions == 0;
      var id := nextCompletionId;
      nextCompletionId := nextCompletionId + 1;
      a := a.(completions := a.completions + 1, lastActivity := now);
      completions := completions + [CompletionState(id, agent, now, false, false, false, None)];
      a := a.(spent := a.spent + TX_FEE + RentExempt(COMPLETION_BYTES));
      if first { a := a.(spent := a.spent + RentExempt(AGENT_BYTES)); }
      agents := agents[agent := a];
    }

    method Rate(m: Mechanism, from: Id, to: Id)
      modifies this
      ensures Contents() == Rated(m, old(Contents()), from, to)
    {
      if m.kind.TwoSided? && from == to { return; }
      var rater := Ensure(from);
      var target := Ensure(to);
      agents := agents[from := agents[from].(spent := agents[from].spent + TX_FEE)];
      target := agents[to];
      if m.kind.TwoSided? {
        var pending := target.completions - target.confirmed;
        if pending > 0 {
          target := target.(confirmed := target.confirmed + 1);
          agents := agents[to := target.(raters := target.raters + {from})];
        }
      } else {
        agents := agents[to := target.(raters := target.raters + {from})];
      }
    }

    method FindCompletion(id: nat) returns (i: nat)
      ensures i == Find(completions, id)
    {
      i := 0;
      while i < |completions| && completions[i].id != id
        invariant 0 <= i <= |completions|
        invariant i + Find(completions[i..], id) == Find(completions, id)
      {
        assert completions[i..][1..] == completions[i + 1..];
        i := i + 1;
      }
    }

    method Challenge(m: Mechanism, id: nat, challenger: Id)
      modifies this
      ensures Contents() == Challenged(m, old(Contents()), id, challenger)
    {
      var i := FindCompletion(id);
      if i == |completions| || completions[i].challenged { return; }
      completions := completions[i := completions[i].(challenged := true)];
      completions := completions[i := completions[i].(challenger := Some(challenger))];
      var a := Ensure(challenger);
      a := a.(spent := a.spent + TX_FEE + m.params.bondLamports);
      a := a.(locked := a.locked + m.params.bondLamports);
      agents := agents[challenger := a];
    }

    method Resolve(m: Mechanism, id: nat, upheld: bool)
      modifies this
      ensures Contents() == Resolved(m, old(Contents()), id, upheld)
    {
      var i := FindCompletion(id);
      if i == |completions| || completions[i].challenger.None? || completions[i].resolved { return; }
      var c := completions[i];
      var w := c.challenger.value;
      completions := completions[i := c.(resolved := true)];
      if upheld {
        completions := completions[i := completions[i].(disputed := true)];
        CountDispute(c.agent);
      }
      SettleBond(w, m.params.bondLamports, upheld);
    }

    method CountDispute(agent: Id)
      modifies this`agents
      ensures Contents() == Disputed(old(Contents()), agent)
    {
      var a := if agent in agents then agents[agent] else NewAgent(agent);
      agents := agents[agent := a.(disputes := a.disputes + 1)];
    }

    method SettleBond(w: Id, bond: nat, upheld: bool)
      modifies this`agents
      ensures Contents() == Settled(old(Contents()), w, bond, upheld)
    {
      var a := if w in agents then agents[w] else NewAgent(w);
      a := a.(locked := Max(0, a.locked - bond));
      if upheld {
        a := a.(spent := a.spent - bond);
      } else {
        a := a.(slashed := a.slashed + bond);
      }
      agents := agents[w := a];
    }

    method SlashCapability(m: Mechanism, agent: Id)
      modifies this
      ensures Contents() == SlashedFor(m, old(Contents()), agent)
    {
      var a := Ensure(agent);
      var amount := Min(if m.kind.StakeGated? then a.locked else m.params.capabilityBondLamports, a.locked);
      a := a.(locked := a.locked - amount);
      a := a.(slashed := a.slashed + amount);
      a := a.(spent := a.spent + amount);
      agents := agents[agent := a];
    }

    method LockCapital(agent: Id, lamports: int)
      modifies this
      ensures Contents() == LockedBy(old(Contents()), agent, lamports)
    {
      var a := Ensure(agent);
      a := a.(locked := a.locked + lamports);
      a := a.(spent := a.spent + TX_FEE);
      agents := agents[agent := a];
    }

    /** Asking for a score creates the agent's record if it is missing. */
    method ScoreAgent(m: Mechanism, agent: Id, now: int) returns (score: nat)
      modifies this
      ensures Contents() == Ensured(old(Contents()), agent)
      ensures score == ScoreOf(m, old(Contents()), agent, now)
    {
      var a := Ensure(agent);
      score := ScoreOf(m, Book(this.now, nextCompletionId, agents, completions), agent, now);
    }
  }

  // ---------------------------------------------------------------------------
  // Traces

  datatype Op =
    | OAttest(agent: Id, now: int)
    | ORate(from: Id, to: Id)
    | OChallenge(id: nat, challenger: Id)
    | OResolve(id: nat, upheld: bool)

  function Applied(m: Mechanism, b: Book, op: Op): Book {
    match op
    case OAttest(agent, now) => Attested(b, agent, now)
    case ORate(from, to) => Rated(m, b, from, to)
    case OChallenge(id, challenger) => Challenged(m, b, id, challenger)
    case OResolve(id, upheld) => Resolved(m, b, id, upheld)
  }

  function Trace(m: Mechanism, b: Book, ops: seq<Op>): Book {
    if ops == [] then b else Applied(m, Trace(m, b, ops[..|ops| - 1]), ops[|ops| - 1])
  }
}
