/** Whole runs of the dispatcher: polls of a growing log, failures, crashes and restarts in any order. */
module DispatcherRuns {
  import opened Wrappers
  import opened Sequences
  import opened Dispatcher

  // ---------------------------------------------------------------------------
  // Gap-freedom

  predicate Has(handed: seq<Sig>, s: Sig) {
    s in handed
  }

  ghost predicate AllHanded(handed: seq<Sig>, log: seq<Sig>, n: nat) {
    forall i {:trigger Has(handed, log[i])} | 0 <= i < n && i < |log| :: Has(handed, log[i])
  }

  /** Everything older than a handed transaction was handed before it. */
  ghost predicate GapFree(handed: seq<Sig>, log: seq<Sig>) {
    handed == [] ||
    var earlier, s := handed[..|handed| - 1], handed[|handed| - 1];
    GapFree(earlier, log) && s in log && AllHanded(earlier, log, IndexOf(log, s))
  }

  /** How much of the log, from its beginning, has been handed over. */
  ghost function Reached(handed: seq<Sig>, log: seq<Sig>): (n: nat)
    ensures n <= |log| && AllHanded(handed, log, n) && (n < |log| ==> log[n] !in handed)
  {
    if log == [] || (log[|log| - 1] in handed && Reached(handed, log[..|log| - 1]) == |log| - 1) then |log|
    else Reached(handed, log[..|log| - 1])
  }

  lemma AllHandedStays(handed: seq<Sig>, more: seq<Sig>, log: seq<Sig>, n: nat)
    requires AllHanded(handed, log, n)
    ensures AllHanded(handed + more, log, n)
  {
    forall i | 0 <= i < n && i < |log| ensures Has(handed + more, log[i]) {
      assert Has(handed, log[i]);
    }
  }

  lemma ReachedIsLongest(handed: seq<Sig>, log: seq<Sig>, n: nat)
    requires n <= |log|
    ensures AllHanded(handed, log, n) <==> n <= Reached(handed, log)
  {
    var m := Reached(handed, log);
    if m < n { assert !Has(handed, log[m]); }
  }

  lemma {:induction false} HandedIsClosed(handed: seq<Sig>, log: seq<Sig>, s: Sig)
    requires GapFree(handed, log) && s in handed
    ensures s in log && AllHanded(handed, log, IndexOf(log, s) + 1)
  {
    var earlier, last := handed[..|handed| - 1], [handed[|handed| - 1]];
    assert handed == earlier + last;
    if s in earlier {
      HandedIsClosed(earlier, log, s);
      AllHandedStays(earlier, last, log, IndexOf(log, s) + 1);
    } else {
      AllHandedStays(earlier, last, log, IndexOf(log, s));
    }
  }

  lemma GapFreeGrows(earlier: seq<Sig>, s: Sig, log: seq<Sig>)
    ensures GapFree(earlier + [s], log)
       <==> GapFree(earlier, log) && s in log && AllHanded(earlier, log, IndexOf(log, s))
  {
    var handed := earlier + [s];
    assert handed[..|handed| - 1] == earlier;
  }

  /** New entries at the head of the log neither make nor close gaps. */
  lemma {:induction false} GapFreeInLonger(handed: seq<Sig>, log: seq<Sig>, longer: seq<Sig>)
    requires log <= longer && Distinct(longer) && forall s | s in handed :: s in log
    ensures GapFree(handed, log) <==> GapFree(handed, longer)
  {
    if handed != [] {
      var earlier, s := handed[..|handed| - 1], handed[|handed| - 1];
      GapFreeInLonger(earlier, log, longer);
      assert s in handed;
      IndexInExtension(log, longer, s);
      var n := IndexOf(log, s);
      assert forall i | 0 <= i < n :: log[i] == longer[i];
      assert AllHanded(earlier, log, n) <==> AllHanded(earlier, longer, n);
    }
  }

  // ---------------------------------------------------------------------------
  // What one pass hands over

  /** How many of `n` listed transactions a pass attempts. */
  function Taken(n: nat, replies: seq<Reply>, persistent: bool): (k: nat)
    ensures k <= n
  {
    if n == 0 || replies == [] || replies[0].Missing? || replies[0].Throws? then 0
    else if replies[0].Crash? || (replies[0].SaveThrows? && persistent) then 1
    else 1 + Taken(n - 1, replies[1..], persistent)
  }

  lemma TakeRegroups(handed: seq<Sig>, ordered: seq<Sig>, k: nat)
    requires 0 < k <= |ordered|
    ensures handed + ordered[..k] == (handed + [ordered[0]]) + ordered[1..][..k - 1]
  {
    assert ordered[..k] == [ordered[0]] + ordered[1..][..k - 1];
  }

  lemma {:induction false} DeliverTakes(d: Desk, ordered: seq<Sig>, replies: seq<Reply>, persistent: bool)
    ensures var k, after := Taken(|ordered|, replies, persistent), Deliver(d, ordered, replies, persistent).0;
            after.handed == d.handed + ordered[..k] && (k == 0 ==> after == d)
    decreases |ordered|
  {
    var k := Taken(|ordered|, replies, persistent);
    if k > 0 {
      TakeRegroups(d.handed, ordered, k);
      if !replies[0].Crash? && !(replies[0].SaveThrows? && persistent) {
        DeliverTakes(Advance(d, ordered[0], persistent), ordered[1..], replies[1..], persistent);
      }
    }
  }

  /** A reply after which the pass goes on to the next transaction. */
  predicate GoesOn(r: Reply, persistent: bool) {
    r.Delivered? || (r.SaveThrows? && !persistent)
  }

  /** The pass stops after the first reply that does not go on, and before a transaction that is missing
      or cannot be read. */
  ghost predicate StopsAfter(n: nat, replies: seq<Reply>, persistent: bool, k: nat) {
    && k <= n && k <= |replies|
    && (forall i | 0 <= i < k - 1 :: GoesOn(replies[i], persistent))
    && (k > 0 ==> !replies[k - 1].Missing? && !replies[k - 1].Throws?)
    && (k < n && k < |replies| && (k == 0 || GoesOn(replies[k - 1], persistent)) ==>
          replies[k].Missing? || replies[k].Throws?)
  }

  /** How far the cursor gets when `k` transactions are attempted: past all but one that killed the process. */
  function Passed(replies: seq<Reply>, k: nat): nat
    requires k <= |replies|
  {
    if k > 0 && replies[k - 1].Crash? then k - 1 else k
  }

  /** How far the state file gets: past all but one whose save failed or that killed the process. */
  function Filed(replies: seq<Reply>, persistent: bool, k: nat): nat
    requires k <= |replies|
  {
    if k > 0 && !GoesOn(replies[k - 1], persistent) then k - 1 else k
  }

  function LastOf(ordered: seq<Sig>, k: nat, before: Option<Sig>): Option<Sig>
    requires k <= |ordered|
  {
    if k == 0 then before else Some(ordered[k - 1])
  }

  /** What a delivery that attempts `k` transactions leaves, and how it ends. */
  ghost predicate Leaves(d: Desk, ordered: seq<Sig>, replies: seq<Reply>, persistent: bool, k: nat, after: Desk,
                         status: Status)
  {
    && StopsAfter(|ordered|, replies, persistent, k)
    && after.handed == d.handed + ordered[..k]
    && after.cursor == LastOf(ordered, Passed(replies, k), d.cursor)
    && after.saved == (if persistent then LastOf(ordered, Filed(replies, persistent, k), d.saved) else d.saved)
    && (status.Crashed? <==> k > 0 && replies[k - 1].Crash?)
    && (status.Failed? <==>
        || (k > 0 && persistent && replies[k - 1].SaveThrows?)
        || (k < |ordered| && k < |replies| && replies[k].Throws? && (k == 0 || GoesOn(replies[k - 1], persistent))))
  }

  lemma OneMoreLeaves(d: Desk, ordered: seq<Sig>, replies: seq<Reply>, persistent: bool, k: nat, after: Desk,
                      status: Status)
    requires ordered != [] && replies != [] && GoesOn(replies[0], persistent)
    requires Leaves(Advance(d, ordered[0], persistent), ordered[1..], replies[1..], persistent, k, after, status)
    ensures Leaves(d, ordered, replies, persistent, k + 1, after, status)
  {
    TakeRegroups(d.handed, ordered, k + 1);
    forall i | 0 <= i < k ensures GoesOn(replies[i], persistent) {
      if i > 0 { assert replies[1..][i - 1] == replies[i]; }
    }
  }

  /** A whole delivery at once: what it attempts, both cursors, and its status. */
  lemma {:induction false} DeliveryAtOnce(d: Desk, ordered: seq<Sig>, replies: seq<Reply>, persistent: bool)
    ensures var k, (after, status) := Taken(|ordered|, replies, persistent), Deliver(d, ordered, replies, persistent);
            Leaves(d, ordered, replies, persistent, k, after, status)
    decreases |ordered|
  {
    var k := Taken(|ordered|, replies, persistent);
    var (after, status) := Deliver(d, ordered, replies, persistent);
    if k > 0 && GoesOn(replies[0], persistent) {
      DeliveryAtOnce(Advance(d, ordered[0], persistent), ordered[1..], replies[1..], persistent);
      OneMoreLeaves(d, ordered, replies, persistent, k - 1, after, status);
    } else if k > 0 {
      assert ordered[..1] == [ordered[0]];
    }
  }

  ghost predicate Known(c: Option<Sig>, handed: seq<Sig>) {
    c.Some? ==> c.value in handed
  }

  /** Both cursors only ever name transactions that were handed over. */
  lemma {:induction false} DeliverKeepsKnown(d: Desk, ordered: seq<Sig>, replies: seq<Reply>, persistent: bool)
    requires Known(d.cursor, d.handed) && Known(d.saved, d.handed)
    ensures var after := Deliver(d, ordered, replies, persistent).0;
            Known(after.cursor, after.handed) && Known(after.saved, after.handed)
    decreases |ordered|
  {
    if ordered != [] && replies != [] && (replies[0].Delivered? || (replies[0].SaveThrows? && !persistent)) {
      DeliverKeepsKnown(Advance(d, ordered[0], persistent), ordered[1..], replies[1..], persistent);
    }
  }

  lemma StretchStep(handed: seq<Sig>, log: seq<Sig>, start: nat, k: nat)
    requires Distinct(log) && 0 < k && start + k <= |log|
    ensures GapFree(handed + log[start..start + k], log)
       <==> GapFree(handed + log[start..start + k - 1], log) && AllHanded(handed, log, start)
  {
    var earlier, s := handed + log[start..start + k - 1], log[start + k - 1];
    assert handed + log[start..start + k] == earlier + [s];
    IndexIsPosition(log, start + k - 1);
    OnlyOlder(handed, log, start, k - 1);
    GapFreeGrows(earlier, s, log);
  }

  /** Appending a stretch of the log leaves no gap exactly when there was none and everything before the
      stretch was handed. */
  lemma {:induction false} StretchIsGapFree(handed: seq<Sig>, log: seq<Sig>, start: nat, k: nat)
    requires Distinct(log) && start + k <= |log|
    ensures GapFree(handed + log[start..start + k], log)
       <==> GapFree(handed, log) && (k == 0 || AllHanded(handed, log, start))
    decreases k
  {
    if k == 0 {
      assert handed + log[start..start + k] == handed;
    } else {
      StretchIsGapFree(handed, log, start, k - 1);
      StretchStep(handed, log, start, k);
    }
  }

  lemma OnlyOlder(handed: seq<Sig>, log: seq<Sig>, start: nat, k: nat)
    requires Distinct(log) && start + k <= |log|
    ensures AllHanded(handed + log[start..start + k], log, start + k) <==> AllHanded(handed, log, start)
  {
    var stretch := log[start..start + k];
    forall i | start <= i < start + k ensures Has(handed + stretch, log[i]) {
      assert log[i] == stretch[i - start];
    }
    if AllHanded(handed, log, start) { AllHandedStays(handed, stretch, log, start); }
    if AllHanded(handed + stretch, log, start + k) {
      forall i | 0 <= i < start ensures Has(handed, log[i]) {
        assert Has(handed + stretch, log[i]) && log[i] !in stretch;
      }
    }
  }

  // ---------------------------------------------------------------------------
  // The invariant of a run

  ghost predicate Sound(d: Desk, log: seq<Sig>) {
    && Known(d.cursor, d.handed) && Known(d.saved, d.handed)
    && forall s | s in d.handed :: s in log
  }

  /** A cursor never passes a transaction that was not attempted. */
  lemma CursorPassesNothing(c: Option<Sig>, handed: seq<Sig>, log: seq<Sig>)
    requires GapFree(handed, log) && Known(c, handed)
    ensures AfterCursor(log, c) <= Reached(handed, log) && AllHanded(handed, log, AfterCursor(log, c))
  {
    if c.Some? { HandedIsClosed(handed, log, c.value); }
    ReachedIsLongest(handed, log, AfterCursor(log, c));
  }

  function Pass(d: Desk, log: seq<Sig>, replies: seq<Reply>, persistent: bool, limit: nat): (Desk, Status) {
    Deliver(d, log[Start(log, d.cursor, limit)..], replies, persistent)
  }

  function TakenBy(d: Desk, log: seq<Sig>, replies: seq<Reply>, persistent: bool, limit: nat): nat {
    Taken(|log| - Start(log, d.cursor, limit), replies, persistent)
  }

  /** What is not yet handed over fits into one pass. */
  ghost predicate BacklogFits(d: Desk, log: seq<Sig>, limit: nat) {
    |log| - Reached(d.handed, log) <= MAX_PAGES * limit
  }

  lemma PassTakes(d: Desk, log: seq<Sig>, replies: seq<Reply>, persistent: bool, limit: nat)
    ensures var start, k := Start(log, d.cursor, limit), TakenBy(d, log, replies, persistent, limit);
            start + k <= |log| && Pass(d, log, replies, persistent, limit).0.handed == d.handed + log[start..start + k]
  {
    var start, k := Start(log, d.cursor, limit), TakenBy(d, log, replies, persistent, limit);
    DeliverTakes(d, log[start..], replies, persistent);
    assert log[start..][..k] == log[start..start + k];
  }

  lemma PassIsSound(d: Desk, log: seq<Sig>, replies: seq<Reply>, persistent: bool, limit: nat)
    requires Sound(d, log)
    ensures Sound(Pass(d, log, replies, persistent, limit).0, log)
  {
    PassTakes(d, log, replies, persistent, limit);
    DeliverKeepsKnown(d, log[Start(log, d.cursor, limit)..], replies, persistent);
  }

  /** Where a pass starts leaves nothing out exactly when the backlog fits into its window. */
  lemma WindowCoversBacklog(d: Desk, log: seq<Sig>, limit: nat)
    requires GapFree(d.handed, log) && Known(d.cursor, d.handed)
    ensures AllHanded(d.handed, log, Start(log, d.cursor, limit)) <==> BacklogFits(d, log, limit)
  {
    CursorPassesNothing(d.cursor, d.handed, log);
    ReachedIsLongest(d.handed, log, Start(log, d.cursor, limit));
  }

  /** A pass leaves the handed transactions gap-free exactly when they were so before and the pass
      attempts nothing or finds a backlog that fits into its window. */
  lemma PassSkipsNothing(d: Desk, log: seq<Sig>, replies: seq<Reply>, persistent: bool, limit: nat)
    requires Distinct(log) && Sound(d, log)
    ensures GapFree(Pass(d, log, replies, persistent, limit).0.handed, log)
       <==> GapFree(d.handed, log) && (TakenBy(d, log, replies, persistent, limit) == 0 || BacklogFits(d, log, limit))
  {
    var start, k := Start(log, d.cursor, limit), TakenBy(d, log, replies, persistent, limit);
    PassTakes(d, log, replies, persistent, limit);
    StretchIsGapFree(d.handed, log, start, k);
    if GapFree(d.handed, log) { WindowCoversBacklog(d, log, limit); }
  }

  // ---------------------------------------------------------------------------
  // Runs

  datatype Round =
    | Poll(log: seq<Sig>, replies: seq<Reply>, fetched: bool)   // `fetched` is false when a page fetch throws
    | Restart(readable: bool)

  function Turn(d: Desk, r: Round, persistent: bool, limit: nat): Desk {
    match r
    case Restart(readable) => Restarted(d, readable)
    case Poll(log, replies, fetched) => if fetched then Pass(d, log, replies, persistent, limit).0 else d
  }

  function After(d: Desk, rounds: seq<Round>, persistent: bool, limit: nat): Desk {
    if rounds == [] then d
    else Turn(After(d, rounds[..|rounds| - 1], persistent, limit), rounds[|rounds| - 1], persistent, limit)
  }

  lemma AfterMore(d: Desk, rounds: seq<Round>, r: Round, persistent: bool, limit: nat)
    ensures After(d, rounds + [r], persistent, limit) == Turn(After(d, rounds, persistent, limit), r, persistent, limit)
  {
    assert (rounds + [r])[..|rounds|] == rounds;
  }

  const FIRST_START: Desk := Desk(None, None, [])

  /** The log as last seen. */
  function LogOf(rounds: seq<Round>): seq<Sig> {
    if rounds == [] then []
    else if rounds[|rounds| - 1].Poll? then rounds[|rounds| - 1].log
    else LogOf(rounds[..|rounds| - 1])
  }

  /** The log only grows at its head and never repeats a signature. */
  ghost predicate Appending(rounds: seq<Round>) {
    rounds == [] ||
    var before := rounds[..|rounds| - 1];
    Appending(before) && LogOf(before) <= LogOf(rounds) && Distinct(LogOf(rounds))
  }

  /** Every poll that attempts something finds a backlog that fits into its window. */
  ghost predicate KeepsUp(rounds: seq<Round>, persistent: bool, limit: nat) {
    rounds == [] ||
    var before, r := rounds[..|rounds| - 1], rounds[|rounds| - 1];
    var d := After(FIRST_START, before, persistent, limit);
    && KeepsUp(before, persistent, limit)
    && (r.Poll? && r.fetched ==> TakenBy(d, r.log, r.replies, persistent, limit) == 0 || BacklogFits(d, r.log, limit))
  }

  lemma {:induction false} RunIsSound(rounds: seq<Round>, persistent: bool, limit: nat)
    requires Appending(rounds)
    ensures Distinct(LogOf(rounds)) && Sound(After(FIRST_START, rounds, persistent, limit), LogOf(rounds))
    decreases |rounds|
  {
    if rounds != [] {
      var before, r := rounds[..|rounds| - 1], rounds[|rounds| - 1];
      RunIsSound(before, persistent, limit);
      if r.Poll? && r.fetched {
        PassIsSound(After(FIRST_START, before, persistent, limit), r.log, r.replies, persistent, limit);
      }
    }
  }

  /** The dispatcher never skips: over every run the handed transactions are gap-free exactly when every
      attempting poll found its backlog within 200 pages. Failures, crashes, lost state and a log that
      grows in between change nothing. */
  lemma {:induction false} RunSkipsNothing(rounds: seq<Round>, persistent: bool, limit: nat)
    requires Appending(rounds)
    ensures GapFree(After(FIRST_START, rounds, persistent, limit).handed, LogOf(rounds))
       <==> KeepsUp(rounds, persistent, limit)
    decreases |rounds|
  {
    if rounds != [] {
      var before, r := rounds[..|rounds| - 1], rounds[|rounds| - 1];
      var d := After(FIRST_START, before, persistent, limit);
      RunSkipsNothing(before, persistent, limit);
      RunIsSound(before, persistent, limit);
      GapFreeInLonger(d.handed, LogOf(before), LogOf(rounds));
      if r.Poll? && r.fetched { PassSkipsNothing(d, r.log, r.replies, persistent, limit); }
    }
  }

  /** In a run that keeps up, neither cursor ever passes a transaction that was not attempted. */
  lemma CursorsStayBehind(rounds: seq<Round>, persistent: bool, limit: nat)
    requires Appending(rounds) && KeepsUp(rounds, persistent, limit)
    ensures var d, log := After(FIRST_START, rounds, persistent, limit), LogOf(rounds);
            && AllHanded(d.handed, log, AfterCursor(log, d.cursor))
            && AllHanded(d.handed, log, AfterCursor(log, d.saved))
  {
    var d, log := After(FIRST_START, rounds, persistent, limit), LogOf(rounds);
    RunIsSound(rounds, persistent, limit);
    RunSkipsNothing(rounds, persistent, limit);
    CursorPassesNothing(d.cursor, d.handed, log);
    CursorPassesNothing(d.saved, d.handed, log);
  }

  /** The distance from the cursor bounds the backlog, so watching the cursor is enough to keep up. */
  lemma CursorBoundsBacklog(rounds: seq<Round>, log: seq<Sig>, persistent: bool, limit: nat)
    requires Appending(rounds) && KeepsUp(rounds, persistent, limit) && LogOf(rounds) <= log && Distinct(log)
    ensures var d := After(FIRST_START, rounds, persistent, limit);
            |log| - AfterCursor(log, d.cursor) <= MAX_PAGES * limit ==> BacklogFits(d, log, limit)
  {
    var d := After(FIRST_START, rounds, persistent, limit);
    RunIsSound(rounds, persistent, limit);
    RunSkipsNothing(rounds, persistent, limit);
    GapFreeInLonger(d.handed, LogOf(rounds), log);
    CursorPassesNothing(d.cursor, d.handed, log);
  }

  // ---------------------------------------------------------------------------
  // A pass that meets no obstacle

  ghost predicate AllAvailable(replies: seq<Reply>, n: nat) {
    |replies| >= n && forall i | 0 <= i < n :: replies[i].Delivered?
  }

  lemma {:induction false} DeliversAll(d: Desk, ordered: seq<Sig>, replies: seq<Reply>, persistent: bool)
    requires AllAvailable(replies, |ordered|)
    ensures var (after, status) := Deliver(d, ordered, replies, persistent);
            && status.Finished? && after.handed == d.handed + ordered
            && (ordered != [] ==> after.cursor == Some(ordered[|ordered| - 1]))
            && (ordered == [] ==> after == d)
    decreases |ordered|
  {
    if ordered != [] {
      var rest, next := ordered[1..], replies[1..];
      assert forall i | 0 <= i < |rest| :: next[i] == replies[i + 1];
      DeliversAll(Advance(d, ordered[0], persistent), rest, next, persistent);
      assert ordered == [ordered[0]] + rest;
    }
  }

  lemma PassDelivers(d: Desk, log: seq<Sig>, replies: seq<Reply>, persistent: bool, limit: nat)
    requires AllAvailable(replies, |log| - Start(log, d.cursor, limit))
    ensures var start, (after, status) := Start(log, d.cursor, limit), Pass(d, log, replies, persistent, limit);
            && status.Finished? && after.handed == d.handed + log[start..]
            && (if start < |log| then after.cursor == Some(log[|log| - 1]) else after == d)
  {
    DeliversAll(d, log[Start(log, d.cursor, limit)..], replies, persistent);
  }

  /** A pass over available transactions hands over its whole window and brings the cursor to the head;
      the next pass over the same log then attempts nothing, whatever the replies. */
  lemma SecondPassIsIdle(d: Desk, log: seq<Sig>, replies: seq<Reply>, again: seq<Reply>, persistent: bool, limit: nat)
    requires Distinct(log) && AllAvailable(replies, |log| - Start(log, d.cursor, limit))
    ensures var (after, status) := Pass(d, log, replies, persistent, limit);
            && status.Finished? && after.handed == d.handed + log[Start(log, d.cursor, limit)..]
            && Pass(after, log, again, persistent, limit) == (after, Finished)
  {
    PassDelivers(d, log, replies, persistent, limit);
    if Start(log, d.cursor, limit) < |log| { IndexIsPosition(log, |log| - 1); }
  }

  /** A restart knows nothing but the state file: with it, the next pass takes up after the last saved
      transaction, and without it everything within 200 pages is handed over again. */
  lemma RestartTakesUp(d: Desk, readable: bool, log: seq<Sig>, replies: seq<Reply>, persistent: bool, limit: nat)
    requires AllAvailable(replies, |log|)
    ensures Pass(Restarted(d, readable), log, replies, persistent, limit).0.handed
         == d.handed + if readable then log[Start(log, d.saved, limit)..]
                       else log[if |log| > MAX_PAGES * limit then |log| - MAX_PAGES * limit else 0..]
  {
    PassDelivers(Restarted(d, readable), log, replies, persistent, limit);
  }

  lemma PassCatchesUp(d: Desk, log: seq<Sig>, replies: seq<Reply>, persistent: bool, limit: nat)
    requires Distinct(log) && Sound(d, log) && GapFree(d.handed, log) && BacklogFits(d, log, limit)
    requires AllAvailable(replies, |log| - Start(log, d.cursor, limit))
    ensures Reached(Pass(d, log, replies, persistent, limit).0.handed, log) == |log|
  {
    var start := Start(log, d.cursor, limit);
    CursorPassesNothing(d.cursor, d.handed, log);
    PassDelivers(d, log, replies, persistent, limit);
    ReachedIsLongest(d.handed, log, start);
    HeadIsReached(d.handed, log, start);
  }

  lemma HeadIsReached(handed: seq<Sig>, log: seq<Sig>, start: nat)
    requires Distinct(log) && start <= |log| && AllHanded(handed, log, start)
    ensures Reached(handed + log[start..], log) == |log|
  {
    assert log[start..start + (|log| - start)] == log[start..];
    OnlyOlder(handed, log, start, |log| - start);
    ReachedIsLongest(handed + log[start..], log, |log|);
  }

  /** Catching up: when the backlog fits and everything is available, nothing in the log stays unhanded. */
  lemma RunCatchesUp(rounds: seq<Round>, log: seq<Sig>, replies: seq<Reply>, persistent: bool, limit: nat)
    requires Appending(rounds) && KeepsUp(rounds, persistent, limit) && LogOf(rounds) <= log && Distinct(log)
    requires BacklogFits(After(FIRST_START, rounds, persistent, limit), log, limit)
    requires AllAvailable(replies, |log| - Start(log, After(FIRST_START, rounds, persistent, limit).cursor, limit))
    ensures Reached(After(FIRST_START, rounds + [Poll(log, replies, true)], persistent, limit).handed, log) == |log|
  {
    var d := After(FIRST_START, rounds, persistent, limit);
    AfterMore(FIRST_START, rounds, Poll(log, replies, true), persistent, limit);
    RunIsSound(rounds, persistent, limit);
    RunSkipsNothing(rounds, persistent, limit);
    GapFreeInLonger(d.handed, LogOf(rounds), log);
    PassCatchesUp(d, log, replies, persistent, limit);
  }

  lemma BeginningWasHanded(handed: seq<Sig>, log: seq<Sig>, s: Sig)
    requires GapFree(handed, log) && s in handed
    ensures log != [] && Has(handed, log[0])
  {
    HandedIsClosed(handed, log, s);
  }

  lemma LateStartIsGap(log: seq<Sig>, start: nat)
    requires Distinct(log) && 0 < start < |log|
    ensures log[0] !in log[start..] && !GapFree([] + log[start..], log)
  {
    var handed := log[start..];
    assert [] + handed == handed && handed[0] == log[start];
    if GapFree(handed, log) { BeginningWasHanded(handed, log, log[start]); }
  }

  /** The bound is real: a first start on a longer history puts the cursor at the head and never looks back. */
  lemma LongHistoryIsSkipped(d: Desk, log: seq<Sig>, replies: seq<Reply>, persistent: bool, limit: nat)
    requires d == FIRST_START && Distinct(log) && limit > 0 && |log| > MAX_PAGES * limit && AllAvailable(replies, |log|)
    ensures var after := Pass(d, log, replies, persistent, limit).0;
            log[0] !in after.handed && after.cursor == Some(log[|log| - 1]) && !GapFree(after.handed, log)
  {
    PassDelivers(d, log, replies, persistent, limit);
    LateStartIsGap(log, |log| - MAX_PAGES * limit);
  }

  // ---------------------------------------------------------------------------
  // Runs that lose no cursor deliver exactly once

  ghost predicate NoCrash(replies: seq<Reply>) {
    forall i | 0 <= i < |replies| :: !replies[i].Crash?
  }

  /** Nobody dies in the middle of a delivery, and a restart, if any, reads back the cursor the process had. */
  ghost predicate LosesNothing(rounds: seq<Round>, persistent: bool, limit: nat) {
    rounds == [] ||
    var before, r := rounds[..|rounds| - 1], rounds[|rounds| - 1];
    var d := After(FIRST_START, before, persistent, limit);
    && LosesNothing(before, persistent, limit)
    && match r
       case Restart(readable) => Restarted(d, readable).cursor == d.cursor
       case Poll(_, replies, _) => NoCrash(replies)
  }

  /** Handed exactly the log up to the cursor, once each and in order. */
  ghost predicate OnceInOrder(d: Desk, log: seq<Sig>) {
    d.handed == log[..AfterCursor(log, d.cursor)] && (d.cursor.Some? ==> d.cursor.value in log)
  }

  lemma HandOne(d: Desk, log: seq<Sig>, start: nat, next: Desk)
    requires Distinct(log) && start < |log| && start == AfterCursor(log, d.cursor) && OnceInOrder(d, log)
    requires next.cursor == Some(log[start]) && next.handed == d.handed + [log[start]]
    ensures OnceInOrder(next, log) && AfterCursor(log, next.cursor) == start + 1
  {
    IndexIsPosition(log, start);
    assert next.handed == log[..start + 1];
  }

  /** A delivery without a crash, whether writing the state file fails or not. */
  lemma {:induction false} DeliveryKeepsOrder(d: Desk, log: seq<Sig>, start: nat, replies: seq<Reply>, persistent: bool)
    requires Distinct(log) && start <= |log| && start == AfterCursor(log, d.cursor) && OnceInOrder(d, log)
    requires NoCrash(replies)
    ensures OnceInOrder(Deliver(d, log[start..], replies, persistent).0, log)
    decreases |log| - start
  {
    if start < |log| && replies != [] && (replies[0].Delivered? || replies[0].SaveThrows?) {
      assert log[start..][0] == log[start];
      if replies[0].SaveThrows? && persistent {
        HandOne(d, log, start, Deliver(d, log[start..], replies, persistent).0);
      } else {
        var next := Advance(d, log[start], persistent);
        HandOne(d, log, start, next);
        assert log[start..][1..] == log[start + 1..];
        assert forall i | 0 <= i < |replies[1..]| :: replies[1..][i] == replies[i + 1];
        DeliveryKeepsOrder(next, log, start + 1, replies[1..], persistent);
      }
    }
  }

  lemma OnceInOrderInLonger(d: Desk, log: seq<Sig>, longer: seq<Sig>)
    requires OnceInOrder(d, log) && log <= longer && Distinct(longer)
    ensures OnceInOrder(d, longer)
  {
    if d.cursor.Some? { IndexInExtension(log, longer, d.cursor.value); }
    assert log == longer[..|log|];
  }

  lemma PassKeepsOrder(d: Desk, log: seq<Sig>, replies: seq<Reply>, persistent: bool, limit: nat)
    requires Distinct(log) && OnceInOrder(d, log) && NoCrash(replies)
    requires TakenBy(d, log, replies, persistent, limit) == 0 || BacklogFits(d, log, limit)
    ensures OnceInOrder(Pass(d, log, replies, persistent, limit).0, log)
  {
    var cut, start := AfterCursor(log, d.cursor), Start(log, d.cursor, limit);
    var k := TakenBy(d, log, replies, persistent, limit);
    if k == 0 {
      DeliverTakes(d, log[start..], replies, persistent);
    } else {
      assert cut < |log| ==> !Has(d.handed, log[cut]);
      ReachedIsLongest(d.handed, log, cut);
      assert start == cut;
      DeliveryKeepsOrder(d, log, cut, replies, persistent);
    }
  }

  /** A run that keeps up and loses no cursor hands over the log up to the cursor, once each and in order,
      even where writing the state file fails time and again: the process remembers the cursor itself. */
  lemma {:induction false} LosslessRunsDeliverOnce(rounds: seq<Round>, persistent: bool, limit: nat)
    requires Appending(rounds) && KeepsUp(rounds, persistent, limit) && LosesNothing(rounds, persistent, limit)
    ensures OnceInOrder(After(FIRST_START, rounds, persistent, limit), LogOf(rounds))
    decreases |rounds|
  {
    if rounds != [] {
      var before, r := rounds[..|rounds| - 1], rounds[|rounds| - 1];
      var d, log := After(FIRST_START, before, persistent, limit), LogOf(rounds);
      LosslessRunsDeliverOnce(before, persistent, limit);
      OnceInOrderInLonger(d, LogOf(before), log);
      if r.Poll? && r.fetched { PassKeepsOrder(d, log, r.replies, persistent, limit); }
    }
  }

  /** No crash, no failed write, and a restart only with a readable state file. */
  ghost predicate Clean(r: Round, persistent: bool) {
    match r
    case Restart(readable) => persistent && readable
    case Poll(_, replies, _) => NoCrash(replies) && forall i | 0 <= i < |replies| :: !replies[i].SaveThrows?
  }

  lemma {:induction false} CleanDeliverySaves(d: Desk, ordered: seq<Sig>, replies: seq<Reply>, persistent: bool)
    requires Clean(Poll(ordered, replies, true), persistent) && (persistent ==> d.saved == d.cursor)
    ensures var after := Deliver(d, ordered, replies, persistent).0; persistent ==> after.saved == after.cursor
    decreases |ordered|
  {
    if ordered != [] && replies != [] && replies[0].Delivered? {
      assert forall i | 0 <= i < |replies[1..]| :: replies[1..][i] == replies[i + 1];
      CleanDeliverySaves(Advance(d, ordered[0], persistent), ordered[1..], replies[1..], persistent);
    }
  }

  lemma {:induction false} CleanRunsLoseNothing(rounds: seq<Round>, persistent: bool, limit: nat)
    requires forall r | r in rounds :: Clean(r, persistent)
    ensures LosesNothing(rounds, persistent, limit)
    ensures var d := After(FIRST_START, rounds, persistent, limit); persistent ==> d.saved == d.cursor
    decreases |rounds|
  {
    if rounds != [] {
      var before, r := rounds[..|rounds| - 1], rounds[|rounds| - 1];
      var d := After(FIRST_START, before, persistent, limit);
      CleanRunsLoseNothing(before, persistent, limit);
      assert Clean(r, persistent);
      if r.Poll? {
        var ordered := r.log[Start(r.log, d.cursor, limit)..];
        assert Clean(Poll(ordered, r.replies, true), persistent);
        CleanDeliverySaves(d, ordered, r.replies, persistent);
      }
    }
  }

  /** Without a mishap the state file agrees with the process, so restarts lose nothing either. */
  lemma CleanRunsDeliverOnce(rounds: seq<Round>, persistent: bool, limit: nat)
    requires Appending(rounds) && KeepsUp(rounds, persistent, limit) && forall r | r in rounds :: Clean(r, persistent)
    ensures var d := After(FIRST_START, rounds, persistent, limit);
            OnceInOrder(d, LogOf(rounds)) && (persistent ==> d.saved == d.cursor)
  {
    CleanRunsLoseNothing(rounds, persistent, limit);
    LosslessRunsDeliverOnce(rounds, persistent, limit);
  }

  // ---------------------------------------------------------------------------
  // The long-running process

  datatype Sight = Sight(logAt: nat -> seq<Sig>, fetchThrows: nat -> bool, replies: seq<Reply>)

  /** The round a process played when it polled and saw `s`. */
  ghost predicate Plays(r: Round, s: Sight) {
    && r.Poll? && r.log == s.logAt(0) && r.replies == s.replies
    && (!r.fetched ==> exists i: nat :: s.fetchThrows(i))
  }

  method PollRound(p: Poller, s: Sight) returns (ghost r: Round, status: Status)
    requires forall i: nat :: s.logAt(0) <= s.logAt(i) && Distinct(s.logAt(i))
    modifies p
    ensures Plays(r, s) && p.State() == Turn(old(p.State()), r, p.persistent, p.limit)
  {
    ghost var before := p.State();
    var processed, delivered, failed;
    status, processed, delivered, failed := p.PollOnce(s.logAt, s.fetchThrows, s.replies);
    ghost var fetched := p.State() == Pass(before, s.logAt(0), s.replies, p.persistent, p.limit).0;
    r := Poll(s.logAt(0), s.replies, fetched);
  }

  /** One life of the process: load the state, then poll until told to stop or until it dies. */
  method RunDispatcher(p: Poller, readable: bool, sights: seq<Sight>) returns (ghost rounds: seq<Round>, polls: nat)
    requires forall s, i: nat | s in sights :: s.logAt(0) <= s.logAt(i) && Distinct(s.logAt(i))
    modifies p
    ensures polls <= |sights| && |rounds| == polls + 1 && rounds[0] == Restart(readable)
    ensures forall i | 0 <= i < polls :: Plays(rounds[i + 1], sights[i])
    ensures p.State() == After(old(p.State()), rounds, p.persistent, p.limit)
  {
    p.LoadState(readable);
    rounds, polls := [Restart(readable)], 0;
    AfterMore(old(p.State()), [], Restart(readable), p.persistent, p.limit);
    while polls < |sights|
      invariant polls <= |sights| && |rounds| == polls + 1 && rounds[0] == Restart(readable)
      invariant forall i | 0 <= i < polls :: Plays(rounds[i + 1], sights[i])
      invariant p.State() == After(old(p.State()), rounds, p.persistent, p.limit)
    {
      ghost var r;
      var status;
      r, status := PollRound(p, sights[polls]);
      AfterMore(old(p.State()), rounds, r, p.persistent, p.limit);
      rounds, polls := rounds + [r], polls + 1;
      if status.Crashed? { return; }
    }
  }
}
