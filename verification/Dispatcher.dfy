/** The webhook dispatcher: paging backwards over a growing log, ordered delivery, a persisted cursor. */
module Dispatcher {
  import opened Words
  import opened Wrappers
  import opened Sequences

  type Sig = nat

  const MAX_PAGES: nat := 200

  // ---------------------------------------------------------------------------
  // The log: oldest first, distinct signatures, only ever appended to

  /** The position of `s`, or the length if it is absent. */
  function IndexOf(q: seq<Sig>, s: Sig): (i: nat)
    ensures i <= |q| && (i < |q| ==> q[i] == s) && (i == |q| <==> s !in q)
  {
    if q == [] || q[0] == s then 0 else 1 + IndexOf(q[1..], s)
  }

  /** `getSignaturesForAddress`: up to `limit` entries older than `before`, newest first. */
  function Page(log: seq<Sig>, before: Option<Sig>, limit: nat): seq<Sig> {
    var end := if before.Some? then IndexOf(log, before.value) else |log|;
    Reverse(log[Max(0, end - limit)..end])
  }

  lemma {:induction false} IndexIsPosition(q: seq<Sig>, i: nat)
    requires Distinct(q) && i < |q|
    ensures IndexOf(q, q[i]) == i
  {
    if i > 0 {
      assert q[0] != q[i] && q[1..][i - 1] == q[i];
      IndexIsPosition(q[1..], i - 1);
    }
  }

  lemma IndexInExtension(log: seq<Sig>, longer: seq<Sig>, s: Sig)
    requires log <= longer && Distinct(longer) && s in log
    ensures IndexOf(longer, s) == IndexOf(log, s)
  {
    IndexIsPosition(longer, IndexOf(log, s));
  }

  // ---------------------------------------------------------------------------
  // Which part of the log a pass takes

  /** How many entries are at or before the cursor. */
  function AfterCursor(log: seq<Sig>, cursor: Option<Sig>): (n: nat)
    ensures n <= |log|
  {
    if cursor.Some? && cursor.value in log then IndexOf(log, cursor.value) + 1 else 0
  }

  /** A pass starts right after the cursor, unless more than 200 pages lie between it and the head. */
  function Start(log: seq<Sig>, cursor: Option<Sig>, limit: nat): (n: nat)
    ensures n <= |log|
  {
    Max(AfterCursor(log, cursor), |log| - MAX_PAGES * limit)
  }

  // ---------------------------------------------------------------------------
  // What may happen to one transaction

  datatype Reply =
    | Missing                                  // not available yet
    | Throws                                   // fetching or decoding raised an error
    | Delivered(outcomes: seq<seq<bool>>)      // one list of HTTP outcomes per event
    | SaveThrows(outcomes: seq<seq<bool>>)     // delivered, but writing the state file failed
    | Crash                                    // the process died during delivery, before saving

  /** In-memory cursor, state file, and everything ever handed to delivery, in order. */
  datatype Desk = Desk(cursor: Option<Sig>, saved: Option<Sig>, handed: seq<Sig>)

  datatype Status = Finished | Failed | Crashed

  function Advance(d: Desk, s: Sig, persistent: bool): Desk {
    Desk(Some(s), if persistent then Some(s) else d.saved, d.handed + [s])
  }

  /** Hands over the listed transactions in order until something stops the pass. */
  function Deliver(d: Desk, ordered: seq<Sig>, replies: seq<Reply>, persistent: bool): (Desk, Status)
    decreases |ordered|
  {
    if ordered == [] || replies == [] then (d, Finished)
    else
      match replies[0]
      case Missing => (d, Finished)
      case Throws => (d, Failed)
      case Crash => (Desk(d.cursor, d.saved, d.handed + [ordered[0]]), Crashed)
      case SaveThrows(_) =>
        if persistent then (Desk(Some(ordered[0]), d.saved, d.handed + [ordered[0]]), Failed)
        else Deliver(Advance(d, ordered[0], persistent), ordered[1..], replies[1..], persistent)
      case Delivered(_) => Deliver(Advance(d, ordered[0], persistent), ordered[1..], replies[1..], persistent)
  }

  /** A restart reads the cursor back from the state file; a missing or unreadable file means no cursor. */
  function Restarted(d: Desk, readable: bool): Desk {
    d.(cursor := if readable then d.saved else None)
  }

  // ---------------------------------------------------------------------------
  // Delivering one event

  /** Whether one of the first `maxAttempts` attempts succeeds. */
  predicate Succeeds(outcomes: seq<bool>, maxAttempts: int) {
    exists i :: 0 <= i < Min(maxAttempts, |outcomes|) && outcomes[i]
  }

  method DeliverWebhook(outcomes: seq<bool>, maxAttempts: int) returns (ok: bool, attempts: int)
    ensures ok <==> Succeeds(outcomes, maxAttempts)
    ensures ok ==>
              && 1 <= attempts <= Min(maxAttempts, |outcomes|) && outcomes[attempts - 1]
              && forall i | 0 <= i < attempts - 1 :: !outcomes[i]
    ensures !ok ==> attempts == maxAttempts && forall i | 0 <= i < |outcomes| && i < maxAttempts :: !outcomes[i]
  {
    var attempt := 1;
    while attempt <= maxAttempts
      invariant 1 <= attempt <= Max(1, maxAttempts + 1)
      invariant forall i | 0 <= i < Min(attempt - 1, |outcomes|) :: !outcomes[i]
    {
      if attempt <= |outcomes| && outcomes[attempt - 1] { return true, attempt; }
      attempt := attempt + 1;
    }
    return false, maxAttempts;
  }

  /** Events of one transaction that end up delivered. */
  function Successes(events: seq<seq<bool>>, maxAttempts: int): nat {
    if events == [] then 0
    else Successes(events[..|events| - 1], maxAttempts) + if Succeeds(events[|events| - 1], maxAttempts) then 1 else 0
  }

  method DeliverEvents(events: seq<seq<bool>>, maxAttempts: int) returns (delivered: nat, failed: nat)
    ensures delivered == Successes(events, maxAttempts) && delivered + failed == |events|
  {
    delivered, failed := 0, 0;
    for i := 0 to |events|
      invariant delivered == Successes(events[..i], maxAttempts) && delivered + failed == i
    {
      assert events[..i + 1][..i] == events[..i];
      var ok, attempts := DeliverWebhook(events[i], maxAttempts);
      if ok { delivered := delivered + 1; } else { failed := failed + 1; }
    }
    assert events[..|events|] == events;
  }

  function Outcomes(r: Reply): seq<seq<bool>> {
    if r.Delivered? || r.SaveThrows? then r.outcomes else []
  }

  function EventsIn(replies: seq<Reply>): nat {
    if replies == [] then 0 else EventsIn(replies[..|replies| - 1]) + |Outcomes(replies[|replies| - 1])|
  }

  function DeliveriesIn(replies: seq<Reply>, maxAttempts: int): nat {
    if replies == [] then 0
    else DeliveriesIn(replies[..|replies| - 1], maxAttempts) + Successes(Outcomes(replies[|replies| - 1]), maxAttempts)
  }

  /** The counts of one pass: every event of a processed transaction was delivered or failed all its attempts. */
  predicate Counted(replies: seq<Reply>, maxAttempts: int, delivered: nat, failed: nat) {
    delivered == DeliveriesIn(replies, maxAttempts) && delivered + failed == EventsIn(replies)
  }

  lemma CountOne(replies: seq<Reply>, n: nat, maxAttempts: int, delivered: nat, failed: nat, d: nat, f: nat)
    requires n < |replies| && Counted(replies[..n], maxAttempts, delivered, failed)
    requires d == Successes(Outcomes(replies[n]), maxAttempts) && d + f == |Outcomes(replies[n])|
    ensures Counted(replies[..n + 1], maxAttempts, delivered + d, failed + f)
  {
    assert replies[..n + 1][..n] == replies[..n];
  }

  // ---------------------------------------------------------------------------
  // Paging backwards

  /** The newest `n` entries of the log, newest first. */
  function Newest(log: seq<Sig>, n: nat): seq<Sig>
    requires n <= |log|
  {
    Reverse(log[|log| - n..])
  }

  lemma PageContinues(log: seq<Sig>, later: seq<Sig>, n: nat, before: Option<Sig>, limit: nat)
    requires log <= later && Distinct(later) && n <= |log|
    requires if n == 0 then before == None && later == log else before == Some(log[|log| - n])
    ensures |Page(later, before, limit)| == Min(|log| - n, limit)
    ensures Newest(log, n) + Page(later, before, limit) == Newest(log, Min(|log|, n + limit))
  {
    var end := |log| - n;
    if n > 0 {
      assert later[end] == log[end];
      IndexIsPosition(later, end);
    }
    NewestGrows(log, later, n, limit);
  }

  lemma NewestGrows(log: seq<Sig>, later: seq<Sig>, n: nat, limit: nat)
    requires log <= later && n <= |log|
    ensures Newest(log, n) + Reverse(later[Max(0, |log| - n - limit)..|log| - n]) == Newest(log, Min(|log|, n + limit))
  {
    var start := Max(0, |log| - n - limit);
    assert later[start..|log| - n] == log[start..|log| - n];
  }

  lemma InNewest(log: seq<Sig>, n: nat, k: nat)
    requires n <= |log| && |log| - n <= k < |log|
    ensures log[k] in Newest(log, n)
  {
    assert Newest(log, n)[|log| - 1 - k] == log[k];
  }

  lemma FromNewest(log: seq<Sig>, n: nat, s: Sig) returns (k: nat)
    requires n <= |log| && s in Newest(log, n)
    ensures |log| - n <= k < |log| && log[k] == s
  {
    var i :| 0 <= i < |Newest(log, n)| && Newest(log, n)[i] == s;
    k := |log| - 1 - i;
  }

  lemma NewestHolds(log: seq<Sig>, n: nat, s: Sig)
    requires Distinct(log) && n <= |log|
    ensures s in Newest(log, n) <==> s in log && |log| - IndexOf(log, s) <= n
  {
    if s in Newest(log, n) {
      var k := FromNewest(log, n, s);
      IndexIsPosition(log, k);
    } else if s in log && |log| - IndexOf(log, s) <= n {
      InNewest(log, n, IndexOf(log, s));
    }
  }

  /** What `pages` full pages hold. */
  function Capacity(pages: nat, limit: nat): nat {
    if pages == 0 then 0 else Capacity(pages - 1, limit) + limit
  }

  lemma {:induction false} CapacityIsProduct(pages: nat, limit: nat)
    ensures Capacity(pages, limit) == pages * limit
  {
    if pages > 0 { CapacityIsProduct(pages - 1, limit); }
  }

  lemma {:induction false} CapacityGrows(a: nat, b: nat, limit: nat)
    requires a <= b
    ensures Capacity(a, limit) <= Capacity(b, limit)
    decreases b
  {
    if a < b { CapacityGrows(a, b - 1, limit); }
  }

  lemma WithinWindow(pages: nat, window: nat, limit: nat)
    requires pages <= window == MAX_PAGES
    ensures Capacity(pages, limit) <= MAX_PAGES * limit
    ensures pages == window ==> Capacity(pages, limit) == MAX_PAGES * limit
  {
    CapacityGrows(pages, window, limit);
    CapacityIsProduct(window, limit);
  }

  /** Whether the walk may end with the newest `n` entries: all there are, as many as allowed, or past the cursor. */
  ghost predicate Covers(log: seq<Sig>, cursor: Option<Sig>, limit: nat, n: nat) {
    && n <= |log| && n <= MAX_PAGES * limit
    && (n == |log| || n == MAX_PAGES * limit || (cursor.Some? && cursor.value in Newest(log, n)))
  }

  /** Where the walk stands after some full pages. */
  ghost predicate Walked(log: seq<Sig>, all: seq<Sig>, before: Option<Sig>, pages: nat, limit: nat) {
    && |all| <= |log| && all == Newest(log, |all|) && |all| == Capacity(pages, limit)
    && if pages == 0 then before == None else |all| > 0 && before == Some(log[|log| - |all|])
  }

  /** One more page. New entries do not disturb the walk: the page is anchored on the last one. */
  lemma WalkOn(log: seq<Sig>, later: seq<Sig>, all: seq<Sig>, before: Option<Sig>, pages: nat, limit: nat)
    requires log <= later && Distinct(later) && (pages == 0 ==> later == log)
    requires Walked(log, all, before, pages, limit)
    ensures var batch := Page(later, before, limit);
            var more := all + batch;
            && |more| <= |log| && more == Newest(log, |more|)
            && |batch| == Min(|log| - |all|, limit)
            && (|batch| > 0 && |batch| >= limit ==> Walked(log, more, Some(batch[|batch| - 1]), pages + 1, limit))
  {
    PageContinues(log, later, |all|, before, limit);
    assert |all + Page(later, before, limit)| == Min(|log|, |all| + limit);
  }

  lemma WalkEnds(log: seq<Sig>, cursor: Option<Sig>, limit: nat, pages: nat, window: nat, n: nat)
    requires pages <= window == MAX_PAGES && n <= |log| && n <= Capacity(pages, limit)
    requires n == |log| || limit == 0 || (pages == window && n == Capacity(pages, limit))
              || (cursor.Some? && cursor.value in Newest(log, n))
    ensures Covers(log, cursor, limit, n)
  {
    WithinWindow(pages, window, limit);
  }

  /** Walks back in pages, each read from the log as it stands then. */
  method Collect(logAt: nat -> seq<Sig>, fetchThrows: nat -> bool, cursor: Option<Sig>, limit: nat)
    returns (collected: Option<seq<Sig>>)
    requires forall i: nat :: logAt(0) <= logAt(i) && Distinct(logAt(i))
    ensures collected.None? ==> exists i: nat :: fetchThrows(i)
    ensures collected.Some? ==>
              && Covers(logAt(0), cursor, limit, |collected.value|)
              && collected.value == Newest(logAt(0), |collected.value|)
  {
    ghost var log := logAt(0);
    var all: seq<Sig> := [];
    var before: Option<Sig> := None;
    var page: nat, maxPages := 0, MAX_PAGES;
    while page < maxPages
      invariant page <= maxPages && Walked(log, all, before, page, limit)
    {
      if fetchThrows(page) { return None; }
      WalkOn(log, logAt(page), all, before, page, limit);
      var batch := Page(logAt(page), before, limit);
      all := all + batch;
      page := page + 1;
      if |batch| < limit {
        WalkEnds(log, cursor, limit, page, maxPages, |all|);
        return Some(all);
      }
      if cursor.Some? && cursor.value in batch {
        WalkEnds(log, cursor, limit, page, maxPages, |all|);
        return Some(all);
      }
      if |batch| == 0 {
        WalkEnds(log, cursor, limit, page, maxPages, |all|);
        return Some(all);
      }
      before := Some(batch[|batch| - 1]);
    }
    WalkEnds(log, cursor, limit, page, maxPages, |all|);
    return Some(all);
  }

  /** Whatever the paging stopped on, what is newer than the cursor among the collected entries is the
      log from `Start` on. */
  lemma UnseenIsTail(log: seq<Sig>, cursor: Option<Sig>, limit: nat, n: nat)
    requires Distinct(log) && Covers(log, cursor, limit, n)
    ensures var collected := Newest(log, n);
            var cutoff := if cursor.Some? then IndexOf(collected, cursor.value) else |collected|;
            Reverse(collected[..cutoff]) == log[Start(log, cursor, limit)..]
  {
    if cursor.Some? { CutoffIsDistance(log, n, cursor.value); }
    ReverseOfNewest(log, n, if cursor.Some? then IndexOf(Newest(log, n), cursor.value) else n);
  }

  lemma ReverseOfNewest(log: seq<Sig>, n: nat, k: nat)
    requires k <= n <= |log|
    ensures Reverse(Newest(log, n)[..k]) == log[|log| - k..]
  {
  }

  /** The cursor sits as deep in the newest `n` entries as it lies behind the head. */
  lemma CutoffIsDistance(log: seq<Sig>, n: nat, s: Sig)
    requires Distinct(log) && n <= |log|
    ensures s in Newest(log, n) <==> s in log && |log| - IndexOf(log, s) <= n
    ensures IndexOf(Newest(log, n), s) == if s in Newest(log, n) then |log| - 1 - IndexOf(log, s) else n
  {
    NewestHolds(log, n, s);
    if s in Newest(log, n) {
      NewestDistinct(log, n);
      IndexIsPosition(Newest(log, n), |log| - 1 - IndexOf(log, s));
    }
  }

  lemma NewestDistinct(log: seq<Sig>, n: nat)
    requires Distinct(log) && n <= |log|
    ensures Distinct(Newest(log, n))
  {
  }

  // ---------------------------------------------------------------------------
  // The dispatcher

  class Poller {
    const persistent: bool
    const limit: nat
    const maxAttempts: int
    var cursor: Option<Sig>
    var saved: Option<Sig>
    ghost var handed: seq<Sig>

    ghost function State(): Desk
      reads this
    {
      Desk(cursor, saved, handed)
    }

    /** The first start: no state file yet. */
    constructor (persistent: bool, limit: nat, maxAttempts: int)
      ensures State() == Desk(None, None, [])
      ensures this.persistent == persistent && this.limit == limit && this.maxAttempts == maxAttempts
    {
      this.persistent, this.limit, this.maxAttempts := persistent, limit, maxAttempts;
      cursor, saved, handed := None, None, [];
    }

    method LoadState(readable: bool)
      modifies this`cursor
      ensures State() == Restarted(old(State()), readable)
    {
      cursor := if readable then saved else None;
    }

    /** One pass. The log may grow between the page fetches, any call may fail, and the process may die. */
    method PollOnce(logAt: nat -> seq<Sig>, fetchThrows: nat -> bool, replies: seq<Reply>)
      returns (status: Status, processed: nat, delivered: nat, failed: nat)
      requires forall i: nat :: logAt(0) <= logAt(i) && Distinct(logAt(i))
      modifies this
      ensures (State(), status) == (old(State()), Failed)
           || (State(), status)
              == Deliver(old(State()), logAt(0)[Start(logAt(0), old(cursor), limit)..], replies, persistent)
      ensures (forall i: nat :: !fetchThrows(i)) ==>
              (State(), status)
              == Deliver(old(State()), logAt(0)[Start(logAt(0), old(cursor), limit)..], replies, persistent)
      ensures status.Finished? ==> processed == |handed| - |old(handed)|
      ensures processed <= |replies| && Counted(replies[..processed], maxAttempts, delivered, failed)
    {
      processed, delivered, failed := 0, 0, 0;
      var collected := Collect(logAt, fetchThrows, cursor, limit);
      if collected.None? { return Failed, 0, 0, 0; }
      var cutoff := if cursor.Some? then IndexOf(collected.value, cursor.value) else |collected.value|;
      var unseen := collected.value[..cutoff];
      var ordered := Reverse(unseen);
      UnseenIsTail(logAt(0), cursor, limit, |collected.value|);
      status, processed, delivered, failed := HandOver(ordered, replies);
    }

    method HandOver(ordered: seq<Sig>, replies: seq<Reply>)
      returns (status: Status, processed: nat, delivered: nat, failed: nat)
      modifies this
      ensures (State(), status) == Deliver(old(State()), ordered, replies, persistent)
      ensures status.Finished? ==> processed == |handed| - |old(handed)|
      ensures processed <= |replies| && Counted(replies[..processed], maxAttempts, delivered, failed)
    {
      processed, delivered, failed := 0, 0, 0;
      for i := 0 to |ordered|
        invariant i <= |replies| && processed == i && |handed| == |old(handed)| + i
        invariant Counted(replies[..i], maxAttempts, delivered, failed)
        invariant Deliver(old(State()), ordered, replies, persistent)
                  == Deliver(State(), ordered[i..], replies[i..], persistent)
      {
        if i == |replies| || replies[i].Missing? { return Finished, processed, delivered, failed; }
        if replies[i].Throws? { return Failed, processed, delivered, failed; }
        handed := handed + [ordered[i]];
        if replies[i].Crash? { return Crashed, processed, delivered, failed; }
        var d, f := DeliverEvents(replies[i].outcomes, maxAttempts);
        CountOne(replies, i, maxAttempts, delivered, failed, d, f);
        delivered, failed := delivered + d, failed + f;
        processed := processed + 1;
        cursor := Some(ordered[i]);
        if persistent {
          if replies[i].SaveThrows? { return Failed, processed, delivered, failed; }
          saved := cursor;
        }
        assert ordered[i..][1..] == ordered[i + 1..] && replies[i..][1..] == replies[i + 1..];
      }
      return Finished, processed, delivered, failed;
    }
  }
}
