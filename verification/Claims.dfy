/** A broadcast's claim: the one row that says who is fetching it and how that has gone. */
module Claims {
  import opened Basics
  import opened Numerals

  /** Foreign is a state this build does not know. */
  datatype FetchState = Pending | Claimed | Done | Terminal | Foreign

  datatype Claim = Claim(at: Instant, who: int)

  datatype Row = Row(state: FetchState, attempts: nat, next: Option<Instant>, claim: Option<Claim>)

  // ----- the store's statements -----

  /** ClaimFetch's condition, and what it writes. */
  predicate Claimable(row: Option<Row>, at: Instant, lease: Duration) {
    row.Some? ==>
      && row.value.state != Terminal && row.value.state != Done
      && (row.value.claim.Some? ==> row.value.claim.value.at <= at - lease)
      && (row.value.next.Some? ==> row.value.next.value <= at)
  }

  function Taken(row: Option<Row>, who: int, at: Instant): Row {
    match row
    case None => Row(Claimed, 1, None, Some(Claim(at, who)))
    case Some(r) => Row(Claimed, r.attempts + 1, r.next, Some(Claim(at, who)))
  }

  /** ReleaseFetch, which a terminal row ignores. */
  function Released(row: Row, state: FetchState): Row {
    if row.state == Terminal then row else row.(state := state, claim := None)
  }

  /** RecordFetchFailure: no retry time is the last word. */
  function Failed(row: Row, retry: Option<Instant>): Row {
    if row.state == Terminal then row
    else row.(state := if retry.None? then Terminal else Pending, next := retry, claim := None)
  }

  predicate HeldBy(row: Row, who: int) {
    row.state == Claimed && row.claim.Some? && row.claim.value.who == who
  }

  /** AbandonFetch, which only the holder of a claim can do. */
  function Abandoned(row: Row, who: int): Row {
    if HeldBy(row, who) then row.(state := Pending, attempts := Max(row.attempts - 1, 0), claim := None) else row
  }

  /** RefuseFetch: the operator's own last word. */
  function Declined(row: Option<Row>): Row {
    Row(Terminal, if row.Some? then row.value.attempts else 0, None, None)
  }

  // ----- waiting -----

  const RETRY_CEILING: Duration := 24 * HOUR
  const DEFAULT_BACKOFF: Duration := 15 * MINUTE
  const MAX_DURATION: Duration := 0x7FFF_FFFF_FFFF_FFFF

  function BackoffOf(base: Duration): Duration { if base <= 0 then DEFAULT_BACKOFF else base }

  /** The n-th wait. */
  function Wait(base: Duration, attempts: nat): Duration {
    Min(BackoffOf(base) * Pow2(Max(attempts - 1, 0)), RETRY_CEILING)
  }

  lemma {:induction false} DoublingStaysPast(base: Duration, i: nat, n: nat)
    requires base > 0 && i <= n && base * Pow2(i) >= RETRY_CEILING
    ensures base * Pow2(n) >= RETRY_CEILING
    decreases n - i
  {
    if i < n {
      DoublingStaysPast(base, i, n - 1);
      assert base * Pow2(n) == base * Pow2(n - 1) * 2;
    }
  }

  /** retryDelay's loop: it doubles exactly, and stays inside a 64-bit duration whatever the count. */
  method RetryDelay(base: Duration, attempts: int) returns (delay: Duration)
    requires base <= MAX_DURATION
    ensures delay == Wait(base, Max(attempts, 0))
    ensures 0 < delay <= RETRY_CEILING
  {
    var first := BackoffOf(base);
    delay := first;
    var turns := Max(attempts - 1, 0);
    for i := 0 to turns
      invariant delay == first * Pow2(i)
      invariant first <= delay <= Max(first, 2 * RETRY_CEILING) <= MAX_DURATION
    {
      if delay >= RETRY_CEILING {
        DoublingStaysPast(first, i, turns);
        return RETRY_CEILING;
      }
      assert first * Pow2(i + 1) == first * Pow2(i) * 2;
      delay := delay * 2;
    }
    return Min(delay, RETRY_CEILING);
  }

  // ----- one fetch -----

  datatype Download = Refused(terminal: bool) | Broken | Elsewhere | Produced

  datatype Creation = Created | Duplicate | Uncreated

  /** Everything outside a fetch's control. */
  datatype World = World(captured: Option<bool>, download: Download, stopped: bool, creation: Creation, silence: bool,
                         finalizes: bool, counted: bool, declined: bool, cancelled: bool)

  datatype Outcome = Fetched | AlreadyCaptured | Stopped | Charged | GaveUp | Superseded

  /** chargeFailure: the row, and what the caller is told. */
  function Charge(row: Row, base: Duration, now: Instant, counted: bool, terminal: bool): (Row, Outcome) {
    var retry := if terminal then None else Some(now + Wait(base, if counted then row.attempts else 0));
    (Failed(row, retry), if row.state == Terminal then Superseded else if terminal then GaveUp else Charged)
  }

  /** run: what a claimed fetch does to its row. The operator may decline the broadcast under it. */
  function Run(held: Row, base: Duration, now: Instant, w: World): (Row, Outcome) {
    var row := if w.declined then Declined(Some(held)) else held;
    match w.captured
    case None => Charge(row, base, now, w.counted, false)
    case Some(true) => (Released(row, Done), if row.state == Terminal then Superseded else AlreadyCaptured)
    case Some(false) =>
      match w.download
      case Refused(terminal) => if w.stopped then (row, Stopped) else Charge(row, base, now, w.counted, terminal)
      case Broken => if w.stopped then (row, Stopped) else Charge(row, base, now, w.counted, false)
      case Elsewhere => Charge(row, base, now, w.counted, false)
      case Produced =>
        if w.creation == Duplicate then (row, Fetched)
        else if w.creation == Uncreated || !w.silence || !w.finalizes then Charge(row, base, now, w.counted, false)
        else (row, Fetched)
  }

  /** What becomes of the row once the run is over. */
  function Settle(ran: (Row, Outcome), who: int, cancelled: bool): Row {
    if ran.1 == Fetched then Released(ran.0, Done)
    else if cancelled || ran.1 == Stopped then Abandoned(ran.0, who)
    else ran.0
  }

  /** Fetch, from a claim taken to the row it leaves. */
  function AfterFetch(row: Option<Row>, who: int, base: Duration, now: Instant, w: World): Row {
    Settle(Run(Taken(row, who, now), base, now, w), who, w.cancelled)
  }

  /** The tool's own last word, reached before anything else ended the fetch. */
  predicate LastWord(w: World) {
    w.captured == Some(false) && w.download == Refused(true) && !w.stopped
  }

  /** The recording was already live, already fetched, or is fetched now. */
  predicate Succeeds(w: World) {
    || w.captured == Some(true)
    || (w.captured == Some(false) && w.download == Produced
        && (w.creation == Duplicate || (w.creation == Created && w.silence && w.finalizes)))
  }

  predicate Interrupted(w: World) {
    w.captured == Some(false) && (w.download.Refused? || w.download == Broken) && w.stopped
  }

  function AttemptsOf(row: Option<Row>): nat { if row.Some? then row.value.attempts else 0 }

  function NextOf(row: Option<Row>): Option<Instant> { if row.Some? then row.value.next else None }

  /** Let go of: done, terminal, handed back as it was found, or failed with the time it may be tried
      again. */
  predicate Ends(row: Option<Row>, base: Duration, now: Instant, w: World, r: Row) {
    && r.claim.None? && r.state != Claimed
    && (r.state == Terminal <==> w.declined || LastWord(w))
    && (r.state == Done <==> !w.declined && Succeeds(w))
    && (!w.declined && Interrupted(w) ==> r == Row(Pending, AttemptsOf(row), NextOf(row), None))
    && (r.state == Pending && !Interrupted(w) ==>
          r.attempts == AttemptsOf(row) + 1 && r.next == Some(now + Wait(base, if w.counted then r.attempts else 0)))
  }

  /** What the caller is told, which is one thing for each way a fetch can go. */
  predicate Reports(outcome: Outcome, w: World) {
    match outcome
    case Fetched => Succeeds(w) && w.captured == Some(false)
    case AlreadyCaptured => !w.declined && w.captured == Some(true)
    case Stopped => Interrupted(w)
    case GaveUp => !w.declined && LastWord(w)
    case Charged => !w.declined && !LastWord(w) && !Succeeds(w) && !Interrupted(w)
    case Superseded => w.declined && !Interrupted(w) && !(Succeeds(w) && w.captured == Some(false))
  }

  lemma RunReports(held: Row, base: Duration, now: Instant, w: World)
    requires held.state != Terminal
    ensures Reports(Run(held, base, now, w).1, w)
  {}

  lemma DeclinedEnds(row: Option<Row>, who: int, base: Duration, now: Instant, w: World)
    requires w.declined
    ensures Ends(row, base, now, w, AfterFetch(row, who, base, now, w))
  {
    var held := Declined(Some(Taken(row, who, now)));
    assert Charge(held, base, now, w.counted, false).0 == held && Charge(held, base, now, w.counted, true).0 == held;
    assert Run(Taken(row, who, now), base, now, w).0 == held;
  }

  lemma ChargedEnds(row: Option<Row>, who: int, base: Duration, now: Instant,
                    counted: bool, terminal: bool, cancelled: bool)
    ensures var r := Settle(Charge(Taken(row, who, now), base, now, counted, terminal), who, cancelled);
      && r.claim.None? && r.attempts == AttemptsOf(row) + 1
      && r.state == (if terminal then Terminal else Pending)
      && (!terminal ==> r.next == Some(now + Wait(base, if counted then r.attempts else 0)))
  {}

  /** How every claim ends. */
  lemma EveryClaimEnds(row: Option<Row>, who: int, base: Duration, now: Instant, lease: Duration, w: World)
    requires Claimable(row, now, lease)
    ensures Ends(row, base, now, w, AfterFetch(row, who, base, now, w))
  {
    if w.declined {
      DeclinedEnds(row, who, base, now, w);
    } else {
      ChargedEnds(row, who, base, now, w.counted, true, w.cancelled);
      ChargedEnds(row, who, base, now, w.counted, false, w.cancelled);
    }
  }

  // ----- over any sequence -----

  /** What happens to one broadcast: fetches by any session, fetchers that die holding it, and the
      operator's refusal. */
  datatype Event =
    | Fetch(who: int, now: Instant, world: World)
    | Died(who: int, now: Instant)
    | Refuse

  function Next(row: Option<Row>, base: Duration, lease: Duration, e: Event): Option<Row> {
    match e
    case Refuse => Some(Declined(row))
    case Died(who, now) => if Claimable(row, now, lease) then Some(Taken(row, who, now)) else row
    case Fetch(who, now, w) => if Claimable(row, now, lease) then Some(AfterFetch(row, who, base, now, w)) else row
  }

  function Rows(row: Option<Row>, base: Duration, lease: Duration, events: seq<Event>): Option<Row>
    decreases |events|
  {
    if events == [] then row else Rows(Next(row, base, lease, events[0]), base, lease, events[1..])
  }

  predicate IsTerminal(row: Option<Row>) { row.Some? && row.value.state == Terminal }

  /** The operator's last word, or the tool's. */
  predicate EndsIt(e: Event) {
    e.Refuse? || (e.Fetch? && (e.world.declined || LastWord(e.world)))
  }

  /** Over any sequence: nothing moves a broadcast out of terminal, and nothing but a last word moves
      one in. */
  lemma {:induction false} TerminalByLastWordOnly(row: Option<Row>, base: Duration, lease: Duration, events: seq<Event>)
    ensures IsTerminal(row) ==> IsTerminal(Rows(row, base, lease, events))
    ensures IsTerminal(Rows(row, base, lease, events)) ==>
      IsTerminal(row) || exists i :: 0 <= i < |events| && EndsIt(events[i])
    decreases |events|
  {
    if events != [] {
      var e, next := events[0], Next(row, base, lease, events[0]);
      TerminalByLastWordOnly(next, base, lease, events[1..]);
      if e.Fetch? && Claimable(row, e.now, lease) { EveryClaimEnds(row, e.who, base, e.now, lease, e.world); }
      if exists i :: 0 <= i < |events[1..]| && EndsIt(events[1..][i]) {
        var i :| 0 <= i < |events[1..]| && EndsIt(events[1..][i]);
        assert EndsIt(events[i + 1]);
      } else if IsTerminal(next) && !IsTerminal(row) {
        assert EndsIt(events[0]);
      }
    }
  }

  /** The row while a broadcast has only failed, been interrupted, or been dropped by a fetcher that
      died: it counts every failure and every death. */
  predicate Counts(row: Option<Row>, n: nat) {
    if row.None? then n == 0 else row.value.attempts == n && row.value.state != Terminal && row.value.state != Done
  }

  /** An event that fails, with what it costs: one for a failure or a death, nothing for a hand-back or
      for a claim refused. */
  predicate Harmless(e: Event) {
    !e.Refuse? && (e.Fetch? ==> !e.world.declined && !LastWord(e.world) && !Succeeds(e.world) && e.world.counted)
  }

  function Cost(row: Option<Row>, lease: Duration, e: Event): nat {
    if e.Refuse? || !Claimable(row, e.now, lease) then 0
    else if e.Fetch? && Interrupted(e.world) then 0
    else 1
  }

  function Spent(row: Option<Row>, base: Duration, lease: Duration, events: seq<Event>): nat
    decreases |events|
  {
    if events == [] then 0
    else Cost(row, lease, events[0]) + Spent(Next(row, base, lease, events[0]), base, lease, events[1..])
  }

  lemma {:induction false} AttemptsCountTries(row: Option<Row>, base: Duration, lease: Duration,
                                         events: seq<Event>, n: nat)
    requires Counts(row, n) && forall i :: 0 <= i < |events| ==> Harmless(events[i])
    ensures Counts(Rows(row, base, lease, events), n + Spent(row, base, lease, events))
    decreases |events|
  {
    if events != [] {
      var e := events[0];
      if e.Fetch? && Claimable(row, e.now, lease) { EveryClaimEnds(row, e.who, base, e.now, lease, e.world); }
      AttemptsCountTries(Next(row, base, lease, e), base, lease, events[1..], n + Cost(row, lease, e));
    }
  }

  /** The wait after the n-th failure: the base, or a quarter of an hour where none is set, doubled each
      time up to a day. */
  function NthWait(base: Duration, n: nat): Duration
    requires n >= 1
  {
    Min((if base <= 0 then 15 * MINUTE else base) * Pow2(n - 1), 24 * HOUR)
  }

  /** After any history of failures, deaths and interruptions, the failure that makes n of them waits
      exactly min(base·2^(n-1), 24h): interruptions cost nothing. */
  lemma NthFailureWaits(base: Duration, lease: Duration, events: seq<Event>, e: Event)
    requires forall i :: 0 <= i < |events| ==> Harmless(events[i])
    requires e.Fetch? && Harmless(e) && !Interrupted(e.world)
      && Claimable(Rows(None, base, lease, events), e.now, lease)
    ensures var n := Spent(None, base, lease, events) + 1;
      Next(Rows(None, base, lease, events), base, lease, e) ==
      Some(Row(Pending, n, Some(e.now + NthWait(base, n)), None))
  {
    AttemptsCountTries(None, base, lease, events, 0);
    EveryClaimEnds(Rows(None, base, lease, events), e.who, base, e.now, lease, e.world);
  }

  // ----- what a claim waits for -----

  lemma {:induction false} RowsConcat(row: Option<Row>, base: Duration, lease: Duration, a: seq<Event>, b: seq<Event>)
    ensures Rows(row, base, lease, a + b) == Rows(Rows(row, base, lease, a), base, lease, b)
    decreases |a|
  {
    if a == [] {
      assert a + b == b;
    } else {
      assert (a + b)[1..] == a[1..] + b;
      RowsConcat(Next(row, base, lease, a[0]), base, lease, a[1..], b);
    }
  }

  /** Fetches and deaths, all of them before this. */
  predicate AllBefore(events: seq<Event>, until: Instant) {
    forall i :: 0 <= i < |events| ==> !events[i].Refuse? && events[i].now < until
  }

  lemma {:induction false} BackoffHolds(row: Option<Row>, base: Duration, lease: Duration, events: seq<Event>,
                                        until: Instant)
    requires row.Some? && row.value.next == Some(until) && AllBefore(events, until)
    ensures Rows(row, base, lease, events) == row
    decreases |events|
  {
    if events != [] { BackoffHolds(row, base, lease, events[1..], until); }
  }

  /** A failure is waited out: whatever comes before its wait is over leaves the row as the failure did,
      and it can be claimed at exactly the instants from then on. */
  lemma FailuresAreWaitedOut(base: Duration, lease: Duration, events: seq<Event>, e: Event, later: seq<Event>)
    requires forall i :: 0 <= i < |events| ==> Harmless(events[i])
    requires e.Fetch? && Harmless(e) && !Interrupted(e.world)
      && Claimable(Rows(None, base, lease, events), e.now, lease)
    requires AllBefore(later, e.now + NthWait(base, Spent(None, base, lease, events) + 1))
    ensures var until := e.now + NthWait(base, Spent(None, base, lease, events) + 1);
      var row := Rows(None, base, lease, events + [e] + later);
      && row == Rows(None, base, lease, events + [e])
      && forall at :: Claimable(row, at, lease) <==> until <= at
  {
    NthFailureWaits(base, lease, events, e);
    RowsConcat(None, base, lease, events, [e]);
    assert [e][1..] == [];
    RowsConcat(None, base, lease, events + [e], later);
    BackoffHolds(Rows(None, base, lease, events + [e]), base, lease, later,
                 e.now + NthWait(base, Spent(None, base, lease, events) + 1));
  }

  /** A broadcast that is done or terminal is never claimed again, and only the operator changes it. */
  lemma {:induction false} FinishedIsNeverClaimed(row: Option<Row>, base: Duration, lease: Duration, events: seq<Event>)
    requires row.Some? && (row.value.state == Done || row.value.state == Terminal)
    ensures forall at :: !Claimable(Rows(row, base, lease, events), at, lease)
    ensures (forall i :: 0 <= i < |events| ==> !events[i].Refuse?) ==> Rows(row, base, lease, events) == row
    decreases |events|
  {
    if events != [] { FinishedIsNeverClaimed(Next(row, base, lease, events[0]), base, lease, events[1..]); }
  }

  /** Two fetchers never hold one broadcast inside a lease, and once it has run out the next may. */
  lemma LeaseExcludes(row: Option<Row>, who: int, at: Instant, lease: Duration, later: Instant)
    requires lease > 0 && Claimable(row, at, lease)
    ensures Claimable(Some(Taken(row, who, at)), later, lease) <==> at + lease <= later
  {}
}
