/** The recovery scheduler's decisions: what a queued request, a taken window, a bounded
    window and a finished round become. Each function here is one critical section or one
    pure judgement of internal/daemon/recover.go. */
module RecoveryQueue {
  import opened Basics
  import opened Numerals

  /** The period of the routine tick, and the longest pacing. */
  const INTERVAL: Duration := 6 * HOUR
  /** The pacing after a clean round. */
  const FLOOR: Duration := 30 * MINUTE
  /** An outage shorter than this queues nothing. */
  const OUTAGE_FLOOR: Duration := 5 * MINUTE
  /** A window opens this long before the outage it is for. */
  const MARGIN: Duration := 12 * HOUR
  /** No round starts further back than this. */
  const HORIZON: Duration := 14 * DAY

  /** A window asked for: where it starts, why, and the instant a measured gap began. */
  datatype Window = Window(from: Instant, why: string, missing: Option<Instant>)

  /** The four fields recoveryMu guards. Nothing is queued while `why` is empty. */
  datatype Pending = Pending(from: Instant, why: string,
                             missing: Option<Instant>, missingWhy: string)
  {
    predicate Queued() { why != "" }
  }

  const NOTHING_QUEUED := Pending(0, "", None, "")

  /** queueRecovery. The measurement and the window coalesce separately. */
  function Queue(p: Pending, w: Window): Pending {
    var measured :=
      if w.missing.Some? && (p.missing.None? || w.missing.value < p.missing.value)
      then p.(missing := w.missing, missingWhy := w.why) else p;
    if p.why != "" && p.from <= w.from then measured
    else measured.(from := w.from, why := w.why)
  }

  /** takeRecovery: the pending window, with the reason of its gap if it has one. */
  function Taken(p: Pending): Window
    requires p.Queued()
  {
    Window(p.from, if p.missingWhy != "" then p.missingWhy else p.why, p.missing)
  }

  /** What the store answers about the library's first session. */
  datatype First = NeverHeld | Unreadable | Since(at: Instant)

  /** The line a trimmed window writes. */
  datatype Loss = Loss(missingSince: Instant, trimmed: Duration)

  datatype Bounded =
    | NothingToCover
    | CouldNotBound
    | Start(at: Instant, warned: Option<Loss>)

  /** boundRound. */
  function Bound(w: Window, first: First, now: Instant): Bounded {
    match first
    case NeverHeld => NothingToCover
    case Unreadable => CouldNotBound
    case Since(birth) =>
      var missing := if w.missing.Some? then Some(Max(w.missing.value, birth)) else None;
      var from := Max(w.from, birth);
      var reach := now - HORIZON;
      var trimmed := now - from > HORIZON;
      var start := if trimmed then reach else from;
      var warned :=
        if trimmed && missing.Some? && reach - missing.value >= OUTAGE_FLOOR
        then Some(Loss(missing.value, reach - missing.value)) else None;
      if start < now then Start(start, warned) else NothingToCover
  }

  /** What the round's own error said. */
  datatype RoundError = NoError | DeadlineExceeded | Canceled | Other

  datatype Ending =
    | ShuttingDown | RanOutOfTime | StoodAside | RoundFailed | PartlyFailed | Waiting | Finished

  /** The switch that judges a round. */
  function Judge(shutDown: bool, err: RoundError, failed: nat, deferred: nat): Ending {
    if shutDown then ShuttingDown
    else match err
      case DeadlineExceeded => RanOutOfTime
      case Canceled => StoodAside
      case Other => RoundFailed
      case NoError =>
        if failed > 0 then PartlyFailed else if deferred > 0 then Waiting else Finished
  }

  /** Whether an ending paces the next round as a clean one. */
  predicate PacedClean(e: Ending) {
    e.ShuttingDown? || e.StoodAside? || e.Finished?
  }

  /** Whether an ending queues its window again. */
  predicate Requeued(e: Ending) {
    !e.Finished?
  }

  /** noteRoundRan's new backoff. */
  function Paced(backoff: Duration, clean: bool): Duration {
    if clean then FLOOR else Min(Max(backoff * 2, 2 * FLOOR), INTERVAL)
  }

  /** roundPacing. */
  function Pacing(backoff: Duration): Duration {
    Max(backoff, FLOOR)
  }

  /** roundRecent: the pacing has not yet passed since the last round. */
  predicate Recent(ranAt: Option<Instant>, now: Instant, pacing: Duration) {
    ranAt.Some? && now - ranAt.value < pacing
  }

  /** A request's window, by which of the three callers makes it. */
  function RoutineWindow(now: Instant): Window {
    Window(now - HORIZON, "the routine round", None)
  }

  function OutageWindow(began: Instant, why: string): Window {
    Window(began - MARGIN, why, Some(began))
  }

  function DowntimeWindow(startedAt: Instant, since: Duration, why: string): Window {
    Window(startedAt - Min(since, HORIZON) - MARGIN, why, Some(startedAt - since))
  }
}
