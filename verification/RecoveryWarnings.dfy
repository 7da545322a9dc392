/** The trim warning: complete on a steady clock, never raised for nothing, and quoting the
    reason of the outage it measures. */
module RecoveryWarnings {
  import opened Basics
  import opened RecoveryQueue
  import opened RecoveryRuns

  /** A measured window either starts no later than the coverage it measures stopped, or is old
      enough that every later round trims it. */
  predicate Ripe(w: World, window: Window) {
    window.missing.Some? ==>
      || window.from <= window.missing.value
      || (w.birth.Some? && window.from <= w.birth.value)
      || window.from + HORIZON < w.clock
      || (w.ranAt.Some? && window.from + HORIZON < w.ranAt.value + FLOOR)
  }

  /** As Ripe, for a window whose round is already under way. */
  predicate RipeOnceOver(w: World, window: Window) {
    window.missing.Some? ==>
      || window.from <= window.missing.value
      || (w.birth.Some? && window.from <= w.birth.value)
      || window.from + HORIZON <= w.clock
  }

  function PendingWindow(p: Pending): Window {
    Window(p.from, p.why, p.missing)
  }

  ghost predicate WarnReady(w: World) {
    && NoneLost(w)
    && (w.pending.missing.Some? ==> w.pending.Queued() && w.pending.missingWhy != "")
    && (w.pending.Queued() ==> Ripe(w, PendingWindow(w.pending)))
    && (w.ranAt.Some? ==> w.ranAt.value <= w.clock)
    && ((w.loop.Admitted? || w.loop.Holding?) && w.ranAt.Some? ==> w.ranAt.value + FLOOR <= w.clock)
    && (w.loop.Holding? || w.loop.Requeueing? ==> Ripe(w, w.loop.window))
    && (w.loop.Running? || w.loop.Judged? ==> RipeOnceOver(w, w.loop.window))
  }

  lemma QueueStaysRipe(w: World, p: Pending, window: Window)
    requires p.Queued() ==> Ripe(w, PendingWindow(p))
    requires p.missing.Some? ==> p.Queued()
    requires Ripe(w, window) && window.why != ""
    ensures Ripe(w, PendingWindow(Queue(p, window)))
  {}

  lemma AskingStaysReady(w: World, window: Window)
    requires WarnReady(w) && Ripe(w, window) && window.why != ""
    requires NoneLost(Asked(w, window))
    ensures WarnReady(Asked(w, window))
  {
    QueueStaysRipe(w, w.pending, window);
  }

  lemma BoundingStaysReady(w: World, first: First)
    requires WarnReady(w) && w.loop.Holding? && Steady(w, BoundRound(first))
    requires NoneLost(Bounding(w, first))
    ensures WarnReady(Bounding(w, first))
  {
  }

  lemma RequeueStaysReady(w: World)
    requires WarnReady(w) && w.loop.Requeueing?
    requires NoneLost(Apply(w, Requeue))
    ensures WarnReady(Apply(w, Requeue))
  {
    QueueStaysRipe(w, w.pending, w.loop.window);
  }

  /** A step that queues no window and bounds none. */
  predicate Quiet(a: Action) {
    a.ReadClock? || a.Admit? || a.Take? || a.Return? || a.NoteRan?
  }

  lemma QuietStaysReady(w: World, a: Action)
    requires WarnReady(w) && Enabled(w, a) && Steady(w, a) && Quiet(a) && NoneLost(Apply(w, a))
    ensures WarnReady(Apply(w, a))
  {
  }

  lemma StepStaysReady(w: World, a: Action)
    requires WarnReady(w) && Enabled(w, a) && Steady(w, a)
    ensures WarnReady(Apply(w, a))
  {
    StepKeepsWindows(w, a);
    match a
    case AskRoutine => AskingStaysReady(w, RoutineWindow(w.clock));
    case AskOutage(began, why) => AskingStaysReady(w, OutageWindow(began, why));
    case AskDowntime(startedAt, since, why) => AskingStaysReady(w, DowntimeWindow(startedAt, since, why));
    case BoundRound(first) => BoundingStaysReady(w, first);
    case Requeue => RequeueStaysReady(w);
    case _ => QuietStaysReady(w, a);
  }

  lemma {:induction false} RunsStayReady(worlds: seq<World>, actions: seq<Action>, n: nat)
    requires SteadyRun(worlds, actions) && n < |worlds|
    ensures WarnReady(worlds[n])
  {
    if n > 0 {
      RunsStayReady(worlds, actions, n - 1);
      StepStaysReady(worlds[n - 1], actions[n - 1]);
    }
  }

  /** The warning is complete. On a steady clock, a round that starts at least five minutes after
      some measured gap it carries began (or after the library's first session, when that is
      later) says what was trimmed, and names a loss at least that old. */
  lemma TrimIsAlwaysReported(worlds: seq<World>, actions: seq<Action>, n: nat, birth: Instant, i: nat)
    requires SteadyRun(worlds, actions) && n < |actions| && actions[n] == BoundRound(Since(birth))
    requires i < |worlds[n].asks| && worlds[n].asks[i].place.Aboard? && worlds[n].asks[i].window.missing.Some?
    ensures var w := worlds[n]; var missing := w.asks[i].window.missing.value;
      var b := Bound(w.loop.window, Since(birth), w.clock);
      b.Start? && b.at - Max(missing, birth) >= 5 * MINUTE ==>
        b.warned.Some? && b.warned.value.missingSince <= Max(missing, birth)
  {
    RunsStayReady(worlds, actions, n);
    WarningQuotesItsOwnOutage(worlds, actions, n);
  }

  /** The warning is never idle: it is raised only by a round that starts at least five minutes
      after the loss it names, and the figure it quotes is exactly that stretch. */
  lemma NothingTrimmedNothingSaid(window: Window, birth: Instant, now: Instant)
    ensures var b := Bound(window, Since(birth), now);
      b.Start? && b.warned.Some? ==>
        && window.missing.Some? && window.from < b.at
        && b.warned.value.missingSince == Max(window.missing.value, birth)
        && b.warned.value.trimmed == b.at - b.warned.value.missingSince >= 5 * MINUTE
  {}

  /** Exactly when a round that starts five minutes or more past the gap it carries says nothing: the
      window was asked to start that far past it, and is not old enough to be trimmed again. */
  lemma TrimUnsaidExactly(window: Window, birth: Instant, now: Instant)
    requires window.missing.Some? && Bound(window, Since(birth), now).Start?
    ensures var b := Bound(window, Since(birth), now); var gap := Max(window.missing.value, birth);
      b.at - gap >= 5 * MINUTE && b.warned.None? <==>
        window.from - gap >= 5 * MINUTE && now - window.from <= 14 * DAY
  {}

  // An hour unseen; a first round, from where the library's first session is then said to begin,
  // fails; and a second starts once that session is dated earlier.
  const NOW: Instant := 30 * DAY
  const BORN: Instant := NOW - 10 * MINUTE
  const LOST := OutageWindow(NOW - HOUR, "unreachable")
  const REST := Window(BORN, "unreachable", LOST.missing)

  const STEPS := [ReadClock(NOW), AskOutage(NOW - HOUR, "unreachable"), Admit, Take, BoundRound(Since(BORN)),
                  Return(false, Other, 0, 0), NoteRan, Requeue, ReadClock(NOW + HOUR), Admit, Take]

  /** The world of that run as its n-th step finds it. */
  function Stage(n: nat): World {
    var once := INITIAL.(clock := NOW);
    var asked := Asked(once, LOST);
    var held := asked.(pending := NOTHING_QUEUED, asks := [Ask(LOST, LOST.from, Aboard)]);
    var met := held.(asks := [Ask(LOST, BORN, Aboard)], birth := Some(BORN), floor := Some(BORN), starts := [NOW]);
    var ran := met.(backoff := HOUR, ranAt := Some(NOW), streak := 1);
    var later := ran.(pending := Queue(NOTHING_QUEUED, REST), asks := [Ask(LOST, BORN, Queued)], clock := NOW + HOUR);
    match n
    case 0 => INITIAL
    case 1 => once
    case 2 => asked
    case 3 => asked.(loop := Admitted)
    case 4 => held.(loop := Holding(LOST))
    case 5 => met.(loop := Running(REST))
    case 6 => met.(loop := Judged(REST, RoundFailed))
    case 7 => ran.(loop := Requeueing(REST))
    case 8 => later.(clock := NOW)
    case 9 => later
    case 10 => later.(loop := Admitted)
    case _ => later.(pending := NOTHING_QUEUED, asks := [Ask(LOST, BORN, Aboard)], loop := Holding(REST))
  }

  lemma StagesFollow(n: nat)
    requires n < |STEPS|
    ensures Enabled(Stage(n), STEPS[n]) && Apply(Stage(n), STEPS[n]) == Stage(n + 1)
  {}

  /** Where the first session is later dated earlier, as a row restored to the library dates it, a
      round can start fifty minutes past the gap it carries and say nothing of it. */
  lemma EarlierSessionHidesATrim() returns (worlds: seq<World>, actions: seq<Action>)
    ensures Run(worlds, actions) && |actions| > 0 && actions[|actions| - 1] == BoundRound(Since(0))
    ensures forall i :: 0 <= i < |actions| && actions[i].ReadClock? ==> worlds[i].clock <= actions[i].now
    ensures var w := worlds[|actions| - 1];
      && w.asks == [Ask(LOST, BORN, Aboard)] && w.loop == Holding(REST)
      && var b := Bound(w.loop.window, Since(0), w.clock);
         b.Start? && b.warned.None? && b.at - LOST.missing.value == 50 * MINUTE
  {
    var n := |STEPS|;
    worlds := seq(n + 1, i requires 0 <= i <= n => Stage(i)) + [Apply(Stage(n), BoundRound(Since(0)))];
    actions := STEPS + [BoundRound(Since(0))];
    forall i | 0 <= i < |actions|
      ensures Enabled(worlds[i], actions[i]) && worlds[i + 1] == Apply(worlds[i], actions[i])
    {
      if i < n {
        StagesFollow(i);
      }
    }
  }

  // ----- the reason quoted -----

  /** Some request standing here measured this loss for this reason, and none standing here measured
      an earlier one. */
  ghost predicate EarliestOutage(asks: seq<Ask>, place: Place, missing: Instant, why: string) {
    && (exists i :: 0 <= i < |asks| && asks[i].place == place
          && asks[i].window.missing == Some(missing) && asks[i].window.why == why)
    && (forall i :: 0 <= i < |asks| && asks[i].place == place && asks[i].window.missing.Some? ==>
          missing <= asks[i].window.missing.value)
  }

  ghost predicate NothingMeasured(asks: seq<Ask>, place: Place) {
    forall i :: 0 <= i < |asks| && asks[i].place == place ==> asks[i].window.missing.None?
  }

  /** What is pending measures the earliest outage of the requests it covers, with that request's own
      reason; and where none of them measured one, neither does it. */
  ghost predicate PendingCredited(w: World) {
    match w.pending.missing
    case None => w.pending.missingWhy == "" && NothingMeasured(w.asks, Queued)
    case Some(missing) => w.pending.missingWhy != "" && EarliestOutage(w.asks, Queued, missing, w.pending.missingWhy)
  }

  ghost predicate CarriedCredited(w: World) {
    match Carried(w.loop)
    case None => NothingMeasured(w.asks, Aboard)
    case Some(window) =>
      match window.missing
      case None => NothingMeasured(w.asks, Aboard)
      case Some(missing) => window.why != "" && EarliestOutage(w.asks, Aboard, missing, window.why)
  }

  ghost predicate Credited(w: World) {
    PendingCredited(w) && CarriedCredited(w)
  }

  /** Requests lifted, or moved elsewhere, stay what they were where they are. */
  lemma SameOutages(asks: seq<Ask>, moved: seq<Ask>, place: Place)
    requires |asks| == |moved|
    requires forall i :: 0 <= i < |asks| ==> moved[i].window == asks[i].window
    requires forall i :: 0 <= i < |asks| ==> (asks[i].place == place <==> moved[i].place == place)
    ensures NothingMeasured(asks, place) ==> NothingMeasured(moved, place)
    ensures forall missing, why :: EarliestOutage(asks, place, missing, why) ==>
      EarliestOutage(moved, place, missing, why)
  {}

  lemma AskingStaysCredited(w: World, window: Window)
    requires Credited(w) && window.why != ""
    ensures Credited(Asked(w, window))
  {
    var w' := Asked(w, window);
    var last := |w.asks|;
    assert w'.asks[last].window == window && w'.asks[last].place == Queued;
    assert forall i :: 0 <= i < last ==> w'.asks[i] == w.asks[i];
  }

  /** Moving all the requests from one place leaves none there, and brings what they measured along. */
  lemma MovedOutages(asks: seq<Ask>, from: Place, to: Place)
    requires from != to
    ensures NothingMeasured(Move(asks, from, to), from)
    ensures NothingMeasured(asks, from) && NothingMeasured(asks, to) ==> NothingMeasured(Move(asks, from, to), to)
    ensures forall missing, why :: EarliestOutage(asks, from, missing, why) && NothingMeasured(asks, to) ==>
      EarliestOutage(Move(asks, from, to), to, missing, why)
    ensures forall missing, why :: EarliestOutage(asks, to, missing, why) && NothingMeasured(asks, from) ==>
      EarliestOutage(Move(asks, from, to), to, missing, why)
  {}

  lemma MergedOutages(asks: seq<Ask>, from: Place, to: Place, missing: Instant, why: string,
                      other: Instant, otherWhy: string)
    requires from != to && EarliestOutage(asks, from, missing, why) && EarliestOutage(asks, to, other, otherWhy)
    ensures if missing < other then EarliestOutage(Move(asks, from, to), to, missing, why)
            else EarliestOutage(Move(asks, from, to), to, other, otherWhy)
  {}

  lemma TakingStaysCredited(w: World)
    requires Credited(w) && NoneLost(w) && w.loop.Admitted?
    ensures Credited(Apply(w, Take))
  {
    MovedOutages(w.asks, Queued, Aboard);
  }

  lemma LiftingStaysCredited(w: World, clamp: Instant)
    requires Credited(w)
    ensures Credited(w.(asks := Lift(w.asks, clamp)))
  {
    SameOutages(w.asks, Lift(w.asks, clamp), Queued);
    SameOutages(w.asks, Lift(w.asks, clamp), Aboard);
  }

  /** Requests settled are no longer aboard, so a loop that carries nothing more is still credited. */
  lemma SettlingStaysCredited(w: World, loop: Loop, to: Place)
    requires PendingCredited(w) && Carried(loop).None? && to != Queued && to != Aboard
    ensures Credited(w.(loop := loop, asks := Move(w.asks, Aboard, to)))
  {
    MovedOutages(w.asks, Aboard, to);
    SameOutages(w.asks, Move(w.asks, Aboard, to), Queued);
  }

  lemma CarryingStaysCredited(w: World, w': World)
    requires Credited(w) && w'.pending == w.pending && w'.asks == w.asks
    requires Carried(w.loop).Some? && Carried(w'.loop).Some?
    requires Carried(w'.loop).value.missing == Carried(w.loop).value.missing
    requires Carried(w'.loop).value.why == Carried(w.loop).value.why
    ensures Credited(w')
  {}

  lemma BoundingStaysCredited(w: World, first: First)
    requires Credited(w) && w.loop.Holding?
    ensures Credited(Bounding(w, first))
  {
    var clamp := if first.Since? then Max(first.at, w.clock - HORIZON) else 0;
    var met := if first.Since? then w.(asks := Lift(w.asks, clamp)) else w;
    if first.Since? {
      LiftingStaysCredited(w, clamp);
    }
    if Bound(w.loop.window, first, w.clock).NothingToCover? {
      SettlingStaysCredited(met, Idle, if first.NeverHeld? then NeverHeldLibrary else Emptied(w.clock));
    } else {
      CarryingStaysCredited(met, Bounding(w, first));
    }
  }

  lemma ReturningStaysCredited(w: World, a: Action)
    requires Credited(w) && Enabled(w, a) && a.Return?
    ensures Credited(Apply(w, a))
  {
    var ending := Judge(a.shutDown, a.err, a.failed, a.deferred);
    if ending.Finished? {
      SettlingStaysCredited(w, Judged(w.loop.window, ending), Covered(w.loop.window.from));
    }
  }

  lemma RequeueStaysCredited(w: World)
    requires Credited(w) && NoneLost(w) && w.loop.Requeueing?
    ensures Credited(Apply(w, Requeue))
  {
    MovedOutages(w.asks, Aboard, Queued);
    if w.loop.window.missing.Some? && w.pending.missing.Some? {
      MergedOutages(w.asks, Aboard, Queued, w.loop.window.missing.value, w.loop.window.why,
                    w.pending.missing.value, w.pending.missingWhy);
    }
  }

  lemma StepStaysCredited(w: World, a: Action)
    requires Credited(w) && NoneLost(w) && Enabled(w, a)
    ensures Credited(Apply(w, a))
  {
    match a
    case AskRoutine => AskingStaysCredited(w, RoutineWindow(w.clock));
    case AskOutage(began, why) => AskingStaysCredited(w, OutageWindow(began, why));
    case AskDowntime(startedAt, since, why) => AskingStaysCredited(w, DowntimeWindow(startedAt, since, why));
    case Take => TakingStaysCredited(w);
    case BoundRound(first) => BoundingStaysCredited(w, first);
    case Return(_, _, _, _) => ReturningStaysCredited(w, a);
    case Requeue => RequeueStaysCredited(w);
    case _ =>
  }

  /** The reason a trim warning quotes is the reason the earliest measured outage among the requests
      it covers was asked for with, through any coalescing and any number of requeues. */
  lemma {:induction false} WarningQuotesItsOwnOutage(worlds: seq<World>, actions: seq<Action>, n: nat)
    requires Run(worlds, actions) && n < |worlds|
    ensures Credited(worlds[n])
  {
    if n > 0 {
      WarningQuotesItsOwnOutage(worlds, actions, n - 1);
      NoWindowIsLost(worlds, actions, n - 1);
      StepStaysCredited(worlds[n - 1], actions[n - 1]);
    }
  }
}
