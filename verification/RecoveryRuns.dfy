/** Whole runs of the recovery loop, with requests arriving between any two of its steps.

    A World holds what recoveryMu guards, where the one recovery goroutine stands, and the
    history of what was asked and started. Each Action is one critical section or one call
    out. A clock step may go anywhere; the theorems that need a steady clock say so. */
module RecoveryRuns {
  import opened Basics
  import opened RecoveryQueue

  /** Where a requested window stands. */
  datatype Place =
    | Queued               // covered by the pending request
    | Aboard               // covered by the window the loop has taken
    | Covered(since: Instant)   // a round starting here ended clean
    | Emptied(now: Instant)     // found to hold nothing before now
    | NeverHeldLibrary     // no recorder ever held this library

  /** One request. `limit` is its start, lifted by every clamp a round carrying it met. */
  datatype Ask = Ask(window: Window, limit: Instant, place: Place)

  datatype Loop =
    | Idle
    | Admitted                               // past the hold check
    | Holding(window: Window)                // window taken, not yet bounded
    | Running(window: Window)                // bounded and handed to the round
    | Judged(window: Window, ending: Ending)  // judged, before noteRoundRan
    | Requeueing(window: Window)             // paced, before the window is queued again

  datatype World = World(
    clock: Instant,
    pending: Pending,
    loop: Loop,
    backoff: Duration,
    ranAt: Option<Instant>,
    // history
    asks: seq<Ask>,
    starts: seq<Instant>,        // rounds started, and windows that could not be bounded
    streak: nat,                 // unclean rounds since the last clean one
    birth: Option<Instant>,      // the latest first-session answer
    floor: Option<Instant>)      // the highest start any round was clamped to

  datatype Action =
    | ReadClock(now: Instant)
    | AskRoutine
    | AskOutage(began: Instant, why: string)
    | AskDowntime(startedAt: Instant, since: Duration, why: string)
    | Admit
    | Take
    | BoundRound(first: First)
    | Return(shutDown: bool, err: RoundError, failed: nat, deferred: nat)
    | NoteRan
    | Requeue

  const INITIAL := World(0, NOTHING_QUEUED, Idle, 0, None, [], [], 0, None, None)

  // ----- steps -----

  predicate Enabled(w: World, a: Action) {
    match a
    case ReadClock(_) => true
    case AskRoutine => w.loop.Idle?
    case AskOutage(began, why) => w.clock - began >= OUTAGE_FLOOR && why != ""
    case AskDowntime(startedAt, since, why) => since >= OUTAGE_FLOOR && startedAt <= w.clock && why != ""
    case Admit =>
      w.loop.Idle? && w.pending.Queued() && !Recent(w.ranAt, w.clock, Pacing(w.backoff))
    case Take => w.loop.Admitted?
    case BoundRound(_) => w.loop.Holding?
    case Return(_, _, _, _) => w.loop.Running?
    case NoteRan => w.loop.Judged?
    case Requeue => w.loop.Requeueing?
  }

  function Asked(w: World, window: Window): World {
    w.(pending := Queue(w.pending, window), asks := w.asks + [Ask(window, window.from, Queued)])
  }

  function Move(asks: seq<Ask>, from: Place, to: Place): (moved: seq<Ask>)
    ensures |moved| == |asks|
    ensures forall i :: 0 <= i < |asks| ==>
      moved[i] == if asks[i].place == from then asks[i].(place := to) else asks[i]
  {
    seq(|asks|, i requires 0 <= i < |asks| =>
      if asks[i].place == from then asks[i].(place := to) else asks[i])
  }

  /** Every request aboard a round is lifted to where that round was clamped. */
  function Lift(asks: seq<Ask>, clamp: Instant): (lifted: seq<Ask>)
    ensures |lifted| == |asks|
    ensures forall i :: 0 <= i < |asks| ==>
      lifted[i] == if asks[i].place.Aboard? then asks[i].(limit := Max(asks[i].limit, clamp)) else asks[i]
  {
    seq(|asks|, i requires 0 <= i < |asks| =>
      if asks[i].place.Aboard? then asks[i].(limit := Max(asks[i].limit, clamp)) else asks[i])
  }

  /** What boundRound's answer makes of the world. */
  function Bounding(w: World, first: First): World
    requires w.loop.Holding?
  {
    var window := w.loop.window;
    var met := match first
      case Since(birth) =>
        var clamp := Max(birth, w.clock - HORIZON);
        w.(asks := Lift(w.asks, clamp), birth := Some(birth),
           floor := Some(if w.floor.Some? then Max(w.floor.value, clamp) else clamp))
      case _ => w;
    match Bound(window, first, w.clock)
    case NothingToCover =>
      met.(loop := Idle,
           asks := Move(met.asks, Aboard, if first.NeverHeld? then NeverHeldLibrary else Emptied(w.clock)))
    case CouldNotBound =>
      met.(loop := Judged(window, RoundFailed), starts := w.starts + [w.clock])
    case Start(at, _) =>
      met.(loop := Running(window.(from := at)), starts := w.starts + [w.clock])
  }

  function Apply(w: World, a: Action): World
    requires Enabled(w, a)
  {
    match a
    case ReadClock(now) => w.(clock := now)
    case AskRoutine => Asked(w, RoutineWindow(w.clock))
    case AskOutage(began, why) => Asked(w, OutageWindow(began, why))
    case AskDowntime(startedAt, since, why) => Asked(w, DowntimeWindow(startedAt, since, why))
    case Admit => w.(loop := Admitted)
    case Take =>
      if !w.pending.Queued() then w.(loop := Idle, pending := NOTHING_QUEUED)
      else w.(loop := Holding(Taken(w.pending)), pending := NOTHING_QUEUED,
              asks := Move(w.asks, Queued, Aboard))
    case BoundRound(first) => Bounding(w, first)
    case Return(shutDown, err, failed, deferred) =>
      var ending := Judge(shutDown, err, failed, deferred);
      var judged := w.(loop := Judged(w.loop.window, ending));
      if ending.Finished? then judged.(asks := Move(w.asks, Aboard, Covered(w.loop.window.from))) else judged
    case NoteRan =>
      var ending := w.loop.ending;
      w.(backoff := Paced(w.backoff, PacedClean(ending)), ranAt := Some(w.clock),
         streak := if PacedClean(ending) then 0 else w.streak + 1,
         loop := if Requeued(ending) then Requeueing(w.loop.window) else Idle)
    case Requeue =>
      w.(loop := Idle, pending := Queue(w.pending, w.loop.window),
         asks := Move(w.asks, Aboard, Queued))
  }

  /** The worlds a run passes through, one more than its actions. */
  ghost predicate Run(worlds: seq<World>, actions: seq<Action>) {
    && |worlds| == |actions| + 1
    && worlds[0] == INITIAL
    && forall i :: 0 <= i < |actions| ==>
         Enabled(worlds[i], actions[i]) && worlds[i + 1] == Apply(worlds[i], actions[i])
  }

  /** The clock never runs backwards, and no session is ever dated before the first one read. */
  predicate Steady(w: World, a: Action) {
    && (a.ReadClock? ==> w.clock <= a.now)
    && (a.BoundRound? && a.first.Since? && w.birth.Some? ==> w.birth.value <= a.first.at)
  }

  ghost predicate SteadyRun(worlds: seq<World>, actions: seq<Action>) {
    Run(worlds, actions) && forall i :: 0 <= i < |actions| ==> Steady(worlds[i], actions[i])
  }

  // ----- no window is lost -----

  /** The window the loop is carrying, if it carries one that is still owed. */
  function Carried(loop: Loop): Option<Window> {
    match loop
    case Idle => None
    case Admitted => None
    case Holding(window) => Some(window)
    case Running(window) => Some(window)
    case Judged(window, ending) => if Requeued(ending) then Some(window) else None
    case Requeueing(window) => Some(window)
  }

  /** A request is still owed, and by something reaching at least as far back; or it is settled. */
  predicate Kept(w: World, ask: Ask) {
    match ask.place
    case Queued => w.pending.Queued() && w.pending.from <= ask.limit
    case Aboard => Carried(w.loop).Some? && Carried(w.loop).value.from <= ask.limit
    case Covered(since) => since <= ask.limit
    case Emptied(now) => now <= ask.limit
    case NeverHeldLibrary => true
  }

  /** A request's limit is its own start unless a round was clamped past it. */
  predicate LiftedByClamps(w: World, ask: Ask) {
    ask.window.from <= ask.limit &&
    (ask.limit == ask.window.from || (w.floor.Some? && ask.limit <= w.floor.value))
  }

  ghost predicate NoneLost(w: World) {
    && (forall i :: 0 <= i < |w.asks| ==> Kept(w, w.asks[i]) && LiftedByClamps(w, w.asks[i]))
    && (Carried(w.loop).Some? ==> Carried(w.loop).value.why != "")
    && (w.pending.missingWhy == "" || w.pending.missing.Some?)
    && (w.loop.Admitted? ==> w.pending.Queued())
  }

  lemma QueueReachesBoth(p: Pending, window: Window)
    requires window.why != ""
    ensures Queue(p, window).Queued() && Queue(p, window).from <= window.from
    ensures p.Queued() ==> Queue(p, window).from <= p.from
  {}

  lemma BoundIsTheClamp(window: Window, birth: Instant, now: Instant)
    ensures var b, clamp := Bound(window, Since(birth), now), Max(Max(window.from, birth), now - 14 * DAY);
      && (b.NothingToCover? <==> now <= clamp)
      && (b.Start? <==> clamp < now)
      && (b.Start? ==> b.at == clamp)
    ensures Bound(window, NeverHeld, now) == NothingToCover && Bound(window, Unreadable, now) == CouldNotBound
  {}

  lemma AskingKeepsWindows(w: World, window: Window)
    requires NoneLost(w) && window.why != ""
    ensures NoneLost(Asked(w, window))
  {
    QueueReachesBoth(w.pending, window);
    var w' := Asked(w, window);
    forall i | 0 <= i < |w'.asks|
      ensures Kept(w', w'.asks[i]) && LiftedByClamps(w', w'.asks[i])
    {
      if i < |w.asks| {
        assert w'.asks[i] == w.asks[i] && Kept(w, w.asks[i]) && LiftedByClamps(w, w.asks[i]);
      }
    }
  }

  lemma BoundingKeepsWindows(w: World, first: First)
    requires NoneLost(w) && w.loop.Holding?
    ensures NoneLost(Bounding(w, first))
  {
    if first.Since? {
      BoundIsTheClamp(w.loop.window, first.at, w.clock);
    }
    var w' := Bounding(w, first);
    forall i | 0 <= i < |w'.asks|
      ensures Kept(w', w'.asks[i]) && LiftedByClamps(w', w'.asks[i])
    {
      assert Kept(w, w.asks[i]) && LiftedByClamps(w, w.asks[i]);
    }
  }

  /** Every ending either ends clean or keeps its window aboard to be queued again. */
  lemma ReturningKeepsWindows(w: World, a: Action)
    requires NoneLost(w) && Enabled(w, a) && (a.Return? || a.NoteRan?)
    ensures NoneLost(Apply(w, a))
  {
    var w' := Apply(w, a);
    forall i | 0 <= i < |w'.asks|
      ensures Kept(w', w'.asks[i]) && LiftedByClamps(w', w'.asks[i])
    {
      assert Kept(w, w.asks[i]) && LiftedByClamps(w, w.asks[i]);
    }
  }

  lemma MovingKeepsWindows(w: World, a: Action)
    requires NoneLost(w) && Enabled(w, a) && (a.ReadClock? || a.Admit? || a.Take? || a.Requeue?)
    ensures NoneLost(Apply(w, a))
  {
    if a.Requeue? {
      QueueReachesBoth(w.pending, w.loop.window);
    }
    var w' := Apply(w, a);
    forall i | 0 <= i < |w'.asks|
      ensures Kept(w', w'.asks[i]) && LiftedByClamps(w', w'.asks[i])
    {
      assert Kept(w, w.asks[i]) && LiftedByClamps(w, w.asks[i]);
    }
  }

  lemma StepKeepsWindows(w: World, a: Action)
    requires NoneLost(w) && Enabled(w, a)
    ensures NoneLost(Apply(w, a))
  {
    match a
    case AskRoutine => AskingKeepsWindows(w, RoutineWindow(w.clock));
    case AskOutage(began, why) => AskingKeepsWindows(w, OutageWindow(began, why));
    case AskDowntime(startedAt, since, why) => AskingKeepsWindows(w, DowntimeWindow(startedAt, since, why));
    case BoundRound(first) => BoundingKeepsWindows(w, first);
    case Return(_, _, _, _) => ReturningKeepsWindows(w, a);
    case NoteRan => ReturningKeepsWindows(w, a);
    case _ => MovingKeepsWindows(w, a);
  }

  /** No window is lost: at every point of every run, whatever the clock does and however rounds
      end, each request is covered by the pending request, by the window in flight, by a round
      that ended clean, or by a verdict that nothing is left of it, reaching back to its own start
      or to where a round had to clamp it. */
  lemma {:induction false} NoWindowIsLost(worlds: seq<World>, actions: seq<Action>, n: nat)
    requires Run(worlds, actions) && n < |worlds|
    ensures NoneLost(worlds[n])
  {
    if n > 0 {
      NoWindowIsLost(worlds, actions, n - 1);
      StepKeepsWindows(worlds[n - 1], actions[n - 1]);
    }
  }

  predicate Settled(ask: Ask) { !ask.place.Queued? && !ask.place.Aboard? }

  /** Every request of the earlier world is still there, and those settled are as they were. */
  ghost predicate Remembers(earlier: seq<Ask>, later: seq<Ask>) {
    && |earlier| <= |later|
    && forall i :: 0 <= i < |earlier| ==>
         later[i].window == earlier[i].window && (Settled(earlier[i]) ==> later[i] == earlier[i])
  }

  lemma RemembersOn(a: seq<Ask>, b: seq<Ask>, c: seq<Ask>)
    requires Remembers(a, b) && Remembers(b, c)
    ensures Remembers(a, c)
  {
    forall i | 0 <= i < |a| ensures c[i].window == a[i].window && (Settled(a[i]) ==> c[i] == a[i]) {
      assert b[i].window == a[i].window && c[i].window == b[i].window;
    }
  }

  lemma StepKeepsAsks(w: World, a: Action)
    requires Enabled(w, a)
    ensures Remembers(w.asks, Apply(w, a).asks)
  {}

  /** A request once made is in the history ever after; once settled it stays settled as it was. */
  lemma {:induction false} AsksAreForever(worlds: seq<World>, actions: seq<Action>, m: nat, n: nat)
    requires Run(worlds, actions) && m <= n < |worlds|
    ensures Remembers(worlds[m].asks, worlds[n].asks)
    decreases n - m
  {
    if m < n {
      AsksAreForever(worlds, actions, m, n - 1);
      StepKeepsAsks(worlds[n - 1], actions[n - 1]);
      RemembersOn(worlds[m].asks, worlds[n - 1].asks, worlds[n].asks);
    }
  }

  /** What settles a request: a round that did all it was asked with nothing failed and nothing put off,
      covering it from where that round started; a bound that left nothing before now; or a library
      that no recorder ever held. */
  predicate SettledBy(w: World, a: Action, place: Place) {
    match place
    case Covered(since) => a == Return(false, NoError, 0, 0) && w.loop.Running? && w.loop.window.from == since
    case Emptied(now) => a.BoundRound? && a.first.Since? && w.clock == now
    case NeverHeldLibrary => a == BoundRound(NeverHeld)
    case Queued => false
    case Aboard => false
  }

  lemma StepSettles(w: World, a: Action, i: nat)
    requires Enabled(w, a) && i < |Apply(w, a).asks| && Settled(Apply(w, a).asks[i])
    ensures i < |w.asks| && (w.asks[i] == Apply(w, a).asks[i] || SettledBy(w, a, Apply(w, a).asks[i].place))
  {}

  /** No request is settled in any other way: each settled one was not yet, at some step before, which
      settled it. */
  lemma {:induction false} SettledOnlyByItsRound(worlds: seq<World>, actions: seq<Action>, n: nat, i: nat)
    returns (k: nat)
    requires Run(worlds, actions) && n < |worlds| && i < |worlds[n].asks| && Settled(worlds[n].asks[i])
    ensures k < n && SettledBy(worlds[k], actions[k], worlds[n].asks[i].place)
    ensures i < |worlds[k].asks| && !Settled(worlds[k].asks[i])
  {
    StepSettles(worlds[n - 1], actions[n - 1], i);
    if Settled(worlds[n - 1].asks[i]) {
      StepKeepsAsks(worlds[n - 1], actions[n - 1]);
      k := SettledOnlyByItsRound(worlds, actions, n - 1, i);
    } else {
      k := n - 1;
    }
  }

  /** A window asked for still owed reaches as far back as it was asked to, or to where a round had to
      clamp it; settled, it was covered from there, or found to hold nothing. */
  ghost predicate ReachesBack(w: World, i: nat, from: Instant)
    requires i < |w.asks|
  {
    var lifted := w.asks[i].limit;
    && (lifted == from || (from < lifted && w.floor.Some? && lifted <= w.floor.value))
    && match w.asks[i].place
       case Queued => w.pending.Queued() && w.pending.from <= lifted
       case Aboard => Carried(w.loop).Some? && Carried(w.loop).value.from <= lifted
       case Covered(since) => since <= lifted
       case Emptied(now) => now <= lifted
       case NeverHeldLibrary => true
  }

  /** A round bounded here may start no earlier than this. */
  predicate ClampedTo(w: World, a: Action, clamp: Instant) {
    a.BoundRound? && a.first.Since? && clamp == Max(a.first.at, w.clock - 14 * DAY)
  }

  /** The highest clamp so far is one some round met: the library's first session as it was then dated,
      or fourteen days before that round. */
  lemma {:induction false} ClampsAreRounds(worlds: seq<World>, actions: seq<Action>, n: nat)
    requires Run(worlds, actions) && n < |worlds| && worlds[n].floor.Some?
    ensures exists j :: 0 <= j < n && ClampedTo(worlds[j], actions[j], worlds[n].floor.value)
    decreases n
  {
    var w, a := worlds[n - 1], actions[n - 1];
    if worlds[n].floor == w.floor {
      ClampsAreRounds(worlds, actions, n - 1);
    } else {
      assert ClampedTo(w, a, worlds[n].floor.value);
    }
  }

  /** From the answer that ends an outage on, over any run, the window behind it is owed back to twelve
      hours before the outage began, and measures it from where it began, until it is settled. */
  lemma OutagesReachBack(worlds: seq<World>, actions: seq<Action>, m: nat, n: nat, began: Instant, why: string)
    requires Run(worlds, actions) && m < n < |worlds| && actions[m] == AskOutage(began, why)
    ensures var i := |worlds[m].asks|;
      && i < |worlds[n].asks| && worlds[n].asks[i].window == Window(began - 12 * HOUR, why, Some(began))
      && ReachesBack(worlds[n], i, began - 12 * HOUR)
  {
    var i := |worlds[m].asks|;
    assert worlds[m + 1].asks[i].window == OutageWindow(began, why);
    AsksAreForever(worlds, actions, m + 1, n);
    NoWindowIsLost(worlds, actions, n);
    assert Kept(worlds[n], worlds[n].asks[i]) && LiftedByClamps(worlds[n], worlds[n].asks[i]);
  }

  /** So with time the recorder was not running, capped at fourteen days before it started again. */
  lemma DowntimeReachesBack(worlds: seq<World>, actions: seq<Action>, m: nat, n: nat,
                            startedAt: Instant, since: Duration, why: string)
    requires Run(worlds, actions) && m < n < |worlds| && actions[m] == AskDowntime(startedAt, since, why)
    ensures var i, from := |worlds[m].asks|, startedAt - Min(since, 14 * DAY) - 12 * HOUR;
      && i < |worlds[n].asks| && worlds[n].asks[i].window == Window(from, why, Some(startedAt - since))
      && ReachesBack(worlds[n], i, from)
  {
    var i := |worlds[m].asks|;
    assert worlds[m + 1].asks[i].window == DowntimeWindow(startedAt, since, why);
    AsksAreForever(worlds, actions, m + 1, n);
    NoWindowIsLost(worlds, actions, n);
    assert Kept(worlds[n], worlds[n].asks[i]) && LiftedByClamps(worlds[n], worlds[n].asks[i]);
  }

  /** And with the routine tick, which reaches back fourteen days. */
  lemma RoutineReachesBack(worlds: seq<World>, actions: seq<Action>, m: nat, n: nat)
    requires Run(worlds, actions) && m < n < |worlds| && actions[m] == AskRoutine
    ensures var i, from := |worlds[m].asks|, worlds[m].clock - 14 * DAY;
      i < |worlds[n].asks| && worlds[n].asks[i].window.missing.None? && ReachesBack(worlds[n], i, from)
  {
    var i := |worlds[m].asks|;
    assert worlds[m + 1].asks[i].window == RoutineWindow(worlds[m].clock);
    AsksAreForever(worlds, actions, m + 1, n);
    NoWindowIsLost(worlds, actions, n);
    assert Kept(worlds[n], worlds[n].asks[i]) && LiftedByClamps(worlds[n], worlds[n].asks[i]);
  }
}
