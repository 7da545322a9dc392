/** The recorder's scheduling state, as the methods of internal/daemon/recover.go change it. */
module Scheduler {
  import opened Basics
  import opened Ordering
  import opened RecoveryQueue
  import Runs = RecoveryRuns

  datatype Probe = Probe(platform: string, answered: bool)

  /** One report of noteProbe, for the history. */
  datatype Report = Report(at: Instant, channel: nat, probe: Probe)

  /** Report i opens a channel's trailing run of unanswered probes: nothing after it answered, and
      whatever came before it on that channel was answered last. */
  ghost predicate OpensOutage(history: seq<Report>, channel: nat, i: int) {
    && 0 <= i < |history| && history[i].channel == channel && !history[i].probe.answered
    && (forall j :: i < j < |history| && history[j].channel == channel ==> !history[j].probe.answered)
    && (forall j :: 0 <= j < i && history[j].channel == channel && !history[j].probe.answered ==>
          exists k :: j < k < i && history[k].channel == channel && history[k].probe.answered)
  }

  /** Report i is a channel's latest. */
  ghost predicate IsLatest(history: seq<Report>, channel: nat, i: int) {
    && 0 <= i < |history| && history[i].channel == channel
    && forall j :: i < j < |history| ==> history[j].channel != channel
  }

  ghost predicate OutagesFollow(history: seq<Report>, outages: map<nat, Instant>) {
    && (forall channel: nat, i :: OpensOutage(history, channel, i) ==>
          channel in outages && outages[channel] == history[i].at)
    && (forall channel: nat :: channel in outages ==> exists i :: OpensOutage(history, channel, i))
  }

  ghost predicate ProbesFollow(history: seq<Report>, probed: map<nat, Probe>) {
    && (forall channel: nat, i :: IsLatest(history, channel, i) ==>
          channel in probed && probed[channel] == history[i].probe)
    && (forall channel: nat :: channel in probed ==> exists i :: IsLatest(history, channel, i))
  }

  /** A new report moves each channel's latest report, and opens or closes an outage. */
  lemma ReportMovesLatest(history: seq<Report>, r: Report, channel: nat, i: int)
    ensures IsLatest(history + [r], channel, i) <==>
      if channel == r.channel then i == |history| else IsLatest(history, channel, i)
  {
    var h := history + [r];
    if channel != r.channel && IsLatest(history, channel, i) {
      assert forall j :: i < j < |h| ==> h[j].channel != channel;
    }
    assert h[|history|] == r && forall j :: 0 <= j < |history| ==> h[j] == history[j];
  }

  lemma ReportMovesOutage(history: seq<Report>, r: Report, channel: nat, i: int)
    ensures OpensOutage(history + [r], channel, i) <==>
      if channel != r.channel then OpensOutage(history, channel, i)
      else !r.probe.answered &&
           if i == |history| then !exists k :: OpensOutage(history, channel, k)
           else OpensOutage(history, channel, i)
  {
    var h := history + [r];
    assert forall j :: 0 <= j < |history| ==> h[j] == history[j];
    if 0 <= i < |history| {
      SameBefore(history, r, channel, i);
    } else if i == |history| && channel == r.channel && !r.probe.answered {
      if OpensOutage(h, channel, i) {
        forall k | 0 <= k < |history| && history[k].channel == channel && !history[k].probe.answered
          ensures exists a :: k < a < |history| && history[a].channel == channel && history[a].probe.answered
        {
          assert h[k] == history[k];
        }
      } else {
        var j :| 0 <= j < i && h[j].channel == channel && !h[j].probe.answered &&
          !exists k :: j < k < i && h[k].channel == channel && h[k].probe.answered;
        SomeReportOpens(history, channel, j);
      }
    }
  }

  lemma SameBefore(history: seq<Report>, r: Report, channel: nat, i: int)
    requires 0 <= i < |history|
    ensures OpensOutage(history + [r], channel, i) <==>
      OpensOutage(history, channel, i) && (r.channel == channel ==> !r.probe.answered)
  {
    var h := history + [r];
    assert forall j :: 0 <= j < |history| ==> h[j] == history[j];
    assert h[|history|] == r;
  }

  /** Where a channel's last probes went unanswered, some report opened the run. */
  lemma {:induction false} SomeReportOpens(history: seq<Report>, channel: nat, j: int)
    requires 0 <= j < |history| && history[j].channel == channel && !history[j].probe.answered
    requires forall k :: j < k < |history| && history[k].channel == channel ==> !history[k].probe.answered
    ensures exists i :: OpensOutage(history, channel, i)
    decreases j
  {
    if !OpensOutage(history, channel, j) {
      var earlier :| 0 <= earlier < j && history[earlier].channel == channel && !history[earlier].probe.answered &&
        !exists k :: earlier < k < j && history[k].channel == channel && history[k].probe.answered;
      SomeReportOpens(history, channel, earlier);
    }
  }

  function OutagesAfter(outages: map<nat, Instant>, r: Report): map<nat, Instant> {
    if r.probe.answered then outages - {r.channel}
    else if r.channel in outages then outages
    else outages[r.channel := r.at]
  }

  lemma OutagesStayDated(history: seq<Report>, outages: map<nat, Instant>, r: Report)
    requires OutagesFollow(history, outages)
    ensures OutagesFollow(history + [r], OutagesAfter(outages, r))
  {
    var h, after := history + [r], OutagesAfter(outages, r);
    forall channel: nat, i | OpensOutage(h, channel, i)
      ensures channel in after && after[channel] == h[i].at
    {
      ReportMovesOutage(history, r, channel, i);
    }
    forall channel: nat | channel in after
      ensures exists i :: OpensOutage(h, channel, i)
    {
      if channel in outages {
        var i :| OpensOutage(history, channel, i);
        ReportMovesOutage(history, r, channel, i);
        assert OpensOutage(h, channel, i);
      } else {
        ReportMovesOutage(history, r, channel, |history|);
        assert OpensOutage(h, channel, |history|);
      }
    }
  }

  /** What the map says of a channel is what the history does. */
  lemma OutageIsDated(history: seq<Report>, outages: map<nat, Instant>, channel: nat)
    requires OutagesFollow(history, outages)
    ensures channel in outages <==> exists i :: OpensOutage(history, channel, i)
    ensures forall i :: OpensOutage(history, channel, i) ==> channel in outages && outages[channel] == history[i].at
  {}

  lemma ProbesStayLatest(history: seq<Report>, probed: map<nat, Probe>, r: Report)
    requires ProbesFollow(history, probed)
    ensures ProbesFollow(history + [r], probed[r.channel := r.probe])
  {
    var h, after := history + [r], probed[r.channel := r.probe];
    forall channel: nat, i | IsLatest(h, channel, i)
      ensures channel in after && after[channel] == h[i].probe
    {
      ReportMovesLatest(history, r, channel, i);
    }
    forall channel: nat | channel in after
      ensures exists i :: IsLatest(h, channel, i)
    {
      if channel == r.channel {
        ReportMovesLatest(history, r, channel, |history|);
        assert IsLatest(h, channel, |history|);
      } else {
        var i :| IsLatest(history, channel, i);
        ReportMovesLatest(history, r, channel, i);
        assert IsLatest(h, channel, i);
      }
    }
  }

  /** Actions taken one after another carry one world to another. */
  ghost predicate Plays(w: Runs.World, actions: seq<Runs.Action>, w': Runs.World)
    decreases |actions|
  {
    if actions == [] then w == w'
    else Runs.Enabled(w, actions[0]) && Plays(Runs.Apply(w, actions[0]), actions[1..], w')
  }

  /** Some stretch of a run carries one world to another. */
  ghost predicate Reaches(w: Runs.World, w': Runs.World) {
    exists actions :: Plays(w, actions, w')
  }

  /** Where a list of actions leads, stopping short of one that is not enabled. */
  ghost function Ends(w: Runs.World, actions: seq<Runs.Action>): Runs.World
    decreases |actions|
  {
    if actions == [] || !Runs.Enabled(w, actions[0]) then w
    else Ends(Runs.Apply(w, actions[0]), actions[1..])
  }

  ghost predicate Fits(w: Runs.World, actions: seq<Runs.Action>) {
    Plays(w, actions, Ends(w, actions))
  }

  lemma {:induction false} FitsTogether(w: Runs.World, first: seq<Runs.Action>, second: seq<Runs.Action>)
    requires Fits(w, first) && Fits(Ends(w, first), second)
    ensures Fits(w, first + second) && Ends(w, first + second) == Ends(Ends(w, first), second)
    decreases |first|
  {
    if first == [] {
      assert [] + second == second;
    } else {
      FitsTogether(Runs.Apply(w, first[0]), first[1..], second);
      assert (first + second)[1..] == first[1..] + second;
    }
  }

  lemma {:induction false} PlayingLosesNothing(w: Runs.World, actions: seq<Runs.Action>)
    requires Runs.NoneLost(w)
    ensures Runs.NoneLost(Ends(w, actions))
    decreases |actions|
  {
    if actions != [] && Runs.Enabled(w, actions[0]) {
      Runs.StepKeepsWindows(w, actions[0]);
      PlayingLosesNothing(Runs.Apply(w, actions[0]), actions[1..]);
    }
  }

  function Opening(checkedAt: Instant, boundAt: Instant, first: First): seq<Runs.Action> {
    [Runs.ReadClock(checkedAt), Runs.Admit, Runs.Take, Runs.ReadClock(boundAt), Runs.BoundRound(first)]
  }

  function Closing(finishedAt: Instant, ending: Ending): seq<Runs.Action> {
    [Runs.ReadClock(finishedAt), Runs.NoteRan] + if Requeued(ending) then [Runs.Requeue] else []
  }

  predicate Admissible(w: Runs.World, checkedAt: Instant) {
    w.loop.Idle? && w.pending.Queued() && !Recent(w.ranAt, checkedAt, Pacing(w.backoff))
  }

  lemma Fits1(w: Runs.World, a: Runs.Action)
    requires Runs.Enabled(w, a)
    ensures Fits(w, [a]) && Ends(w, [a]) == Runs.Apply(w, a)
  {
    assert [a][1..] == [];
    assert Ends(Runs.Apply(w, a), [a][1..]) == Runs.Apply(w, a);
  }

  lemma RoundOpens(w: Runs.World, checkedAt: Instant, boundAt: Instant, first: First)
    requires Admissible(w, checkedAt) && Runs.NoneLost(w)
    ensures var w' := Ends(w, Opening(checkedAt, boundAt, first));
      var window := Taken(w.pending);
      Fits(w, Opening(checkedAt, boundAt, first)) && Runs.NoneLost(w')
      && w'.pending == NOTHING_QUEUED && w'.ranAt == w.ranAt && w'.backoff == w.backoff
      && w'.loop == match Bound(window, first, boundAt)
                    case NothingToCover => Runs.Idle
                    case CouldNotBound => Runs.Judged(window, RoundFailed)
                    case Start(at, _) => Runs.Running(window.(from := at))
  {
    PlayingLosesNothing(w, Opening(checkedAt, boundAt, first));
    var w1 := Runs.Apply(w, Runs.ReadClock(checkedAt));
    var w2 := Runs.Apply(w1, Runs.Admit);
    var w3 := Runs.Apply(w2, Runs.Take);
    var w4 := Runs.Apply(w3, Runs.ReadClock(boundAt));
    Fits1(w, Runs.ReadClock(checkedAt));
    Fits1(w1, Runs.Admit);
    Fits1(w2, Runs.Take);
    Fits1(w3, Runs.ReadClock(boundAt));
    Fits1(w4, Runs.BoundRound(first));
    FitsTogether(w, [Runs.ReadClock(checkedAt)], [Runs.Admit]);
    FitsTogether(w, [Runs.ReadClock(checkedAt)] + [Runs.Admit], [Runs.Take]);
    FitsTogether(w, [Runs.ReadClock(checkedAt)] + [Runs.Admit] + [Runs.Take], [Runs.ReadClock(boundAt)]);
    FitsTogether(w, [Runs.ReadClock(checkedAt)] + [Runs.Admit] + [Runs.Take] + [Runs.ReadClock(boundAt)],
                 [Runs.BoundRound(first)]);
    assert Opening(checkedAt, boundAt, first) ==
      [Runs.ReadClock(checkedAt)] + [Runs.Admit] + [Runs.Take] + [Runs.ReadClock(boundAt)] + [Runs.BoundRound(first)];
  }

  lemma RoundCloses(w: Runs.World, finishedAt: Instant)
    requires w.loop.Judged? && Runs.NoneLost(w) && w.pending == NOTHING_QUEUED
    ensures var ending := w.loop.ending;
      var w' := Ends(w, Closing(finishedAt, ending));
      Fits(w, Closing(finishedAt, ending)) && Runs.NoneLost(w') && w'.loop.Idle?
      && w'.ranAt == Some(finishedAt) && w'.backoff == Paced(w.backoff, PacedClean(ending))
      && w'.pending == if Requeued(ending) then Queue(NOTHING_QUEUED, w.loop.window) else NOTHING_QUEUED
  {
    var ending := w.loop.ending;
    PlayingLosesNothing(w, Closing(finishedAt, ending));
    var w1 := Runs.Apply(w, Runs.ReadClock(finishedAt));
    var w2 := Runs.Apply(w1, Runs.NoteRan);
    Fits1(w, Runs.ReadClock(finishedAt));
    Fits1(w1, Runs.NoteRan);
    FitsTogether(w, [Runs.ReadClock(finishedAt)], [Runs.NoteRan]);
    assert [Runs.ReadClock(finishedAt)] + [Runs.NoteRan] == [Runs.ReadClock(finishedAt), Runs.NoteRan];
    if Requeued(ending) {
      Fits1(w2, Runs.Requeue);
      FitsTogether(w, [Runs.ReadClock(finishedAt), Runs.NoteRan], [Runs.Requeue]);
    } else {
      assert Closing(finishedAt, ending) == [Runs.ReadClock(finishedAt), Runs.NoteRan];
    }
  }

  lemma RoundPlays(w: Runs.World, checkedAt: Instant, boundAt: Instant, finishedAt: Instant, first: First,
                   shutDown: bool, err: RoundError, failed: nat, deferred: nat)
    returns (w': Runs.World)
    requires Admissible(w, checkedAt) && Runs.NoneLost(w)
    ensures Reaches(w, w') && Runs.NoneLost(w') && w'.loop.Idle?
    ensures var window := Taken(w.pending);
         match Bound(window, first, boundAt)
         case NothingToCover =>
           w'.pending == NOTHING_QUEUED && w'.ranAt == w.ranAt && w'.backoff == w.backoff
         case CouldNotBound =>
           w'.pending == Queue(NOTHING_QUEUED, window) && w'.ranAt == Some(finishedAt)
           && w'.backoff == Paced(w.backoff, false)
         case Start(at, _) =>
           var ending := Judge(shutDown, err, failed, deferred);
           w'.pending == (if Requeued(ending) then Queue(NOTHING_QUEUED, window.(from := at)) else NOTHING_QUEUED)
           && w'.ranAt == Some(finishedAt) && w'.backoff == Paced(w.backoff, PacedClean(ending))
  {
    var window, actions := Taken(w.pending), Opening(checkedAt, boundAt, first);
    RoundOpens(w, checkedAt, boundAt, first);
    w' := Ends(w, actions);
    match Bound(window, first, boundAt)
    case NothingToCover =>
    case CouldNotBound =>
      RoundCloses(w', finishedAt);
      FitsTogether(w, actions, Closing(finishedAt, RoundFailed));
      w' := Ends(w', Closing(finishedAt, RoundFailed));
    case Start(at, _) =>
      var w1, judged := w', Runs.Return(shutDown, err, failed, deferred);
      var ending := Judge(shutDown, err, failed, deferred);
      Fits1(w1, judged);
      PlayingLosesNothing(w1, [judged]);
      var w2 := Runs.Apply(w1, judged);
      RoundCloses(w2, finishedAt);
      FitsTogether(w1, [judged], Closing(finishedAt, ending));
      FitsTogether(w, actions, [judged] + Closing(finishedAt, ending));
      w' := Ends(w2, Closing(finishedAt, ending));
  }

  /** A request as the run sees it: the clock is read and the request made. */
  lemma AskPlays(w: Runs.World, now: Instant, ask: Runs.Action)
    returns (w': Runs.World)
    requires w.loop.Idle? && Runs.NoneLost(w)
    requires ask.AskRoutine? || ask.AskOutage? || ask.AskDowntime?
    requires Runs.Enabled(w.(clock := now), ask)
    ensures Reaches(w, w') && Runs.NoneLost(w') && w'.loop.Idle?
    ensures w'.ranAt == w.ranAt && w'.backoff == w.backoff
    ensures w'.pending == Queue(w.pending, match ask
                                           case AskRoutine => RoutineWindow(now)
                                           case AskOutage(began, why) => OutageWindow(began, why)
                                           case AskDowntime(startedAt, since, why) =>
                                             DowntimeWindow(startedAt, since, why)
                                           case _ => Window(0, "", None))
  {
    var read := Runs.ReadClock(now);
    var w1 := Runs.Apply(w, read);
    Fits1(w, read);
    Fits1(w1, ask);
    FitsTogether(w, [read], [ask]);
    PlayingLosesNothing(w, [read] + [ask]);
    w' := Runs.Apply(w1, ask);
    assert Plays(w, [read] + [ask], w');
  }

  /** The round did all it was asked: no shutdown, no error, nothing failed and nothing put off. */
  predicate EndedClean(shutDown: bool, err: RoundError, failed: nat, deferred: nat) {
    !shutDown && err.NoError? && failed == 0 && deferred == 0
  }

  /** What is pending once a window is queued again with nothing else queued: all of it, and its
      reason as the gap's own where it carries one. */
  function Again(window: Window): Pending {
    Pending(window.from, window.why, window.missing, if window.missing.Some? then window.why else "")
  }

  /** A measured gap beside one already measured, if there is one: the earlier start of the two. */
  function EarlierOf(had: Option<Instant>, gap: Instant): Instant {
    if had.None? then gap else Min(had.value, gap)
  }

  class Scheduler {
    var recoveryFrom: Instant
    var recoveryWhy: string
    var recoveryMissingSince: Option<Instant>
    var recoveryMissingWhy: string
    var woken: bool                          // the one poke recoveryWake holds
    var outages: map<nat, Instant>
    var probed: map<nat, Probe>
    var roundBackoff: Duration
    var roundRanAt: Option<Instant>

    ghost var history: seq<Report>
    ghost var model: Runs.World              // the run these methods have played so far

    function Queued(): Pending
      reads this
    {
      Pending(recoveryFrom, recoveryWhy, recoveryMissingSince, recoveryMissingWhy)
    }

    /** Between rounds, the fields are the run's own and no window it was asked for is lost. */
    ghost predicate RunValid()
      reads this
    {
      && model.loop.Idle? && Runs.NoneLost(model)
      && model.pending == Queued() && model.backoff == roundBackoff && model.ranAt == roundRanAt
    }

    ghost predicate Valid()
      reads this
    {
      RunValid() && OutagesFollow(history, outages) && ProbesFollow(history, probed)
    }

    constructor ()
      ensures Valid() && model == Runs.INITIAL && history == []
    {
      recoveryFrom, recoveryWhy, recoveryMissingSince, recoveryMissingWhy := 0, "", None, "";
      woken := false;
      outages, probed := map[], map[];
      roundBackoff, roundRanAt := 0, None;
      history, model := [], Runs.INITIAL;
    }

    /** queueRecovery. The start and the measured gap are each the earliest asked for, kept apart. */
    method QueueRecovery(from: Instant, why: string, missingSince: Option<Instant>)
      modifies `recoveryFrom, `recoveryWhy, `recoveryMissingSince, `recoveryMissingWhy, `woken
      ensures recoveryFrom == if old(recoveryWhy) == "" then from else Min(old(recoveryFrom), from)
      ensures recoveryMissingSince == if missingSince.None? then old(recoveryMissingSince)
                                      else if old(recoveryMissingSince).None? then missingSince
                                      else Some(Min(old(recoveryMissingSince).value, missingSince.value))
      ensures recoveryWhy == if old(recoveryWhy) != "" && old(recoveryFrom) <= from then old(recoveryWhy) else why
      ensures recoveryMissingWhy == if recoveryMissingSince == old(recoveryMissingSince)
                                    then old(recoveryMissingWhy) else why
      ensures Queued() == Queue(old(Queued()), Window(from, why, missingSince))
      ensures woken == (old(woken) || Queued().from != old(Queued()).from || Queued().why != old(Queued()).why
                        || !(old(recoveryWhy) != "" && old(recoveryFrom) <= from))
    {
      if missingSince.Some? &&
         (recoveryMissingSince.None? || missingSince.value < recoveryMissingSince.value) {
        recoveryMissingSince, recoveryMissingWhy := missingSince, why;
      }
      if recoveryWhy != "" && !(from < recoveryFrom) {
        return;
      }
      recoveryFrom, recoveryWhy := from, why;
      woken := true;
    }

    /** The loop's own tick. */
    method RequestRoutine(now: Instant)
      requires RunValid()
      modifies `recoveryFrom, `recoveryWhy, `recoveryMissingSince, `recoveryMissingWhy, `woken, `model
      ensures RunValid() && Reaches(old(model), model)
      ensures Queued() == Queue(old(Queued()), RoutineWindow(now))
      ensures var from := now - 14 * DAY;
              recoveryFrom == if old(recoveryWhy) == "" then from else Min(old(recoveryFrom), from)
      ensures recoveryMissingSince == old(recoveryMissingSince) && recoveryWhy != ""
    {
      QueueRecovery(now - HORIZON, "the routine round", None);
      model := AskPlays(model, now, Runs.AskRoutine);
    }

    /** requestDowntimeRecovery, of a stretch measured when this session started or thawed. */
    method RequestDowntime(now: Instant, startedAt: Instant, since: Duration, why: string)
      requires RunValid() && startedAt <= now && why != ""
      modifies `recoveryFrom, `recoveryWhy, `recoveryMissingSince, `recoveryMissingWhy, `woken, `model
      ensures RunValid() && (since >= OUTAGE_FLOOR ==> Reaches(old(model), model))
      ensures Queued() == if since < OUTAGE_FLOOR then old(Queued())
                          else Queue(old(Queued()), DowntimeWindow(startedAt, since, why))
      ensures since < 5 * MINUTE ==> Queued() == old(Queued())
      ensures since >= 5 * MINUTE ==>
                var from := startedAt - Min(since, 14 * DAY) - 12 * HOUR;
                && recoveryFrom == (if old(recoveryWhy) == "" then from else Min(old(recoveryFrom), from))
                && recoveryMissingSince == Some(EarlierOf(old(recoveryMissingSince), startedAt - since))
    {
      if since < OUTAGE_FLOOR {
        return;
      }
      QueueRecovery(startedAt - Min(since, HORIZON) - MARGIN, why, Some(startedAt - since));
      model := AskPlays(model, now, Runs.AskDowntime(startedAt, since, why));
    }

    /** The request noteProbe makes when an outage ends. */
    method RequestOutage(now: Instant, began: Instant, why: string)
      requires RunValid() && now - began >= OUTAGE_FLOOR && why != ""
      modifies `recoveryFrom, `recoveryWhy, `recoveryMissingSince, `recoveryMissingWhy, `woken, `model
      ensures RunValid() && Reaches(old(model), model)
      ensures Queued() == Queue(old(Queued()), OutageWindow(began, why))
      ensures var from := began - 12 * HOUR;
              recoveryFrom == if old(recoveryWhy) == "" then from else Min(old(recoveryFrom), from)
      ensures recoveryMissingSince == Some(EarlierOf(old(recoveryMissingSince), began))
    {
      QueueRecovery(began - MARGIN, why, Some(began));
      model := AskPlays(model, now, Runs.AskOutage(began, why));
    }

    /** The outage a report opens, leaves or ends, and when the one it found began. */
    method MarkOutage(r: Report) returns (began: Option<Instant>)
      modifies `outages
      ensures outages == OutagesAfter(old(outages), r)
      ensures began == if r.channel in old(outages) then Some(old(outages)[r.channel]) else None
    {
      began := if r.channel in outages then Some(outages[r.channel]) else None;
      if !r.probe.answered {
        if r.channel !in outages {
          outages := outages[r.channel := r.at];
        }
      } else if r.channel in outages {
        outages := outages - {r.channel};
      }
      assert r.channel !in old(outages) ==> old(outages) - {r.channel} == old(outages);
    }

    /** Files one report, answering when the channel's outage began, if it was in one. */
    method FileReport(at: Instant, channel: nat, platform: string, answered: bool) returns (began: Option<Instant>)
      requires OutagesFollow(history, outages) && ProbesFollow(history, probed)
      modifies `outages, `probed, `history
      ensures OutagesFollow(history, outages) && ProbesFollow(history, probed)
      ensures history == old(history) + [Report(at, channel, Probe(platform, answered))]
      ensures began.Some? <==> exists i :: OpensOutage(old(history), channel, i)
      ensures forall i :: OpensOutage(old(history), channel, i) ==> began == Some(old(history)[i].at)
    {
      var report := Report(at, channel, Probe(platform, answered));
      OutagesStayDated(history, outages, report);
      ProbesStayLatest(history, probed, report);
      OutageIsDated(history, outages, channel);
      probed := probed[channel := Probe(platform, answered)];
      began := MarkOutage(report);
      history := history + [report];
    }

    /** noteProbe. An answer that ends an outage of at least five minutes queues a window reaching
        twelve hours before the first probe of the run that went unanswered, and nothing else does. */
    method NoteProbe(at: Instant, channel: nat, platform: string, answered: bool, why: string)
      requires Valid() && why != ""
      modifies this
      ensures Valid()
      ensures history == old(history) + [Report(at, channel, Probe(platform, answered))]
      ensures forall i :: OpensOutage(old(history), channel, i) ==>
                Queued() == if answered && at - old(history)[i].at >= OUTAGE_FLOOR
                            then Queue(old(Queued()), OutageWindow(old(history)[i].at, why))
                            else old(Queued())
      ensures forall i :: OpensOutage(old(history), channel, i) && answered && at - old(history)[i].at >= 5 * MINUTE ==>
                var from := old(history)[i].at - 12 * HOUR;
                && recoveryFrom == (if old(recoveryWhy) == "" then from else Min(old(recoveryFrom), from))
                && recoveryMissingSince == Some(EarlierOf(old(recoveryMissingSince), old(history)[i].at))
      ensures forall i :: OpensOutage(old(history), channel, i) ==>
                (!answered || at - old(history)[i].at < 5 * MINUTE) ==> Queued() == old(Queued())
      ensures (forall i :: !OpensOutage(old(history), channel, i)) ==> Queued() == old(Queued())
      ensures answered && Queued().Queued() ==> woken
    {
      var began := FileReport(at, channel, platform, answered);
      if !answered {
        return;
      }
      if began.Some? && at - began.value >= OUTAGE_FLOOR {
        RequestOutage(at, began.value, why);
      }
      if recoveryWhy != "" {
        woken := true;
      }
    }

    /** reachablePlatforms: every platform with a channel whose last probe was answered, sorted. */
    method ReachablePlatforms() returns (reachable: seq<string>)
      ensures Ascending(reachable)
      ensures forall platform :: platform in reachable <==>
                exists channel: nat :: channel in probed && probed[channel] == Probe(platform, true)
    {
      reachable := [];
      var rest := probed.Keys;
      while rest != {}
        invariant Ascending(reachable)
        invariant forall platform :: platform in reachable <==>
          exists c: nat :: c in probed && c !in rest && probed[c] == Probe(platform, true)
        invariant rest <= probed.Keys
        decreases rest
      {
        var channel :| channel in rest;
        var last := probed[channel];
        if last.answered && last.platform !in reachable {
          reachable := Insert(reachable, last.platform);
        }
        rest := rest - {channel};
      }
    }

    /** takeRecovery. */
    method TakeRecovery() returns (window: Window, pending: bool)
      modifies `recoveryFrom, `recoveryWhy, `recoveryMissingSince, `recoveryMissingWhy
      ensures pending == old(Queued()).Queued()
      ensures pending ==> window == Taken(old(Queued()))
      ensures Queued() == if pending then NOTHING_QUEUED else old(Queued()).(missing := None, missingWhy := "")
    {
      if recoveryWhy == "" {
        recoveryMissingSince, recoveryMissingWhy := None, "";
        return Window(0, "", None), false;
      }
      var why := recoveryWhy;
      if recoveryMissingWhy != "" {
        why := recoveryMissingWhy;
      }
      window, pending := Window(recoveryFrom, why, recoveryMissingSince), true;
      recoveryFrom, recoveryWhy := 0, "";
      recoveryMissingSince, recoveryMissingWhy := None, "";
    }

    /** noteRoundRan. */
    method NoteRoundRan(now: Instant, clean: bool)
      modifies `roundBackoff, `roundRanAt
      ensures roundRanAt == Some(now) && roundBackoff == Paced(old(roundBackoff), clean)
    {
      roundRanAt := Some(now);
      if clean {
        roundBackoff := FLOOR;
        return;
      }
      roundBackoff := Min(Max(roundBackoff * 2, 2 * FLOOR), INTERVAL);
    }

    /** The switch over how a round ended: every ending but a clean one queues the window again, from
        where it was bounded and with the gap it was asked with. */
    method SettleRound(at: Instant, why: string, missing: Option<Instant>, finishedAt: Instant,
                       shutDown: bool, err: RoundError, failed: nat, deferred: nat)
      requires Queued() == NOTHING_QUEUED && why != ""
      modifies `recoveryFrom, `recoveryWhy, `recoveryMissingSince, `recoveryMissingWhy, `woken,
               `roundBackoff, `roundRanAt
      ensures roundRanAt == Some(finishedAt)
      ensures Queued() == if EndedClean(shutDown, err, failed, deferred) then NOTHING_QUEUED
                          else Again(Window(at, why, missing))
      ensures roundBackoff == Paced(old(roundBackoff),
                shutDown || err.Canceled? || EndedClean(shutDown, err, failed, deferred))
    {
      if shutDown {
        NoteRoundRan(finishedAt, true);
        QueueRecovery(at, why, missing);
      } else if err.DeadlineExceeded? {
        NoteRoundRan(finishedAt, false);
        QueueRecovery(at, why, missing);
      } else if err.Canceled? {
        NoteRoundRan(finishedAt, true);
        QueueRecovery(at, why, missing);
      } else if !err.NoError? {
        NoteRoundRan(finishedAt, false);
        QueueRecovery(at, why, missing);
      } else if failed > 0 {
        NoteRoundRan(finishedAt, false);
        QueueRecovery(at, why, missing);
      } else if deferred > 0 {
        NoteRoundRan(finishedAt, false);
        QueueRecovery(at, why, missing);
      } else {
        NoteRoundRan(finishedAt, true);
      }
    }

    /** runRecovery, with the clock's readings, the store's answer and the round's outcome given.
        The whole call is one stretch of a run. */
    method RunRecovery(checkedAt: Instant, boundAt: Instant, finishedAt: Instant, capturing: bool, first: First,
                       shutDown: bool, err: RoundError, failed: nat, deferred: nat)
      returns (since: Option<Instant>, loss: Option<Loss>)
      requires RunValid()
      modifies `recoveryFrom, `recoveryWhy, `recoveryMissingSince, `recoveryMissingWhy, `woken,
               `roundBackoff, `roundRanAt, `model
      ensures RunValid() && (model == old(model) || Reaches(old(model), model))
      ensures var ran := old(roundRanAt);
        var held := capturing || (ran.Some? && checkedAt - ran.value < Max(old(roundBackoff), 30 * MINUTE))
                          || !exists channel: nat :: channel in old(probed) && old(probed)[channel].answered;
        if !old(Queued()).Queued() || held then
          since.None? && Queued() == old(Queued()) && roundRanAt == old(roundRanAt)
        else
          var window := Taken(old(Queued()));
          match Bound(window, first, boundAt)
          case NothingToCover => since.None? && Queued() == NOTHING_QUEUED && roundRanAt == old(roundRanAt)
          case CouldNotBound =>
            since.None? && roundRanAt == Some(finishedAt)
            && Queued() == Again(window) && roundBackoff == Paced(old(roundBackoff), false)
          case Start(at, warned) =>
            since == Some(at) && loss == warned && roundRanAt == Some(finishedAt)
            && Queued() == (if EndedClean(shutDown, err, failed, deferred) then NOTHING_QUEUED
                            else Again(window.(from := at)))
            && roundBackoff == Paced(old(roundBackoff),
                 shutDown || err.Canceled? || EndedClean(shutDown, err, failed, deferred))
    {
      since, loss := None, None;
      if recoveryWhy == "" {
        return;
      }
      var platforms := ReachablePlatforms();
      assert platforms == [] || platforms[0] in platforms;
      if capturing || Recent(roundRanAt, checkedAt, Pacing(roundBackoff)) || platforms == [] {
        return;
      }
      model := RoundPlays(model, checkedAt, boundAt, finishedAt, first, shutDown, err, failed, deferred);
      var window, pending := TakeRecovery();
      match Bound(window, first, boundAt) {
        case NothingToCover =>
        case CouldNotBound =>
          NoteRoundRan(finishedAt, false);
          QueueRecovery(window.from, window.why, window.missing);
        case Start(at, warned) =>
          since, loss := Some(at), warned;
          SettleRound(at, window.why, window.missing, finishedAt, shutDown, err, failed, deferred);
      }
    }
  }
}
