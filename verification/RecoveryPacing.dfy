/** How far apart rounds are, over whole runs. */
module RecoveryPacing {
  import opened Basics
  import opened Numerals
  import opened RecoveryQueue
  import opened RecoveryRuns

  /** The pacing n unclean rounds in a row call for. */
  function BackoffAfter(n: nat): Duration {
    if n == 0 then 30 * MINUTE else Min(Pow2(n) * (30 * MINUTE), 6 * HOUR)
  }

  lemma DoublingReachesBackoff(n: nat)
    ensures Paced(BackoffAfter(n), false) == BackoffAfter(n + 1)
    ensures Paced(0, false) == BackoffAfter(1)
    ensures Pacing(BackoffAfter(n)) == BackoffAfter(n) >= FLOOR
  {
    Pow2Positive(n);
    assert Pow2(n + 1) == 2 * Pow2(n);
  }

  lemma Pow2Positive(n: nat)
    ensures 1 <= Pow2(n)
  {}

  /** Two starts are at least the floor apart for every start between them. */
  ghost predicate Spaced(starts: seq<Instant>) {
    forall i, j :: 0 <= i <= j < |starts| ==> (j - i) * FLOOR <= starts[j] - starts[i]
  }

  ghost predicate PacedSoFar(w: World) {
    && (w.backoff == BackoffAfter(w.streak) || (w.backoff == 0 && w.streak == 0))
    && (w.ranAt.None? ==> w.streak == 0)
    && (w.ranAt.Some? ==> w.ranAt.value <= w.clock)
    && (w.loop.Admitted? || w.loop.Holding? ==>
          w.ranAt.Some? ==> w.ranAt.value + Pacing(w.backoff) <= w.clock)
    && Spaced(w.starts)
    && (w.starts != [] ==> w.starts[|w.starts| - 1] <= w.clock)
    && (w.starts != [] && !w.loop.Running? && !w.loop.Judged? ==>
          w.ranAt.Some? && w.starts[|w.starts| - 1] <= w.ranAt.value)
  }

  lemma SpacedGrows(starts: seq<Instant>, at: Instant)
    requires Spaced(starts)
    requires starts != [] ==> starts[|starts| - 1] + FLOOR <= at
    ensures Spaced(starts + [at])
  {
    forall i, j | 0 <= i <= j < |starts| + 1
      ensures (j - i) * FLOOR <= (starts + [at])[j] - (starts + [at])[i]
    {
      if j == |starts| && i < j {
        assert (j - 1 - i) * FLOOR <= starts[j - 1] - starts[i];
      }
    }
  }

  lemma BoundingStaysPaced(w: World, first: First)
    requires PacedSoFar(w) && w.loop.Holding?
    ensures PacedSoFar(Bounding(w, first))
  {
    DoublingReachesBackoff(w.streak);
    SpacedGrows(w.starts, w.clock);
  }

  lemma NotingStaysPaced(w: World)
    requires PacedSoFar(w) && w.loop.Judged?
    ensures PacedSoFar(Apply(w, NoteRan))
  {
    DoublingReachesBackoff(w.streak);
  }

  lemma MovingStaysPaced(w: World, a: Action)
    requires PacedSoFar(w) && Enabled(w, a) && (a.Admit? || a.Take? || a.Return? || a.Requeue?)
    ensures PacedSoFar(Apply(w, a))
  {}

  /** The clock goes on and requests come in, and no round moves. */
  lemma WaitingStaysPaced(w: World, a: Action)
    requires PacedSoFar(w) && Enabled(w, a) && Steady(w, a)
    requires a.ReadClock? || a.AskRoutine? || a.AskOutage? || a.AskDowntime?
    ensures PacedSoFar(Apply(w, a))
  {}

  lemma StepStaysPaced(w: World, a: Action)
    requires PacedSoFar(w) && Enabled(w, a) && Steady(w, a)
    ensures PacedSoFar(Apply(w, a))
  {
    if a.BoundRound? {
      BoundingStaysPaced(w, a.first);
    } else if a.NoteRan? {
      NotingStaysPaced(w);
    } else if a.Admit? || a.Take? || a.Return? || a.Requeue? {
      MovingStaysPaced(w, a);
    } else {
      WaitingStaysPaced(w, a);
    }
  }

  /** After n unclean rounds in a row the next round waits min(2^n * 30min, 6h) from the end of the
      last, and after a clean one 30min; and every round start, counting windows that could not be
      bounded, is at least the floor after the one before. */
  lemma {:induction false} RunsArePaced(worlds: seq<World>, actions: seq<Action>, n: nat)
    requires SteadyRun(worlds, actions) && n < |worlds|
    ensures PacedSoFar(worlds[n])
    ensures Pacing(worlds[n].backoff) == BackoffAfter(worlds[n].streak)
  {
    if n > 0 {
      RunsArePaced(worlds, actions, n - 1);
      StepStaysPaced(worlds[n - 1], actions[n - 1]);
    }
    DoublingReachesBackoff(worlds[n].streak);
  }

  /** No round is bounded before the required wait since the last one has passed. */
  lemma EveryRoundWaitsItsTurn(worlds: seq<World>, actions: seq<Action>, n: nat, first: First)
    requires SteadyRun(worlds, actions) && n < |actions| && actions[n] == BoundRound(first)
    ensures var w := worlds[n];
      w.ranAt.Some? ==> w.ranAt.value + BackoffAfter(w.streak) <= w.clock
  {
    RunsArePaced(worlds, actions, n);
  }

  function StartsWithin(starts: seq<Instant>, lo: Instant, hi: Instant): nat {
    if starts == [] then 0
    else
      var last := starts[|starts| - 1];
      StartsWithin(starts[..|starts| - 1], lo, hi) + if lo <= last <= hi then 1 else 0
  }

  lemma {:induction false} FewFit(starts: seq<Instant>, lo: Instant, hi: Instant)
    requires Spaced(starts)
    ensures var n := StartsWithin(starts, lo, hi);
      n > 0 ==> starts != [] && (n - 1) * FLOOR <= Min(hi, starts[|starts| - 1]) - lo
  {
    if starts != [] {
      var front := starts[..|starts| - 1];
      FewFit(front, lo, hi);
      if front != [] {
        var i := |front| - 1;
        assert (i + 1 - i) * FLOOR <= starts[i + 1] - starts[i];
      }
    }
  }

  /** Any stretch of length T holds at most 1 + T/30min round starts, over any run. */
  lemma RoundsAreFew(worlds: seq<World>, actions: seq<Action>, n: nat, lo: Instant, length: nat)
    requires SteadyRun(worlds, actions) && n < |worlds|
    ensures StartsWithin(worlds[n].starts, lo, lo + length) <= 1 + length / (30 * MINUTE)
  {
    RunsArePaced(worlds, actions, n);
    FewFit(worlds[n].starts, lo, lo + length);
  }
}
