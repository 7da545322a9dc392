/** The holes in a broadcast's coverage, derived from the recordings of it. */
module Holes {
  import opened Basics
  import opened Library

  datatype Reason = LateStart | Reconnect | EarlyStop | ShortMedia

  /** A hole, offset from the broadcast's start. */
  datatype Span = Span(start: Duration, end: Duration, reason: Reason)

  const MIN_GAP: Duration := 30 * SECOND
  const SHORT_MEDIA_FLOOR: Duration := MINUTE
  const SHORT_MEDIA_SHARE := 50

  // ----- deriving them -----

  function Late(b: Broadcast, held: seq<Recording>): seq<Span>
    requires held != []
  {
    var lateBy := held[0].startedAt - b.startedAt;
    if lateBy >= MIN_GAP then [Span(0, lateBy, LateStart)] else []
  }

  /** A hole between the i-th recording and the one before it opens where that one is known to end. */
  predicate Breaks(held: seq<Recording>, i: nat)
    requires 1 <= i < |held|
  {
    held[i - 1].endedAt.Some? && held[i].startedAt - held[i - 1].endedAt.value >= MIN_GAP
  }

  function Between(b: Broadcast, held: seq<Recording>, i: nat): Span
    requires 1 <= i < |held| && Breaks(held, i)
  {
    Span(held[i - 1].endedAt.value - b.startedAt, held[i].startedAt - b.startedAt, Reconnect)
  }

  /** The reconnects among the first n recordings. */
  function Reconnects(b: Broadcast, held: seq<Recording>, n: nat): seq<Span>
    requires n <= |held|
  {
    if n < 2 then []
    else Reconnects(b, held, n - 1) + if Breaks(held, n - 1) then [Between(b, held, n - 1)] else []
  }

  /** The part of a recording's wall span its media falls short of, when it falls short at all. */
  function Shortfall(b: Broadcast, r: Recording): seq<Span> {
    if r.media <= 0 || r.endedAt.None? then []
    else
      var wall := r.endedAt.value - r.startedAt;
      if wall <= 0 || wall - r.media < Max(SHORT_MEDIA_FLOOR, wall / SHORT_MEDIA_SHARE) then []
      else
        var start, end := Max(r.startedAt - b.startedAt, 0), r.endedAt.value - b.startedAt;
        if end <= start then [] else [Span(start, end, ShortMedia)]
  }

  function Shortfalls(b: Broadcast, held: seq<Recording>): seq<Span> {
    if held == [] then [] else Shortfalls(b, held[..|held| - 1]) + Shortfall(b, held[|held| - 1])
  }

  function EndedEarly(b: Broadcast, held: seq<Recording>): seq<Span>
    requires held != []
  {
    var last := held[|held| - 1];
    if last.endedAt.None? || b.endedAt.None? || b.endedAt.value - last.endedAt.value < MIN_GAP then []
    else [Span(last.endedAt.value - b.startedAt, b.endedAt.value - b.startedAt, EarlyStop)]
  }

  /** Every hole, in the order they are found. */
  function SpansOf(b: Broadcast, held: seq<Recording>): seq<Span>
    requires held != []
  {
    Late(b, held) + Reconnects(b, held, |held|) + Shortfalls(b, held) + EndedEarly(b, held)
  }

  /** A recording whose media was measured, and falls short of its wall span by a minute and a fiftieth
      of it or more. */
  predicate FallsShort(r: Recording) {
    && r.media > 0 && r.endedAt.Some? && r.startedAt < r.endedAt.value
    && var missing, wall := r.endedAt.value - r.startedAt - r.media, r.endedAt.value - r.startedAt;
       missing >= 60 * SECOND && missing >= wall / 50
  }

  /** The part of the broadcast a recording spans. */
  function Within(b: Broadcast, r: Recording): Span
    requires r.endedAt.Some?
  {
    Span(Max(r.startedAt, b.startedAt) - b.startedAt, r.endedAt.value - b.startedAt, ShortMedia)
  }

  /** The recordings that fall short and whose hole is this one. */
  function ShortThere(b: Broadcast, held: seq<Recording>, s: Span): set<nat> {
    set i: nat | i < |held| && FallsShort(held[i]) && b.startedAt < held[i].endedAt.value && s == Within(b, held[i])
  }

  lemma ShortfallIs(b: Broadcast, r: Recording)
    ensures Shortfall(b, r) == if FallsShort(r) && b.startedAt < r.endedAt.value then [Within(b, r)] else []
  {}

  lemma OneMoreThere(b: Broadcast, held: seq<Recording>, s: Span)
    requires held != []
    ensures var front := held[..|held| - 1];
      ShortThere(b, held, s) == ShortThere(b, front, s) +
        (if s in Shortfall(b, held[|held| - 1]) then {|front|} else {})
      && |front| !in ShortThere(b, front, s)
  {
    var front := held[..|held| - 1];
    ShortfallIs(b, held[|front|]);
    assert forall i :: 0 <= i < |front| ==> held[i] == front[i];
  }

  lemma {:induction false} ShortfallsAreCounted(b: Broadcast, held: seq<Recording>, s: Span)
    ensures multiset(Shortfalls(b, held))[s] == |ShortThere(b, held, s)|
    decreases |held|
  {
    if held != [] {
      var front, last := held[..|held| - 1], held[|held| - 1];
      ShortfallsAreCounted(b, front, s);
      OneMoreThere(b, held, s);
      OneOrNone(b, last, s);
      assert multiset(Shortfalls(b, held)) == multiset(Shortfalls(b, front)) + multiset(Shortfall(b, last));
    }
  }

  lemma OneOrNone(b: Broadcast, r: Recording, s: Span)
    ensures multiset(Shortfall(b, r))[s] == if s in Shortfall(b, r) then 1 else 0
  {
    ShortfallIs(b, r);
  }

  /** A shortfall is filed once for each recording that falls short and ends inside the broadcast, over
      the part of the broadcast it spans, and nothing else is. */
  lemma ShortfallsAreExactly(b: Broadcast, held: seq<Recording>, s: Span)
    ensures multiset(Shortfalls(b, held))[s] == |ShortThere(b, held, s)|
    ensures s in Shortfalls(b, held) <==>
      exists r :: r in held && FallsShort(r) && b.startedAt < r.endedAt.value && s == Within(b, r)
  {
    ShortfallsAreCounted(b, held, s);
    assert s in Shortfalls(b, held) <==> s in multiset(Shortfalls(b, held));
    var there := ShortThere(b, held, s);
    if there != {} {
      var i :| i in there;
      assert held[i] in held;
    }
    if r :| r in held && FallsShort(r) && b.startedAt < r.endedAt.value && s == Within(b, r) {
      var i :| 0 <= i < |held| && held[i] == r;
      assert i in there;
    }
  }

  method FindShortfalls(b: Broadcast, held: seq<Recording>) returns (found: seq<Span>)
    ensures found == Shortfalls(b, held)
    ensures forall s :: multiset(found)[s] == |ShortThere(b, held, s)|
  {
    found := [];
    for i := 0 to |held|
      invariant found == Shortfalls(b, held[..i])
    {
      var r := held[i];
      assert held[..i + 1][..i] == held[..i];
      if r.media <= 0 || r.endedAt.None? {
        continue;
      }
      var wall := r.endedAt.value - r.startedAt;
      if wall <= 0 {
        continue;
      }
      if wall - r.media < Max(SHORT_MEDIA_FLOOR, wall / SHORT_MEDIA_SHARE) {
        continue;
      }
      var start, end := Max(r.startedAt - b.startedAt, 0), r.endedAt.value - b.startedAt;
      if end <= start {
        continue;
      }
      found := found + [Span(start, end, ShortMedia)];
    }
    assert held[..|held|] == held;
    forall s ensures multiset(found)[s] == |ShortThere(b, held, s)| { ShortfallsAreExactly(b, held, s); }
  }

  method FindSpans(b: Broadcast, held: seq<Recording>) returns (found: seq<Span>)
    requires held != []
    ensures found == SpansOf(b, held)
  {
    found := [];
    var lateBy := held[0].startedAt - b.startedAt;
    if lateBy >= MIN_GAP {
      found := found + [Span(0, lateBy, LateStart)];
    }
    for i := 1 to |held|
      invariant found == Late(b, held) + Reconnects(b, held, i)
    {
      var previous, current := held[i - 1], held[i];
      if previous.endedAt.None? {
        continue;
      }
      if current.startedAt - previous.endedAt.value >= MIN_GAP {
        found := found + [Span(previous.endedAt.value - b.startedAt, current.startedAt - b.startedAt, Reconnect)];
      }
    }
    var short := FindShortfalls(b, held);
    found := found + short;
    var last := held[|held| - 1];
    if last.endedAt.None? || b.endedAt.None? {
      return;
    }
    if b.endedAt.value - last.endedAt.value >= MIN_GAP {
      found := found + [Span(last.endedAt.value - b.startedAt, b.endedAt.value - b.startedAt, EarlyStop)];
    }
  }

  // ----- which instants they hold -----

  predicate Sorted(held: seq<Recording>) {
    forall i, j :: 0 <= i < j < |held| ==> held[i].startedAt <= held[j].startedAt
  }

  predicate Covers(r: Recording, t: Instant) {
    r.startedAt <= t && r.endedAt.Some? && t < r.endedAt.value
  }

  predicate Holds(s: Span, b: Broadcast, t: Instant) {
    s.start <= t - b.startedAt < s.end
  }

  /** The stretch before, between or after the recordings that opens where the i-th ends, the first
      opening where the broadcast starts; the last closes where the broadcast ends. */
  function Opening(b: Broadcast, held: seq<Recording>, i: nat): Option<Instant>
    requires i <= |held|
  {
    if i == 0 then Some(b.startedAt) else held[i - 1].endedAt
  }

  function Closing(b: Broadcast, held: seq<Recording>, i: nat): Option<Instant>
    requires i <= |held|
  {
    if i == |held| then b.endedAt else Some(held[i].startedAt)
  }

  /** Both of its bounds are known, and it is long enough to file. */
  predicate Filed(b: Broadcast, held: seq<Recording>, i: nat)
    requires i <= |held|
  {
    && Opening(b, held, i).Some? && Closing(b, held, i).Some?
    && Closing(b, held, i).value - Opening(b, held, i).value >= 30 * SECOND
  }

  function ReasonOf(held: seq<Recording>, i: nat): Reason {
    if i == 0 then LateStart else if i == |held| then EarlyStop else Reconnect
  }

  function FiledSpan(b: Broadcast, held: seq<Recording>, i: nat): Span
    requires i <= |held| && Filed(b, held, i)
  {
    Span(Opening(b, held, i).value - b.startedAt, Closing(b, held, i).value - b.startedAt, ReasonOf(held, i))
  }

  /** The filed stretches among the first n. */
  function FiledBefore(b: Broadcast, held: seq<Recording>, n: nat): seq<Span>
    requires n <= |held| + 1
  {
    if n == 0 then []
    else FiledBefore(b, held, n - 1) + if Filed(b, held, n - 1) then [FiledSpan(b, held, n - 1)] else []
  }

  function Boundaries(spans: seq<Span>): seq<Span> {
    if spans == [] then [] else (if spans[0].reason != ShortMedia then [spans[0]] else []) + Boundaries(spans[1..])
  }

  lemma {:induction false} BoundariesConcat(x: seq<Span>, y: seq<Span>)
    ensures Boundaries(x + y) == Boundaries(x) + Boundaries(y)
    decreases |x|
  {
    if x == [] {
      assert x + y == y;
    } else {
      assert (x + y)[1..] == x[1..] + y;
      BoundariesConcat(x[1..], y);
    }
  }

  lemma {:induction false} AllBoundaries(x: seq<Span>)
    requires forall i :: 0 <= i < |x| ==> x[i].reason != ShortMedia
    ensures Boundaries(x) == x
    decreases |x|
  {
    if x != [] { AllBoundaries(x[1..]); }
  }

  lemma {:induction false} NoBoundaries(x: seq<Span>)
    requires forall i :: 0 <= i < |x| ==> x[i].reason == ShortMedia
    ensures Boundaries(x) == []
    decreases |x|
  {
    if x != [] { NoBoundaries(x[1..]); }
  }

  lemma {:induction false} ReconnectsAreFiled(b: Broadcast, held: seq<Recording>, n: nat)
    requires 1 <= n <= |held|
    ensures FiledBefore(b, held, n) == Late(b, held) + Reconnects(b, held, n)
    ensures forall i :: 0 <= i < |FiledBefore(b, held, n)| ==> FiledBefore(b, held, n)[i].reason != ShortMedia
  {
    if n > 1 { ReconnectsAreFiled(b, held, n - 1); }
  }

  lemma {:induction false} ShortfallsAreShort(b: Broadcast, held: seq<Recording>)
    ensures forall i :: 0 <= i < |Shortfalls(b, held)| ==> Shortfalls(b, held)[i].reason == ShortMedia
    decreases |held|
  {
    if held != [] { ShortfallsAreShort(b, held[..|held| - 1]); }
  }

  /** Apart from the shortfalls, what is found is the filed stretches in order. */
  lemma BoundariesAreFiled(b: Broadcast, held: seq<Recording>)
    requires held != []
    ensures Boundaries(SpansOf(b, held)) == FiledBefore(b, held, |held| + 1)
  {
    var front, short, end := Late(b, held) + Reconnects(b, held, |held|), Shortfalls(b, held), EndedEarly(b, held);
    ReconnectsAreFiled(b, held, |held|);
    ShortfallsAreShort(b, held);
    LastIsFiled(b, held);
    BoundariesAround(front, short, end);
  }

  lemma LastIsFiled(b: Broadcast, held: seq<Recording>)
    requires held != []
    ensures FiledBefore(b, held, |held| + 1) == FiledBefore(b, held, |held|) + EndedEarly(b, held)
  {}

  lemma BoundariesAround(front: seq<Span>, short: seq<Span>, end: seq<Span>)
    requires forall i :: 0 <= i < |front| ==> front[i].reason != ShortMedia
    requires forall i :: 0 <= i < |short| ==> short[i].reason == ShortMedia
    requires forall i :: 0 <= i < |end| ==> end[i].reason != ShortMedia
    ensures Boundaries(front + short + end) == front + end
  {
    AllBoundaries(front);
    NoBoundaries(short);
    AllBoundaries(end);
    BoundariesConcat(front, short);
    assert front + [] == front;
    BoundariesConcat(front + short, end);
  }

  lemma {:induction false} FiledIsThere(b: Broadcast, held: seq<Recording>, n: nat, i: nat)
    requires i < n <= |held| + 1 && Filed(b, held, i)
    ensures FiledSpan(b, held, i) in FiledBefore(b, held, n)
  {
    if i < n - 1 { FiledIsThere(b, held, n - 1, i); }
  }

  lemma {:induction false} FiledComesFrom(b: Broadcast, held: seq<Recording>, n: nat, s: Span)
    returns (i: nat)
    requires n <= |held| + 1 && s in FiledBefore(b, held, n)
    ensures i < n && Filed(b, held, i) && s == FiledSpan(b, held, i)
  {
    if Filed(b, held, n - 1) && s == FiledSpan(b, held, n - 1) {
      i := n - 1;
    } else {
      i := FiledComesFrom(b, held, n - 1, s);
    }
  }

  /** How many recordings had started by an instant. */
  function Started(held: seq<Recording>, t: Instant): (n: nat)
    ensures n <= |held|
  {
    if held == [] then 0
    else if held[|held| - 1].startedAt <= t then |held|
    else Started(held[..|held| - 1], t)
  }

  lemma {:induction false} StartedSplits(held: seq<Recording>, t: Instant)
    requires Sorted(held)
    ensures forall i :: 0 <= i < Started(held, t) ==> held[i].startedAt <= t
    ensures forall i :: Started(held, t) <= i < |held| ==> t < held[i].startedAt
    decreases |held|
  {
    if held != [] && held[|held| - 1].startedAt > t {
      StartedSplits(held[..|held| - 1], t);
    }
  }

  /** An instant in a stretch too short to file. */
  predicate InShortHole(b: Broadcast, held: seq<Recording>, i: nat, t: Instant)
    requires i <= |held|
  {
    && Opening(b, held, i).Some? && Closing(b, held, i).Some?
    && Opening(b, held, i).value <= t < Closing(b, held, i).value
    && Closing(b, held, i).value - Opening(b, held, i).value < 30 * SECOND
  }

  ghost predicate Accounted(b: Broadcast, held: seq<Recording>, t: Instant)
    requires held != []
  {
    || (exists r :: r in held && Covers(r, t))
    || (exists s :: s in Boundaries(SpansOf(b, held)) && Holds(s, b, t))
    || (exists i :: 0 <= i <= |held| && InShortHole(b, held, i, t))
  }

  lemma FiledAccountsFor(b: Broadcast, held: seq<Recording>, i: nat, t: Instant)
    requires held != [] && i <= |held| && Filed(b, held, i)
    requires Opening(b, held, i).value <= t < Closing(b, held, i).value
    ensures Accounted(b, held, t)
  {
    BoundariesAreFiled(b, held);
    FiledIsThere(b, held, |held| + 1, i);
    assert Holds(FiledSpan(b, held, i), b, t);
  }

  /** Nothing is overlooked: with its own end known, and that of the last recording to start by an
      instant of it, the instant lies in a recording, in a filed hole, or in one under 30 seconds. */
  lemma EveryInstantIsAccountedFor(b: Broadcast, held: seq<Recording>, t: Instant)
    requires held != [] && Sorted(held) && b.endedAt.Some? && b.startedAt <= t < b.endedAt.value
    requires Started(held, t) > 0 ==> held[Started(held, t) - 1].endedAt.Some?
    ensures Accounted(b, held, t)
  {
    var i := Started(held, t);
    StartedSplits(held, t);
    if i > 0 && Covers(held[i - 1], t) {
      assert held[i - 1] in held;
    } else if Filed(b, held, i) {
      FiledAccountsFor(b, held, i, t);
    } else {
      assert InShortHole(b, held, i, t);
    }
  }

  // ----- that they do not overlap -----

  /** Recordings as the store admits them: none ends before it starts. */
  predicate Forward(held: seq<Recording>) {
    forall i :: 0 <= i < |held| && held[i].endedAt.Some? ==> held[i].startedAt <= held[i].endedAt.value
  }

  predicate InOrder(filed: seq<Span>, limit: Duration) {
    && (forall k :: 0 <= k < |filed| ==> filed[k].start < filed[k].end <= limit)
    && (forall k, l :: 0 <= k < l < |filed| ==> filed[k].end <= filed[l].start)
  }

  lemma OneMoreInOrder(filed: seq<Span>, s: Span, limit: Duration)
    requires InOrder(filed, s.start) && s.start < s.end <= limit
    ensures InOrder(filed + [s], limit)
  {}

  /** Where the last of the first n stretches closes. */
  function Limit(b: Broadcast, held: seq<Recording>, n: nat): Duration
    requires n <= |held| + 1 && held != []
  {
    if n == 0 then 0
    else if n <= |held| then held[n - 1].startedAt - b.startedAt
    else Max(held[|held| - 1].startedAt, if b.endedAt.Some? then b.endedAt.value else 0) - b.startedAt
  }

  lemma {:induction false} FiledInOrder(b: Broadcast, held: seq<Recording>, n: nat)
    requires held != [] && Sorted(held) && Forward(held) && n <= |held| + 1
    ensures InOrder(FiledBefore(b, held, n), Limit(b, held, n))
  {
    if n > 0 {
      FiledInOrder(b, held, n - 1);
      if Filed(b, held, n - 1) {
        var s := FiledSpan(b, held, n - 1);
        assert n > 1 ==> Limit(b, held, n - 1) <= s.start;
        OneMoreInOrder(FiledBefore(b, held, n - 1), s, Limit(b, held, n));
      } else {
        assert FiledBefore(b, held, n) == FiledBefore(b, held, n - 1);
        assert n > 1 ==> Limit(b, held, n - 1) <= Limit(b, held, n);
      }
    }
  }

  /** Filed holes stand in order and never overlap one another, however the recordings overlap. */
  lemma HolesStandApart(b: Broadcast, held: seq<Recording>, k: nat, l: nat)
    requires held != [] && Sorted(held) && Forward(held)
    requires k < l < |Boundaries(SpansOf(b, held))|
    ensures Boundaries(SpansOf(b, held))[k].start < Boundaries(SpansOf(b, held))[k].end
      <= Boundaries(SpansOf(b, held))[l].start
  {
    BoundariesAreFiled(b, held);
    FiledInOrder(b, held, |held| + 1);
  }

  ghost predicate Overlaps(b: Broadcast, s: Span, r: Recording) {
    exists t :: Holds(s, b, t) && Covers(r, t)
  }

  /** No filed hole lies over a recording. */
  ghost predicate ClearOfRecordings(b: Broadcast, held: seq<Recording>)
    requires held != []
  {
    forall s, r :: s in Boundaries(SpansOf(b, held)) && r in held ==> !Overlaps(b, s, r)
  }

  /** Every recording a filed hole opens behind is the last to end of those before the hole. */
  predicate LastToEnd(b: Broadcast, held: seq<Recording>) {
    forall i, j :: 0 <= j < i <= |held| && Filed(b, held, i) && held[j].endedAt.Some? ==>
      held[j].endedAt.value <= Opening(b, held, i).value
  }

  lemma OverlapIsLateEnd(b: Broadcast, held: seq<Recording>, i: nat, j: nat)
    requires Sorted(held) && Forward(held) && i <= |held| && j < |held| && Filed(b, held, i)
    ensures Overlaps(b, FiledSpan(b, held, i), held[j]) <==>
      j < i && held[j].endedAt.Some? && Opening(b, held, i).value < held[j].endedAt.value
  {
    var s, r := FiledSpan(b, held, i), held[j];
    if j < i && r.endedAt.Some? && Opening(b, held, i).value < r.endedAt.value {
      assert held[j].startedAt <= held[i - 1].startedAt;
      assert Holds(s, b, Opening(b, held, i).value) && Covers(r, Opening(b, held, i).value);
    }
    if t :| Holds(s, b, t) && Covers(r, t) {
      assert i < |held| && i < j ==> held[i].startedAt <= held[j].startedAt;
      assert i <= j ==> i < |held|;
    }
  }

  /** Exactly when no filed hole lies over a recording. */
  lemma ClearExactlyWhenLastToEnd(b: Broadcast, held: seq<Recording>)
    requires held != [] && Sorted(held) && Forward(held)
    ensures ClearOfRecordings(b, held) <==> LastToEnd(b, held)
  {
    BoundariesAreFiled(b, held);
    if ClearOfRecordings(b, held) {
      forall i, j | 0 <= j < i <= |held| && Filed(b, held, i) && held[j].endedAt.Some?
        ensures held[j].endedAt.value <= Opening(b, held, i).value
      {
        FiledIsThere(b, held, |held| + 1, i);
        OverlapIsLateEnd(b, held, i, j);
        assert held[j] in held;
      }
    }
    if LastToEnd(b, held) {
      forall s, r | s in Boundaries(SpansOf(b, held)) && r in held ensures !Overlaps(b, s, r) {
        var i := FiledComesFrom(b, held, |held| + 1, s);
        var j :| 0 <= j < |held| && held[j] == r;
        OverlapIsLateEnd(b, held, i, j);
      }
    }
  }

  /** Captures that never overlap are clear of every hole. */
  lemma SeparateCapturesAreClear(b: Broadcast, held: seq<Recording>)
    requires held != [] && Sorted(held) && Forward(held)
    requires forall i, j :: 0 <= i < j < |held| && held[i].endedAt.Some? ==> held[i].endedAt.value <= held[j].startedAt
    ensures ClearOfRecordings(b, held)
  {
    forall i, j | 0 <= j < i <= |held| && Filed(b, held, i) && held[j].endedAt.Some?
      ensures held[j].endedAt.value <= Opening(b, held, i).value
    {
      if j < i - 1 { assert held[j].endedAt.value <= held[i - 1].startedAt; }
    }
    ClearExactlyWhenLastToEnd(b, held);
  }

  function Nested(): seq<Recording> {
    [Recording(1, Some(1), Shelved("long"), Complete, true, 0, Some(HOUR), HOUR),
     Recording(2, Some(1), Shelved("short"), Complete, true, MINUTE, Some(2 * MINUTE), MINUTE)]
  }

  /** A recording nested in a longer one files a hole the longer one covers. */
  lemma NestedCaptureFilesACoveredHole()
    ensures var b := Broadcast(1, 0, Some(HOUR), None, [], "");
      !ClearOfRecordings(b, Nested())
  {
    var b := Broadcast(1, 0, Some(HOUR), None, [], "");
    assert Filed(b, Nested(), 2) && Nested()[0].endedAt.value > Opening(b, Nested(), 2).value;
    ClearExactlyWhenLastToEnd(b, Nested());
  }
}
