/** Which broadcasts a backfill pass tries to fetch. */
module Plan {
  import opened Basics
  import opened Civil
  import opened Calendar
  import opened Library
  import Claims

  // ----- what the store answers -----

  /** stateEvidence: anything but a finished file, one on its way in, or one being written proves
      nothing. */
  predicate IsEvidence(state: Held) {
    state == Complete || state == Capturing || state == AwaitingFinalize
    || state == AwaitingMetadata || state == AwaitingFile
  }

  datatype Lookup = Found(row: Claims.Row) | NotFound | Unreadable

  /** One channel's rows as a pass reads them; any read may fail. */
  datatype Archive = Archive(broadcasts: seq<Broadcast>, listed: Instant -> bool, recordings: int -> Option<seq<Held>>,
                             fetches: int -> Lookup)
  {
    /** The order the store lists broadcasts in. */
    ghost predicate OldestFirst() {
      forall i, j :: 0 <= i < j < |broadcasts| ==> broadcasts[i].startedAt <= broadcasts[j].startedAt
    }
  }

  datatype Window = Window(lookback: Duration, settle: Duration)

  const DEFAULT_LOOKBACK: Duration := 30 * DAY
  const DEFAULT_SETTLE: Duration := 2 * HOUR
  const ASSUMED_MAX_BROADCAST: Duration := DAY

  function WithDefaults(w: Window): (r: Window)
    ensures r.lookback > 0 && r.settle > 0
  {
    Window(if w.lookback <= 0 then DEFAULT_LOOKBACK else w.lookback, if w.settle <= 0 then DEFAULT_SETTLE else w.settle)
  }

  datatype Candidate = Candidate(broadcast: Broadcast, day: Instant)

  datatype PlanError = DayUnread(day: Instant) | RecordingsUnread(broadcast: int)

  // ----- the rules -----

  predicate Settled(b: Broadcast, now: Instant, settle: Duration) {
    now >= (match b.endedAt case None => b.startedAt + ASSUMED_MAX_BROADCAST case Some(at) => at) + settle
  }

  predicate NothingKept(states: seq<Held>) {
    forall i :: 0 <= i < |states| ==> !IsEvidence(states[i])
  }

  /** NeedsRecovery's loop. */
  method NeedsRecovery(states: seq<Held>) returns (needs: bool)
    ensures needs == NothingKept(states)
  {
    for i := 0 to |states|
      invariant forall j :: 0 <= j < i ==> !IsEvidence(states[j])
    {
      if IsEvidence(states[i]) {
        return false;
      }
    }
    return true;
  }

  predicate Due(fetch: Lookup, now: Instant) {
    match fetch
    case NotFound => true
    case Unreadable => false
    case Found(row) =>
      && row.state != Claims.Terminal && row.state != Claims.Done
      && (row.next.None? || now >= row.next.value)
  }

  /** One pass over a channel: what it reads, when, and how far back. */
  datatype Pass = Pass(archive: Archive, days: seq<Day>, now: Instant, window: Window, zone: Duration)
  {
    function From(): Instant { now - window.lookback }

    /** The recordings of a broadcast that is settled have to be readable. */
    predicate Readable(b: Broadcast) {
      LongOver(b) ==> archive.recordings(b.id).Some?
    }

    /** A settled broadcast that left nothing to keep, and that is due. */
    predicate Worth(b: Broadcast) {
      && Settled(b, now, window.settle)
      && archive.recordings(b.id).Some? && NothingKept(archive.recordings(b.id).value)
      && Due(archive.fetches(b.id), now)
    }

    /** Over for as long as it is left alone after, a day after its start where its end is not known. */
    predicate LongOver(b: Broadcast) {
      (if b.endedAt.Some? then b.endedAt.value else b.startedAt + 24 * HOUR) + window.settle <= now
    }

    /** Nothing the library has of it is a file, or will be one. */
    predicate Unkept(b: Broadcast) {
      && archive.recordings(b.id).Some?
      && forall state :: state in archive.recordings(b.id).value ==>
           state == Failed || state == Trashed || state == Missing || state == Held.Unrecognised
    }

    /** No fetch of it is on record, or one that may be tried again by now. */
    predicate Fetchable(b: Broadcast) {
      match archive.fetches(b.id)
      case NotFound => true
      case Unreadable => false
      case Found(row) => Claims.Claimable(Some(row.(claim := None)), now, 0)
    }

    /** What a pass fetches: broadcasts that started inside the lookback, on a day up to today that the
        calendar calls missed or partial, and that are over, not kept, and may be fetched. */
    predicate Wanted(b: Broadcast) {
      var day := (b.startedAt + zone) / DAY;
      && now - window.lookback <= b.startedAt && day <= (now + zone) / DAY
      && (StateOf(days, day, zone) == Missed || StateOf(days, day, zone) == Partial)
      && LongOver(b) && Unkept(b) && Fetchable(b)
    }

    /** The broadcast, under the midnight its day begins at. */
    function CandidateFor(b: Broadcast): Candidate {
      Candidate(b, (b.startedAt + zone) / DAY * DAY - zone)
    }
  }

  // ----- the loops -----

  /** BroadcastsBetween: a half-open filter. */
  function Between(bs: seq<Broadcast>, from: Instant, to: Instant): seq<Broadcast> {
    if bs == [] then []
    else (if from <= bs[0].startedAt < to then [bs[0]] else []) + Between(bs[1..], from, to)
  }

  function Prefixed(head: seq<Candidate>, tail: Result<seq<Candidate>, PlanError>): Result<seq<Candidate>, PlanError> {
    match tail
    case Err(e) => Err(e)
    case Ok(rest) => Ok(head + rest)
  }

  lemma PrefixedTwice(a: seq<Candidate>, b: seq<Candidate>, tail: Result<seq<Candidate>, PlanError>)
    ensures Prefixed(a, Prefixed(b, tail)) == Prefixed(a + b, tail)
  {
    if tail.Ok? { assert a + (b + tail.value) == (a + b) + tail.value; }
  }

  lemma PrefixedNothing(tail: Result<seq<Candidate>, PlanError>)
    ensures Prefixed([], tail) == tail
  {
    if tail.Ok? { assert [] + tail.value == tail.value; }
  }

  /** The broadcasts worth fetching among those listed for a day. */
  function Chosen(p: Pass, bs: seq<Broadcast>, day: Instant): Result<seq<Candidate>, PlanError> {
    if bs == [] then Ok([])
    else if !p.Readable(bs[0]) then Err(RecordingsUnread(bs[0].id))
    else Prefixed(if p.Worth(bs[0]) then [Candidate(bs[0], day)] else [], Chosen(p, bs[1..], day))
  }

  function ChosenOn(p: Pass, cell: Cell): Result<seq<Candidate>, PlanError> {
    if !p.archive.listed(cell.date) then Err(DayUnread(cell.date))
    else Chosen(p, Between(p.archive.broadcasts, cell.date, cell.date + DAY), cell.date)
  }

  /** candidatesOn's loop. */
  method CandidatesOn(p: Pass, cell: Cell) returns (result: Result<seq<Candidate>, PlanError>)
    ensures result == ChosenOn(p, cell)
  {
    if !p.archive.listed(cell.date) {
      return Err(DayUnread(cell.date));
    }
    var bs := Between(p.archive.broadcasts, cell.date, cell.date + DAY);
    var found: seq<Candidate> := [];
    assert bs[0..] == bs;
    PrefixedNothing(Chosen(p, bs, cell.date));
    for i := 0 to |bs|
      invariant Chosen(p, bs, cell.date) == Prefixed(found, Chosen(p, bs[i..], cell.date))
    {
      assert bs[i..][1..] == bs[i + 1..] && bs[i..][0] == bs[i];
      assert found + [] == found;
      PrefixedTwice(found, if p.Worth(bs[i]) then [Candidate(bs[i], cell.date)] else [],
                    Chosen(p, bs[i + 1..], cell.date));
      if Settled(bs[i], p.now, p.window.settle) {
        var states := p.archive.recordings(bs[i].id);
        if states.None? {
          return Err(RecordingsUnread(bs[i].id));
        }
        var needs := NeedsRecovery(states.value);
        if needs && Due(p.archive.fetches(bs[i].id), p.now) {
          found := found + [Candidate(bs[i], cell.date)];
        }
      }
    }
    assert found + [] == found;
    return Ok(found);
  }

  function Recent(found: seq<Candidate>, from: Instant): seq<Candidate> {
    if found == [] then []
    else (if from <= found[0].broadcast.startedAt then [found[0]] else []) + Recent(found[1..], from)
  }

  lemma {:induction false} RecentConcat(a: seq<Candidate>, b: seq<Candidate>, from: Instant)
    ensures Recent(a + b, from) == Recent(a, from) + Recent(b, from)
    decreases |a|
  {
    if a == [] {
      assert a + b == b;
    } else {
      var head := if from <= a[0].broadcast.startedAt then [a[0]] else [];
      assert (a + b)[0] == a[0] && (a + b)[1..] == a[1..] + b;
      RecentConcat(a[1..], b, from);
      assert head + (Recent(a[1..], from) + Recent(b, from)) == (head + Recent(a[1..], from)) + Recent(b, from);
    }
  }

  /** The part of a day's finds that started inside the lookback. */
  method KeepRecent(found: seq<Candidate>, from: Instant, so: seq<Candidate>) returns (more: seq<Candidate>)
    ensures more == so + Recent(found, from)
  {
    more := so;
    for j := 0 to |found|
      invariant more == so + Recent(found[..j], from)
    {
      assert found[..j + 1] == found[..j] + [found[j]];
      RecentConcat(found[..j], [found[j]], from);
      if found[j].broadcast.startedAt < from {
        continue;
      }
      more := more + [found[j]];
    }
    assert found[..|found|] == found;
  }

  function ChosenOver(p: Pass, cells: seq<Cell>): Result<seq<Candidate>, PlanError> {
    if cells == [] then Ok([])
    else match ChosenOn(p, cells[0])
      case Err(e) => Err(e)
      case Ok(found) => Prefixed(Recent(found, p.From()), ChosenOver(p, cells[1..]))
  }

  // ----- the month walk -----

  /** The cells between a first day and an instant. */
  function Clip(cells: seq<Cell>, oldest: Instant, to: Instant): seq<Cell> {
    if cells == [] then []
    else (if oldest <= cells[0].date <= to then [cells[0]] else []) + Clip(cells[1..], oldest, to)
  }

  lemma {:induction false} ClipConcat(a: seq<Cell>, b: seq<Cell>, oldest: Instant, to: Instant)
    ensures Clip(a + b, oldest, to) == Clip(a, oldest, to) + Clip(b, oldest, to)
  {
    if a == [] {
      assert a + b == b;
    } else {
      assert (a + b)[1..] == a[1..] + b;
      ClipConcat(a[1..], b, oldest, to);
    }
  }

  function DayCells(day: int, days: seq<Day>, zone: Duration): (cells: seq<Cell>)
    ensures |cells| <= 1 && forall i :: 0 <= i < |cells| ==> cells[i].date == StartOf(day, zone)
  {
    if IsGap(days, day, zone) then [CellOn(day, true, days, zone)] else []
  }

  lemma ClipOneDay(cells: seq<Cell>, day: int, first: int, to: Instant, zone: Duration)
    requires |cells| <= 1 && forall i :: 0 <= i < |cells| ==> cells[i].date == StartOf(day, zone)
    ensures Clip(cells, StartOf(first, zone), to) == if first <= day <= DayOf(to, zone) then cells else []
  {
    DaysAreWhole(to, zone, day);
    if |cells| == 1 { assert cells[1..] == []; }
  }

  lemma {:induction false} ClipIsDays(lo: int, hi: int, first: int, to: Instant, days: seq<Day>, zone: Duration)
    ensures Clip(GapCells(lo, hi, days, zone), StartOf(first, zone), to) ==
      GapCells(Max(lo, first), Min(hi, DayOf(to, zone) + 1), days, zone)
    decreases hi - lo
  {
    if lo < hi {
      var head := DayCells(lo, days, zone);
      ClipIsDays(lo + 1, hi, first, to, days, zone);
      ClipOneDay(head, lo, first, to, zone);
      ClipConcat(head, GapCells(lo + 1, hi, days, zone), StartOf(first, zone), to);
    }
  }

  predicate Climbs(cells: seq<Cell>, from: Instant, end: Instant) {
    && (forall i :: 0 <= i < |cells| ==> from <= cells[i].date < end)
    && (forall i, j :: 0 <= i < j < |cells| ==> cells[i].date < cells[j].date)
  }

  lemma ClimbsOn(head: seq<Cell>, rest: seq<Cell>, from: Instant, mid: Instant, end: Instant)
    requires Climbs(rest, mid, end) && from < mid <= end && |head| <= 1 && (|head| == 1 ==> head[0].date == from)
    ensures Climbs(head + rest, from, end)
  {}

  lemma {:induction false} GapCellsAscend(from: int, end: int, days: seq<Day>, zone: Duration)
    ensures Climbs(GapCells(from, end, days, zone), StartOf(from, zone), StartOf(end, zone))
    decreases end - from
  {
    if from < end {
      GapCellsAscend(from + 1, end, days, zone);
      assert StartOf(from, zone) < StartOf(from + 1, zone) <= StartOf(end, zone);
      var head := if IsGap(days, from, zone) then [CellOn(from, true, days, zone)] else [];
      ClimbsOn(head, GapCells(from + 1, end, days, zone),
               StartOf(from, zone), StartOf(from + 1, zone), StartOf(end, zone));
    }
  }

  /** One month's gaps, taken up by the walk. */
  method TakeGaps(cells: seq<Cell>, oldest: Instant, to: Instant, gaps: seq<Cell>, seen: set<Instant>)
    returns (more: seq<Cell>, known: set<Instant>)
    requires forall i, j :: 0 <= i < j < |cells| ==> cells[i].date < cells[j].date
    requires forall i :: 0 <= i < |cells| ==> cells[i].date !in seen
    ensures more == gaps + Clip(cells, oldest, to)
    ensures forall at :: at in known ==> at in seen || exists i :: 0 <= i < |cells| && cells[i].date == at
  {
    more, known := gaps, seen;
    for i := 0 to |cells|
      invariant more == gaps + Clip(cells[..i], oldest, to)
      invariant forall at :: at in known ==> at in seen || exists k :: 0 <= k < i && cells[k].date == at
    {
      assert cells[..i + 1] == cells[..i] + [cells[i]];
      ClipConcat(cells[..i], [cells[i]], oldest, to);
      if cells[i].date in known || cells[i].date < oldest || cells[i].date > to {
        continue;
      }
      known := known + {cells[i].date};
      more := more + [cells[i]];
    }
    assert cells[..|cells|] == cells;
  }

  lemma WalkStep(first: int, lo: int, hi: int, end: int, days: seq<Day>, zone: Duration)
    requires lo < hi && first < hi && lo < end
    ensures GapCells(first, Min(lo, end), days, zone) + GapCells(Max(lo, first), Min(hi, end), days, zone)
      == GapCells(first, Min(hi, end), days, zone)
  {
    if first < lo { GapCellsAbut(first, lo, Min(hi, end), days, zone); }
  }

  /** One turn of gapDays' walk. */
  method WalkMonth(month: int, days: seq<Day>, oldest: Instant, to: Instant, zone: Duration, gaps: seq<Cell>,
                   seen: set<Instant>)
    returns (more: seq<Cell>, known: set<Instant>)
    requires forall at :: at in seen ==> at < StartOf(First(month), zone)
    ensures more == gaps + Clip(GapCells(First(month), First(month + 1), days, zone), oldest, to)
    ensures forall at :: at in known ==> at < StartOf(First(month + 1), zone)
  {
    var weeks := Build(month, 0, days, zone);
    var cells := Gaps(weeks);
    MonthGapsAreItsDays(weeks, month, 0, days, zone);
    GapCellsAscend(First(month), First(month + 1), days, zone);
    MonthsAbut(month);
    assert StartOf(First(month), zone) <= StartOf(First(month + 1), zone);
    more, known := TakeGaps(cells, oldest, to, gaps, seen);
  }

  /** gapDays: the walk over months skips no day of the range and repeats none. */
  method GapDays(days: seq<Day>, from: Instant, to: Instant, zone: Duration) returns (gaps: seq<Cell>)
    requires from <= to
    ensures gaps == GapCells(DayOf(from, zone), DayOf(to, zone) + 1, days, zone)
  {
    var first, end := DayOf(from, zone), DayOf(to, zone) + 1;
    var month := MonthOf(first);
    var seen: set<Instant> := {};
    gaps := [];
    MonthOfHolds(first, month);
    DaysAreWhole(to, zone, First(month));
    DaysAreWhole(to, zone, first);
    DaysAreWhole(from, zone, first);
    while StartOf(First(month), zone) <= to
      invariant gaps == GapCells(first, Min(First(month), end), days, zone)
      invariant first < First(month + 1)
      invariant StartOf(First(month), zone) <= to <==> First(month) < end
      invariant first < end && (First(month) < end || first < First(month))
      invariant forall at :: at in seen ==> at < StartOf(First(month), zone)
      decreases end - First(month)
    {
      MonthsAbut(month);
      MonthsAbut(month + 1);
      gaps, seen := WalkMonth(month, days, StartOf(first, zone), to, zone, gaps, seen);
      ClipIsDays(First(month), First(month + 1), first, to, days, zone);
      WalkStep(first, First(month), First(month + 1), end, days, zone);
      DaysAreWhole(to, zone, First(month + 1));
      month := month + 1;
    }
  }

  /** Candidates' loop over the gap days. */
  method CandidatesOver(p: Pass, cells: seq<Cell>) returns (result: Result<seq<Candidate>, PlanError>)
    ensures result == ChosenOver(p, cells)
  {
    var candidates: seq<Candidate> := [];
    assert cells[0..] == cells;
    PrefixedNothing(ChosenOver(p, cells));
    for i := 0 to |cells|
      invariant ChosenOver(p, cells) == Prefixed(candidates, ChosenOver(p, cells[i..]))
    {
      assert cells[i..][1..] == cells[i + 1..] && cells[i..][0] == cells[i];
      var found := CandidatesOn(p, cells[i]);
      if found.Err? {
        return Err(found.error);
      }
      PrefixedTwice(candidates, Recent(found.value, p.From()), ChosenOver(p, cells[i + 1..]));
      candidates := KeepRecent(found.value, p.From(), candidates);
    }
    assert candidates + [] == candidates;
    return Ok(candidates);
  }

  /** Candidates: what a pass fetches, as the program works it out, whatever window it is given. */
  method Candidates(given: Pass) returns (result: Result<seq<Candidate>, PlanError>)
    ensures var w := given.window;
      result == Planned(given.(window := Window(if w.lookback > 0 then w.lookback else 30 * DAY,
                                                if w.settle > 0 then w.settle else 2 * HOUR)))
  {
    var p := given.(window := WithDefaults(given.window));
    var cells := GapDays(p.days, p.From(), p.now, p.zone);
    result := CandidatesOver(p, cells);
  }

  // ----- what the loops choose -----

  /** The broadcasts a pass wants that started on a day from lo up to hi, in the store's order. */
  function WantedOn(p: Pass, bs: seq<Broadcast>, lo: int, hi: int): seq<Candidate> {
    if bs == [] then []
    else
      (if p.Wanted(bs[0]) && lo <= DayOf(bs[0].startedAt, p.zone) < hi then [p.CandidateFor(bs[0])] else [])
      + WantedOn(p, bs[1..], lo, hi)
  }

  /** Everything a pass wants. */
  function AllWanted(p: Pass, bs: seq<Broadcast>): seq<Candidate> {
    if bs == [] then []
    else (if p.Wanted(bs[0]) then [p.CandidateFor(bs[0])] else []) + AllWanted(p, bs[1..])
  }

  ghost predicate Sorted(bs: seq<Broadcast>) {
    forall i, j :: 0 <= i < j < |bs| ==> bs[i].startedAt <= bs[j].startedAt
  }

  lemma {:induction false} NoneBefore(p: Pass, bs: seq<Broadcast>, lo: int, hi: int)
    requires forall i :: 0 <= i < |bs| ==> hi <= DayOf(bs[i].startedAt, p.zone)
    ensures WantedOn(p, bs, lo, hi) == []
    decreases |bs|
  {
    if bs != [] { NoneBefore(p, bs[1..], lo, hi); }
  }

  lemma DayOfRises(a: Instant, b: Instant, zone: Duration)
    requires a <= b
    ensures DayOf(a, zone) <= DayOf(b, zone)
  {
    DaysAreWhole(a, zone, DayOf(a, zone));
    DaysAreWhole(b, zone, DayOf(a, zone));
  }

  /** Days taken one run after another take the broadcasts in order. */
  lemma {:induction false} DaysInOrder(p: Pass, bs: seq<Broadcast>, lo: int, mid: int, hi: int)
    requires Sorted(bs) && lo <= mid <= hi
    ensures WantedOn(p, bs, lo, mid) + WantedOn(p, bs, mid, hi) == WantedOn(p, bs, lo, hi)
    decreases |bs|
  {
    if bs != [] {
      DaysInOrder(p, bs[1..], lo, mid, hi);
      var day := DayOf(bs[0].startedAt, p.zone);
      if mid <= day {
        forall i | 0 <= i < |bs| ensures mid <= DayOf(bs[i].startedAt, p.zone) {
          DayOfRises(bs[0].startedAt, bs[i].startedAt, p.zone);
        }
        NoneBefore(p, bs, lo, mid);
        NoneBefore(p, bs[1..], lo, mid);
      }
    }
  }

  /** The loop's own tests, put together, are what a pass wants. */
  lemma WantedIsWorth(p: Pass, b: Broadcast)
    ensures p.Wanted(b) <==>
      && p.Worth(b) && p.From() <= b.startedAt
      && DayOf(b.startedAt, p.zone) <= DayOf(p.now, p.zone) && IsGap(p.days, DayOf(b.startedAt, p.zone), p.zone)
    ensures p.CandidateFor(b) == Candidate(b, StartOf(DayOf(b.startedAt, p.zone), p.zone))
  {
    EvidenceOfNone(p, b);
    FetchableIsDue(p, b);
  }

  lemma EvidenceOfNone(p: Pass, b: Broadcast)
    ensures p.Unkept(b) <==> p.archive.recordings(b.id).Some? && NothingKept(p.archive.recordings(b.id).value)
  {
    if p.archive.recordings(b.id).Some? {
      var states := p.archive.recordings(b.id).value;
      assert forall i :: 0 <= i < |states| ==> states[i] in states;
    }
  }

  lemma FetchableIsDue(p: Pass, b: Broadcast)
    ensures p.Fetchable(b) <==> Due(p.archive.fetches(b.id), p.now)
  {}

  /** What one gap day yields, once the lookback is applied. */
  lemma {:induction false} DayYieldsWanted(p: Pass, bs: seq<Broadcast>, day: int)
    requires IsGap(p.days, day, p.zone) && day <= DayOf(p.now, p.zone)
    requires Chosen(p, Between(bs, StartOf(day, p.zone), StartOf(day, p.zone) + DAY), StartOf(day, p.zone)).Ok?
    ensures Recent(Chosen(p, Between(bs, StartOf(day, p.zone), StartOf(day, p.zone) + DAY), StartOf(day, p.zone)).value,
                   p.From()) == WantedOn(p, bs, day, day + 1)
    decreases |bs|
  {
    if bs != [] {
      WantedIsWorth(p, bs[0]);
      var from := StartOf(day, p.zone);
      assert StartOf(day + 1, p.zone) == from + DAY;
      DaysAreWhole(bs[0].startedAt, p.zone, day);
      var rest := Between(bs[1..], from, from + DAY);
      var here := Between(bs, from, from + DAY);
      if from <= bs[0].startedAt < from + DAY {
        assert here == [bs[0]] + rest && here[1..] == rest;
        var head := if p.Worth(bs[0]) then [Candidate(bs[0], from)] else [];
        assert Chosen(p, here, from) == Prefixed(head, Chosen(p, rest, from));
        RecentConcat(head, Chosen(p, rest, from).value, p.From());
      } else {
        assert here == [] + rest == rest;
      }
      DayYieldsWanted(p, bs[1..], day);
    }
  }

  lemma {:induction false} QuietDay(p: Pass, bs: seq<Broadcast>, day: int)
    requires !IsGap(p.days, day, p.zone)
    ensures WantedOn(p, bs, day, day + 1) == []
    decreases |bs|
  {
    if bs != [] { QuietDay(p, bs[1..], day); }
  }

  /** A gap day's cell at the head of a run of them. */
  lemma GapDayLeads(p: Pass, lo: int, hi: int)
    requires lo < hi && IsGap(p.days, lo, p.zone)
    ensures var cells := GapCells(lo, hi, p.days, p.zone);
      cells != [] && cells[0] == CellOn(lo, true, p.days, p.zone) && cells[0].date == StartOf(lo, p.zone)
      && cells[1..] == GapCells(lo + 1, hi, p.days, p.zone)
  {
    assert GapCells(lo, hi, p.days, p.zone)
      == [CellOn(lo, true, p.days, p.zone)] + GapCells(lo + 1, hi, p.days, p.zone);
  }

  /** What the first day of a run yields, before the rest of it. */
  lemma FirstDayYields(p: Pass, lo: int, hi: int)
    requires lo < hi && lo <= DayOf(p.now, p.zone) && ChosenOver(p, GapCells(lo, hi, p.days, p.zone)).Ok?
    ensures ChosenOver(p, GapCells(lo + 1, hi, p.days, p.zone)).Ok?
    ensures ChosenOver(p, GapCells(lo, hi, p.days, p.zone)).value ==
      WantedOn(p, p.archive.broadcasts, lo, lo + 1) + ChosenOver(p, GapCells(lo + 1, hi, p.days, p.zone)).value
  {
    if IsGap(p.days, lo, p.zone) {
      GapDayLeads(p, lo, hi);
      DayYieldsWanted(p, p.archive.broadcasts, lo);
    } else {
      QuietDay(p, p.archive.broadcasts, lo);
      var rest := GapCells(lo + 1, hi, p.days, p.zone);
      assert GapCells(lo, hi, p.days, p.zone) == [] + rest == rest;
    }
  }

  lemma {:induction false} DaysYieldWanted(p: Pass, lo: int, hi: int)
    requires Sorted(p.archive.broadcasts) && lo <= hi <= DayOf(p.now, p.zone) + 1
    requires ChosenOver(p, GapCells(lo, hi, p.days, p.zone)).Ok?
    ensures ChosenOver(p, GapCells(lo, hi, p.days, p.zone)).value == WantedOn(p, p.archive.broadcasts, lo, hi)
    decreases hi - lo
  {
    if lo < hi {
      FirstDayYields(p, lo, hi);
      DaysYieldWanted(p, lo + 1, hi);
      DaysInOrder(p, p.archive.broadcasts, lo, lo + 1, hi);
    } else {
      NothingInNoDays(p, p.archive.broadcasts, lo);
    }
  }

  lemma {:induction false} NothingInNoDays(p: Pass, bs: seq<Broadcast>, day: int)
    ensures WantedOn(p, bs, day, day) == []
    decreases |bs|
  {
    if bs != [] { NothingInNoDays(p, bs[1..], day); }
  }

  lemma {:induction false} WantedIsInRange(p: Pass, bs: seq<Broadcast>)
    ensures WantedOn(p, bs, DayOf(p.From(), p.zone), DayOf(p.now, p.zone) + 1) == AllWanted(p, bs)
    decreases |bs|
  {
    if bs != [] {
      WantedIsInRange(p, bs[1..]);
      if p.From() <= bs[0].startedAt { DayOfRises(p.From(), bs[0].startedAt, p.zone); }
    }
  }

  function Planned(p: Pass): Result<seq<Candidate>, PlanError> {
    ChosenOver(p, GapCells(DayOf(p.From(), p.zone), DayOf(p.now, p.zone) + 1, p.days, p.zone))
  }

  /** A pass that returns, returns exactly the broadcasts it wants: each once, in the order they
      started, and each on its own day. */
  lemma PlannedIsExactlyWanted(p: Pass)
    requires p.window.lookback > 0 && p.archive.OldestFirst() && Planned(p).Ok?
    ensures Planned(p).value == AllWanted(p, p.archive.broadcasts)
  {
    DayOfRises(p.From(), p.now, p.zone);
    DaysYieldWanted(p, DayOf(p.From(), p.zone), DayOf(p.now, p.zone) + 1);
    WantedIsInRange(p, p.archive.broadcasts);
  }

  lemma {:induction false} AllWantedHolds(p: Pass, bs: seq<Broadcast>, c: Candidate)
    ensures c in AllWanted(p, bs) <==> c.broadcast in bs && p.Wanted(c.broadcast) && c == p.CandidateFor(c.broadcast)
    decreases |bs|
  {
    if bs != [] {
      AllWantedHolds(p, bs[1..], c);
      assert c.broadcast in bs <==> c.broadcast == bs[0] || c.broadcast in bs[1..];
    }
  }

  /** Broadcast by broadcast: what a pass that returns has planned. */
  lemma PlannedHolds(p: Pass, b: Broadcast)
    requires p.window.lookback > 0 && p.archive.OldestFirst() && Planned(p).Ok?
    ensures p.CandidateFor(b) in Planned(p).value <==> b in p.archive.broadcasts && p.Wanted(b)
  {
    PlannedIsExactlyWanted(p);
    AllWantedHolds(p, p.archive.broadcasts, p.CandidateFor(b));
  }

  /** What a lookup finds of a row. */
  function Looked(row: Option<Claims.Row>): Lookup {
    if row.None? then NotFound else Found(row.value)
  }

  /** The plan asks what the claim enforces: a broadcast is due exactly when the claim would be given to
      a fetcher that finds nobody holding it. */
  lemma DueIsClaimable(row: Option<Claims.Row>, now: Instant, lease: Duration)
    requires row.Some? && row.value.claim.Some? ==> row.value.claim.value.at + lease <= now
    ensures Due(Looked(row), now) <==> Claims.Claimable(row, now, lease)
  {}

  /** A broadcast whose fetch row cannot be read is never planned. */
  lemma UnreadIsNeverPlanned(p: Pass, c: Candidate)
    requires p.window.lookback > 0 && p.archive.OldestFirst() && Planned(p).Ok? && c in Planned(p).value
    ensures p.archive.fetches(c.broadcast.id) != Unreadable
  {
    PlannedIsExactlyWanted(p);
    AllWantedHolds(p, p.archive.broadcasts, c);
  }

  /** A broadcast never tried, missed inside the lookback and long over, is always planned. */
  lemma NeverTriedIsPlanned(p: Pass, b: Broadcast)
    requires p.window.lookback > 0 && p.archive.OldestFirst() && Planned(p).Ok?
    requires b in p.archive.broadcasts && p.archive.fetches(b.id) == NotFound && p.archive.recordings(b.id) == Some([])
    requires p.now - p.window.lookback <= b.startedAt <= p.now && p.LongOver(b)
    requires StateOf(p.days, (b.startedAt + p.zone) / DAY, p.zone) == Missed
    ensures Candidate(b, (b.startedAt + p.zone) / DAY * DAY - p.zone) in Planned(p).value
  {
    DayOfRises(b.startedAt, p.now, p.zone);
    PlannedHolds(p, b);
  }

  // ----- when a pass fails -----

  /** A day of the range whose broadcasts cannot be listed, or hold a settled one whose recordings
      cannot be read. */
  ghost predicate Unlisted(p: Pass, day: int) {
    IsGap(p.days, day, p.zone) && !p.archive.listed(StartOf(day, p.zone))
  }

  ghost predicate Unread(p: Pass, b: Broadcast, day: int) {
    IsGap(p.days, day, p.zone) && b in p.archive.broadcasts && DayOf(b.startedAt, p.zone) == day && !p.Readable(b)
  }

  ghost predicate Blocked(p: Pass, day: int) {
    Unlisted(p, day) || exists b :: Unread(p, b, day)
  }

  lemma {:induction false} BetweenHolds(bs: seq<Broadcast>, from: Instant, end: Instant, b: Broadcast)
    ensures b in Between(bs, from, end) <==> b in bs && from <= b.startedAt < end
    decreases |bs|
  {
    if bs != [] {
      BetweenHolds(bs[1..], from, end, b);
      assert b in bs <==> b == bs[0] || b in bs[1..];
    }
  }

  lemma {:induction false} ChosenFails(p: Pass, bs: seq<Broadcast>, day: Instant)
    ensures Chosen(p, bs, day).Err? <==> exists b :: b in bs && !p.Readable(b)
    decreases |bs|
  {
    if bs != [] {
      ChosenFails(p, bs[1..], day);
      assert forall b :: b in bs <==> b == bs[0] || b in bs[1..];
      if !p.Readable(bs[0]) { assert bs[0] in bs; }
    }
  }

  lemma DayFails(p: Pass, day: int)
    requires IsGap(p.days, day, p.zone)
    ensures ChosenOn(p, CellOn(day, true, p.days, p.zone)).Err? <==> Blocked(p, day)
  {
    var cell, from := CellOn(day, true, p.days, p.zone), StartOf(day, p.zone);
    assert cell.date == from && StartOf(day + 1, p.zone) == from + DAY;
    var bs := Between(p.archive.broadcasts, from, from + DAY);
    ChosenFails(p, bs, from);
    forall b ensures b in bs && !p.Readable(b) <==> Unread(p, b, day) {
      BetweenHolds(p.archive.broadcasts, from, from + DAY, b);
      DaysAreWhole(b.startedAt, p.zone, day);
    }
  }

  lemma {:induction false} RangeFails(p: Pass, lo: int, hi: int)
    ensures ChosenOver(p, GapCells(lo, hi, p.days, p.zone)).Err? <==> exists day :: lo <= day < hi && Blocked(p, day)
    decreases hi - lo
  {
    if lo < hi {
      RangeFails(p, lo + 1, hi);
      var rest := GapCells(lo + 1, hi, p.days, p.zone);
      if IsGap(p.days, lo, p.zone) {
        var cell := CellOn(lo, true, p.days, p.zone);
        assert GapCells(lo, hi, p.days, p.zone) == [cell] + rest && ([cell] + rest)[1..] == rest;
        DayFails(p, lo);
      } else {
        assert GapCells(lo, hi, p.days, p.zone) == [] + rest == rest;
        assert !Blocked(p, lo);
      }
    }
  }

  /** A pass fails exactly when some gap day from the lookback's first day to today is blocked. */
  lemma PlannedFailsWhenBlocked(p: Pass)
    ensures Planned(p).Err? <==>
      exists day :: DayOf(p.From(), p.zone) <= day <= DayOf(p.now, p.zone) && Blocked(p, day)
  {
    RangeFails(p, DayOf(p.From(), p.zone), DayOf(p.now, p.zone) + 1);
  }
}
