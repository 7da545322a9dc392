/** A channel's coverage laid out as a month of whole weeks. */
module Calendar {
  import opened Basics
  import opened Civil

  // ----- days at a fixed offset from UTC -----

  /** The civil day an instant falls on. */
  function DayOf(at: Instant, zone: Duration): int { (at + zone) / DAY }

  /** StartOfDayOn: the first instant of a day. */
  function StartOf(day: int, zone: Duration): Instant { day * DAY - zone }

  lemma DaysAreWhole(at: Instant, zone: Duration, day: int)
    ensures DayOf(StartOf(day, zone), zone) == day
    ensures StartOf(day, zone) <= at < StartOf(day + 1, zone) <==> DayOf(at, zone) == day
    ensures StartOf(day, zone) <= at <==> day <= DayOf(at, zone)
  {
    assert (at + zone) == ((at + zone) / DAY) * DAY + (at + zone) % DAY;
    assert (day * DAY) / DAY == day;
  }

  // ----- cells -----

  datatype Coverage = Missed | Partial | AtRisk | Live | Recovered | Imported | NoStream | Unknown | Unrecognised

  /** One day as the store reports it. */
  datatype Day = Day(date: Instant, state: Coverage, broadcasts: nat, captured: nat,
                 bytes: nat, watched: bool, degraded: bool)

  datatype Cell = Cell(date: Instant, inMonth: bool, coverage: Coverage, broadcasts: nat, captured: nat, bytes: nat,
                       watched: bool, degraded: bool)
  {
    /** A missed day and a partial one are worth fetching; one whose bytes are on disk is not. */
    predicate Recoverable() { coverage == Missed || coverage == Partial }
  }

  /** What the last entry for a day says of it. */
  function EntryFor(days: seq<Day>, day: int, zone: Duration): Option<Day> {
    if days == [] then None
    else if DayOf(days[|days| - 1].date, zone) == day then Some(days[|days| - 1])
    else EntryFor(days[..|days| - 1], day, zone)
  }

  function StateOf(days: seq<Day>, day: int, zone: Duration): Coverage {
    match EntryFor(days, day, zone)
    case None => Unknown
    case Some(d) => d.state
  }

  /** The cell for a day, in a grid of the given month. */
  function CellOn(day: int, inMonth: bool, days: seq<Day>, zone: Duration): Cell {
    match EntryFor(days, day, zone)
    case None => Cell(StartOf(day, zone), inMonth, Unknown, 0, 0, 0, false, false)
    case Some(d) => Cell(StartOf(day, zone), inMonth, d.state, d.broadcasts, d.captured, d.bytes, d.watched, d.degraded)
  }

  // ----- the grid -----

  const WEEK := 7

  /** Go's %, which keeps the dividend's sign. */
  function Rem(a: int, b: int): int
    requires b > 0
  {
    if a < 0 then -((-a) % b) else a % b
  }

  /** The weekday a grid's rows really begin on, whatever integer was asked for. */
  function RowStart(weekStart: int): int {
    var start := Rem(weekStart, WEEK);
    if start < 0 then start + WEEK else start
  }

  function AlignToWeek(day: int, weekStart: int): int {
    day - Rem(Weekday(day) - RowStart(weekStart) + WEEK, WEEK)
  }

  /** Alignment never walks forward, and never back a whole week. */
  lemma AlignsBack(day: int, weekStart: int)
    ensures AlignToWeek(day, weekStart) <= day < AlignToWeek(day, weekStart) + WEEK
    ensures Weekday(AlignToWeek(day, weekStart)) == RowStart(weekStart) == weekStart % WEEK
  {
    assert weekStart < 0 ==> ((-weekStart) % 7 == 0 && weekStart % 7 == 0) || weekStart % 7 == 7 - (-weekStart) % 7;
    var s, w := RowStart(weekStart), Weekday(day);
    assert Rem(w - s + 7, 7) == (w - s + 7) % 7;
    assert (w - s + 7) % 7 == if w >= s then w - s else w - s + 7;
  }

  /** How many rows a month takes. */
  function Rows(month: int, weekStart: int): (n: nat)
    ensures var from := AlignToWeek(First(month), weekStart);
      First(month + 1) <= from + WEEK * n < First(month + 1) + WEEK
  {
    AlignsBack(First(month), weekStart);
    MonthsAbut(month);
    var span := First(month + 1) - AlignToWeek(First(month), weekStart);
    (span + WEEK - 1) / WEEK
  }

  /** Whether a day carries the month's own number. */
  predicate SameMonthName(day: int, month: int) { MonthOfYear(MonthOf(day)) == MonthOfYear(month) }

  function GridCell(day: int, month: int, days: seq<Day>, zone: Duration): Cell {
    CellOn(day, SameMonthName(day, month), days, zone)
  }

  /** A run of cells, day after day. */
  predicate DayAfterDay(week: seq<Cell>, day: int, month: int, days: seq<Day>, zone: Duration) {
    forall j :: 0 <= j < |week| ==> week[j] == GridCell(day + j, month, days, zone)
  }

  predicate RowsOf(weeks: seq<seq<Cell>>, day: int, month: int, days: seq<Day>, zone: Duration) {
    forall i :: 0 <= i < |weeks| ==> |weeks[i]| == WEEK && DayAfterDay(weeks[i], day + WEEK * i, month, days, zone)
  }

  /** The month laid out as whole weeks, from the last week start on or before its first. */
  predicate IsGrid(weeks: seq<seq<Cell>>, month: int, weekStart: int, days: seq<Day>, zone: Duration) {
    |weeks| == Rows(month, weekStart) && RowsOf(weeks, AlignToWeek(First(month), weekStart), month, days, zone)
  }

  /** byDay: the later of two entries for one day is kept. */
  method IndexDays(days: seq<Day>, zone: Duration) returns (byDay: map<int, Day>)
    ensures Indexes(byDay, days, zone)
  {
    byDay := map[];
    for i := 0 to |days|
      invariant forall day :: day in byDay <==> EntryFor(days[..i], day, zone).Some?
      invariant forall day :: day in byDay ==> EntryFor(days[..i], day, zone) == Some(byDay[day])
    {
      assert days[..i + 1][..i] == days[..i];
      byDay := byDay[DayOf(days[i].date, zone) := days[i]];
    }
    assert days[..|days|] == days;
  }

  /** cell, against the index. */
  function CellFrom(byDay: map<int, Day>, day: int, month: int, zone: Duration): Cell {
    if day in byDay then
      var d := byDay[day];
      Cell(StartOf(day, zone), SameMonthName(day, month), d.state,
           d.broadcasts, d.captured, d.bytes, d.watched, d.degraded)
    else Cell(StartOf(day, zone), SameMonthName(day, month), Unknown, 0, 0, 0, false, false)
  }

  ghost predicate Indexes(byDay: map<int, Day>, days: seq<Day>, zone: Duration) {
    && (forall day :: day in byDay <==> EntryFor(days, day, zone).Some?)
    && (forall day :: day in byDay ==> EntryFor(days, day, zone) == Some(byDay[day]))
  }

  lemma IndexedCell(byDay: map<int, Day>, day: int, month: int, days: seq<Day>, zone: Duration)
    requires Indexes(byDay, days, zone)
    ensures CellFrom(byDay, day, month, zone) == GridCell(day, month, days, zone)
  {}

  /** Build: whole weeks until the month is exhausted. */
  method Build(month: int, weekStart: int, days: seq<Day>, zone: Duration) returns (weeks: seq<seq<Cell>>)
    ensures IsGrid(weeks, month, weekStart, days, zone)
  {
    var byDay := IndexDays(days, zone);
    var anchor, last := AlignToWeek(First(month), weekStart), First(month + 1);
    ghost var start := anchor;
    weeks := [];
    AlignsBack(First(month), weekStart);
    MonthsAbut(month);
    while anchor < last || Weekday(anchor) != weekStart
      invariant anchor == start + WEEK * |weeks| && anchor < last && |weeks| <= Rows(month, weekStart)
      invariant RowsOf(weeks, start, month, days, zone)
      decreases last - anchor
    {
      ghost var first := anchor;
      var week: seq<Cell> := [];
      for j := 0 to WEEK
        invariant |week| == j && anchor == first + j
        invariant DayAfterDay(week, first, month, days, zone)
      {
        IndexedCell(byDay, anchor, month, days, zone);
        week := week + [CellFrom(byDay, anchor, month, zone)];
        anchor := anchor + 1;
      }
      weeks := weeks + [week];
      if anchor >= last {
        break;
      }
    }
  }

  // ----- its gaps -----

  function GapsInWeek(week: seq<Cell>): seq<Cell> {
    if week == [] then []
    else (if week[0].inMonth && week[0].Recoverable() then [week[0]] else []) + GapsInWeek(week[1..])
  }

  function GapsIn(weeks: seq<seq<Cell>>): seq<Cell> {
    if weeks == [] then [] else GapsInWeek(weeks[0]) + GapsIn(weeks[1..])
  }

  lemma {:induction false} GapsInWeekConcat(a: seq<Cell>, b: seq<Cell>)
    ensures GapsInWeek(a + b) == GapsInWeek(a) + GapsInWeek(b)
  {
    if a == [] {
      assert a + b == b;
    } else {
      assert (a + b)[1..] == a[1..] + b;
      GapsInWeekConcat(a[1..], b);
    }
  }

  lemma {:induction false} GapsInConcat(a: seq<seq<Cell>>, b: seq<seq<Cell>>)
    ensures GapsIn(a + b) == GapsIn(a) + GapsIn(b)
  {
    if a == [] {
      assert a + b == b;
    } else {
      assert (a + b)[1..] == a[1..] + b;
      GapsInConcat(a[1..], b);
    }
  }

  /** Gaps' nested loops. */
  method Gaps(weeks: seq<seq<Cell>>) returns (gaps: seq<Cell>)
    ensures gaps == GapsIn(weeks)
  {
    gaps := [];
    for i := 0 to |weeks|
      invariant gaps == GapsIn(weeks[..i])
    {
      var week := weeks[i];
      for j := 0 to |week|
        invariant gaps == GapsIn(weeks[..i]) + GapsInWeek(week[..j])
      {
        assert week[..j + 1] == week[..j] + [week[j]];
        GapsInWeekConcat(week[..j], [week[j]]);
        if week[j].inMonth && week[j].Recoverable() {
          gaps := gaps + [week[j]];
        }
      }
      assert week[..|week|] == week;
      assert weeks[..i + 1] == weeks[..i] + [week];
      GapsInConcat(weeks[..i], [week]);
      assert GapsIn([week]) == GapsInWeek(week) + GapsIn([]);
    }
    assert weeks[..|weeks|] == weeks;
  }

  /** A day the calendar calls missed or partial. */
  predicate IsGap(days: seq<Day>, day: int, zone: Duration) {
    StateOf(days, day, zone) == Missed || StateOf(days, day, zone) == Partial
  }

  /** The gap days from one day up to another, oldest first. */
  function GapCells(from: int, to: int, days: seq<Day>, zone: Duration): seq<Cell>
    decreases to - from
  {
    if to <= from then []
    else (if IsGap(days, from, zone) then [CellOn(from, true, days, zone)] else []) + GapCells(from + 1, to, days, zone)
  }

  lemma {:induction false} GapCellsAbut(from: int, mid: int, to: int, days: seq<Day>, zone: Duration)
    requires from <= mid <= to
    ensures GapCells(from, to, days, zone) == GapCells(from, mid, days, zone) + GapCells(mid, to, days, zone)
    decreases mid - from
  {
    if from < mid { GapCellsAbut(from + 1, mid, to, days, zone); }
  }

  lemma NeighboursDiffer(month: int)
    ensures MonthOfYear(month) != MonthOfYear(month + 1)
  {}

  /** The days of a grid that carry the month's number are the month's own: a grid reaches less than
      a week into the months beside it. */
  lemma OnlyItsOwnMonth(day: int, month: int)
    requires First(month) - WEEK < day < First(month + 1) + WEEK
    ensures SameMonthName(day, month) <==> First(month) <= day < First(month + 1)
  {
    if day < First(month) {
      MonthsAbut(month - 1);
      MonthOfHolds(day, month - 1);
      NeighboursDiffer(month - 1);
    } else if First(month + 1) <= day {
      MonthsAbut(month + 1);
      MonthOfHolds(day, month + 1);
      NeighboursDiffer(month);
    } else {
      MonthOfHolds(day, month);
    }
  }

  /** A run of days, those from lo up to hi taken for the month's own. */
  predicate RunOf(week: seq<Cell>, day: int, lo: int, hi: int, days: seq<Day>, zone: Duration) {
    forall j :: 0 <= j < |week| ==> week[j] == CellOn(day + j, lo <= day + j < hi, days, zone)
  }

  function Inside(day: int, n: nat, lo: int, hi: int, days: seq<Day>, zone: Duration): seq<Cell> {
    GapCells(Max(day, lo), Min(day + n, hi), days, zone)
  }

  lemma {:induction false} WeekGaps(week: seq<Cell>, day: int, lo: int, hi: int, days: seq<Day>, zone: Duration)
    requires RunOf(week, day, lo, hi, days, zone)
    ensures GapsInWeek(week) == Inside(day, |week|, lo, hi, days, zone)
    decreases |week|
  {
    if week != [] {
      forall j | 0 <= j < |week[1..]|
        ensures week[1..][j] == CellOn(day + 1 + j, lo <= day + 1 + j < hi, days, zone)
      {
        assert week[1..][j] == week[j + 1];
      }
      WeekGaps(week[1..], day + 1, lo, hi, days, zone);
      assert week[0] == CellOn(day, lo <= day < hi, days, zone);
    }
  }

  lemma {:induction false} WeeksGaps(weeks: seq<seq<Cell>>, day: int, lo: int, hi: int, days: seq<Day>, zone: Duration)
    requires forall i :: 0 <= i < |weeks| ==> |weeks[i]| == WEEK && RunOf(weeks[i], day + WEEK * i, lo, hi, days, zone)
    ensures GapsIn(weeks) == Inside(day, WEEK * |weeks|, lo, hi, days, zone)
    decreases |weeks|
  {
    if weeks != [] {
      forall i | 0 <= i < |weeks[1..]|
        ensures |weeks[1..][i]| == WEEK && RunOf(weeks[1..][i], day + WEEK + WEEK * i, lo, hi, days, zone)
      {
        assert weeks[1..][i] == weeks[i + 1] && day + WEEK * (i + 1) == day + WEEK + WEEK * i;
      }
      assert RunOf(weeks[0], day + WEEK * 0, lo, hi, days, zone);
      WeekGaps(weeks[0], day, lo, hi, days, zone);
      WeeksGaps(weeks[1..], day + WEEK, lo, hi, days, zone);
      var from, mid, to := Max(day, lo), Max(day + WEEK, lo), Min(day + WEEK * |weeks|, hi);
      if mid <= to {
        GapCellsAbut(from, mid, to, days, zone);
        if hi < mid { assert false; }
      }
    }
  }

  lemma WeekIsARun(week: seq<Cell>, day: int, month: int, days: seq<Day>, zone: Duration)
    requires First(month) - WEEK < day && day + |week| < First(month + 1) + WEEK
    requires DayAfterDay(week, day, month, days, zone)
    ensures RunOf(week, day, First(month), First(month + 1), days, zone)
  {
    forall j | 0 <= j < |week|
      ensures week[j] == CellOn(day + j, First(month) <= day + j < First(month + 1), days, zone)
    {
      OnlyItsOwnMonth(day + j, month);
    }
  }

  /** A month's grid lays out every one of its days exactly once: its gaps are the month's missed and
      partial days, in order, whatever weekday the rows begin on. */
  lemma MonthGapsAreItsDays(weeks: seq<seq<Cell>>, month: int, weekStart: int, days: seq<Day>, zone: Duration)
    requires IsGrid(weeks, month, weekStart, days, zone)
    ensures GapsIn(weeks) == GapCells(First(month), First(month + 1), days, zone)
  {
    var from := AlignToWeek(First(month), weekStart);
    AlignsBack(First(month), weekStart);
    forall i | 0 <= i < |weeks|
      ensures |weeks[i]| == WEEK && RunOf(weeks[i], from + WEEK * i, First(month), First(month + 1), days, zone)
    {
      WeekIsARun(weeks[i], from + WEEK * i, month, days, zone);
    }
    WeeksGaps(weeks, from, First(month), First(month + 1), days, zone);
  }
}
