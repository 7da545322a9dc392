/** A pass over a broadcast's holes: detecting them, listing the ones worth attempting, and patching
    them one by one. */
module PatchPass {
  import opened Basics
  import opened Library
  import opened Holes
  import opened Patch

  // ----- what the store lists -----

  function OfBroadcast(rows: seq<Recording>, id: int): seq<Recording> {
    if rows == [] then []
    else OfBroadcast(rows[..|rows| - 1], id) + if rows[|rows| - 1].broadcast == Some(id) then [rows[|rows| - 1]] else []
  }

  function StartOf(r: Recording): int { r.startedAt }

  /** RecordingsForBroadcast. */
  function RecordingsOf(rows: seq<Recording>, id: int): seq<Recording> { SortBy(OfBroadcast(rows, id), StartOf) }

  function OfRecording(gaps: seq<Gap>, id: nat): seq<Gap> {
    if gaps == [] then []
    else OfRecording(gaps[..|gaps| - 1], id) + if gaps[|gaps| - 1].recording == id then [gaps[|gaps| - 1]] else []
  }

  function OpensAt(g: Gap): int { g.start }

  /** Gaps. */
  function GapsOf(gaps: seq<Gap>, id: nat): seq<Gap> { SortBy(OfRecording(gaps, id), OpensAt) }

  // ----- detecting -----

  function Holding(rows: seq<Recording>): seq<Recording> {
    if rows == [] then []
    else Holding(rows[..|rows| - 1]) + if HoldsBytes(rows[|rows| - 1].state) then [rows[|rows| - 1]] else []
  }

  function HeldOf(rows: seq<Recording>, id: int): seq<Recording> { SortBy(Holding(RecordingsOf(rows, id)), StartOf) }

  function FileAll(gaps: seq<Gap>, anchor: nat, spans: seq<Span>): seq<Gap> {
    if spans == [] then gaps
    else Added(FileAll(gaps, anchor, spans[..|spans| - 1]), anchor, spans[|spans| - 1])
  }

  /** The holes a broadcast's recordings leave, anchored to the earliest of them. */
  function SpansFor(rows: seq<Recording>, b: Broadcast): seq<Span> {
    var held := HeldOf(rows, b.id);
    if held == [] then [] else SpansOf(b, held)
  }

  function Anchor(rows: seq<Recording>, b: Broadcast): nat {
    var held := HeldOf(rows, b.id);
    if held == [] then 0 else held[0].id
  }

  function Detected(s: Shelf, b: Broadcast): Shelf {
    s.(gaps := FileAll(s.gaps, Anchor(s.rows, b), SpansFor(s.rows, b)))
  }

  predicate AllStorable(spans: seq<Span>) { forall i :: 0 <= i < |spans| ==> Storable(spans[i]) }

  lemma {:induction false} OneWithinAll(gaps: seq<Gap>, recording: nat, span: Span, i: nat)
    requires i < |gaps| && SameHole(gaps[i], recording, span)
    ensures GapFor(gaps, recording, span).Some?
  {}

  /** Every hole the store takes has a row, and the rows there were are the rows there are. */
  lemma {:induction false} EveryHoleIsFiled(gaps: seq<Gap>, anchor: nat, spans: seq<Span>)
    ensures gaps <= FileAll(gaps, anchor, spans)
    ensures forall i :: 0 <= i < |spans| && Storable(spans[i]) ==>
      GapFor(FileAll(gaps, anchor, spans), anchor, spans[i]).Some?
    decreases |spans|
  {
    if spans != [] {
      var last := |spans| - 1;
      EveryHoleIsFiled(gaps, anchor, spans[..last]);
      var before, after := FileAll(gaps, anchor, spans[..last]), FileAll(gaps, anchor, spans);
      assert before <= after;
      forall i | 0 <= i < |spans| && Storable(spans[i]) ensures GapFor(after, anchor, spans[i]).Some? {
        if i < last {
          assert spans[..last][i] == spans[i];
          OneWithinAll(after, anchor, spans[i], GapFor(before, anchor, spans[i]).value);
        } else if GapFor(before, anchor, spans[last]).Some? {
          OneWithinAll(after, anchor, spans[i], GapFor(before, anchor, spans[last]).value);
        } else {
          OneWithinAll(after, anchor, spans[i], |before|);
        }
      }
    }
  }

  /** Some row is of that hole. */
  predicate HasRow(gaps: seq<Gap>, recording: nat, start: Duration, end: Duration) {
    exists k :: 0 <= k < |gaps| && gaps[k].recording == recording && gaps[k].start == start && gaps[k].end == end
  }

  /** A stretch the store takes, which to the millisecond is that one. */
  predicate StoredAs(span: Span, start: Duration, end: Duration) {
    && span.start >= 0 && start < end
    && span.start / 1_000_000 * 1_000_000 == start && span.end / 1_000_000 * 1_000_000 == end
  }

  predicate NoneTwice(gaps: seq<Gap>) {
    forall k, l :: 0 <= k < l < |gaps| ==>
      gaps[k].recording != gaps[l].recording || gaps[k].start != gaps[l].start || gaps[k].end != gaps[l].end
  }

  lemma AddedRow(gaps: seq<Gap>, anchor: nat, span: Span, recording: nat, start: Duration, end: Duration)
    ensures HasRow(Added(gaps, anchor, span), recording, start, end) <==>
      HasRow(gaps, recording, start, end) || (recording == anchor && StoredAs(span, start, end))
    ensures NoneTwice(gaps) ==> NoneTwice(Added(gaps, anchor, span))
  {
    var after := Added(gaps, anchor, span);
    if HasRow(gaps, recording, start, end) {
      var k :| 0 <= k < |gaps| && gaps[k].recording == recording && gaps[k].start == start && gaps[k].end == end;
      assert after[k] == gaps[k];
    }
    if StoredAs(span, start, end) {
      var found := GapFor(gaps, anchor, span);
      assert after[if found.Some? then found.value else |gaps|].recording == anchor;
    }
  }

  /** Detection files exactly the holes there are, to the millisecond, on top of what was filed: no two
      rows are of one hole, and each row added is open and has never been tried. */
  lemma {:induction false} DetectionFilesExactly(gaps: seq<Gap>, anchor: nat, spans: seq<Span>,
                                                 recording: nat, start: Duration, end: Duration)
    ensures var after := FileAll(gaps, anchor, spans);
      && (HasRow(after, recording, start, end) <==>
            HasRow(gaps, recording, start, end)
            || (recording == anchor && exists i :: 0 <= i < |spans| && StoredAs(spans[i], start, end)))
      && (NoneTwice(gaps) ==> NoneTwice(after))
      && gaps <= after && forall k :: |gaps| <= k < |after| ==> !after[k].filled && after[k].attempts == 0
    decreases |spans|
  {
    if spans != [] {
      var last := |spans| - 1;
      DetectionFilesExactly(gaps, anchor, spans[..last], recording, start, end);
      AddedRow(FileAll(gaps, anchor, spans[..last]), anchor, spans[last], recording, start, end);
      assert forall i :: 0 <= i < last ==> spans[..last][i] == spans[i];
    }
  }

  lemma {:induction false} FiledAddsNothing(gaps: seq<Gap>, anchor: nat, spans: seq<Span>)
    requires forall i :: 0 <= i < |spans| && Storable(spans[i]) ==> GapFor(gaps, anchor, spans[i]).Some?
    ensures FileAll(gaps, anchor, spans) == gaps
    decreases |spans|
  {
    if spans != [] {
      var last := |spans| - 1;
      forall i | 0 <= i < last && Storable(spans[..last][i]) ensures GapFor(gaps, anchor, spans[..last][i]).Some? {
        assert spans[..last][i] == spans[i];
      }
      FiledAddsNothing(gaps, anchor, spans[..last]);
    }
  }

  /** A second detection over the same recordings files the same rows, not duplicates of them. */
  lemma DetectionRepeats(s: Shelf, b: Broadcast)
    ensures Detected(Detected(s, b), b) == Detected(s, b)
  {
    EveryHoleIsFiled(s.gaps, Anchor(s.rows, b), SpansFor(s.rows, b));
    FiledAddsNothing(Detected(s, b).gaps, Anchor(s.rows, b), SpansFor(s.rows, b));
  }

  lemma {:induction false} HoldingWithin(rows: seq<Recording>, r: Recording)
    requires r in Holding(rows)
    ensures r in rows && HoldsBytes(r.state)
    decreases |rows|
  {
    if r in Holding(rows[..|rows| - 1]) { HoldingWithin(rows[..|rows| - 1], r); }
  }

  lemma {:induction false} HoldingKeeps(rows: seq<Recording>, r: Recording)
    requires r in rows && HoldsBytes(r.state)
    ensures r in Holding(rows)
    decreases |rows|
  {
    if r in rows[..|rows| - 1] { HoldingKeeps(rows[..|rows| - 1], r); }
  }

  lemma HeldIsSorted(rows: seq<Recording>, id: int)
    ensures Sorted(HeldOf(rows, id))
  {
    var held := HeldOf(rows, id);
    SortIsPermutation(Holding(RecordingsOf(rows, id)), StartOf);
    forall i, j | 0 <= i < j < |held| ensures held[i].startedAt <= held[j].startedAt {
      assert StartOf(held[i]) <= StartOf(held[j]);
    }
  }

  lemma HoldingIs(rows: seq<Recording>, r: Recording)
    ensures r in Holding(rows) <==> r in rows && HoldsBytes(r.state)
  {
    if r in Holding(rows) { HoldingWithin(rows, r); }
    if r in rows && HoldsBytes(r.state) { HoldingKeeps(rows, r); }
  }

  lemma HeldIsListed(rows: seq<Recording>, id: int, r: Recording)
    ensures r in HeldOf(rows, id) <==> r in rows && r.broadcast == Some(id) && HoldsBytes(r.state)
  {
    SortedHolds(Holding(RecordingsOf(rows, id)), StartOf);
    HoldingIs(RecordingsOf(rows, id), r);
    SortedHolds(OfBroadcast(rows, id), StartOf);
    KeepsTheMatching(rows, id, r);
  }

  /** The recordings holes are looked for between are those of the broadcast, by when they start, with a
      file behind them or one on its way. */
  lemma HeldMeans(rows: seq<Recording>, id: int, r: Recording)
    ensures r in HeldOf(rows, id) <==>
      && r in rows && r.broadcast == Some(id)
      && !r.state.Failed? && !r.state.Trashed? && !r.state.Missing? && !r.state.Unrecognised?
    ensures Sorted(HeldOf(rows, id))
  {
    HeldIsSorted(rows, id);
    HeldIsListed(rows, id, r);
  }

  /** What holes are filed against is a recording of the broadcast that holds bytes. */
  lemma AnchorIsThere(s: Shelf, b: Broadcast)
    requires Kept(s) && SpansFor(s.rows, b) != []
    ensures There(s.rows, Anchor(s.rows, b)) && s.rows[Anchor(s.rows, b)].broadcast == Some(b.id)
  {
    var held := HeldOf(s.rows, b.id);
    SortedHolds(Holding(RecordingsOf(s.rows, b.id)), StartOf);
    assert held[0] in held;
    HoldingWithin(RecordingsOf(s.rows, b.id), held[0]);
    SortedHolds(OfBroadcast(s.rows, b.id), StartOf);
    KeepsTheMatching(s.rows, b.id, held[0]);
    var i :| 0 <= i < |s.rows| && s.rows[i] == held[0];
  }

  lemma {:induction false} FilingKeeps(s: Shelf, anchor: nat, spans: seq<Span>)
    requires Kept(s) && Backed(s) && (spans == [] || anchor < |s.rows|)
    ensures var t := s.(gaps := FileAll(s.gaps, anchor, spans)); Kept(t) && Backed(t) && Extends(s, t)
    decreases |spans|
  {
    if spans == [] {
      StaysBacked(s, s);
    } else {
      var u := s.(gaps := FileAll(s.gaps, anchor, spans[..|spans| - 1]));
      FilingKeeps(s, anchor, spans[..|spans| - 1]);
      AddingKeeps(u, anchor, spans[|spans| - 1]);
      ExtendsOn(s, u, u.(gaps := Added(u.gaps, anchor, spans[|spans| - 1])));
    }
  }

  lemma AddingKeeps(s: Shelf, anchor: nat, span: Span)
    requires Kept(s) && Backed(s) && anchor < |s.rows|
    ensures var t := s.(gaps := Added(s.gaps, anchor, span)); Kept(t) && Backed(t) && Extends(s, t)
  {
    var t := s.(gaps := Added(s.gaps, anchor, span));
    assert Extends(s, t);
    StaysBacked(s, t);
  }

  // ----- the holes worth attempting -----

  predicate Open(g: Gap, limit: nat) { !g.filled && g.reason != ShortMedia && g.attempts < limit }

  function OpenAmong(gaps: seq<Gap>, limit: nat): seq<Gap> {
    if gaps == [] then []
    else OpenAmong(gaps[..|gaps| - 1], limit) + if Open(gaps[|gaps| - 1], limit) then [gaps[|gaps| - 1]] else []
  }

  function OpenOf(gaps: seq<Gap>, rows: seq<Recording>, limit: nat): seq<Gap> {
    if rows == [] then []
    else OpenOf(gaps, rows[..|rows| - 1], limit) + OpenAmong(GapsOf(gaps, rows[|rows| - 1].id), limit)
  }

  function Patchable(s: Shelf, b: Broadcast, limit: nat): seq<Gap> {
    OpenOf(s.gaps, RecordingsOf(s.rows, b.id), limit)
  }

  /** patchable's inner loop: one recording's holes. */
  method TakeOpen(gaps: seq<Gap>, limit: nat, so: seq<Gap>) returns (open: seq<Gap>)
    ensures open == so + OpenAmong(gaps, limit)
  {
    open := so;
    for j := 0 to |gaps|
      invariant open == so + OpenAmong(gaps[..j], limit)
    {
      assert gaps[..j + 1][..j] == gaps[..j];
      if gaps[j].filled || gaps[j].reason == ShortMedia || gaps[j].attempts >= limit {
        continue;
      }
      open := open + [gaps[j]];
    }
    assert gaps[..|gaps|] == gaps;
  }

  /** Its outer loop: each recording's holes in turn. */
  method TakeOpenOf(gaps: seq<Gap>, rows: seq<Recording>, limit: nat) returns (open: seq<Gap>)
    ensures open == OpenOf(gaps, rows, limit)
  {
    open := [];
    for i := 0 to |rows|
      invariant open == OpenOf(gaps, rows[..i], limit)
    {
      assert rows[..i + 1][..i] == rows[..i];
      open := TakeOpen(GapsOf(gaps, rows[i].id), limit, open);
    }
    assert rows[..|rows|] == rows;
  }

  /** patchable. */
  method FindPatchable(s: Shelf, b: Broadcast, limit: nat) returns (open: seq<Gap>)
    ensures open == Patchable(s, b, limit)
  {
    open := TakeOpenOf(s.gaps, RecordingsOf(s.rows, b.id), limit);
  }

  // ----- each hole once -----

  ghost predicate Once<T(!new)>(s: seq<T>) { forall x :: multiset(s)[x] <= 1 }

  lemma {:induction false} RowsOnce(rows: seq<Recording>, id: int)
    requires forall i :: 0 <= i < |rows| ==> rows[i].id == i
    ensures Once(OfBroadcast(rows, id)) && forall r :: r in OfBroadcast(rows, id) ==> r.id < |rows| && rows[r.id] == r
    decreases |rows|
  {
    if rows != [] {
      var front, last := rows[..|rows| - 1], rows[|rows| - 1];
      RowsOnce(front, id);
      assert last !in OfBroadcast(front, id);
      assert multiset(OfBroadcast(front, id))[last] == 0;
    }
  }

  lemma {:induction false} GapsOnce(gaps: seq<Gap>, id: nat)
    requires forall i :: 0 <= i < |gaps| ==> gaps[i].id == i
    ensures Once(OfRecording(gaps, id))
    ensures forall g :: g in OfRecording(gaps, id) ==> g.id < |gaps| && gaps[g.id] == g && g.recording == id
    decreases |gaps|
  {
    if gaps != [] {
      var front, last := gaps[..|gaps| - 1], gaps[|gaps| - 1];
      GapsOnce(front, id);
      assert last !in OfRecording(front, id);
      assert multiset(OfRecording(front, id))[last] == 0;
    }
  }

  lemma {:induction false} OpenWithin(gaps: seq<Gap>, limit: nat)
    ensures forall g :: multiset(OpenAmong(gaps, limit))[g] <= multiset(gaps)[g]
    ensures forall g :: g in OpenAmong(gaps, limit) ==> g in gaps && Open(g, limit)
    decreases |gaps|
  {
    if gaps != [] {
      OpenWithin(gaps[..|gaps| - 1], limit);
      assert gaps == gaps[..|gaps| - 1] + [gaps[|gaps| - 1]];
    }
  }

  lemma SortedHolds<T>(s: seq<T>, key: T -> int)
    ensures multiset(SortBy(s, key)) == multiset(s)
    ensures forall x :: x in SortBy(s, key) <==> x in s
  {
    SortIsPermutation(s, key);
    forall x ensures x in SortBy(s, key) <==> x in s {
      assert x in SortBy(s, key) <==> x in multiset(SortBy(s, key));
      assert x in s <==> x in multiset(s);
    }
  }

  /** What a recording contributes to the list. */
  lemma OpenOfOne(gaps: seq<Gap>, id: nat, limit: nat)
    requires forall i :: 0 <= i < |gaps| ==> gaps[i].id == i
    ensures Once(OpenAmong(GapsOf(gaps, id), limit))
    ensures forall g :: g in OpenAmong(GapsOf(gaps, id), limit) ==>
      g.id < |gaps| && gaps[g.id] == g && g.recording == id && Open(g, limit)
  {
    GapsOnce(gaps, id);
    SortedHolds(OfRecording(gaps, id), OpensAt);
    OpenWithin(GapsOf(gaps, id), limit);
  }

  lemma {:induction false} OpenOnce(gaps: seq<Gap>, rows: seq<Recording>, limit: nat)
    requires forall i :: 0 <= i < |gaps| ==> gaps[i].id == i
    requires Once(rows) && forall r, t :: r in rows && t in rows && r.id == t.id ==> r == t
    ensures Once(OpenOf(gaps, rows, limit))
    ensures forall g :: g in OpenOf(gaps, rows, limit) ==>
      g.id < |gaps| && gaps[g.id] == g && Open(g, limit) && exists r :: r in rows && r.id == g.recording
    decreases |rows|
  {
    if rows != [] {
      var front, last := rows[..|rows| - 1], rows[|rows| - 1];
      assert rows == front + [last];
      assert multiset(rows) == multiset(front) + multiset{last};
      forall r ensures multiset(front)[r] <= 1 { assert multiset(rows)[r] <= 1; }
      assert multiset(rows)[last] <= 1;
      assert last !in multiset(front);
      OpenOnce(gaps, front, limit);
      OpenOfOne(gaps, last.id, limit);
      var here, before := OpenAmong(GapsOf(gaps, last.id), limit), OpenOf(gaps, front, limit);
      forall r | r in front ensures r.id != last.id { assert r in rows && last in rows; }
      forall g | g in before ensures g !in here {
        var r :| r in front && r.id == g.recording;
      }
      forall g ensures multiset(before + here)[g] <= 1 {
        assert multiset(before + here) == multiset(before) + multiset(here);
        assert g in multiset(here) ==> g in here;
        assert g in multiset(before) ==> g in before;
      }
      forall g | g in before + here ensures exists r :: r in rows && r.id == g.recording {
        if g in here { assert last in rows; }
      }
    }
  }

  ghost predicate DistinctHoles(gaps: seq<Gap>) {
    forall i, j :: 0 <= i < j < |gaps| ==> gaps[i].id != gaps[j].id
  }

  lemma TwiceCountsTwo(s: seq<Gap>, i: nat, j: nat)
    requires i < j < |s| && s[i] == s[j]
    ensures multiset(s)[s[i]] >= 2
  {
    assert s == s[..i] + [s[i]] + s[i + 1..j] + [s[j]] + s[j + 1..];
  }

  lemma OnceIsDistinct(s: seq<Gap>, gaps: seq<Gap>)
    requires Once(s) && forall g :: g in s ==> g.id < |gaps| && gaps[g.id] == g
    ensures DistinctHoles(s)
  {
    forall i, j | 0 <= i < j < |s| ensures s[i].id != s[j].id {
      assert s[i] in s && s[j] in s;
      if s[i] == s[j] { TwiceCountsTwo(s, i, j); }
    }
  }

  lemma {:induction false} KeepsTheMatching(rows: seq<Recording>, id: int, r: Recording)
    ensures r in OfBroadcast(rows, id) <==> r in rows && r.broadcast == Some(id)
    decreases |rows|
  {
    if rows != [] {
      KeepsTheMatching(rows[..|rows| - 1], id, r);
      assert rows == rows[..|rows| - 1] + [rows[|rows| - 1]];
    }
  }

  lemma {:induction false} KeepsTheOpen(gaps: seq<Gap>, id: nat, limit: nat, g: Gap)
    ensures g in OfRecording(gaps, id) <==> g in gaps && g.recording == id
    ensures g in OpenAmong(gaps, limit) <==> g in gaps && Open(g, limit)
    decreases |gaps|
  {
    if gaps != [] {
      KeepsTheOpen(gaps[..|gaps| - 1], id, limit, g);
      assert gaps == gaps[..|gaps| - 1] + [gaps[|gaps| - 1]];
    }
  }

  lemma {:induction false} OpenOfHolds(gaps: seq<Gap>, rows: seq<Recording>, limit: nat, g: Gap)
    ensures g in OpenOf(gaps, rows, limit) <==>
      g in gaps && Open(g, limit) && exists r :: r in rows && r.id == g.recording
    decreases |rows|
  {
    if rows != [] {
      var front, last := rows[..|rows| - 1], rows[|rows| - 1];
      assert rows == front + [last];
      OpenOfHolds(gaps, front, limit, g);
      SortedHolds(OfRecording(gaps, last.id), OpensAt);
      KeepsTheOpen(gaps, last.id, limit, g);
      KeepsTheOpen(GapsOf(gaps, last.id), last.id, limit, g);
      assert last in rows;
    }
  }

  /** A hole worth attempting: its row is open, and it belongs to a recording of the broadcast. */
  ghost predicate WorthAttempting(s: Shelf, b: Broadcast, limit: nat, g: Gap) {
    && g in s.gaps && !g.filled && g.attempts < limit
    && (g.reason.LateStart? || g.reason.Reconnect? || g.reason.EarlyStop?)
    && exists r :: r in s.rows && r.id == g.recording && r.broadcast == Some(b.id)
  }

  /** A pass lists every hole worth attempting, and nothing else. */
  lemma PatchableHolds(s: Shelf, b: Broadcast, limit: nat, g: Gap)
    ensures g in Patchable(s, b, limit) <==> WorthAttempting(s, b, limit, g)
  {
    var rows := RecordingsOf(s.rows, b.id);
    OpenOfHolds(s.gaps, rows, limit, g);
    forall r ensures r in rows <==> r in s.rows && r.broadcast == Some(b.id) {
      SortedHolds(OfBroadcast(s.rows, b.id), StartOf);
      KeepsTheMatching(s.rows, b.id, r);
    }
  }

  /** A pass lists each hole worth attempting once, as its row stands, and nothing else. */
  lemma PatchableIsOpen(s: Shelf, b: Broadcast, limit: nat)
    requires Kept(s)
    ensures var open := Patchable(s, b, limit);
      AllMatch(s, open) && Listed(s, open) && DistinctHoles(open)
      && (forall i :: 0 <= i < |open| ==> open[i] == s.gaps[open[i].id] && Open(open[i], limit))
      && (forall g :: g in open <==> WorthAttempting(s, b, limit, g))
  {
    forall g ensures g in Patchable(s, b, limit) <==> WorthAttempting(s, b, limit, g) {
      PatchableHolds(s, b, limit, g);
    }
    var rows := RecordingsOf(s.rows, b.id);
    RowsOnce(s.rows, b.id);
    SortedHolds(OfBroadcast(s.rows, b.id), StartOf);
    OpenOnce(s.gaps, rows, limit);
    var open := Patchable(s, b, limit);
    OnceIsDistinct(open, s.gaps);
    forall i | 0 <= i < |open| ensures open[i] == s.gaps[open[i].id] && Open(open[i], limit) && Matches(s, open[i]) {
      assert open[i] in open;
    }
  }

  // ----- what a pass costs -----

  /** What a pass leaves of each hole's count of attempts. */
  ghost predicate CountsOf(s: Shelf, t: Shelf, limit: nat) {
    |s.gaps| <= |t.gaps| && forall i :: 0 <= i < |s.gaps| ==>
      t.gaps[i].attempts == s.gaps[i].attempts
      || (Open(s.gaps[i], limit) && s.gaps[i].attempts < t.gaps[i].attempts <= limit)
  }

  /** Patching moves no count. */
  lemma PatchedCounts(s: Shelf, p: Pass, g: Gap, a: Answer, i: nat)
    requires g.id < |s.gaps| && i < |s.gaps|
    ensures var t := Patched(s, p, g, a).0;
      |t.gaps| == |s.gaps| && t.gaps[i].attempts == s.gaps[i].attempts && (i != g.id ==> t.gaps[i] == s.gaps[i])
  {}

  lemma TurnCounts(s: Shelf, p: Pass, g: Gap, a: Answer, i: nat)
    requires g.id < |s.gaps| && i < |s.gaps| && s.gaps[g.id].attempts < p.limit
    ensures var t := Turn(s, p, g, a).0;
      && |t.gaps| == |s.gaps|
      && (i != g.id ==> t.gaps[i] == s.gaps[i])
      && s.gaps[g.id].attempts <= t.gaps[g.id].attempts <= p.limit
  {
    PatchedCounts(s, p, g, a, i);
    PatchedCounts(s, p, g, a, g.id);
  }

  lemma {:induction false} OthersUntouched(s: Shelf, p: Pass, gaps: seq<Gap>, answers: seq<Answer>, i: nat)
    requires |answers| == |gaps| && Listed(s, gaps) && i < |s.gaps|
    requires forall k :: 0 <= k < |gaps| ==> gaps[k].id != i
    ensures var t := PatchAll(s, p, gaps, answers).shelf; |t.gaps| == |s.gaps| && t.gaps[i] == s.gaps[i]
    decreases |gaps|
  {
    if gaps != [] {
      var turn := Turn(s, p, gaps[0], answers[0]);
      if turn.2.None? {
        assert Listed(turn.0, gaps[1..]);
        OthersUntouched(turn.0, p, gaps[1..], answers[1..], i);
      }
    }
  }

  /** A pass never spends a hole past its limit, and spends only on holes that had attempts left. */
  lemma {:induction false} PassCounts(s: Shelf, p: Pass, gaps: seq<Gap>, answers: seq<Answer>)
    requires |answers| == |gaps| && Listed(s, gaps) && DistinctHoles(gaps)
    requires forall k :: 0 <= k < |gaps| ==> Open(s.gaps[gaps[k].id], p.limit)
    ensures CountsOf(s, PatchAll(s, p, gaps, answers).shelf, p.limit)
    decreases |gaps|
  {
    if gaps != [] {
      var g, a := gaps[0], answers[0];
      var turn := Turn(s, p, g, a);
      var t := PatchAll(s, p, gaps, answers).shelf;
      forall i | 0 <= i < |s.gaps| ensures i != g.id ==> turn.0.gaps[i] == s.gaps[i] { TurnCounts(s, p, g, a, i); }
      TurnCounts(s, p, g, a, g.id);
      if turn.2.None? {
        assert Listed(turn.0, gaps[1..]);
        forall k | 0 <= k < |gaps[1..]|
          ensures gaps[1..][k].id != g.id && Open(turn.0.gaps[gaps[1..][k].id], p.limit)
        {
          assert gaps[1..][k] == gaps[k + 1];
        }
        OthersUntouched(turn.0, p, gaps[1..], answers[1..], g.id);
        PassCounts(turn.0, p, gaps[1..], answers[1..]);
      }
    }
  }

  // ----- whole runs -----

  /** The whole broadcast is refused: the store took not every hole, nothing can be downloaded or placed,
      or its recordings could not be listed. What was detected stays filed. */
  predicate Refuses(rows: seq<Recording>, b: Broadcast, listed: bool) {
    !AllStorable(SpansFor(rows, b)) || b.url == "" || b.vodStartedAt.None? || !listed
  }

  /** What befalls the library between one step of it and the next: a pass, a recording created, what
      is known of one changed, its file moved, a purge of it completed, an incoming file swept away. */
  datatype Event =
    | Passed(pass: Pass, listed: bool, answers: seq<Answer>)
    | Created(path: Path, broadcast: Option<int>, state: Held, live: bool, at: Instant)
    | Noted(row: nat, broadcast: Option<int>, state: Held, endedAt: Option<Instant>, media: Duration)
    | Moved(row: nat, name: string)
    | Released(row: nat)
    | Swept(path: Path)

  predicate Fits(s: Shelf, e: Event) {
    match e
    case Passed(p, _, answers) => |answers| == |Patchable(Detected(s, p.broadcast), p.broadcast, p.limit)|
    case Created(path, _, _, _, at) =>
      !path.Gone? && (path.Incoming? ==> path.second == at / SECOND) && RowAt(s.rows, path).None?
    case Noted(row, _, _, _, _) => There(s.rows, row)
    case Moved(row, _) => There(s.rows, row)
    case Released(row) => There(s.rows, row) && s.rows[row].state == Trashed
    case Swept(_) => true
  }

  ghost function AfterPass(s: Shelf, p: Pass, listed: bool, answers: seq<Answer>): Shelf
    requires Kept(s) && |answers| == |Patchable(Detected(s, p.broadcast), p.broadcast, p.limit)|
  {
    var d := Detected(s, p.broadcast);
    DetectedKeepsPlaces(s, p.broadcast);
    PatchableIsOpen(d, p.broadcast, p.limit);
    if Refuses(s.rows, p.broadcast, listed) then d
    else PatchAll(d, p, Patchable(d, p.broadcast, p.limit), answers).shelf
  }

  ghost function After(s: Shelf, e: Event): Shelf
    requires Kept(s) && Fits(s, e)
  {
    match e
    case Passed(p, listed, answers) => AfterPass(s, p, listed, answers)
    case Created(path, broadcast, state, live, at) =>
      s.(rows := s.rows + [Recording(|s.rows|, broadcast, path, state, live, at, None, 0)])
    case Noted(row, broadcast, state, endedAt, media) =>
      s.(rows := s.rows[row :=
                s.rows[row].(broadcast := broadcast, state := state, endedAt := endedAt, media := media)])
    case Moved(row, name) => s.(rows := s.rows[row := s.rows[row].(path := Shelved(name))])
    case Released(row) =>
      s.(rows := s.rows[row := s.rows[row].(path := Gone, broadcast := None)], files := s.files - {s.rows[row].path})
    case Swept(path) => s.(files := s.files - {path})
  }

  lemma {:induction false} FilingKeepsPlaces(s: Shelf, anchor: nat, spans: seq<Span>)
    requires Kept(s) && (spans == [] || anchor < |s.rows|)
    ensures Kept(s.(gaps := FileAll(s.gaps, anchor, spans)))
    decreases |spans|
  {
    if spans != [] { FilingKeepsPlaces(s, anchor, spans[..|spans| - 1]); }
  }

  lemma DetectedKeepsPlaces(s: Shelf, b: Broadcast)
    requires Kept(s)
    ensures Kept(Detected(s, b))
  {
    if SpansFor(s.rows, b) != [] { AnchorIsThere(s, b); }
    FilingKeepsPlaces(s, Anchor(s.rows, b), SpansFor(s.rows, b));
  }

  lemma PassKeeps(s: Shelf, p: Pass, listed: bool, answers: seq<Answer>)
    requires Kept(s) && Backed(s) && Fits(s, Passed(p, listed, answers))
    ensures var t := AfterPass(s, p, listed, answers); Kept(t) && Backed(t) && Extends(s, t)
  {
    var d := Detected(s, p.broadcast);
    if SpansFor(s.rows, p.broadcast) != [] { AnchorIsThere(s, p.broadcast); }
    FilingKeeps(s, Anchor(s.rows, p.broadcast), SpansFor(s.rows, p.broadcast));
    PatchableIsOpen(d, p.broadcast, p.limit);
    PatchAllKeeps(d, p, Patchable(d, p.broadcast, p.limit), answers);
    ExtendsOn(s, d, PatchAll(d, p, Patchable(d, p.broadcast, p.limit), answers).shelf);
  }

  lemma EventKeeps(s: Shelf, e: Event)
    requires Kept(s) && Backed(s) && Fits(s, e)
    ensures Kept(After(s, e)) && Backed(After(s, e)) && Extends(s, After(s, e))
  {
    match e
    case Passed(p, listed, answers) => PassKeeps(s, p, listed, answers);
    case _ => StaysBacked(s, After(s, e));
  }

  ghost predicate Run(s: Shelf, events: seq<Event>, t: Shelf)
    requires Kept(s)
    decreases |events|
  {
    if events == [] then s == t
    else Fits(s, events[0]) && Kept(After(s, events[0])) && Run(After(s, events[0]), events[1..], t)
  }

  /** Over any number of passes, whatever the downloads, the probe and the lookups answer, and however
      recordings are created, changed, moved and released between: a hole reads as filled only behind a
      recording of its own second, there or released since, whose file measured whole and was heard, and
      never from a copy silenced where the hole lies; and as long as it is there it stays filled. */
  lemma {:induction false} FilledHolesStayBacked(s: Shelf, events: seq<Event>, t: Shelf)
    requires Kept(s) && Backed(s) && Run(s, events, t)
    ensures Kept(t) && Backed(t) && Extends(s, t)
    decreases |events|
  {
    if events != [] {
      EventKeeps(s, events[0]);
      FilledHolesStayBacked(After(s, events[0]), events[1..], t);
      ExtendsOn(s, After(s, events[0]), t);
    } else {
      StaysBacked(s, t);
    }
  }

  /** Over any number of passes under one limit, no hole is charged past it. */
  lemma {:induction false} ChargesStayWithinTheLimit(s: Shelf, events: seq<Event>, t: Shelf, limit: nat, i: nat)
    requires Kept(s) && Backed(s) && Run(s, events, t)
    requires forall k :: 0 <= k < |events| && events[k].Passed? ==> events[k].pass.limit == limit
    requires i < |s.gaps| && s.gaps[i].attempts <= limit
    ensures i < |t.gaps| && s.gaps[i].attempts <= t.gaps[i].attempts <= limit
    decreases |events|
  {
    if events != [] {
      var u := After(s, events[0]);
      EventKeeps(s, events[0]);
      if events[0].Passed? {
        var p := events[0].pass;
        var d := Detected(s, p.broadcast);
        DetectedKeepsPlaces(s, p.broadcast);
        PatchableIsOpen(d, p.broadcast, p.limit);
        EveryHoleIsFiled(s.gaps, Anchor(s.rows, p.broadcast), SpansFor(s.rows, p.broadcast));
        PassCounts(d, p, Patchable(d, p.broadcast, p.limit), events[0].answers);
        assert d.gaps[i] == s.gaps[i];
      }
      ChargesStayWithinTheLimit(u, events[1..], t, limit, i);
    }
  }

  // ----- what a release takes -----

  /** Rows are only added, and none of them released. */
  predicate RowsGrow(s: Shelf, t: Shelf) {
    s.rows <= t.rows && forall i :: |s.rows| <= i < |t.rows| ==> !t.rows[i].path.Gone?
  }

  lemma RowsGrowOn(s: Shelf, t: Shelf, u: Shelf)
    requires RowsGrow(s, t) && RowsGrow(t, u)
    ensures RowsGrow(s, u)
  {}

  lemma PatchedAddsRows(s: Shelf, p: Pass, g: Gap, a: Answer)
    requires g.id < |s.gaps|
    ensures RowsGrow(s, Patched(s, p, g, a).0)
  {}

  lemma {:induction false} PatchAllAddsRows(s: Shelf, p: Pass, gaps: seq<Gap>, answers: seq<Answer>)
    requires |answers| == |gaps| && Listed(s, gaps)
    ensures RowsGrow(s, PatchAll(s, p, gaps, answers).shelf)
    decreases |gaps|
  {
    if gaps != [] {
      PatchedAddsRows(s, p, gaps[0], answers[0]);
      var turn := Turn(s, p, gaps[0], answers[0]);
      if turn.2.None? {
        assert Listed(turn.0, gaps[1..]);
        PatchAllAddsRows(turn.0, p, gaps[1..], answers[1..]);
        RowsGrowOn(s, turn.0, PatchAll(turn.0, p, gaps[1..], answers[1..]).shelf);
      }
    }
  }

  predicate Releases(e: Event, row: nat) { e.Released? && e.row == row }

  predicate ReleasedIn(events: seq<Event>, row: nat) {
    exists k :: 0 <= k < |events| && Releases(events[k], row)
  }

  /** A row goes with its own release and with nothing else, and does not come back. */
  lemma EventReleases(s: Shelf, e: Event, row: nat)
    requires Kept(s) && Fits(s, e) && row < |After(s, e).rows|
    ensures There(After(s, e).rows, row) <==> (row < |s.rows| ==> There(s.rows, row)) && !Releases(e, row)
  {
    if e.Passed? {
      var p, d := e.pass, Detected(s, e.pass.broadcast);
      DetectedKeepsPlaces(s, p.broadcast);
      PatchableIsOpen(d, p.broadcast, p.limit);
      PatchAllAddsRows(d, p, Patchable(d, p.broadcast, p.limit), e.answers);
    }
  }

  /** Over any run, a row is gone at the end exactly when it was released on the way. */
  lemma {:induction false} GoneExactlyWhenReleased(s: Shelf, events: seq<Event>, t: Shelf, row: nat)
    requires Kept(s) && Backed(s) && Run(s, events, t)
    requires row < |t.rows| && (row < |s.rows| ==> There(s.rows, row))
    ensures There(t.rows, row) <==> !ReleasedIn(events, row)
    decreases |events|
  {
    if events != [] {
      var u := After(s, events[0]);
      EventKeeps(s, events[0]);
      FilledHolesStayBacked(u, events[1..], t);
      assert forall k :: 0 <= k < |events[1..]| ==> events[1..][k] == events[k + 1];
      if row < |u.rows| {
        EventReleases(s, events[0], row);
      }
      if Releases(events[0], row) {
        assert !There(u.rows, row) && SameRow(u.rows[row], t.rows[row]);
      } else {
        GoneExactlyWhenReleased(u, events[1..], t, row);
        if k :| 0 <= k < |events| && Releases(events[k], row) {
          assert k > 0 && Releases(events[1..][k - 1], row);
        }
      }
    }
  }

  /** Every fill marks a hole, and no hole is marked by two. */
  ghost predicate OneEach(s: Shelf) {
    && (forall k :: 0 <= k < |s.fills| ==> s.fills[k].gap < |s.gaps| && s.gaps[s.fills[k].gap].filled)
    && (forall k, l :: 0 <= k < l < |s.fills| ==> s.fills[k].gap != s.fills[l].gap)
  }

  lemma PatchedMarksOnce(s: Shelf, p: Pass, g: Gap, a: Answer)
    requires OneEach(s) && g.id < |s.gaps| && !s.gaps[g.id].filled
    ensures OneEach(Patched(s, p, g, a).0)
  {
    PatchedMarks(s, p, g, a);
    OneMoreMarked(s, Patched(s, p, g, a).0, g.id);
  }

  /** The hole is marked and its fill kept with it, or neither. */
  predicate Marks(s: Shelf, t: Shelf, id: nat)
    requires id < |s.gaps|
  {
    && |s.fills| <= |t.fills| && (forall k :: 0 <= k < |s.fills| ==> t.fills[k].gap == s.fills[k].gap)
    && if |t.fills| == |s.fills| then t.gaps == s.gaps
       else |t.fills| == |s.fills| + 1 && t.fills[|s.fills|].gap == id
            && t.gaps == s.gaps[id := s.gaps[id].(filled := true)]
  }

  lemma PatchedMarks(s: Shelf, p: Pass, g: Gap, a: Answer)
    requires g.id < |s.gaps|
    ensures Marks(s, Patched(s, p, g, a).0, g.id)
  {}

  lemma OneMoreMarked(s: Shelf, t: Shelf, id: nat)
    requires OneEach(s) && id < |s.gaps| && !s.gaps[id].filled && Marks(s, t, id)
    ensures OneEach(t)
  {}

  lemma {:induction false} PatchAllMarksOnce(s: Shelf, p: Pass, gaps: seq<Gap>, answers: seq<Answer>)
    requires |answers| == |gaps| && Listed(s, gaps) && DistinctHoles(gaps) && OneEach(s)
    requires forall k :: 0 <= k < |gaps| ==> !s.gaps[gaps[k].id].filled
    ensures OneEach(PatchAll(s, p, gaps, answers).shelf)
    decreases |gaps|
  {
    if gaps != [] {
      var g, a := gaps[0], answers[0];
      var turn := Turn(s, p, g, a);
      PatchedMarksOnce(s, p, g, a);
      if turn.2.None? {
        forall k | 0 <= k < |gaps[1..]| ensures !turn.0.gaps[gaps[1..][k].id].filled {
          assert gaps[1..][k] == gaps[k + 1];
          PatchedCounts(s, p, g, a, gaps[k + 1].id);
        }
        assert Listed(turn.0, gaps[1..]);
        PatchAllMarksOnce(turn.0, p, gaps[1..], answers[1..]);
      }
    }
  }

  lemma PassMarksOnce(s: Shelf, p: Pass, listed: bool, answers: seq<Answer>)
    requires Kept(s) && OneEach(s) && |answers| == |Patchable(Detected(s, p.broadcast), p.broadcast, p.limit)|
    ensures OneEach(AfterPass(s, p, listed, answers))
  {
    var d := Detected(s, p.broadcast);
    DetectedKeepsPlaces(s, p.broadcast);
    EveryHoleIsFiled(s.gaps, Anchor(s.rows, p.broadcast), SpansFor(s.rows, p.broadcast));
    PatchableIsOpen(d, p.broadcast, p.limit);
    PatchAllMarksOnce(d, p, Patchable(d, p.broadcast, p.limit), answers);
  }

  lemma EventMarksOnce(s: Shelf, e: Event)
    requires Kept(s) && Fits(s, e) && OneEach(s)
    ensures OneEach(After(s, e))
  {
    if e.Passed? { PassMarksOnce(s, e.pass, e.listed, e.answers); }
  }

  lemma {:induction false} RunsMarkOnce(s: Shelf, events: seq<Event>, t: Shelf)
    requires Kept(s) && Run(s, events, t) && OneEach(s)
    ensures OneEach(t)
    decreases |events|
  {
    if events != [] {
      EventMarksOnce(s, events[0]);
      RunsMarkOnce(After(s, events[0]), events[1..], t);
    }
  }

  /** The one fill a hole is marked filled behind. */
  ghost predicate Behind(s: Shelf, i: nat, k: nat) {
    && i < |s.gaps| && k < |s.fills| && Vouches(s, s.gaps[i], s.fills[k])
    && forall l :: 0 <= l < |s.fills| && s.fills[l].gap == s.fills[k].gap ==> l == k
  }

  /** From a library nothing was released from, over any run: each filled hole is behind one recording,
      which the library is without exactly when that recording was released on the way; and the hole
      itself is gone exactly when the recording it was filed against was. */
  lemma FilledHolesLoseOnlyWhatIsReleased(s: Shelf, events: seq<Event>, t: Shelf, i: nat)
    returns (k: nat)
    requires Kept(s) && Backed(s) && OneEach(s) && Run(s, events, t)
    requires forall row :: 0 <= row < |s.rows| ==> There(s.rows, row)
    requires i < |t.gaps| && t.gaps[i].filled
    ensures Behind(t, i, k)
    ensures There(t.rows, t.fills[k].row) <==> !ReleasedIn(events, t.fills[k].row)
    ensures There(t.rows, t.gaps[i].recording) <==> !ReleasedIn(events, t.gaps[i].recording)
  {
    FilledHolesStayBacked(s, events, t);
    RunsMarkOnce(s, events, t);
    k :| 0 <= k < |t.fills| && Vouches(t, t.gaps[i], t.fills[k]);
    GoneExactlyWhenReleased(s, events, t, t.fills[k].row);
    GoneExactlyWhenReleased(s, events, t, t.gaps[i].recording);
  }

  /** The trash put to a recording, and its purge completed. */
  function Purge(r: Recording): seq<Event> {
    [Noted(r.id, r.broadcast, Trashed, r.endedAt, r.media), Released(r.id)]
  }

  /** Purging what fills a hole leaves the hole marked filled with nothing behind it, and listed by no
      later pass. */
  lemma PurgeLeavesTheHoleFilled(s: Shelf, i: nat, k: nat, b: Broadcast, limit: nat) returns (t: Shelf)
    requires Kept(s) && Backed(s) && i < |s.gaps| && s.gaps[i].filled && Behind(s, i, k)
    requires There(s.rows, s.fills[k].row) && There(s.rows, s.gaps[i].recording)
    requires s.fills[k].row != s.gaps[i].recording
    ensures Run(s, Purge(s.rows[s.fills[k].row]), t) && Kept(t)
    ensures !There(t.rows, s.fills[k].row) && There(t.rows, s.gaps[i].recording)
    ensures t.gaps == s.gaps && t.gaps[i] !in Patchable(t, b, limit)
  {
    var row := s.fills[k].row;
    var events := Purge(s.rows[row]);
    assert events[1..] == [Released(row)] && events[1..][1..] == [];
    var u := After(s, events[0]);
    EventKeeps(s, events[0]);
    t := After(u, Released(row));
    EventKeeps(u, Released(row));
    PatchableHolds(t, b, limit, t.gaps[i]);
  }

  // ----- over whole runs -----

  /** The event held an answered attempt at the hole. */
  ghost predicate Tried(s: Shelf, e: Event, i: nat)
    requires Kept(s) && Fits(s, e)
  {
    e.Passed? &&
    var open := Patchable(Detected(s, e.pass.broadcast), e.pass.broadcast, e.pass.limit);
    exists j :: 0 <= j < |open| && open[j].id == i && Answered(e.pass, open[j], e.answers[j])
  }

  ghost predicate SomeTried(s: Shelf, events: seq<Event>, t: Shelf, i: nat)
    requires Kept(s) && Run(s, events, t)
    decreases |events|
  {
    events != [] && (Tried(s, events[0], i) || SomeTried(After(s, events[0]), events[1..], t, i))
  }

  /** Over any run, a hole's attempts change only if some pass of it made an answered attempt at it. */
  lemma {:induction false} RunsSpendForAnswers(s: Shelf, events: seq<Event>, t: Shelf, i: nat)
    requires Kept(s) && Backed(s) && Run(s, events, t) && i < |s.gaps|
    ensures i < |t.gaps| && (t.gaps[i].attempts != s.gaps[i].attempts ==> SomeTried(s, events, t, i))
    decreases |events|
  {
    if events != [] {
      var e := events[0];
      EventKeeps(s, e);
      if e.Passed? {
        var p, d := e.pass, Detected(s, e.pass.broadcast);
        DetectedKeepsPlaces(s, p.broadcast);
        EveryHoleIsFiled(s.gaps, Anchor(s.rows, p.broadcast), SpansFor(s.rows, p.broadcast));
        PatchableIsOpen(d, p.broadcast, p.limit);
        AttemptsAreForAnswers(d, p, Patchable(d, p.broadcast, p.limit), e.answers, i);
        assert d.gaps[i] == s.gaps[i];
      }
      RunsSpendForAnswers(After(s, e), events[1..], t, i);
    }
  }

  ghost predicate PassesOver(events: seq<Event>, b: Broadcast) {
    forall k :: 0 <= k < |events| ==> events[k].Passed? && events[k].pass.broadcast == b
  }

  /** A broadcast some hole of which the store refuses is detected by every pass and patched by none. */
  lemma {:induction false} RefusedIsNeverPatched(s: Shelf, events: seq<Event>, t: Shelf, b: Broadcast)
    requires Kept(s) && Run(s, events, t) && PassesOver(events, b) && !AllStorable(SpansFor(s.rows, b))
    ensures t == if events == [] then s else Detected(s, b)
    decreases |events|
  {
    if events != [] {
      assert After(s, events[0]) == Detected(s, b);
      DetectionRepeats(s, b);
      RefusedIsNeverPatched(Detected(s, b), events[1..], t, b);
    }
  }
}
