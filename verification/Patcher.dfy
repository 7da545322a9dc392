/** The patcher as the program runs it, over rows it changes in place. */
module Patcher {
  import opened Basics
  import opened Library
  import opened Holes
  import opened Patch
  import opened PatchPass

  /** What looking up a broadcast's original audio gave. */
  datatype Lookup = Unasked | Found(address: string) | NotFound | GoneForGood | NoAnswer

  datatype Verdict = Ran(end: End) | DetectFailed | NoAddress | NoAnchor | Unlisted

  /** mutedAcross: whether any of the holes lies over a mute. */
  predicate AnyOverMutes(b: Broadcast, gaps: seq<Gap>) {
    exists i :: 0 <= i < |gaps| && Silenced(b, gaps[i])
  }

  /** resolveOriginalAudio: where the original can be fetched from, if anywhere, and whether the question
      was answered at all. A copy gone for good has answered no; a platform that could not say has not
      answered. */
  function Resolved(b: Broadcast, gaps: seq<Gap>, lookup: Lookup): (string, bool) {
    if lookup == Unasked || !AnyOverMutes(b, gaps) then ("", true)
    else (if lookup.Found? then lookup.address else "", lookup != NoAnswer)
  }

  /** What the lookup decides for a muted hole: where the platform could not say, a turn leaves everything
      as it was; where it has no address that kept the sound, a turn that is answered spends every attempt
      the hole has left; and otherwise only that address can fill it. */
  lemma AudioDecides(s: Shelf, b: Broadcast, prefix: string, limit: nat, gaps: seq<Gap>, lookup: Lookup, g: Gap,
                     a: Answer)
    requires g in gaps && OverMutes(b, g) && g.id < |s.gaps|
    ensures var (recovered, answered) := Resolved(b, gaps, lookup);
      var p := Pass(b, prefix, recovered, answered, limit);
      var turn := Turn(s, p, g, a);
      match lookup
      case NoAnswer => turn.0 == s && (turn.2.None? || a.cancelled)
      case Found(address) =>
        && (address == "" && Answered(p, g, a) ==> turn.0.gaps[g.id] == s.gaps[g.id].(attempts := limit))
        && (turn.1 == 1 ==> a.download(address).Produced?)
      case _ => answered && turn.1 == 0
                && (Answered(p, g, a) ==> turn.0.gaps[g.id] == s.gaps[g.id].(attempts := limit))
  {
    SilencedIsOverMutes(b, g);
    var i :| 0 <= i < |gaps| && gaps[i] == g;
    assert Silenced(b, gaps[i]);
    var p := Pass(b, prefix, Resolved(b, gaps, lookup).0, Resolved(b, gaps, lookup).1, limit);
    TurnEndsExactly(s, p, g, a);
  }

  /** Where no hole lies over a mute nothing is looked up, and none is passed over. */
  lemma UnmutedAsksNothing(b: Broadcast, gaps: seq<Gap>, lookup: Lookup)
    requires forall g :: g in gaps ==> !OverMutes(b, g)
    ensures Resolved(b, gaps, lookup) == ("", true)
  {
    forall i | 0 <= i < |gaps| ensures !Silenced(b, gaps[i]) { SilencedIsOverMutes(b, gaps[i]); }
  }

  /** The answers a world gives to the first n holes. */
  function AnswersOf(world: nat -> Answer, n: nat): (a: seq<Answer>)
    ensures |a| == n && forall i :: 0 <= i < n ==> a[i] == world(i)
  {
    seq(n, i requires 0 <= i < n => world(i))
  }

  class Patcher {
    var gaps: seq<Gap>
    var rows: seq<Recording>
    var files: set<Path>
    ghost var fills: seq<Fill>

    ghost function View(): Shelf
      reads this
    {
      Shelf(gaps, rows, files, fills)
    }

    /** Rows keep their places, and every filled hole is backed. */
    ghost predicate Valid()
      reads this
    {
      Kept(View()) && Backed(View())
    }

    constructor (gaps: seq<Gap>, rows: seq<Recording>, files: set<Path>, ghost fills: seq<Fill>)
      requires Kept(Shelf(gaps, rows, files, fills)) && Backed(Shelf(gaps, rows, files, fills))
      ensures Valid() && View() == Shelf(gaps, rows, files, fills)
    {
      this.gaps, this.rows, this.files, this.fills := gaps, rows, files, fills;
    }

    method AddGap(recording: nat, span: Span) returns (refused: bool)
      modifies this`gaps
      ensures gaps == Added(old(gaps), recording, span) && refused == !Storable(span)
    {
      if span.start < 0 || Whole(span.end) <= Whole(span.start) {
        return true;
      }
      if GapFor(gaps, recording, span).None? {
        gaps := gaps + [Gap(|gaps|, recording, Whole(span.start), Whole(span.end), span.reason, false, 0)];
      }
      return false;
    }

    /** Every hole the store takes is filed, whether or not it refused another. */
    method FileSpans(anchor: nat, spans: seq<Span>) returns (refused: bool)
      modifies this`gaps
      ensures gaps == FileAll(old(gaps), anchor, spans) && refused == !AllStorable(spans)
    {
      refused := false;
      for i := 0 to |spans|
        modifies this`gaps
        invariant gaps == FileAll(old(gaps), anchor, spans[..i])
        invariant refused == !AllStorable(spans[..i])
      {
        assert spans[..i + 1][..i] == spans[..i];
        var no := AddGap(anchor, spans[i]);
        if no {
          refused := true;
          assert !Storable(spans[..i + 1][i]);
        }
      }
      assert spans[..|spans|] == spans;
    }

    /** The recordings that hold something. */
    method KeepHolding(recordings: seq<Recording>) returns (held: seq<Recording>)
      ensures held == Holding(recordings)
    {
      held := [];
      for i := 0 to |recordings|
        invariant held == Holding(recordings[..i])
      {
        assert recordings[..i + 1][..i] == recordings[..i];
        if HoldsBytes(recordings[i].state) {
          held := held + [recordings[i]];
        }
      }
      assert recordings[..|recordings|] == recordings;
    }

    /** Detect. */
    method Detect(b: Broadcast) returns (refused: bool)
      modifies this`gaps
      ensures View() == Detected(old(View()), b)
      ensures refused == !AllStorable(SpansFor(rows, b))
    {
      var holding := KeepHolding(RecordingsOf(rows, b.id));
      var held := SortBy(holding, PatchPass.StartOf);
      if held == [] {
        return false;
      }
      var spans := FindSpans(b, held);
      refused := FileSpans(held[0].id, spans);
    }

    method Discard(path: Path, a: Answer)
      modifies this`files
      ensures View() == Discarded(old(View()), path, a)
    {
      if a.removes {
        files := files - {path};
      }
    }

    /** The row created, and the hole marked filled last. */
    method FileRange(p: Pass, g: Gap, a: Answer, path: Path, source: string, measured: Duration)
      returns (cause: Option<Cause>)
      requires g.id < |gaps|
      modifies this
      ensures (View(), cause) == FileFill(old(View()), p, g, a, path, source, measured)
    {
      if !a.creates {
        return Some(NotCreated);
      }
      var known := RowAt(rows, path);
      var row := |rows|;
      if known.Some? {
        row := known.value;
      } else {
        rows := rows + [PatchRow(p, g, row, path)];
        if !a.finalizes {
          return Some(NotFinalized);
        }
      }
      if !a.marks {
        return Some(NotMarked);
      }
      gaps := gaps[g.id := gaps[g.id].(filled := true)];
      fills := fills + [Fill(g.id, row, path, p, source, measured, a.sounds)];
      return None;
    }

    /** patch: one hole fetched, measured, listened to and filed. */
    method PatchHole(p: Pass, g: Gap, a: Answer) returns (cause: Option<Cause>)
      requires g.id < |gaps|
      modifies this
      ensures (View(), cause) == Patched(old(View()), p, g, a)
    {
      var r := VodRange(p.broadcast, g);
      if r.None? {
        return Some(OutOfRange);
      }
      var source, recoveredAudio := p.broadcast.url, false;
      var silenced := MutedWithin(p.broadcast.muted, r.value);
      if silenced {
        if p.recovered == "" {
          return Some(Muted);
        }
        source, recoveredAudio := p.recovered, true;
      }
      match a.download(source)
      case Refused(terminal) => return Some(ToolRefused(terminal));
      case Elsewhere => return Some(NotOurs);
      case Produced(ext) =>
        var path := StemOf(p, g, ext);
        files := files + {path};
        if a.measured.None? {
          return Some(Unmeasured);
        }
        var wanted := g.end - g.start;
        if a.measured.value < wanted - ShortfallAllowed(Max(wanted, 0)) {
          Discard(path, a);
          return Some(TooShort);
        }
        if recoveredAudio {
          var heard := RequireAudible(p.broadcast.muted, r.value.start, a.measured.value, a.sounds);
          if heard == Unheard {
            return Some(Unmeasured);
          }
          if heard == Silent {
            Discard(path, a);
            return Some(StillSilent);
          }
        }
        cause := FileRange(p, g, a, path, source, a.measured.value);
    }

    method Charge(id: nat, limit: nat, terminal: bool)
      requires id < |gaps|
      modifies this`gaps
      ensures View() == Charged(old(View()), id, limit, terminal)
    {
      gaps := gaps[id := gaps[id].(attempts := if terminal then limit else gaps[id].attempts + 1)];
    }

    /** One turn of Patch's loop: what it filled, and where it ends the pass, the end. */
    method TakeTurn(p: Pass, g: Gap, a: Answer) returns (filled: nat, end: Option<End>)
      requires g.id < |gaps|
      modifies this
      ensures (View(), filled, end) == Turn(old(View()), p, g, a)
    {
      if a.cancelled {
        return 0, Some(Cancelled);
      }
      if !p.answered && Silenced(p.broadcast, g) {
        return 0, None;
      }
      if !a.room {
        return 0, Some(NoRoom);
      }
      var cause := PatchHole(p, g, a);
      if cause.None? {
        return 1, None;
      }
      if a.interrupted {
        return 0, Some(Cancelled);
      }
      if !a.charges {
        return 0, Some(StoreFailed);
      }
      Charge(g.id, p.limit, Terminal(cause.value));
      return 0, None;
    }

    /** Every open hole in turn. */
    method PatchEach(p: Pass, open: seq<Gap>, world: nat -> Answer) returns (filled: nat, end: End)
      requires Valid() && AllMatch(View(), open) && Listed(View(), open)
      modifies this
      ensures Valid() && Extends(old(View()), View())
      ensures PatchAll(old(View()), p, open, AnswersOf(world, |open|)) == Progress(View(), filled, end)
    {
      filled := 0;
      ghost var d, answers := View(), AnswersOf(world, |open|);
      StaysBacked(d, d);
      assert open[0..] == open && answers[0..] == answers;
      for i := 0 to |open|
        modifies this
        invariant Valid() && AllMatch(View(), open) && Listed(View(), open) && Extends(d, View())
        invariant Listed(View(), open[i..])
        invariant Continues(PatchAll(d, p, open, answers), filled, View(), p, open[i..], answers[i..])
      {
        ghost var before := View();
        assert open[i..][1..] == open[i + 1..] && answers[i..][1..] == answers[i + 1..];
        TurnKeeps(before, p, open[i], world(i));
        var more, stop := TakeTurn(p, open[i], world(i));
        StillMatch(before, View(), open);
        ExtendsOn(d, before, View());
        filled := filled + more;
        if stop.Some? {
          return filled, stop.value;
        }
      }
      return filled, Finished;
    }

    /** Patch: detect, refuse what the whole broadcast lacks, then every open hole in turn. */
    method Patch(b: Broadcast, prefix: string, limit: nat, listed: bool, lookup: Lookup, world: nat -> Answer)
      returns (filled: nat, verdict: Verdict)
      requires Valid()
      modifies this
      ensures Valid() && Extends(old(View()), View())
      ensures verdict.DetectFailed? <==> SomeRefused(b, HeldOf(old(rows), b.id))
      ensures verdict.NoAddress? <==> !verdict.DetectFailed? && b.url == ""
      ensures verdict.NoAnchor? <==> !verdict.DetectFailed? && b.url != "" && b.vodStartedAt.None?
      ensures verdict.Ran? <==> !verdict.DetectFailed? && b.url != "" && b.vodStartedAt.Some? && listed
      ensures !verdict.Ran? ==> filled == 0 && View() == Detected(old(View()), b)
      ensures exists p: Pass, answers ::
                p.broadcast == b && p.limit == limit && ActsAs(old(View()), View(), p, listed, answers)
      ensures verdict.Ran? ==> RanAs(old(View()), View(), b, prefix, limit, lookup, world, filled, verdict.end)
    {
      ghost var s := View();
      ghost var found := Patchable(Detected(s, b), b, limit);
      ghost var p := Pass(b, prefix, Resolved(b, found, lookup).0, Resolved(b, found, lookup).1, limit);
      ghost var answers := AnswersOf(world, |found|);
      PassKeeps(s, p, false, answers);
      RefusedExactly(rows, b);
      assert Refuses(s.rows, b, listed) ==> ActsAs(s, Detected(s, b), p, listed, answers);
      var refused := Detect(b);
      if refused {
        return 0, DetectFailed;
      }
      if b.url == "" {
        return 0, NoAddress;
      }
      if b.vodStartedAt.None? {
        return 0, NoAnchor;
      }
      if !listed {
        return 0, Unlisted;
      }
      ghost var d := View();
      PatchableIsOpen(d, b, limit);
      var open := FindPatchable(Shelf(gaps, rows, files, []), b, limit);
      var resolved := Resolved(b, open, lookup);
      var end;
      filled, end := PatchEach(Pass(b, prefix, resolved.0, resolved.1, limit), open, world);
      ExtendsOn(s, d, View());
      assert ActsAs(s, View(), p, listed, answers);
      return filled, Ran(end);
    }
  }

  /** One pass, as a step of a run. */
  ghost predicate ActsAs(s: Shelf, t: Shelf, p: Pass, listed: bool, answers: seq<Answer>) {
    Kept(s) && Fits(s, Passed(p, listed, answers)) && t == AfterPass(s, p, listed, answers)
  }

  /** A pass that ran: the holes detection left, patched as the world answered. */
  ghost predicate RanAs(s: Shelf, t: Shelf, b: Broadcast, prefix: string, limit: nat, lookup: Lookup,
                        world: nat -> Answer, filled: nat, end: End)
  {
    var d := Detected(s, b);
    var open := Patchable(d, b, limit);
    var resolved := Resolved(b, open, lookup);
    && Listed(d, open)
    && PatchAll(d, Pass(b, prefix, resolved.0, resolved.1, limit), open, AnswersOf(world, |open|))
       == Progress(t, filled, end)
  }

  /** What is left of a pass, after so many fills. */
  ghost predicate Continues(whole: Progress, filled: nat, s: Shelf, p: Pass, gaps: seq<Gap>, answers: seq<Answer>)
    requires |answers| == |gaps| && Listed(s, gaps)
  {
    var rest := PatchAll(s, p, gaps, answers);
    whole == Progress(rest.shelf, filled + rest.filled, rest.end)
  }

  // ----- what the store refuses -----

  /** A hole is filed behind a recording that had ended before the broadcast's own start, which a
      better source can put after recordings of it. */
  predicate OpensTooEarly(b: Broadcast, held: seq<Recording>, i: nat)
    requires i <= |held|
  {
    Filed(b, held, i) && Opening(b, held, i).value < b.startedAt
  }

  /** A recording that falls short, with less than a millisecond of it inside the broadcast. */
  predicate Sliver(b: Broadcast, r: Recording) {
    FallsShort(r) && 0 < r.endedAt.value - b.startedAt < MILLISECOND
  }

  /** The store refuses a boundary hole exactly when it opens before the broadcast does. */
  lemma FiledIsStorable(b: Broadcast, held: seq<Recording>, i: nat)
    requires i <= |held| && Filed(b, held, i)
    ensures Storable(FiledSpan(b, held, i)) <==> !OpensTooEarly(b, held, i)
  {}

  /** And a shortfall exactly when it is a sliver. */
  lemma ShortfallIsStorable(b: Broadcast, r: Recording)
    requires FallsShort(r) && b.startedAt < r.endedAt.value
    ensures Storable(Within(b, r)) <==> !Sliver(b, r)
  {}

  lemma {:induction false} BoundaryOrShort(spans: seq<Span>, s: Span)
    ensures s in spans <==> s in Boundaries(spans) || (s.reason == ShortMedia && s in spans)
    ensures s in Boundaries(spans) ==> s.reason != ShortMedia
    decreases |spans|
  {
    if spans != [] {
      BoundaryOrShort(spans[1..], s);
      assert spans == [spans[0]] + spans[1..];
    }
  }

  /** What is found is the filed stretches and the shortfalls. */
  lemma FoundIsFiledOrShort(b: Broadcast, held: seq<Recording>, s: Span)
    requires held != []
    ensures s in SpansOf(b, held) <==> s in FiledBefore(b, held, |held| + 1) || s in Shortfalls(b, held)
  {
    BoundariesAreFiled(b, held);
    BoundaryOrShort(SpansOf(b, held), s);
    ShortfallsAreShort(b, held);
    ReconnectsAreFiled(b, held, |held|);
  }

  /** Some recording that holds bytes ended before the broadcast's own start with a hole filed behind
      it, or falls short and ended less than a millisecond after it. */
  ghost predicate SomeRefused(b: Broadcast, held: seq<Recording>) {
    held != [] && ((exists i :: 0 <= i <= |held| && OpensTooEarly(b, held, i)) || exists r :: r in held && Sliver(b, r))
  }

  /** Detection fails, and with it every pass over the broadcast, exactly where some hole is refused. */
  lemma RefusedExactly(rows: seq<Recording>, b: Broadcast)
    ensures !AllStorable(SpansFor(rows, b)) <==> SomeRefused(b, HeldOf(rows, b.id))
  {
    var held, spans := HeldOf(rows, b.id), SpansFor(rows, b);
    if held == [] { return; }
    if AllStorable(spans) {
      forall i | 0 <= i <= |held| ensures !OpensTooEarly(b, held, i) {
        if Filed(b, held, i) {
          FiledIsThere(b, held, |held| + 1, i);
          FoundIsFiledOrShort(b, held, FiledSpan(b, held, i));
          FiledIsStorable(b, held, i);
        }
      }
      forall r | r in held ensures !Sliver(b, r) {
        if Sliver(b, r) {
          ShortfallsAreExactly(b, held, Within(b, r));
          FoundIsFiledOrShort(b, held, Within(b, r));
          ShortfallIsStorable(b, r);
        }
      }
    }
    if !SomeRefused(b, held) {
      forall k | 0 <= k < |spans| ensures Storable(spans[k]) {
        FoundIsFiledOrShort(b, held, spans[k]);
        if spans[k] in FiledBefore(b, held, |held| + 1) {
          var i := FiledComesFrom(b, held, |held| + 1, spans[k]);
          FiledIsStorable(b, held, i);
        } else {
          ShortfallsAreExactly(b, held, spans[k]);
          var r :| r in held && FallsShort(r) && b.startedAt < r.endedAt.value && spans[k] == Within(b, r);
          ShortfallIsStorable(b, r);
        }
      }
    }
  }

  /** A recording that ended before the broadcast's own start, and one that reconnected inside it. */
  function Early(): seq<Recording> {
    [Recording(0, Some(1), Shelved("early"), Complete, true, -HOUR, Some(-MINUTE), HOUR - MINUTE),
     Recording(1, Some(1), Shelved("late"), Complete, true, HOUR, Some(2 * HOUR), HOUR)]
  }

  const BROADCAST := Broadcast(1, 0, Some(4 * HOUR), Some(0), [], "address")

  lemma TwoHeld(a: Recording, b: Recording, id: int)
    requires a.broadcast == b.broadcast == Some(id) && HoldsBytes(a.state) && HoldsBytes(b.state)
    requires a.startedAt <= b.startedAt
    ensures HeldOf([a, b], id) == [a, b]
  {
    var rows := [a, b];
    assert rows[..1] == [a] && [a][..0] == [];
    assert OfBroadcast([a], id) == [a] && Holding([a]) == [a] && SortBy([a], PatchPass.StartOf) == [a];
    assert OfBroadcast(rows, id) == rows && Holding(rows) == rows && SortBy(rows, PatchPass.StartOf) == rows;
  }

  /** Two recordings whose media was kept whole, the first starting no later than the broadcast, leave
      the hole between them and the one after them. */
  lemma TwoSpans(b: Broadcast, x: Recording, y: Recording)
    requires x.startedAt <= b.startedAt && !FallsShort(x) && !FallsShort(y)
    requires Breaks([x, y], 1) && Filed(b, [x, y], 2)
    ensures SpansOf(b, [x, y]) == [Between(b, [x, y], 1), FiledSpan(b, [x, y], 2)]
  {
    var held := [x, y];
    assert held[..1] == [x] && [x][..0] == [];
    ShortfallIs(b, x);
    ShortfallIs(b, y);
    assert Shortfalls(b, []) == [] && Shortfalls(b, [x]) == [];
    assert Shortfalls(b, held) == Shortfalls(b, held[..1]) + Shortfall(b, y);
    assert Reconnects(b, held, 1) == [] && Reconnects(b, held, 2) == [Between(b, held, 1)];
  }

  lemma EarlySpans()
    ensures HeldOf(Early(), 1) == Early()
    ensures SpansFor(Early(), BROADCAST) == [Span(-MINUTE, HOUR, Reconnect), Span(2 * HOUR, 4 * HOUR, EarlyStop)]
  {
    var rows := Early();
    TwoHeld(rows[0], rows[1], 1);
    TwoSpans(BROADCAST, rows[0], rows[1]);
  }

  /** The store takes the second hole and not the first. */
  lemma EarlyFiles(spans: seq<Span>)
    requires spans == [Span(-MINUTE, HOUR, Reconnect), Span(2 * HOUR, 4 * HOUR, EarlyStop)]
    ensures !AllStorable(spans) && FileAll([], 0, spans) == [Gap(0, 0, 2 * HOUR, 4 * HOUR, EarlyStop, false, 0)]
  {
    assert !Storable(spans[0]) && Storable(spans[1]);
    assert spans[..1] == [spans[0]] && spans[..1][..0] == [];
    assert FileAll([], 0, spans[..1]) == [];
    assert GapFor([], 0, spans[1]).None?;
  }

  lemma OneOpenHole(s: Shelf, b: Broadcast, limit: nat, g: Gap, r: Recording)
    requires g in s.gaps && Open(g, limit) && r in s.rows && r.id == g.recording && r.broadcast == Some(b.id)
    ensures g in Patchable(s, b, limit)
  {
    PatchableHolds(s, b, limit, g);
  }

  /** The reconnect it files is refused, so that however many passes are made over the broadcast, the
      early stop behind the other recording is worth attempting and is never attempted. */
  lemma EarlyEndStopsEveryPass(s: Shelf, events: seq<Event>, t: Shelf)
    requires s == Shelf([], Early(), {}, []) && Kept(s) && Run(s, events, t)
    requires events != [] && PassesOver(events, BROADCAST)
    ensures SomeRefused(BROADCAST, HeldOf(s.rows, BROADCAST.id))
    ensures exists g :: g in Patchable(t, BROADCAST, 5) && g.reason == EarlyStop && g.attempts == 0
  {
    EarlySpans();
    RefusedExactly(s.rows, BROADCAST);
    EarlyFiles(SpansFor(s.rows, BROADCAST));
    RefusedIsNeverPatched(s, events, t, BROADCAST);
    var g := Gap(0, 0, 2 * HOUR, 4 * HOUR, EarlyStop, false, 0);
    OneOpenHole(t, BROADCAST, 5, g, s.rows[0]);
  }
}
