/** One hole at a time: where it lies in the stored copy, what is downloaded for it, and what makes it
    count as filled. */
module Patch {
  import opened Basics
  import opened Library
  import opened Holes

  const MILLISECOND: Duration := 1_000_000

  // ----- the rows -----

  /** A filed hole. A row's id is its place, so rows keep the order they were added in. */
  datatype Gap = Gap(id: nat, recording: nat, start: Duration, end: Duration,
               reason: Reason, filled: bool, attempts: nat)

  /** What a hole was marked filled behind: the row, the file it named, the address that file was
      downloaded from in which pass, what it measured, and what was heard in it. */
  datatype Fill = Fill(gap: nat, row: nat, path: Path, pass: Pass, source: string, measured: Duration,
                       sounds: Mute -> Sound)

  /** The store, the incoming directory, and the history the proofs speak of. */
  datatype Shelf = Shelf(gaps: seq<Gap>, rows: seq<Recording>, files: set<Path>, fills: seq<Fill>)

  /** Rows keep their places, holes belong to rows, a released row is part of no broadcast, and a file
      still incoming is named for the second its recording starts. */
  predicate Kept(s: Shelf) {
    && (forall i :: 0 <= i < |s.gaps| ==> s.gaps[i].id == i && s.gaps[i].recording < |s.rows|)
    && (forall i :: 0 <= i < |s.rows| ==> s.rows[i].id == i)
    && (forall i :: 0 <= i < |s.rows| && s.rows[i].path.Gone? ==> s.rows[i].broadcast.None?)
    && (forall i :: 0 <= i < |s.rows| && s.rows[i].path.Incoming? ==>
         s.rows[i].path.second == s.rows[i].startedAt / SECOND)
  }

  function RowAt(rows: seq<Recording>, path: Path): (i: Option<nat>)
    ensures i.Some? ==> i.value < |rows| && rows[i.value].path == path
  {
    if rows == [] then None
    else if rows[|rows| - 1].path == path then Some(|rows| - 1)
    else RowAt(rows[..|rows| - 1], path)
  }

  function Whole(d: Duration): Duration { d / MILLISECOND * MILLISECOND }

  /** The store files no hole that opens before the broadcast, or that rounds away to nothing. */
  predicate Storable(span: Span) { span.start >= 0 && Whole(span.start) < Whole(span.end) }

  predicate SameHole(g: Gap, recording: nat, span: Span) {
    g.recording == recording && g.start == Whole(span.start) && g.end == Whole(span.end)
  }

  function GapFor(gaps: seq<Gap>, recording: nat, span: Span): (i: Option<nat>)
    ensures i.Some? ==> i.value < |gaps| && SameHole(gaps[i.value], recording, span)
    ensures i.None? ==> forall k :: 0 <= k < |gaps| ==> !SameHole(gaps[k], recording, span)
  {
    if gaps == [] then None
    else if SameHole(gaps[|gaps| - 1], recording, span) then Some(|gaps| - 1)
    else GapFor(gaps[..|gaps| - 1], recording, span)
  }

  /** AddGap: the row a hole already has, or a new one. */
  function Added(gaps: seq<Gap>, recording: nat, span: Span): seq<Gap> {
    if !Storable(span) || GapFor(gaps, recording, span).Some? then gaps
    else gaps + [Gap(|gaps|, recording, Whole(span.start), Whole(span.end), span.reason, false, 0)]
  }

  // ----- where a hole lies in the stored copy -----

  datatype Range = Range(start: Duration, end: Duration)

  /** vodRange: nothing where the copy's own start is unknown, or the hole closes before it begins. */
  function VodRange(b: Broadcast, g: Gap): Option<Range> {
    if b.vodStartedAt.None? then None
    else
      var start, end := b.startedAt + g.start - b.vodStartedAt.value, b.startedAt + g.end - b.vodStartedAt.value;
      if end <= 0 then None else Some(Range(Max(start, 0), end))
  }

  predicate Silences(m: Mute, r: Range) { m.offset < r.end && r.start < m.offset + m.length }

  predicate AnySilences(muted: seq<Mute>, r: Range) {
    exists i :: 0 <= i < |muted| && Silences(muted[i], r)
  }

  /** mutedWithin's loop. */
  method MutedWithin(muted: seq<Mute>, r: Range) returns (silenced: bool)
    ensures silenced == AnySilences(muted, r)
  {
    for i := 0 to |muted|
      invariant forall j :: 0 <= j < i ==> !Silences(muted[j], r)
    {
      if muted[i].offset < r.end && r.start < muted[i].offset + muted[i].length {
        return true;
      }
    }
    return false;
  }

  /** silenced: the same question, asked before a patch starts. */
  predicate Silenced(b: Broadcast, g: Gap) {
    VodRange(b, g).Some? && AnySilences(b.muted, VodRange(b, g).value)
  }

  // ----- in wall-clock time -----

  /** The stored copy begins at a known instant, before the hole is over. */
  predicate Reaches(b: Broadcast, g: Gap) {
    b.vodStartedAt.Some? && b.vodStartedAt.value < b.startedAt + g.end
  }

  /** Where what can be had of the hole opens: where it opens itself, or the stored copy begins. */
  function HoleOpens(b: Broadcast, g: Gap): Instant
    requires b.vodStartedAt.Some?
  {
    Max(b.startedAt + g.start, b.vodStartedAt.value)
  }

  /** A mute that lies over some of what can be had of the hole. */
  predicate LiesOver(b: Broadcast, g: Gap, m: Mute)
    requires b.vodStartedAt.Some?
  {
    var from := b.vodStartedAt.value + m.offset;
    from < b.startedAt + g.end && HoleOpens(b, g) < from + m.length
  }

  predicate OverMutes(b: Broadcast, g: Gap) {
    Reaches(b, g) && exists i :: 0 <= i < |b.muted| && LiesOver(b, g, b.muted[i])
  }

  /** How much of a mute is in a file that holds so much from where the hole opens. */
  function MuteIn(b: Broadcast, g: Gap, m: Mute, held: Duration): Duration
    requires b.vodStartedAt.Some?
  {
    var from := b.vodStartedAt.value + m.offset;
    Min(from + m.length, HoleOpens(b, g) + held) - Max(from, HoleOpens(b, g))
  }

  /** An offset of the stored copy is asked for exactly where the instant it holds is one of the hole. */
  lemma RangeIsTheHole(b: Broadcast, g: Gap, offset: Duration)
    ensures VodRange(b, g).Some? <==> Reaches(b, g)
    ensures VodRange(b, g).Some? ==>
      (VodRange(b, g).value.start <= offset < VodRange(b, g).value.end <==>
        0 <= offset && b.startedAt + g.start <= b.vodStartedAt.value + offset < b.startedAt + g.end)
  {}

  lemma SilencedIsOverMutes(b: Broadcast, g: Gap)
    ensures Silenced(b, g) <==> OverMutes(b, g)
  {
    if VodRange(b, g).Some? {
      var r := VodRange(b, g).value;
      assert forall i :: 0 <= i < |b.muted| ==> (Silences(b.muted[i], r) <==> LiesOver(b, g, b.muted[i]));
    }
  }

  /** The hole and the mute have an instant of the stored copy in common. */
  ghost predicate SharesInstant(b: Broadcast, g: Gap, m: Mute) {
    b.vodStartedAt.Some? && exists offset: Duration :: IsShared(b, g, m, offset)
  }

  predicate IsShared(b: Broadcast, g: Gap, m: Mute, offset: Duration)
    requires b.vodStartedAt.Some?
  {
    && 0 <= offset && m.offset <= offset < m.offset + m.length
    && b.startedAt + g.start <= b.vodStartedAt.value + offset < b.startedAt + g.end
  }

  /** A hole that shares an instant with a mute is muted; and where neither is empty, only such a one. */
  lemma OverMutesIsSharing(b: Broadcast, g: Gap)
    ensures (exists m :: m in b.muted && SharesInstant(b, g, m)) ==> OverMutes(b, g)
    ensures OverMutes(b, g) && g.start < g.end && (forall m :: m in b.muted ==> m.length > 0) ==>
      exists m :: m in b.muted && SharesInstant(b, g, m)
  {
    if m :| m in b.muted && SharesInstant(b, g, m) {
      var offset :| IsShared(b, g, m, offset);
      var i :| 0 <= i < |b.muted| && b.muted[i] == m;
      assert LiesOver(b, g, b.muted[i]);
    }
    if OverMutes(b, g) && g.start < g.end && forall m :: m in b.muted ==> m.length > 0 {
      var i :| 0 <= i < |b.muted| && LiesOver(b, g, b.muted[i]);
      var m := b.muted[i];
      assert m in b.muted;
      var offset := Max(m.offset, HoleOpens(b, g) - b.vodStartedAt.value);
      assert IsShared(b, g, m, offset);
    }
  }

  // ----- what a patch is told -----

  datatype Downloaded = Refused(terminal: bool) | Elsewhere | Produced(ext: string)

  datatype Sound = Silent | Audible | Unheard

  /** Everything outside a patch's control: the context before and after it, room on the volume, what
      the tool brings back from an address, what the probe reads, and which writes fail. */
  datatype Answer = Answer(cancelled: bool, room: bool, download: string -> Downloaded, measured: Option<Duration>,
                           sounds: Mute -> Sound, removes: bool, creates: bool, finalizes: bool, marks: bool,
                           interrupted: bool, charges: bool)

  /** One pass over one broadcast. Looking up its audio gave `recovered`, an address that still has the
      original or nothing, and `answered`. */
  datatype Pass = Pass(broadcast: Broadcast, prefix: string, recovered: string, answered: bool, limit: nat)

  datatype Cause =
    | OutOfRange | Muted | ToolRefused(terminal: bool) | NotOurs | Unmeasured | TooShort | StillSilent
    | NotCreated | NotFinalized | NotMarked

  /** A refusal no later pass changes. */
  predicate Terminal(c: Cause) { c.Muted? || (c.ToolRefused? && c.terminal) }

  const MIN_MEASURABLE: Duration := 3 * SECOND

  function ShortfallAllowed(wanted: Duration): Duration
    requires wanted >= 0
  {
    Max(wanted / 10, 5 * SECOND)
  }

  /** The least a whole patch of a hole measures. */
  function Shortest(g: Gap): Duration {
    (g.end - g.start) - ShortfallAllowed(Max(g.end - g.start, 0))
  }

  /** How much of a mute the file that was brought back holds. */
  predicate Measurable(m: Mute, from: Duration, held: Duration) {
    Min(m.offset - from + m.length, held) - Max(m.offset - from, 0) >= MIN_MEASURABLE
  }

  /** What listening to the stretches that were silenced gives: the first that is not heard. */
  function Listen(muted: seq<Mute>, from: Duration, held: Duration, sounds: Mute -> Sound): Sound {
    if muted == [] then Audible
    else if Measurable(muted[0], from, held) && sounds(muted[0]) != Audible then sounds(muted[0])
    else Listen(muted[1..], from, held, sounds)
  }

  /** Every silenced stretch the file holds enough of to measure is heard in it. */
  predicate AllHeard(muted: seq<Mute>, from: Duration, held: Duration, sounds: Mute -> Sound) {
    forall i :: 0 <= i < |muted| && Measurable(muted[i], from, held) ==> sounds(muted[i]) == Audible
  }

  /** The verdict is audible exactly when every measurable stretch is, and is otherwise that of the
      first that is not. */
  lemma {:induction false} ListenHears(muted: seq<Mute>, from: Duration, held: Duration, sounds: Mute -> Sound)
    ensures Listen(muted, from, held, sounds) == Audible <==> AllHeard(muted, from, held, sounds)
    ensures !AllHeard(muted, from, held, sounds) ==>
      exists i :: 0 <= i < |muted| && Measurable(muted[i], from, held)
        && sounds(muted[i]) == Listen(muted, from, held, sounds) && AllHeard(muted[..i], from, held, sounds)
  {
    if muted != [] {
      ListenHears(muted[1..], from, held, sounds);
      assert forall i :: 0 <= i < |muted[1..]| ==> muted[1..][i] == muted[i + 1];
      if Measurable(muted[0], from, held) && sounds(muted[0]) != Audible {
        assert AllHeard(muted[..0], from, held, sounds);
      } else if !AllHeard(muted[1..], from, held, sounds) {
        var i :| 0 <= i < |muted[1..]| && Measurable(muted[1..][i], from, held)
          && sounds(muted[1..][i]) == Listen(muted[1..], from, held, sounds)
          && AllHeard(muted[1..][..i], from, held, sounds);
        assert muted[i + 1] == muted[1..][i] && muted[..i + 1] == [muted[0]] + muted[1..][..i];
      }
    }
  }

  /** requireAudible's loop. */
  method RequireAudible(muted: seq<Mute>, from: Duration, held: Duration, sounds: Mute -> Sound) returns (heard: Sound)
    ensures heard == Listen(muted, from, held, sounds)
    ensures heard == Audible <==> AllHeard(muted, from, held, sounds)
  {
    ListenHears(muted, from, held, sounds);
    assert muted[0..] == muted;
    for i := 0 to |muted|
      invariant Listen(muted, from, held, sounds) == Listen(muted[i..], from, held, sounds)
    {
      assert muted[i..][1..] == muted[i + 1..];
      var start, end := Max(muted[i].offset - from, 0), Min(muted[i].offset - from + muted[i].length, held);
      if end - start < MIN_MEASURABLE {
        continue;
      }
      var sound := sounds(muted[i]);
      if sound != Audible {
        return sound;
      }
    }
    return Audible;
  }

  // ----- one hole -----

  function StemOf(p: Pass, g: Gap, ext: string): Path {
    Incoming(p.prefix, (p.broadcast.startedAt + g.start) / SECOND, ext)
  }

  function PatchRow(p: Pass, g: Gap, id: nat, path: Path): Recording {
    Recording(id, Some(p.broadcast.id), path, AwaitingFinalize, false, p.broadcast.startedAt + g.start, None, 0)
  }

  function Discarded(s: Shelf, path: Path, a: Answer): Shelf {
    if a.removes then s.(files := s.files - {path}) else s
  }

  /** The measured and audible download filed, and the hole marked behind it. */
  function FileFill(s: Shelf, p: Pass, g: Gap, a: Answer, path: Path, source: string,
                    measured: Duration): (Shelf, Option<Cause>)
    requires g.id < |s.gaps|
  {
    if !a.creates then (s, Some(NotCreated))
    else
      var known := RowAt(s.rows, path);
      var row := if known.Some? then known.value else |s.rows|;
      var s' := if known.Some? then s else s.(rows := s.rows + [PatchRow(p, g, row, path)]);
      if known.None? && !a.finalizes then (s', Some(NotFinalized))
      else if !a.marks then (s', Some(NotMarked))
      else (s'.(gaps := s.gaps[g.id := s.gaps[g.id].(filled := true)],
                fills := s.fills + [Fill(g.id, row, path, p, source, measured, a.sounds)]), None)
  }

  /** What comes of a download the tool wrote. */
  function Judge(s: Shelf, p: Pass, g: Gap, a: Answer, path: Path, r: Range, source: string,
                 recoveredAudio: bool): (Shelf, Option<Cause>)
    requires g.id < |s.gaps|
  {
    if a.measured.None? then (s, Some(Unmeasured))
    else if a.measured.value < Shortest(g) then (Discarded(s, path, a), Some(TooShort))
    else if recoveredAudio && Listen(p.broadcast.muted, r.start, a.measured.value, a.sounds) == Unheard then
      (s, Some(Unmeasured))
    else if recoveredAudio && Listen(p.broadcast.muted, r.start, a.measured.value, a.sounds) == Silent then
      (Discarded(s, path, a), Some(StillSilent))
    else FileFill(s, p, g, a, path, source, a.measured.value)
  }

  /** Where a range is downloaded from: the stored copy, or the address that kept what it silenced. */
  function SourceFor(p: Pass, r: Range): string {
    if AnySilences(p.broadcast.muted, r) then p.recovered else p.broadcast.url
  }

  /** patch: one hole fetched and filed as a recording of its own, or why it was not. */
  function Patched(s: Shelf, p: Pass, g: Gap, a: Answer): (Shelf, Option<Cause>)
    requires g.id < |s.gaps|
  {
    var r := VodRange(p.broadcast, g);
    if r.None? then (s, Some(OutOfRange))
    else if AnySilences(p.broadcast.muted, r.value) && p.recovered == "" then (s, Some(Muted))
    else match a.download(SourceFor(p, r.value))
      case Refused(terminal) => (s, Some(ToolRefused(terminal)))
      case Elsewhere => (s, Some(NotOurs))
      case Produced(ext) =>
        var path := StemOf(p, g, ext);
        Judge(s.(files := s.files + {path}), p, g, a, path, r.value, SourceFor(p, r.value),
              AnySilences(p.broadcast.muted, r.value))
  }

  /** ChargeGap. */
  function Charged(s: Shelf, id: nat, limit: nat, terminal: bool): Shelf
    requires id < |s.gaps|
  {
    s.(gaps := s.gaps[id := s.gaps[id].(attempts := if terminal then limit else s.gaps[id].attempts + 1)])
  }

  // ----- a broadcast's holes -----

  datatype End = Finished | Cancelled | NoRoom | StoreFailed

  datatype Progress = Progress(shelf: Shelf, filled: nat, end: End)

  ghost predicate Listed(s: Shelf, gaps: seq<Gap>) {
    forall i :: 0 <= i < |gaps| ==> gaps[i].id < |s.gaps|
  }

  /** What one turn of the loop does with a hole: where it ends the pass, the end. */
  function Turn(s: Shelf, p: Pass, g: Gap, a: Answer): (r: (Shelf, nat, Option<End>))
    requires g.id < |s.gaps|
    ensures |r.0.gaps| == |s.gaps|
  {
    if a.cancelled then (s, 0, Some(Cancelled))
    else if !p.answered && Silenced(p.broadcast, g) then (s, 0, None)
    else if !a.room then (s, 0, Some(NoRoom))
    else
      var tried := Patched(s, p, g, a);
      if tried.1.None? then (tried.0, 1, None)
      else if a.interrupted then (tried.0, 0, Some(Cancelled))
      else if !a.charges then (tried.0, 0, Some(StoreFailed))
      else (Charged(tried.0, g.id, p.limit, Terminal(tried.1.value)), 0, None)
  }

  ghost function PatchAll(s: Shelf, p: Pass, gaps: seq<Gap>, answers: seq<Answer>): Progress
    requires |answers| == |gaps| && Listed(s, gaps)
    decreases |gaps|
  {
    if gaps == [] then Progress(s, 0, Finished)
    else
      var turn := Turn(s, p, gaps[0], answers[0]);
      if turn.2.Some? then Progress(turn.0, turn.1, turn.2.value)
      else
        assert Listed(turn.0, gaps[1..]);
        var rest := PatchAll(turn.0, p, gaps[1..], answers[1..]);
        Progress(rest.shelf, turn.1 + rest.filled, rest.end)
  }

  // ----- what every step keeps -----

  /** Every silenced stretch the file holds three seconds or more of is heard in it. */
  predicate StretchesHeard(b: Broadcast, g: Gap, measured: Duration, sounds: Mute -> Sound)
    requires b.vodStartedAt.Some?
  {
    forall i :: 0 <= i < |b.muted| && MuteIn(b, g, b.muted[i], measured) >= 3 * SECOND ==> sounds(b.muted[i]) == Audible
  }

  /** A range the platform had silenced any of was downloaded from the address that kept it, never from
      the stored copy, and every silenced stretch the file holds was heard in it. */
  predicate WellSourced(p: Pass, g: Gap, source: string, measured: Duration, sounds: Mute -> Sound) {
    var b := p.broadcast;
    && Reaches(b, g)
    && if OverMutes(b, g) then
         source == p.recovered && source != "" && StretchesHeard(b, g, measured, sounds)
       else source == b.url
  }

  lemma HeardIsHeard(b: Broadcast, g: Gap, measured: Duration, sounds: Mute -> Sound)
    requires VodRange(b, g).Some?
    ensures AllHeard(b.muted, VodRange(b, g).value.start, measured, sounds) <==> StretchesHeard(b, g, measured, sounds)
  {
    var r := VodRange(b, g).value;
    assert forall i :: 0 <= i < |b.muted| ==>
      (Measurable(b.muted[i], r.start, measured) <==> MuteIn(b, g, b.muted[i], measured) >= 3 * SECOND);
  }

  /** A hole's length, less the larger of a tenth of it and five seconds. */
  function WholeEnough(g: Gap): Duration {
    (g.end - g.start) - Max(Max(g.end - g.start, 0) / 10, 5 * SECOND)
  }

  /** A fill that vouches for a hole: a recording of the hole's own second, there or released since,
      whose file measured at least the shortest a whole patch does, downloaded from where it should have been. */
  predicate Vouches(s: Shelf, g: Gap, f: Fill) {
    && f.gap == g.id && f.row < |s.rows|
    && s.rows[f.row].startedAt / SECOND == (f.pass.broadcast.startedAt + g.start) / SECOND
    && (s.rows[f.row].path == f.path || !s.rows[f.row].path.Incoming?)
    && f.path.Incoming? && f.path.second == (f.pass.broadcast.startedAt + g.start) / SECOND
    && f.measured >= WholeEnough(g)
    && WellSourced(f.pass, g, f.source, f.measured, f.sounds)
  }

  /** A hole that shares an instant with a stretch the platform silenced is not filled from the stored
      copy, but from the address that kept the sound. */
  lemma NotFromTheSilencedCopy(s: Shelf, g: Gap, f: Fill, m: Mute)
    requires Vouches(s, g, f) && m in f.pass.broadcast.muted && SharesInstant(f.pass.broadcast, g, m)
    ensures f.source == f.pass.recovered && f.pass.recovered != ""
  {
    OverMutesIsSharing(f.pass.broadcast, g);
  }

  ghost predicate Backed(s: Shelf) {
    forall i :: 0 <= i < |s.gaps| && s.gaps[i].filled ==>
      exists k :: 0 <= k < |s.fills| && Vouches(s, s.gaps[i], s.fills[k])
  }

  predicate SameRow(r: Recording, t: Recording) {
    && t.id == r.id && t.startedAt == r.startedAt
    && (if r.path.Gone? then t == r else t.path == r.path || !t.path.Incoming?)
  }

  predicate SameGap(g: Gap, t: Gap) {
    t == g.(filled := t.filled, attempts := t.attempts) && (g.filled ==> t.filled)
  }

  /** Nothing is forgotten: rows, holes and fills stay where they were, and a filled hole stays filled. */
  ghost predicate Extends(s: Shelf, t: Shelf) {
    && |s.gaps| <= |t.gaps| && |s.rows| <= |t.rows| && s.fills <= t.fills
    && (forall i :: 0 <= i < |s.gaps| ==> SameGap(s.gaps[i], t.gaps[i]))
    && (forall i :: 0 <= i < |s.rows| ==> SameRow(s.rows[i], t.rows[i]))
  }

  lemma VouchesStill(s: Shelf, t: Shelf, i: nat, k: nat)
    requires Extends(s, t) && i < |s.gaps| && k < |s.fills| && Vouches(s, s.gaps[i], s.fills[k])
    ensures k < |t.fills| && Vouches(t, t.gaps[i], t.fills[k])
  {
    assert SameGap(s.gaps[i], t.gaps[i]) && SameRow(s.rows[s.fills[k].row], t.rows[s.fills[k].row]);
  }

  /** A step that marks no hole, or one and vouches for it, keeps every filled hole backed. */
  lemma StaysBacked(s: Shelf, t: Shelf)
    requires Backed(s) && Extends(s, t)
    requires forall i :: 0 <= i < |t.gaps| && t.gaps[i].filled && (i >= |s.gaps| || !s.gaps[i].filled) ==>
      exists k :: 0 <= k < |t.fills| && Vouches(t, t.gaps[i], t.fills[k])
    ensures Backed(t)
  {
    forall i | 0 <= i < |t.gaps| && t.gaps[i].filled
      ensures exists k :: 0 <= k < |t.fills| && Vouches(t, t.gaps[i], t.fills[k])
    {
      if i < |s.gaps| && s.gaps[i].filled {
        var k :| 0 <= k < |s.fills| && Vouches(s, s.gaps[i], s.fills[k]);
        VouchesStill(s, t, i, k);
      }
    }
  }

  lemma ExtendsOn(s: Shelf, t: Shelf, u: Shelf)
    requires Extends(s, t) && Extends(t, u)
    ensures Extends(s, u)
  {
    forall i | 0 <= i < |s.gaps| ensures SameGap(s.gaps[i], u.gaps[i]) {
      assert SameGap(s.gaps[i], t.gaps[i]) && SameGap(t.gaps[i], u.gaps[i]);
    }
    forall i | 0 <= i < |s.rows| ensures SameRow(s.rows[i], u.rows[i]) {
      assert SameRow(s.rows[i], t.rows[i]) && SameRow(t.rows[i], u.rows[i]);
    }
  }

  /** What the loop's list and the rows agree on: a listed hole is the row of its id. */
  predicate Matches(s: Shelf, g: Gap) {
    g.id < |s.gaps| && s.gaps[g.id].start == g.start && s.gaps[g.id].end == g.end && s.gaps[g.id].id == g.id
  }

  lemma FileFillExtends(s: Shelf, p: Pass, g: Gap, a: Answer, path: Path, source: string, measured: Duration)
    requires Matches(s, g)
    ensures Extends(s, FileFill(s, p, g, a, path, source, measured).0)
  {}

  lemma FileFillKeeps(s: Shelf, p: Pass, g: Gap, a: Answer, ext: string, source: string, measured: Duration)
    requires Kept(s) && Backed(s) && Matches(s, g)
    requires measured >= WholeEnough(g) && WellSourced(p, g, source, measured, a.sounds)
    ensures var t := FileFill(s, p, g, a, StemOf(p, g, ext), source, measured).0;
      Kept(t) && Backed(t) && Extends(s, t)
  {
    var t := FileFill(s, p, g, a, StemOf(p, g, ext), source, measured).0;
    FileFillExtends(s, p, g, a, StemOf(p, g, ext), source, measured);
    if |t.fills| > |s.fills| {
      assert Vouches(t, t.gaps[g.id], t.fills[|s.fills|]);
    }
    StaysBacked(s, t);
  }

  lemma FilesAside(s: Shelf, files: set<Path>)
    requires Kept(s) && Backed(s)
    ensures Kept(s.(files := files)) && Backed(s.(files := files)) && Extends(s, s.(files := files))
  {
    StaysBacked(s, s.(files := files));
  }

  lemma PatchedKeeps(s: Shelf, p: Pass, g: Gap, a: Answer)
    requires Kept(s) && Backed(s) && Matches(s, g)
    ensures var t := Patched(s, p, g, a).0; Kept(t) && Backed(t) && Extends(s, t)
  {
    var r := VodRange(p.broadcast, g);
    if r.None? || (Silenced(p.broadcast, g) && p.recovered == "") {
      StaysBacked(s, s);
      return;
    }
    var source := SourceFor(p, r.value);
    if a.download(source).Produced? {
      var path := StemOf(p, g, a.download(source).ext);
      var with := s.(files := s.files + {path});
      FilesAside(s, s.files + {path});
      JudgeKeeps(with, p, g, a, a.download(source).ext);
      ExtendsOn(s, with, Judge(with, p, g, a, path, r.value, source, Silenced(p.broadcast, g)).0);
    } else {
      StaysBacked(s, s);
    }
  }

  lemma JudgeKeeps(s: Shelf, p: Pass, g: Gap, a: Answer, ext: string)
    requires Kept(s) && Backed(s) && Matches(s, g) && VodRange(p.broadcast, g).Some?
    requires Silenced(p.broadcast, g) ==> p.recovered != ""
    ensures var r := VodRange(p.broadcast, g).value;
      var t := Judge(s, p, g, a, StemOf(p, g, ext), r, SourceFor(p, r), Silenced(p.broadcast, g)).0;
      Kept(t) && Backed(t) && Extends(s, t)
  {
    var r := VodRange(p.broadcast, g).value;
    StaysBacked(s, s);
    RangeIsTheHole(p.broadcast, g, 0);
    SilencedIsOverMutes(p.broadcast, g);
    FilesAside(s, s.files - {StemOf(p, g, ext)});
    if a.measured.Some? && a.measured.value >= Shortest(g) {
      ListenHears(p.broadcast.muted, r.start, a.measured.value, a.sounds);
      if !Silenced(p.broadcast, g) || Listen(p.broadcast.muted, r.start, a.measured.value, a.sounds) == Audible {
        if Silenced(p.broadcast, g) { HeardIsHeard(p.broadcast, g, a.measured.value, a.sounds); }
        FileFillKeeps(s, p, g, a, ext, SourceFor(p, r), a.measured.value);
      }
    }
  }

  lemma ChargedKeeps(s: Shelf, id: nat, limit: nat, terminal: bool)
    requires Kept(s) && Backed(s) && id < |s.gaps|
    ensures Kept(Charged(s, id, limit, terminal)) && Backed(Charged(s, id, limit, terminal))
    ensures Extends(s, Charged(s, id, limit, terminal))
  {
    var t := Charged(s, id, limit, terminal);
    assert Extends(s, t);
    StaysBacked(s, t);
  }

  lemma TurnKeeps(s: Shelf, p: Pass, g: Gap, a: Answer)
    requires Kept(s) && Backed(s) && Matches(s, g)
    ensures var t := Turn(s, p, g, a).0; Kept(t) && Backed(t) && Extends(s, t)
  {
    PatchedKeeps(s, p, g, a);
    var tried := Patched(s, p, g, a);
    if tried.1.Some? {
      ChargedKeeps(tried.0, g.id, p.limit, Terminal(tried.1.value));
      ExtendsOn(s, tried.0, Charged(tried.0, g.id, p.limit, Terminal(tried.1.value)));
    }
  }

  ghost predicate AllMatch(s: Shelf, gaps: seq<Gap>) {
    forall i :: 0 <= i < |gaps| ==> Matches(s, gaps[i])
  }

  lemma StillMatch(s: Shelf, t: Shelf, gaps: seq<Gap>)
    requires AllMatch(s, gaps) && Extends(s, t)
    ensures AllMatch(t, gaps) && Listed(t, gaps)
  {
    forall i | 0 <= i < |gaps| ensures Matches(t, gaps[i]) {
      assert Matches(s, gaps[i]) && SameGap(s.gaps[gaps[i].id], t.gaps[gaps[i].id]);
    }
  }

  lemma {:induction false} PatchAllKeeps(s: Shelf, p: Pass, gaps: seq<Gap>, answers: seq<Answer>)
    requires Kept(s) && Backed(s) && AllMatch(s, gaps) && Listed(s, gaps) && |answers| == |gaps|
    ensures var t := PatchAll(s, p, gaps, answers).shelf; Kept(t) && Backed(t) && Extends(s, t)
    decreases |gaps|
  {
    if gaps != [] {
      TurnKeeps(s, p, gaps[0], answers[0]);
      var t := Turn(s, p, gaps[0], answers[0]).0;
      StillMatch(s, t, gaps[1..]);
      PatchAllKeeps(t, p, gaps[1..], answers[1..]);
      if Turn(s, p, gaps[0], answers[0]).2.None? {
        ExtendsOn(s, t, PatchAll(t, p, gaps[1..], answers[1..]).shelf);
      }
    }
  }

  // ----- what spends an attempt -----

  /** An answer that can cost a hole an attempt: the pass was not cancelled before or during it, the
      volume had room, and nothing about its audio was left unanswered. */
  predicate Answered(p: Pass, g: Gap, a: Answer) {
    !a.cancelled && !a.interrupted && a.room && a.charges && (p.answered || !OverMutes(p.broadcast, g))
  }

  /** What it takes to fill a hole. */
  ghost predicate Suffices(s: Shelf, p: Pass, g: Gap, a: Answer) {
    var b, muted := p.broadcast, OverMutes(p.broadcast, g);
    var download := a.download(if muted then p.recovered else b.url);
    && Reaches(b, g) && (muted ==> p.recovered != "")
    && download.Produced? && a.measured.Some? && a.measured.value >= WholeEnough(g)
    && (muted ==> StretchesHeard(b, g, a.measured.value, a.sounds))
    && a.creates && a.marks && (a.finalizes || RowAt(s.rows, StemOf(p, g, download.ext)).Some?)
  }

  /** A hole no later attempt can do better with: muted with no address that kept the sound, or refused for
      good by the tool. */
  predicate Hopeless(p: Pass, g: Gap, a: Answer) {
    && Reaches(p.broadcast, g)
    && if OverMutes(p.broadcast, g) then p.recovered == "" || a.download(p.recovered) == Refused(true)
       else a.download(p.broadcast.url) == Refused(true)
  }

  /** An attempt fills its hole exactly where everything it takes is there; the cause it gives otherwise is
      one no later attempt can mend exactly where the hole is hopeless. */
  lemma FillsExactly(s: Shelf, p: Pass, g: Gap, a: Answer)
    requires g.id < |s.gaps|
    ensures Patched(s, p, g, a).1.None? <==> Suffices(s, p, g, a)
    ensures Patched(s, p, g, a).1.Some? ==> (Terminal(Patched(s, p, g, a).1.value) <==> Hopeless(p, g, a))
  {
    var r := VodRange(p.broadcast, g);
    RangeIsTheHole(p.broadcast, g, 0);
    SilencedIsOverMutes(p.broadcast, g);
    if r.Some? && a.measured.Some? {
      HeardIsHeard(p.broadcast, g, a.measured.value, a.sounds);
      ListenHears(p.broadcast.muted, r.value.start, a.measured.value, a.sounds);
    }
  }

  /** And exactly then is its row marked, and no other touched. */
  lemma FillIsMarked(s: Shelf, p: Pass, g: Gap, a: Answer)
    requires g.id < |s.gaps|
    ensures Patched(s, p, g, a).0.gaps ==
            s.gaps[g.id := s.gaps[g.id].(filled := s.gaps[g.id].filled || Suffices(s, p, g, a))]
  {
    FillsExactly(s, p, g, a);
  }

  /** What one turn costs a hole: nothing where it fills it or nothing was answered, every attempt it has
      left where it is hopeless, and one otherwise. */
  lemma TurnCostsExactly(s: Shelf, p: Pass, g: Gap, a: Answer)
    requires g.id < |s.gaps|
    ensures var n, n' := s.gaps[g.id].attempts, Turn(s, p, g, a).0.gaps[g.id].attempts;
      n' == if !Answered(p, g, a) || Suffices(s, p, g, a) then n else if Hopeless(p, g, a) then p.limit else n + 1
  {
    SilencedIsOverMutes(p.broadcast, g);
    FillsExactly(s, p, g, a);
    FillIsMarked(s, p, g, a);
  }

  /** A turn counts a hole exactly where it fills it, and ends the pass only where the context ended, the
      volume was full, or the attempt could not be charged. */
  lemma TurnEndsExactly(s: Shelf, p: Pass, g: Gap, a: Answer)
    requires g.id < |s.gaps|
    ensures var tried := !a.cancelled && (p.answered || !OverMutes(p.broadcast, g)) && a.room;
      && Turn(s, p, g, a).1 == (if tried && Suffices(s, p, g, a) then 1 else 0)
      && Turn(s, p, g, a).2 ==
           if a.cancelled || (tried && !Suffices(s, p, g, a) && a.interrupted) then Some(Cancelled)
           else if (p.answered || !OverMutes(p.broadcast, g)) && !a.room then Some(NoRoom)
           else if tried && !Suffices(s, p, g, a) && !a.charges then Some(StoreFailed)
           else None
  {
    SilencedIsOverMutes(p.broadcast, g);
    FillsExactly(s, p, g, a);
  }

  lemma {:induction false} AttemptsAreForAnswers(s: Shelf, p: Pass, gaps: seq<Gap>, answers: seq<Answer>, id: nat)
    requires |answers| == |gaps| && Listed(s, gaps) && id < |s.gaps|
    ensures id < |PatchAll(s, p, gaps, answers).shelf.gaps|
    ensures PatchAll(s, p, gaps, answers).shelf.gaps[id].attempts != s.gaps[id].attempts ==>
      exists i :: 0 <= i < |gaps| && gaps[i].id == id && Answered(p, gaps[i], answers[i])
    decreases |gaps|
  {
    if gaps != [] {
      var turn := Turn(s, p, gaps[0], answers[0]);
      if turn.2.None? {
        assert Listed(turn.0, gaps[1..]);
        AttemptsAreForAnswers(turn.0, p, gaps[1..], answers[1..], id);
        if PatchAll(turn.0, p, gaps[1..], answers[1..]).shelf.gaps[id].attempts != turn.0.gaps[id].attempts {
          var i :| 0 <= i < |gaps[1..]| && gaps[1..][i].id == id && Answered(p, gaps[1..][i], answers[1..][i]);
          assert gaps[i + 1] == gaps[1..][i] && answers[i + 1] == answers[1..][i];
        } else if turn.0.gaps[id].attempts != s.gaps[id].attempts {
          assert gaps[0].id == id && Answered(p, gaps[0], answers[0]);
        }
      }
    }
  }

  /** A verdict on a download discards it, so that the next pass fetches again; a probe that could not
      run keeps the bytes it could not read. */
  lemma VerdictsDiscard(s: Shelf, p: Pass, g: Gap, a: Answer)
    requires g.id < |s.gaps| && VodRange(p.broadcast, g).Some?
    requires a.download(SourceFor(p, VodRange(p.broadcast, g).value)).Produced?
    ensures var r := Patched(s, p, g, a);
      var path := StemOf(p, g, a.download(SourceFor(p, VodRange(p.broadcast, g).value)).ext);
      && (r.1 == Some(Unmeasured) ==> path in r.0.files)
      && (r.1 == Some(TooShort) || r.1 == Some(StillSilent) ==> a.removes ==> path !in r.0.files)
      && (r.1.None? ==> path in r.0.files)
  {}
}
