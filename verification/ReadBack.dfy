/** Reading a rendered path: one value for each placeholder of its template. */
module ReadBack {
  import opened Basics
  import opened Text
  import opened Sanitize
  import opened Template
  import opened Matching

  type Captured = map<Placeholder, string>

  // ----- folding captures -----

  function Names(parts: seq<Part>): seq<Placeholder> {
    if parts == [] then []
    else match parts[0]
      case Lit(_) => Names(parts[1..])
      case Hole(p) => [p] + Names(parts[1..])
  }

  /** segmentForm: a value standing alone as a path component. */
  function SegmentForm(host: Host, value: string): string {
    match SanitizeSegment(host, value)
    case None => value
    case Some(clean) => clean
  }

  function Reconcile(host: Host, a: string, b: string): Option<string> {
    if a == b then Some(a)
    else if SegmentForm(host, b) == a then Some(b)
    else if SegmentForm(host, a) == b then Some(a)
    else None
  }

  /** One more capture folded into what has been read so far. */
  function Fold(host: Host, so: Captured, p: Placeholder, value: string): Option<Captured> {
    if p !in so then Some(so[p := value])
    else match Reconcile(host, so[p], value)
      case None => None
      case Some(agreed) => Some(so[p := agreed])
  }

  function CollapseFrom(host: Host, so: Captured, names: seq<Placeholder>, groups: seq<string>): Option<Captured>
    requires |names| == |groups|
    decreases |names|
  {
    if names == [] then Some(so)
    else match Fold(host, so, names[0], groups[0])
      case None => None
      case Some(more) => CollapseFrom(host, more, names[1..], groups[1..])
  }

  /** collapse's loop. */
  method Collapse(host: Host, names: seq<Placeholder>, groups: seq<string>) returns (values: Option<Captured>)
    requires |names| == |groups|
    ensures values == CollapseFrom(host, map[], names, groups)
  {
    var so: Captured := map[];
    assert names[0..] == names && groups[0..] == groups;
    for i := 0 to |names|
      invariant CollapseFrom(host, map[], names, groups) == CollapseFrom(host, so, names[i..], groups[i..])
    {
      assert names[i..][1..] == names[i + 1..] && groups[i..][1..] == groups[i + 1..];
      var more := Fold(host, so, names[i], groups[i]);
      if more.None? {
        return None;
      }
      so := more.value;
    }
    return Some(so);
  }

  function FirstOf(names: seq<Placeholder>, p: Placeholder): (i: nat)
    requires p in names
    ensures i < |names| && names[i] == p && p !in names[..i]
  {
    if names[0] == p then 0
    else
      var i := FirstOf(names[1..], p);
      assert names[..i + 1] == [names[0]] + names[1..][..i];
      1 + i
  }

  /** repeated: for each placeholder with more than one hole, its first capture. */
  function Repeated(names: seq<Placeholder>, groups: seq<string>): Pins
    requires |names| == |groups|
  {
    map p | p in names && p in names[FirstOf(names, p) + 1..] :: groups[FirstOf(names, p)]
  }

  lemma RepeatsAreCounted(names: seq<Placeholder>, p: Placeholder)
    ensures p in names && p in names[FirstOf(names, p) + 1..] <==> multiset(names)[p] >= 2
  {
    if p in names {
      var i := FirstOf(names, p);
      assert names == names[..i] + [p] + names[i + 1..];
      assert p !in multiset(names[..i]);
      assert p in names[i + 1..] <==> p in multiset(names[i + 1..]);
    }
  }

  lemma {:induction false} FirstStaysFirst(names: seq<Placeholder>, i: nat, p: Placeholder)
    requires i < |names| && names[i] == p && p !in names[..i]
    ensures FirstOf(names, p) == i
  {
    if i > 0 {
      assert names[0] == names[..i][0] && names[1..][..i - 1] == names[..i][1..];
      FirstStaysFirst(names[1..], i - 1, p);
    }
  }

  method CountNames(names: seq<Placeholder>) returns (seen: map<Placeholder, nat>)
    ensures forall p :: p in seen <==> p in names
    ensures forall p :: p in seen ==> seen[p] == multiset(names)[p]
  {
    seen := map[];
    for i := 0 to |names|
      invariant forall p :: p in seen <==> p in names[..i]
      invariant forall p :: p in seen ==> seen[p] == multiset(names[..i])[p]
    {
      assert names[..i + 1] == names[..i] + [names[i]];
      seen := seen[names[i] := (if names[i] in seen then seen[names[i]] else 0) + 1];
    }
    assert names[..|names|] == names;
  }

  /** What is pinned once some of the names have been looked at. */
  ghost predicate PinnedAmong(pins: Pins, seen: seq<Placeholder>, all: Pins) {
    && (forall p :: p in pins <==> p in seen && p in all)
    && (forall p :: p in pins ==> pins[p] == all[p])
  }

  lemma OneMorePinned(pins: Pins, seen: seq<Placeholder>, all: Pins, p: Placeholder, value: string)
    requires PinnedAmong(pins, seen, all) && (p in all && p !in seen ==> all[p] == value)
    ensures PinnedAmong(if p in all && p !in pins then pins[p := value] else pins, seen + [p], all)
  {}

  lemma RepeatedHere(names: seq<Placeholder>, groups: seq<string>, i: nat)
    requires |names| == |groups| && i < |names|
    ensures names[i] in Repeated(names, groups) <==> multiset(names)[names[i]] >= 2
    ensures names[i] in Repeated(names, groups) && names[i] !in names[..i] ==>
      Repeated(names, groups)[names[i]] == groups[i]
  {
    RepeatsAreCounted(names, names[i]);
    if names[i] !in names[..i] { FirstStaysFirst(names, i, names[i]); }
  }

  lemma AllPinned(pins: Pins, names: seq<Placeholder>, all: Pins)
    requires PinnedAmong(pins, names, all) && all.Keys <= set p | p in names
    ensures pins == all
  {}

  /** One turn of repeated's second loop. */
  lemma PinStep(names: seq<Placeholder>, groups: seq<string>, i: nat, pins: Pins)
    requires |names| == |groups| && i < |names| && PinnedAmong(pins, names[..i], Repeated(names, groups))
    ensures PinnedAmong(if multiset(names)[names[i]] >= 2 && names[i] !in pins then
                        pins[names[i] := groups[i]] else pins,
                        names[..i + 1], Repeated(names, groups))
  {
    OneMore(names, i);
    RepeatedHere(names, groups, i);
    OneMorePinned(pins, names[..i], Repeated(names, groups), names[i], groups[i]);
  }

  /** repeated's loops: count, then keep the first of each that counts twice. */
  method PinRepeated(names: seq<Placeholder>, groups: seq<string>) returns (pins: Pins)
    requires |names| == |groups|
    ensures pins == Repeated(names, groups)
  {
    var seen := CountNames(names);
    pins := map[];
    for i := 0 to |names|
      invariant PinnedAmong(pins, names[..i], Repeated(names, groups))
    {
      PinStep(names, groups, i, pins);
      if seen[names[i]] >= 2 && names[i] !in pins {
        pins := pins[names[i] := groups[i]];
      }
    }
    assert names[..|names|] == names;
    AllPinned(pins, names, Repeated(names, groups));
  }

  lemma {:induction false} ReadingFillsEveryHole(parts: seq<Part>, v: seq<string>, s: string, pins: Pins)
    requires Spells(parts, v, s, pins)
    ensures |v| == |Names(parts)|
    decreases |parts|
  {
    if parts != [] {
      if parts[0].Lit? {
        ReadingFillsEveryHole(parts[1..], v, s[|parts[0].text|..], pins);
      } else {
        ReadingFillsEveryHole(parts[1..], v[1..], s[|v[0]|..], pins);
      }
    }
  }

  /** One pass's reading of a name, folded. */
  function ReadFolded(host: Host, parts: seq<Part>, s: string, lazy: bool, pins: Pins): Option<Captured> {
    match Read(parts, s, lazy, pins)
    case None => None
    case Some(groups) =>
      ReadSpells(parts, s, lazy, pins);
      ReadingFillsEveryHole(parts, groups, s, pins);
      CollapseFrom(host, map[], Names(parts), groups)
  }

  /** capture: read, and where a repeated placeholder disagrees with itself, read again with its
      earliest occurrence pinned. */
  function Capture(host: Host, parts: seq<Part>, s: string, lazy: bool): Option<Captured> {
    match Read(parts, s, lazy, map[])
    case None => None
    case Some(groups) =>
      ReadSpells(parts, s, lazy, map[]);
      ReadingFillsEveryHole(parts, groups, s, map[]);
      var first := ReadFolded(host, parts, s, lazy, map[]);
      if first.Some? then first
      else ReadFolded(host, parts, s, lazy, Repeated(Names(parts), groups))
  }

  datatype MatchError = NoMatch | Ambiguous | ConflictingDate

  /** The two passes compared. */
  function CaptureBoth(host: Host, parts: seq<Part>, s: string): Result<Captured, MatchError> {
    var greedy, lazy := Capture(host, parts, s, false), Capture(host, parts, s, true);
    if greedy.None? then Err(NoMatch)
    else if lazy != greedy then Err(Ambiguous)
    else Ok(greedy.value)
  }

  // ----- what a folded reading is -----

  /** The text a template and one value for each hole spell. */
  function Written(parts: seq<Part>, v: seq<string>): string
    requires |v| == |Names(parts)|
    decreases |parts|
  {
    if parts == [] then ""
    else match parts[0]
      case Lit(text) => ToSlash(text) + Written(parts[1..], v)
      case Hole(_) => v[0] + Written(parts[1..], v[1..])
  }

  lemma {:induction false} SpelledIsWritten(parts: seq<Part>, v: seq<string>, s: string, pins: Pins)
    requires Spells(parts, v, s, pins) && |v| == |Names(parts)|
    ensures s == Written(parts, v)
    ensures forall i :: 0 <= i < |v| ==> Takes(Names(parts)[i], v[i], pins)
    decreases |parts|
  {
    if parts != [] {
      if parts[0].Lit? {
        SpelledIsWritten(parts[1..], v, s[|parts[0].text|..], pins);
        Rejoined(s, |parts[0].text|);
      } else {
        SpelledIsWritten(parts[1..], v[1..], s[|v[0]|..], pins);
        Rejoined(s, |v[0]|);
        HoleTakes(parts, v, pins);
      }
    }
  }

  lemma Rejoined(s: string, n: nat)
    requires n <= |s|
    ensures s == s[..n] + s[n..]
  {}

  lemma HoleTakes(parts: seq<Part>, v: seq<string>, pins: Pins)
    requires parts != [] && parts[0].Hole? && |v| == |Names(parts)| && Takes(parts[0].placeholder, v[0], pins)
    requires forall i :: 0 <= i < |v[1..]| ==> Takes(Names(parts[1..])[i], v[1..][i], pins)
    ensures forall i :: 0 <= i < |v| ==> Takes(Names(parts)[i], v[i], pins)
  {
    forall i | 0 <= i < |v| ensures Takes(Names(parts)[i], v[i], pins) {
      if i > 0 { assert Names(parts)[i] == Names(parts[1..])[i - 1] && v[i] == v[1..][i - 1]; }
    }
  }

  /** Print then parse: values of the right shapes are always one reading of what they write. */
  lemma {:induction false} WrittenIsSpelled(parts: seq<Part>, v: seq<string>, pins: Pins)
    requires |v| == |Names(parts)|
    requires forall i :: 0 <= i < |v| ==> Takes(Names(parts)[i], v[i], pins)
    ensures Spells(parts, v, Written(parts, v), pins)
    decreases |parts|
  {
    if parts != [] {
      var s := Written(parts, v);
      if parts[0].Lit? {
        WrittenIsSpelled(parts[1..], v, pins);
        assert s[|parts[0].text|..] == Written(parts[1..], v);
      } else {
        forall i | 0 <= i < |v[1..]| ensures Takes(Names(parts[1..])[i], v[1..][i], pins) {
          assert Names(parts)[i + 1] == Names(parts[1..])[i] && v[i + 1] == v[1..][i];
        }
        assert Takes(Names(parts)[0], v[0], pins);
        WrittenIsSpelled(parts[1..], v[1..], pins);
        assert s[|v[0]|..] == Written(parts[1..], v[1..]);
      }
    }
  }

  /** A value, or the form it takes standing alone as a component. */
  predicate WritesAs(host: Host, value: string, text: string) {
    text == value || text == SegmentForm(host, value)
  }

  lemma SegmentFormSettles(host: Host, value: string)
    requires host.Sane()
    ensures SegmentForm(host, SegmentForm(host, value)) == SegmentForm(host, value)
  {
    if SanitizeSegment(host, value).Some? {
      SanitizeIsIdempotent(host, value);
    }
  }

  /** Two captures that agree, agree on one of them, and both are ways of writing it. */
  lemma ReconciledWrites(host: Host, a: string, b: string, text: string)
    requires host.Sane() && Reconcile(host, a, b).Some?
    ensures Reconcile(host, a, b).value == a || Reconcile(host, a, b).value == b
    ensures WritesAs(host, Reconcile(host, a, b).value, a) && WritesAs(host, Reconcile(host, a, b).value, b)
    ensures WritesAs(host, a, text) ==> WritesAs(host, Reconcile(host, a, b).value, text)
  {
    if SegmentForm(host, b) == a { SegmentFormSettles(host, b); }
  }

  /** Every capture is one way its placeholder's agreed value is written, however often it repeats. */
  lemma {:induction false} CollapsedWrites(host: Host, so: Captured, names: seq<Placeholder>, groups: seq<string>)
    requires host.Sane() && |names| == |groups| && CollapseFrom(host, so, names, groups).Some?
    ensures var values := CollapseFrom(host, so, names, groups).value;
      && (forall p :: p in so ==> p in values)
      && (forall p, text :: p in so && WritesAs(host, so[p], text) ==> WritesAs(host, values[p], text))
      && (forall i :: 0 <= i < |names| ==> names[i] in values && WritesAs(host, values[names[i]], groups[i]))
    decreases |names|
  {
    if names != [] {
      var more := Fold(host, so, names[0], groups[0]).value;
      CollapsedWrites(host, more, names[1..], groups[1..]);
      var values := CollapseFrom(host, so, names, groups).value;
      assert WritesAs(host, more[names[0]], groups[0]) by {
        if names[0] in so { ReconciledWrites(host, so[names[0]], groups[0], groups[0]); }
      }
      forall p, text | p in so && WritesAs(host, so[p], text)
        ensures WritesAs(host, values[p], text)
      {
        if p == names[0] { ReconciledWrites(host, so[p], groups[0], text); }
        assert WritesAs(host, more[p], text);
      }
      forall i | 0 <= i < |names|
        ensures names[i] in values && WritesAs(host, values[names[i]], groups[i])
      {
        if i > 0 { assert names[i] == names[1..][i - 1] && groups[i] == groups[1..][i - 1]; }
      }
    }
  }

  /** Each value is one of the captures of its own placeholder. */
  ghost predicate OwnCaptures(values: Captured, names: seq<Placeholder>, groups: seq<string>)
    requires |names| == |groups|
  {
    forall p :: p in values ==> exists i :: 0 <= i < |names| && names[i] == p && groups[i] == values[p]
  }

  /** What is folded in comes from the captures, and what is there already stays or gives way to one. */
  lemma {:induction false} CollapsedIsCaptured(host: Host, so: Captured, names: seq<Placeholder>,
                                               groups: seq<string>, p: Placeholder)
    requires |names| == |groups| && CollapseFrom(host, so, names, groups).Some?
    requires p in CollapseFrom(host, so, names, groups).value
    ensures var values := CollapseFrom(host, so, names, groups).value;
      || (p in so && values[p] == so[p])
      || (exists i :: 0 <= i < |names| && names[i] == p && groups[i] == values[p])
    decreases |names|
  {
    if names != [] {
      var more := Fold(host, so, names[0], groups[0]).value;
      CollapsedIsCaptured(host, more, names[1..], groups[1..], p);
      var values := CollapseFrom(host, so, names, groups).value;
      if i :| 0 <= i < |names[1..]| && names[1..][i] == p && groups[1..][i] == values[p] {
        assert names[i + 1] == p && groups[i + 1] == values[p];
      } else {
        assert p in more && values[p] == more[p];
        assert p == names[0] && (p !in so || more[p] != so[p]) ==> more[p] == groups[0];
      }
    }
  }

  lemma CollapsedFromNothing(host: Host, names: seq<Placeholder>, groups: seq<string>)
    requires |names| == |groups| && CollapseFrom(host, map[], names, groups).Some?
    ensures OwnCaptures(CollapseFrom(host, map[], names, groups).value, names, groups)
  {
    var values := CollapseFrom(host, map[], names, groups).value;
    forall p | p in values
      ensures exists i :: 0 <= i < |names| && names[i] == p && groups[i] == values[p]
    {
      CollapsedIsCaptured(host, map[], names, groups, p);
    }
  }

  /** Captures that respell the name as these values: put into the holes they give it back, each value
      is text of the name that one of its own holes captured, and every other hole of that placeholder
      captured it too, or the form it takes standing alone. */
  ghost predicate RespelledBy(host: Host, parts: seq<Part>, values: Captured, s: string, groups: seq<string>) {
    && |groups| == |Names(parts)| && Written(parts, groups) == s
    && OwnCaptures(values, Names(parts), groups)
    && forall i :: 0 <= i < |groups| ==>
         Names(parts)[i] in values && WritesAs(host, values[Names(parts)[i]], groups[i])
  }

  ghost predicate Respells(host: Host, parts: seq<Part>, values: Captured, s: string) {
    exists groups :: RespelledBy(host, parts, values, s, groups)
  }

  lemma ReadFoldedRespells(host: Host, parts: seq<Part>, s: string, lazy: bool, pins: Pins)
    requires host.Sane() && ReadFolded(host, parts, s, lazy, pins).Some?
    ensures Respells(host, parts, ReadFolded(host, parts, s, lazy, pins).value, s)
  {
    var groups := Read(parts, s, lazy, pins).value;
    ReadSpells(parts, s, lazy, pins);
    ReadingFillsEveryHole(parts, groups, s, pins);
    SpelledIsWritten(parts, groups, s, pins);
    CollapsedWrites(host, map[], Names(parts), groups);
    CollapsedFromNothing(host, Names(parts), groups);
    assert RespelledBy(host, parts, ReadFolded(host, parts, s, lazy, pins).value, s, groups);
  }

  /** For every template, a reading that is returned respells the name it was read from. */
  lemma MatchesRespell(host: Host, parts: seq<Part>, s: string)
    requires host.Sane() && CaptureBoth(host, parts, s).Ok?
    ensures Respells(host, parts, CaptureBoth(host, parts, s).value, s)
  {
    var groups := Read(parts, s, false, map[]).value;
    ReadSpells(parts, s, false, map[]);
    ReadingFillsEveryHole(parts, groups, s, map[]);
    var first := ReadFolded(host, parts, s, false, map[]);
    if first.Some? {
      ReadFoldedRespells(host, parts, s, false, map[]);
    } else {
      ReadFoldedRespells(host, parts, s, false, Repeated(Names(parts), groups));
    }
  }

  /** The hole is the only one of its placeholder. */
  predicate NamedOnce(names: seq<Placeholder>, i: nat)
    requires i < |names|
  {
    forall j :: 0 <= j < |names| && names[j] == names[i] ==> j == i
  }

  /** Every hole captured its value itself. */
  predicate Literal(values: Captured, names: seq<Placeholder>, groups: seq<string>)
    requires |names| == |groups|
  {
    forall i :: 0 <= i < |names| ==> names[i] in values && groups[i] == values[names[i]]
  }

  predicate CapturesAgree(names: seq<Placeholder>, groups: seq<string>)
    requires |names| == |groups|
  {
    forall i, j :: 0 <= i < j < |names| && names[i] == names[j] ==> groups[i] == groups[j]
  }

  /** A placeholder named once is captured as it is returned; and all of them are, exactly where no
      repeated placeholder was captured two ways. */
  lemma LiteralExactlyWhereCapturesAgree(host: Host, parts: seq<Part>, values: Captured, s: string, groups: seq<string>)
    requires RespelledBy(host, parts, values, s, groups)
    ensures forall i :: 0 <= i < |groups| && NamedOnce(Names(parts), i) ==> groups[i] == values[Names(parts)[i]]
    ensures Literal(values, Names(parts), groups) <==> CapturesAgree(Names(parts), groups)
  {
    var names := Names(parts);
    forall i | 0 <= i < |groups| && NamedOnce(names, i) ensures groups[i] == values[names[i]] {
      var j :| 0 <= j < |names| && names[j] == names[i] && groups[j] == values[names[i]];
    }
    if CapturesAgree(names, groups) {
      forall i | 0 <= i < |names| ensures groups[i] == values[names[i]] {
        var j :| 0 <= j < |names| && names[j] == names[i] && groups[j] == values[names[i]];
        assert i == j || groups[i] == groups[j];
      }
    }
  }

  // ----- templates naming nothing twice -----

  predicate NamesNothingTwice(parts: seq<Part>) {
    forall i, j :: 0 <= i < j < |Names(parts)| ==> Names(parts)[i] != Names(parts)[j]
  }

  lemma {:induction false} CollapseOfDistinct(host: Host, so: Captured, names: seq<Placeholder>, groups: seq<string>)
    requires |names| == |groups|
    requires forall i, j :: 0 <= i < j < |names| ==> names[i] != names[j]
    requires forall i :: 0 <= i < |names| ==> names[i] !in so
    ensures CollapseFrom(host, so, names, groups).Some?
    ensures var values := CollapseFrom(host, so, names, groups).value;
      && (forall p :: p in so ==> p in values && values[p] == so[p])
      && (forall i :: 0 <= i < |names| ==> names[i] in values && values[names[i]] == groups[i])
    decreases |names|
  {
    if names != [] {
      CollapseOfDistinct(host, so[names[0] := groups[0]], names[1..], groups[1..]);
      var values := CollapseFrom(host, so, names, groups).value;
      forall i | 0 <= i < |names| ensures names[i] in values && values[names[i]] == groups[i] {
        if i > 0 { assert names[i] == names[1..][i - 1] && groups[i] == groups[1..][i - 1]; }
      }
    }
  }

  lemma DistinctReadingsDiffer(host: Host, parts: seq<Part>, g: seq<string>, h: seq<string>)
    requires NamesNothingTwice(parts) && |g| == |h| == |Names(parts)|
    requires CollapseFrom(host, map[], Names(parts), g) == CollapseFrom(host, map[], Names(parts), h)
    ensures g == h
  {
    CollapseOfDistinct(host, map[], Names(parts), g);
    CollapseOfDistinct(host, map[], Names(parts), h);
    assert forall i :: 0 <= i < |g| ==> Names(parts)[i] == Names(parts)[i] && g[i] == h[i];
  }

  ghost predicate Spellable(parts: seq<Part>, s: string) {
    exists v :: Spells(parts, v, s, FREE_OF_PINS)
  }

  /** The values themselves, put into the holes, give the name back. */
  ghost predicate SpelledBy(parts: seq<Part>, values: Captured, s: string) {
    exists groups :: |groups| == |Names(parts)| && Written(parts, groups) == s && Literal(values, Names(parts), groups)
  }

  /** Where a template names nothing twice, the values it returns spell the name. */
  lemma ValuesAreTheName(host: Host, parts: seq<Part>, s: string)
    requires NamesNothingTwice(parts) && CaptureBoth(host, parts, s).Ok?
    ensures SpelledBy(parts, CaptureBoth(host, parts, s).value, s)
  {
    var groups := Read(parts, s, false, map[]).value;
    ReadSpells(parts, s, false, map[]);
    ReadingFillsEveryHole(parts, groups, s, map[]);
    SpelledIsWritten(parts, groups, s, map[]);
    CollapseOfDistinct(host, map[], Names(parts), groups);
    assert Literal(CaptureBoth(host, parts, s).value, Names(parts), groups);
  }

  /** For a template naming nothing twice, with {ext} absent, last or cut off: no reading of
      the name is ErrNoMatch, exactly one is returned, and two or more are ErrAmbiguousMatch. */
  lemma MatchCountsReadings(host: Host, parts: seq<Part>, s: string)
    requires NamesNothingTwice(parts) && ExtCutOff(parts)
    ensures CaptureBoth(host, parts, s) == Err(NoMatch) <==> !Spellable(parts, s)
    ensures forall v :: OnlyOne(parts, s, v) ==>
      |v| == |Names(parts)| && CaptureBoth(host, parts, s).Ok?
      && CollapseFrom(host, map[], Names(parts), v) == Some(CaptureBoth(host, parts, s).value)
    ensures CaptureBoth(host, parts, s).Ok? ==> exists v :: OnlyOne(parts, s, v)
  {
    var g, l := Read(parts, s, false, map[]), Read(parts, s, true, map[]);
    forall v | Spells(parts, v, s, FREE_OF_PINS) ensures g.Some? && l.Some? && |v| == |Names(parts)| {
      ReadIsFirst(parts, v, s, false, map[]);
      ReadIsFirst(parts, v, s, true, map[]);
      ReadingFillsEveryHole(parts, v, s, map[]);
    }
    ReadSpells(parts, s, false, map[]);
    ReadSpells(parts, s, true, map[]);
    if g.Some? {
      assert Spells(parts, g.value, s, FREE_OF_PINS);
      CollapseOfDistinct(host, map[], Names(parts), g.value);
      CollapseOfDistinct(host, map[], Names(parts), l.value);
      assert Capture(host, parts, s, false) == CollapseFrom(host, map[], Names(parts), g.value);
      assert Capture(host, parts, s, true) == CollapseFrom(host, map[], Names(parts), l.value);
      if CaptureBoth(host, parts, s).Ok? {
        DistinctReadingsDiffer(host, parts, g.value, l.value);
        AgreementIsUniqueness(parts, s, g.value);
        assert OnlyOne(parts, s, g.value);
      }
      forall v | OnlyOne(parts, s, v)
        ensures CaptureBoth(host, parts, s).Ok?
             && CollapseFrom(host, map[], Names(parts), v) == Some(CaptureBoth(host, parts, s).value)
      {
        AgreementIsUniqueness(parts, s, v);
      }
    }
  }

  // ----- an occurrence that is not the value -----

  const AUTHOR_TWICE := [Hole(Author), Lit("/"), Hole(Author)]

  lemma TwoNames()
    ensures Names(AUTHOR_TWICE) == [Author, Author]
    ensures forall a, b :: Written(AUTHOR_TWICE, [a, b]) == a + "/" + b
  {
    var parts := AUTHOR_TWICE;
    assert parts[1..] == [Lit("/"), Hole(Author)] && parts[1..][1..] == [Hole(Author)];
    assert [Hole(Author)][1..] == [] && Names([Hole(Author)]) == [Author];
    forall a: string, b: string ensures Written(parts, [a, b]) == a + "/" + b {
      assert [a, b][1..] == [b] && [b][1..] == [];
      assert Written([Hole(Author)], [b]) == b;
      assert ToSlash("/") == "/";
      assert Written(parts[1..], [b]) == "/" + b;
      assert a + ("/" + b) == a + "/" + b;
    }
  }

  lemma OneCutOfCon(a: string, b: string)
    requires AllClean(a) && AllClean(b) && a + "/" + b == "_CON/CON"
    ensures a == "_CON" && b == "CON"
  {
    var s, n := "_CON/CON", |a|;
    assert (a + "/" + b)[n] == '/';
    assert n == 4;
    assert a == s[..n] && b == s[n + 1..];
  }

  lemma ConIsSpelled()
    ensures Spells(AUTHOR_TWICE, ["_CON", "CON"], "_CON/CON", map[])
  {
    TwoNames();
    assert "_CON" + "/" + "CON" == "_CON/CON";
    WrittenIsSpelled(AUTHOR_TWICE, ["_CON", "CON"], map[]);
  }

  /** Only one reading spells it: the slash cannot be part of a value. */
  lemma ConIsReadOneWay(lazy: bool)
    ensures Read(AUTHOR_TWICE, "_CON/CON", lazy, map[]) == Some(["_CON", "CON"])
  {
    var parts, s, v := AUTHOR_TWICE, "_CON/CON", ["_CON", "CON"];
    TwoNames();
    ConIsSpelled();
    ReadIsFirst(parts, v, s, lazy, map[]);
    ReadSpells(parts, s, lazy, map[]);
    var g := Read(parts, s, lazy, map[]).value;
    ReadingFillsEveryHole(parts, g, s, map[]);
    SpelledIsWritten(parts, g, s, map[]);
    assert g == [g[0], g[1]] && Takes(Author, g[0], map[]) && Takes(Author, g[1], map[]);
    OneCutOfCon(g[0], g[1]);
  }

  lemma ConIsDevice()
    ensures IsDevice(Lower(Stem("CON")))
  {
    assert "CON"[1..] == "ON" && "ON"[1..] == "N" && "N"[1..] == "";
    assert Stem("N") == "N" && Stem("ON") == "ON";
    assert Stem("CON") == "CON";
    assert Lower("CON") == "con";
  }

  lemma ConIsTrimmed()
    ensures TrimComponent(SanitizeValue("CON")) == "CON"
  {
    CleanIsUnchanged("CON");
    TrimmedAt("CON", 0, 3);
    assert "CON"[0..3] == "CON";
  }

  lemma ConStandsPrefixed(host: Host)
    ensures SegmentForm(host, "CON") == "_CON"
  {
    ConIsDevice();
    ConIsTrimmed();
    assert "_" + "CON" == "_CON";
  }

  lemma ConFolds(host: Host)
    ensures CollapseFrom(host, map[], [Author, Author], ["_CON", "CON"]) == Some(map[Author := "CON"])
  {
    ConStandsPrefixed(host);
    var once: Captured := map[Author := "_CON"];
    assert [Author, Author][1..] == [Author] && [Author][1..] == [];
    assert ["_CON", "CON"][1..] == ["CON"] && ["CON"][1..] == [];
    assert CollapseFrom(host, once, [Author], ["CON"]) == Some(once[Author := "CON"]);
    assert once[Author := "CON"] == map[Author := "CON"];
  }

  /** A device name stands alone behind an underscore. Read once with it and once without, it comes
      back without, so that the value put into both holes is not the name it was read from. */
  lemma DeviceNameReadsBare(host: Host)
    ensures CaptureBoth(host, AUTHOR_TWICE, "_CON/CON") == Ok(map[Author := "CON"])
    ensures !SpelledBy(AUTHOR_TWICE, map[Author := "CON"], "_CON/CON")
  {
    TwoNames();
    ConIsReadOneWay(false);
    ConIsReadOneWay(true);
    ConFolds(host);
    forall groups | |groups| == 2 && Literal(map[Author := "CON"], Names(AUTHOR_TWICE), groups)
      ensures Written(AUTHOR_TWICE, groups) != "_CON/CON"
    {
      assert groups == ["CON", "CON"];
      assert ("CON" + "/" + "CON")[0] == 'C';
    }
  }
}
