/** Match: from a path to the fields it was rendered from. */
module Match {
  import opened Basics
  import opened Text
  import opened Sanitize
  import opened Template
  import opened Matching
  import opened Duplicates
  import opened ReadBack
  import opened Dates

  datatype Matched = Matched(platform: string, channel: string, author: string, title: string, category: string,
                             started: Option<Stamp>, extension: string, duplicate: nat, lossy: seq<Placeholder>)

  function ValueFor(values: Captured, p: Placeholder): string {
    if p in values then values[p] else ""
  }

  const FREE_TEXT := [Author, Category, Channel, Platform, Title]

  function LossyAmong(ps: seq<Placeholder>, values: Captured): seq<Placeholder> {
    if ps == [] then []
    else (if ps[0] in values && REPLACEMENT in values[ps[0]] then [ps[0]] else []) + LossyAmong(ps[1..], values)
  }

  /** The fields a name's captures assemble into. */
  function FieldsOf(values: Captured, duplicate: nat): Result<Matched, MatchError> {
    match StartedFrom(values)
    case Err(e) => Err(e)
    case Ok(started) =>
      Ok(Matched(ValueFor(values, Platform), ValueFor(values, Channel), ValueFor(values, Author),
                 ValueFor(values, Title), ValueFor(values, Category), started, ValueFor(values, Ext),
                 duplicate, LossyAmong(FREE_TEXT, values)))
  }

  function MatchPath(host: Host, parts: seq<Part>, path: string): Result<Matched, MatchError> {
    var plain := SplitDuplicate(ToSlash(path));
    match CaptureBoth(host, parts, plain.0)
    case Err(e) => Err(e)
    case Ok(values) => FieldsOf(values, plain.1)
  }

  // ----- every capture has its placeholder's shape -----

  lemma {:induction false} FoldingKeepsShape(host: Host, so: Captured, names: seq<Placeholder>, groups: seq<string>)
    requires |names| == |groups| && Shaped(so) && CollapseFrom(host, so, names, groups).Some?
    requires forall i :: 0 <= i < |names| ==> Fits(names[i], groups[i])
    ensures Shaped(CollapseFrom(host, so, names, groups).value)
    decreases |names|
  {
    if names != [] {
      var more := Fold(host, so, names[0], groups[0]).value;
      forall i | 0 <= i < |names[1..]| ensures Fits(names[1..][i], groups[1..][i]) {
        assert names[1..][i] == names[i + 1] && groups[1..][i] == groups[i + 1];
      }
      FoldingKeepsShape(host, more, names[1..], groups[1..]);
    }
  }

  lemma ReadFoldedIsShaped(host: Host, parts: seq<Part>, s: string, lazy: bool, pins: Pins)
    requires ReadFolded(host, parts, s, lazy, pins).Some? && Shaped(pins)
    ensures Shaped(ReadFolded(host, parts, s, lazy, pins).value)
  {
    var groups := Read(parts, s, lazy, pins).value;
    ReadSpells(parts, s, lazy, pins);
    ReadingFillsEveryHole(parts, groups, s, pins);
    SpelledIsWritten(parts, groups, s, pins);
    FoldingKeepsShape(host, map[], Names(parts), groups);
  }

  lemma CapturesAreShaped(host: Host, parts: seq<Part>, s: string)
    requires CaptureBoth(host, parts, s).Ok?
    ensures Shaped(CaptureBoth(host, parts, s).value)
  {
    var groups := Read(parts, s, false, map[]).value;
    ReadSpells(parts, s, false, map[]);
    ReadingFillsEveryHole(parts, groups, s, map[]);
    SpelledIsWritten(parts, groups, s, map[]);
    if ReadFolded(host, parts, s, false, map[]).Some? {
      ReadFoldedIsShaped(host, parts, s, false, map[]);
    } else {
      ReadFoldedIsShaped(host, parts, s, false, Repeated(Names(parts), groups));
    }
  }

  lemma {:induction false} LossyHolds(ps: seq<Placeholder>, values: Captured, p: Placeholder)
    ensures p in LossyAmong(ps, values) <==> p in ps && p in values && '_' in values[p]
    decreases |ps|
  {
    if ps != [] {
      LossyHolds(ps[1..], values, p);
      assert p in ps <==> p == ps[0] || p in ps[1..];
    }
  }

  /** A field is the text its placeholder holds, or nothing where the name has none. */
  predicate Held(values: Captured, p: Placeholder, text: string) {
    if p in values then values[p] == text else text == ""
  }

  /** Fields assembled from values: each from its own placeholder, a time exactly where the values tell
      a whole date, and a mark on the free text something may have been replaced in. */
  ghost predicate Tells(values: Captured, m: Matched) {
    && Shaped(values)
    && Held(values, Platform, m.platform) && Held(values, Channel, m.channel) && Held(values, Author, m.author)
    && Held(values, Title, m.title) && Held(values, Category, m.category) && Held(values, Ext, m.extension)
    && (m.started.Some? <==> Dated(values))
    && (m.started.Some? ==> ValidStamp(m.started.value) && PrintsBack(values, m.started.value)
                            && (Time !in values ==> m.started.value.hour == 0 && m.started.value.minute == 0))
    && forall p :: p in m.lossy <==>
         p in values && '_' in values[p] && (p.Platform? || p.Channel? || p.Author? || p.Title? || p.Category?)
  }

  lemma FieldsTell(values: Captured, duplicate: nat)
    requires Shaped(values) && FieldsOf(values, duplicate).Ok?
    ensures Tells(values, FieldsOf(values, duplicate).value) && FieldsOf(values, duplicate).value.duplicate == duplicate
  {
    var m := FieldsOf(values, duplicate).value;
    if m.started.Some? { StartedIsReal(values); }
    StartedIsDated(values);
    forall p ensures p in m.lossy <==>
      p in values && '_' in values[p] && (p.Platform? || p.Channel? || p.Author? || p.Title? || p.Category?)
    {
      LossyHolds(FREE_TEXT, values, p);
    }
  }

  /** For every template and every path: fields that come back are those of values that respell the
      path without its mark. */
  lemma MatchedFieldsRespell(host: Host, parts: seq<Part>, path: string)
    requires host.Sane() && MatchPath(host, parts, path).Ok?
    ensures var m := MatchPath(host, parts, path).value;
      && m.duplicate == SplitDuplicate(ToSlash(path)).1
      && exists values :: Respells(host, parts, values, SplitDuplicate(ToSlash(path)).0) && Tells(values, m)
  {
    var s := SplitDuplicate(ToSlash(path)).0;
    var values := CaptureBoth(host, parts, s).value;
    MatchesRespell(host, parts, s);
    CapturesAreShaped(host, parts, s);
    FieldsTell(values, SplitDuplicate(ToSlash(path)).1);
  }
}
