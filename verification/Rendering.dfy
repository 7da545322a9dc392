/** Rendering a recording's path, and the series of names a collision may push it to. */
module Rendering {
  import opened Basics
  import opened Text
  import opened Numerals
  import opened Sanitize
  import opened Template

  datatype RenderError = Missing(placeholders: set<Placeholder>) | CannotFit | EmptySegment

  datatype Rendered = Rendered(segments: seq<string>, shortened: bool)

  /** What one piece between slashes becomes: an empty one is dropped, and one that sanitizes away
      refuses the whole path. */
  function Piece(host: Host, raw: string): Option<seq<string>> {
    if raw == "" then Some([])
    else match SanitizeSegment(host, raw)
      case None => None
      case Some(clean) => Some([clean])
  }

  function Both(a: Option<seq<string>>, b: Option<seq<string>>): Option<seq<string>> {
    if a.None? || b.None? then None else Some(a.value + b.value)
  }

  function SanitizeAll(host: Host, raw: seq<string>): Option<seq<string>> {
    if raw == [] then Some([]) else Both(Piece(host, raw[0]), SanitizeAll(host, raw[1..]))
  }

  lemma BothAssociates(a: Option<seq<string>>, b: Option<seq<string>>, c: Option<seq<string>>)
    ensures Both(a, Both(b, c)) == Both(Both(a, b), c)
  {
    if a.Some? && b.Some? && c.Some? {
      assert a.value + (b.value + c.value) == (a.value + b.value) + c.value;
    }
  }

  lemma {:induction false} SanitizeAllConcat(host: Host, a: seq<string>, b: seq<string>)
    ensures SanitizeAll(host, a + b) == Both(SanitizeAll(host, a), SanitizeAll(host, b))
  {
    if a == [] {
      assert a + b == b;
      assert SanitizeAll(host, b).Some? ==> [] + SanitizeAll(host, b).value == SanitizeAll(host, b).value;
    } else {
      assert (a + b)[0] == a[0] && (a + b)[1..] == a[1..] + b;
      SanitizeAllConcat(host, a[1..], b);
      BothAssociates(Piece(host, a[0]), SanitizeAll(host, a[1..]), SanitizeAll(host, b));
    }
  }

  lemma SanitizeOneMore(host: Host, raw: seq<string>, i: nat)
    requires i < |raw|
    ensures SanitizeAll(host, raw[..i + 1]) == Both(SanitizeAll(host, raw[..i]), Piece(host, raw[i]))
    ensures SanitizeAll(host, raw[..i + 1]).None? ==> SanitizeAll(host, raw).None?
  {
    assert raw[..i + 1] == raw[..i] + [raw[i]];
    SanitizeAllConcat(host, raw[..i], [raw[i]]);
    var piece := Piece(host, raw[i]);
    assert [raw[i]][1..] == [];
    assert piece.Some? ==> piece.value + [] == piece.value;
    assert raw == raw[..i + 1] + raw[i + 1..];
    SanitizeAllConcat(host, raw[..i + 1], raw[i + 1..]);
  }

  /** sanitizeSegments' loop. */
  method SanitizeSegments(host: Host, rendered: string) returns (segments: Option<seq<string>>)
    ensures segments == var all := SanitizeAll(host, Split(ToSlash(rendered)));
                        if all.None? || all.value == [] then None else all
  {
    var raw := Split(ToSlash(rendered));
    var clean: seq<string> := [];
    for i := 0 to |raw|
      invariant SanitizeAll(host, raw[..i]) == Some(clean)
    {
      SanitizeOneMore(host, raw, i);
      assert clean + [] == clean;
      if raw[i] != "" {
        var one := SanitizeOne(host, raw[i]);
        if one.None? {
          return None;
        }
        clean := clean + [one.value];
      }
    }
    assert raw[..|raw|] == raw;
    return if clean == [] then None else Some(clean);
  }

  function MissingFrom(parts: seq<Part>, v: Values): set<Placeholder> {
    set i | 0 <= i < |parts| && parts[i].Hole? && v.Get(parts[i].placeholder) == "" :: parts[i].placeholder
  }

  /** What Render does once its values are free of separators. */
  function RenderSafe(host: Host, parts: seq<Part>, safe: Values): Result<Rendered, RenderError> {
    var fitted := Fitted(parts, safe);
    if fitted.None? then Err(CannotFit)
    else
      var segments := SanitizeAll(host, Components(parts, fitted.value));
      if segments.None? || segments.value == [] then Err(EmptySegment)
      else Ok(Rendered(segments.value, fitted.value.title != safe.title))
  }

  function Render(host: Host, parts: seq<Part>, fields: Fields): Result<Rendered, RenderError> {
    var v := Resolved(fields);
    if MissingFrom(parts, v) != {} then Err(Missing(MissingFrom(parts, v)))
    else RenderSafe(host, parts, SafeValues(v))
  }

  /** Render as the program runs it, through both loops. */
  method RenderPath(host: Host, parts: seq<Part>, fields: Fields) returns (result: Result<Rendered, RenderError>)
    ensures result == Render(host, parts, fields)
  {
    var v := Resolved(fields);
    if MissingFrom(parts, v) != {} {
      return Err(Missing(MissingFrom(parts, v)));
    }
    SafeValuesAreSeparated(v);
    var safe := SafeValues(v);
    var text, shortened := RenderFitting(parts, safe);
    if text.None? {
      if Overflow(Expand(parts, safe)) == 0 { OverflowStays(parts, safe); }
      return Err(CannotFit);
    }
    var segments := SanitizeSegments(host, text.value);
    return if segments.None? then Err(EmptySegment) else Ok(Rendered(segments.value, shortened));
  }

  lemma SafeValuesAreSeparated(v: Values)
    ensures Separated(SafeValues(v))
  {
    forall p: Placeholder ensures NoSeparator(SafeValues(v).Get(p)) {
      assert SafeValues(v).Get(p) == SanitizeValue(v.Get(p));
      SanitizedIsClean(v.Get(p));
    }
  }

  /** How many separators the template's own literals carry. */
  function LiteralSeparators(parts: seq<Part>): nat {
    if parts == [] then 0
    else (if parts[0].Lit? then Slashes(ToSlash(parts[0].text)) else 0) + LiteralSeparators(parts[1..])
  }

  lemma {:induction false} ValuesAddNoComponents(parts: seq<Part>, v: Values)
    requires Separated(v)
    ensures |Components(parts, v)| == 1 + LiteralSeparators(parts)
  {
    if parts != [] {
      ComponentsStep(parts, v);
      ValuesAddNoComponents(parts[1..], v);
      if parts[0].Lit? { SplitCountsSlashes(ToSlash(parts[0].text)); }
    } else {
      assert ToSlash("") == "";
    }
  }

  lemma {:induction false} AllAreSafe(host: Host, raw: seq<string>)
    requires host.Sane()
    ensures var all := SanitizeAll(host, raw);
      all.Some? ==> |all.value| <= |raw| && forall i :: 0 <= i < |all.value| ==> Safe(host, all.value[i])
  {
    if raw != [] {
      AllAreSafe(host, raw[1..]);
      SegmentsAreSafe(host, raw[0]);
    }
  }

  lemma FittedStaysSeparated(parts: seq<Part>, v: Values)
    requires Separated(v) && Fitted(parts, v).Some?
    ensures Separated(Fitted(parts, v).value)
  {
    ShrinkStaysSeparated(v, Overflow(Expand(parts, v)));
  }

  /** Containment: for every template and all field values, what Render returns is at least one
      component and no more than the template's own literals delimit, each of them safe. */
  lemma RenderedPathsAreContained(host: Host, parts: seq<Part>, fields: Fields)
    requires host.Sane() && Render(host, parts, fields).Ok?
    ensures var segments := Render(host, parts, fields).value.segments;
      && 1 <= |segments| <= 1 + LiteralSeparators(parts)
      && forall i :: 0 <= i < |segments| ==> Safe(host, segments[i])
  {
    var safe := SafeValues(Resolved(fields));
    SafeValuesAreSeparated(Resolved(fields));
    FittedStaysSeparated(parts, safe);
    ValuesAddNoComponents(parts, Fitted(parts, safe).value);
    AllAreSafe(host, Components(parts, Fitted(parts, safe).value));
  }

  lemma {:induction false} SanitizesExactly(host: Host, raw: seq<string>)
    ensures SanitizeAll(host, raw).Some? <==>
      forall i :: 0 <= i < |raw| && raw[i] != "" ==> SanitizeSegment(host, raw[i]).Some?
    ensures SanitizeAll(host, raw).Some? ==>
      (SanitizeAll(host, raw).value == [] <==> forall i :: 0 <= i < |raw| ==> raw[i] == "")
    decreases |raw|
  {
    if raw != [] {
      SanitizesExactly(host, raw[1..]);
      assert forall i :: 0 < i < |raw| ==> raw[i] == raw[1..][i - 1];
    }
  }

  /** The template names something the recording has nothing for. */
  predicate Lacks(parts: seq<Part>, v: Values, p: Placeholder) { Hole(p) in parts && v.Get(p) == "" }

  lemma LackingIsMissing(parts: seq<Part>, v: Values)
    ensures forall p :: p in MissingFrom(parts, v) <==> Lacks(parts, v, p)
  {
    forall p ensures p in MissingFrom(parts, v) <==> Lacks(parts, v, p) {
      if Lacks(parts, v, p) { var i :| 0 <= i < |parts| && parts[i] == Hole(p); }
    }
  }

  /** A component of 200 bytes or more, even with no title. */
  predicate TooLong(parts: seq<Part>, v: Values) {
    exists i :: 0 <= i < |Components(parts, v.(title := ""))| && Utf8(Components(parts, v.(title := ""))[i]) >= 200
  }

  lemma FitsExactly(parts: seq<Part>, v: Values)
    requires Separated(v)
    ensures Fitted(parts, v).None? <==> TooLong(parts, v)
  {
    var bare := v.(title := "");
    var cs := Components(parts, bare);
    FitsWhenShort(Expand(parts, bare));
    assert cs == Split(ToSlash(Expand(parts, bare)));
    assert Overflow(Expand(parts, bare)) > 0 <==> TooLong(parts, v);
    if Overflow(Expand(parts, bare)) > 0 {
      OverflowStays(parts, v);
    }
  }

  /** Something is left, and something of each component that is. */
  predicate SomethingLeft(host: Host, cs: seq<string>) {
    && (exists i :: 0 <= i < |cs| && cs[i] != "")
    && forall i :: 0 <= i < |cs| && cs[i] != "" ==> SanitizeSegment(host, cs[i]).Some?
  }

  lemma SafeRendersExactly(host: Host, parts: seq<Part>, v: Values)
    requires Separated(v)
    ensures RenderSafe(host, parts, v) == Err(CannotFit) <==> TooLong(parts, v)
    ensures !TooLong(parts, v) ==>
      && Fitted(parts, v).Some?
      && if SomethingLeft(host, Components(parts, Fitted(parts, v).value)) then RenderSafe(host, parts, v).Ok?
         else RenderSafe(host, parts, v) == Err(EmptySegment)
  {
    FitsExactly(parts, v);
    if Fitted(parts, v).Some? { SanitizesExactly(host, Components(parts, Fitted(parts, v).value)); }
  }

  /** Why a path is refused, or that it is not: something named is missing, and then all that is are
      named; or a component would be 200 bytes or more even with no title; or else nothing but empty
      components is left, or one that nothing of can be kept. */
  lemma RendersExactly(host: Host, parts: seq<Part>, fields: Fields)
    ensures var v, result := Resolved(fields), Render(host, parts, fields);
      if exists p :: Lacks(parts, v, p) then
        result.Err? && result.error.Missing? && forall p :: p in result.error.placeholders <==> Lacks(parts, v, p)
      else if TooLong(parts, SafeValues(v)) then result == Err(CannotFit)
      else
        var fitted := Fitted(parts, SafeValues(v));
        && fitted.Some?
        && if SomethingLeft(host, Components(parts, fitted.value)) then result.Ok? else result == Err(EmptySegment)
  {
    var v := Resolved(fields);
    LackingIsMissing(parts, v);
    SafeValuesAreSeparated(v);
    SafeRendersExactly(host, parts, SafeValues(v));
  }

  lemma {:induction false} AllAreShort(host: Host, raw: seq<string>, limit: nat)
    requires forall i :: 0 <= i < |raw| ==> Utf8(raw[i]) < limit
    ensures var all := SanitizeAll(host, raw);
      all.Some? ==> forall i :: 0 <= i < |all.value| ==> Utf8(all.value[i]) <= limit
  {
    if raw != [] {
      AllAreShort(host, raw[1..], limit);
      if SanitizeSegment(host, raw[0]).Some? {
        SanitizeCostsAtMostOneByte(host, raw[0]);
      }
      var piece, rest := Piece(host, raw[0]), SanitizeAll(host, raw[1..]);
      assert piece.Some? ==> forall i :: 0 <= i < |piece.value| ==> Utf8(piece.value[i]) <= limit;
      assert SanitizeAll(host, raw) == Both(piece, rest);
    }
  }

  lemma RenderedComponentsFit(host: Host, parts: seq<Part>, fields: Fields)
    requires Render(host, parts, fields).Ok?
    ensures forall i :: 0 <= i < |Render(host, parts, fields).value.segments| ==>
      Utf8(Render(host, parts, fields).value.segments[i]) <= MAX_UNITS
  {
    var safe := SafeValues(Resolved(fields));
    SafeValuesAreSeparated(Resolved(fields));
    OneShrinkFits(parts, safe);
    var raw := Components(parts, Fitted(parts, safe).value);
    WorstBounds(raw);
    assert forall i :: 0 <= i < |raw| ==> Units(raw[i]) <= MAX_UNITS;
    assert forall i :: 0 <= i < |raw| ==> Utf8(raw[i]) < MAX_UNITS;
    AllAreShort(host, raw, MAX_UNITS);
  }

  // ----- candidates -----

  const MAX_DUPLICATES := 999

  /** Where the last c of s[..n] stands, or |s| when it has none. */
  function LastIndex(s: string, c: char, n: nat): (i: nat)
    requires n <= |s|
    ensures i <= |s| && (i < |s| ==> i < n && s[i] == c && forall j :: i < j < n ==> s[j] != c)
    ensures i == |s| ==> forall j :: 0 <= j < n ==> s[j] != c
  {
    if n == 0 then |s| else if s[n - 1] == c then n - 1 else LastIndex(s, c, n - 1)
  }

  /** path.Ext. */
  function ExtOf(base: string): string { base[LastIndex(base, '.', |base|)..] }

  function WithoutExt(base: string): string { base[..LastIndex(base, '.', |base|)] }

  function Marked(base: string, k: nat): string {
    WithoutExt(base) + " (" + Decimal(k) + ")" + ExtOf(base)
  }

  /** The k-th name Candidates yields, counting the rendered name as the first. */
  function Candidate(segments: seq<string>, k: nat): seq<string>
    requires segments != [] && 1 <= k
  {
    if k == 1 then segments
    else segments[..|segments| - 1] + [Marked(segments[|segments| - 1], k)]
  }

  lemma DecimalIsShort(k: nat)
    requires k <= MAX_DUPLICATES
    ensures 1 <= |Decimal(k)| <= 3 && Utf8(Decimal(k)) == |Decimal(k)|
  {
    assert Pow10(1) == 10 && Pow10(2) == 100 && Pow10(3) == 1000;
    DecimalDigits(k, 3);
    DecimalReads(k);
    AsciiBytes(Decimal(k));
  }

  lemma MarkCostsSixBytes(base: string, k: nat)
    requires k <= MAX_DUPLICATES
    ensures Utf8(Marked(base, k)) <= Utf8(base) + 6
  {
    var stem, ext := WithoutExt(base), ExtOf(base);
    DecimalIsShort(k);
    assert base == stem + ext;
    Utf8Concat(stem, ext);
    Utf8Concat(stem + " (" + Decimal(k) + ")", ext);
    Utf8Concat(stem + " (" + Decimal(k), ")");
    Utf8Concat(stem + " (", Decimal(k));
    Utf8Concat(stem, " (");
    assert Utf8(" (") == 2 && Utf8(")") == 1;
  }

  lemma CandidatesStayShort(segments: seq<string>, k: nat, i: nat)
    requires segments != [] && 1 <= k <= MAX_DUPLICATES && i < |segments|
    requires forall j :: 0 <= j < |segments| ==> Utf8(segments[j]) <= MAX_UNITS
    ensures Utf8(Candidate(segments, k)[i]) <= MAX_UNITS + 6
  {
    if k > 1 && i == |segments| - 1 {
      MarkCostsSixBytes(segments[i], k);
    }
  }

  /** Every component of every name a recording may take fits both kinds of filesystem. */
  lemma EveryNameFitsTheFilesystem(host: Host, parts: seq<Part>, fields: Fields, k: nat, i: nat)
    requires Render(host, parts, fields).Ok? && 1 <= k <= 999
    requires i < |Render(host, parts, fields).value.segments|
    ensures var name := Candidate(Render(host, parts, fields).value.segments, k);
      |name| == |Render(host, parts, fields).value.segments| && Utf8(name[i]) <= 255 && Utf16(name[i]) <= 255
  {
    var segments := Render(host, parts, fields).value.segments;
    RenderedComponentsFit(host, parts, fields);
    CandidatesStayShort(segments, k, i);
    Utf16AtMostUtf8(Candidate(segments, k)[i]);
  }

  /** Deduplicate: the first candidate nobody has taken, or nothing where all of them are. */
  method Deduplicate(segments: seq<string>, taken: seq<string> -> bool) returns (free: Option<nat>)
    requires segments != []
    ensures match free
      case Some(k) => 1 <= k <= 999 && !taken(Candidate(segments, k))
                      && forall j :: 1 <= j < k ==> taken(Candidate(segments, j))
      case None => forall j :: 1 <= j <= 999 ==> taken(Candidate(segments, j))
  {
    for k := 1 to MAX_DUPLICATES + 1
      invariant forall j :: 1 <= j < k ==> taken(Candidate(segments, j))
    {
      if !taken(Candidate(segments, k)) {
        return Some(k);
      }
    }
    return None;
  }
}
