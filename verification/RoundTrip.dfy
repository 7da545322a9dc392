/** The default template undone: what Render prints, under any of its candidate names, Match reads. */
module RoundTrip {
  import opened Basics
  import opened Text
  import opened Numerals
  import opened Sanitize
  import opened Template
  import opened Rendering
  import opened Matching
  import opened Duplicates
  import opened ReadBack
  import opened Dates
  import opened Match
  import opened DefaultName

  /** The default template's text is what its parts are parsed from. */
  lemma DefaultParses()
    ensures Parsed(DEFAULT_TEMPLATE) == Ok(DEFAULT)
  {
    DefaultIsNormal();
    SourceParsesBack(DEFAULT);
    DefaultSource();
    DefaultHoles();
    assert DEFAULT_TEMPLATE[0] == '{';
    NotAllSpace(DEFAULT_TEMPLATE);
  }

  lemma NormalPair(text: string, p: Placeholder, rest: seq<Part>)
    requires text != "" && '{' !in text && Normal(rest)
    ensures Normal([Lit(text), Hole(p)] + rest)
  {
    assert [Lit(text)] + [Hole(p)] + rest == [Lit(text), Hole(p)] + rest;
    NormalConcat([Lit(text)], p, rest);
  }

  lemma DefaultIsNormal()
    ensures Normal(DEFAULT)
  {
    NormalPair(".", Ext, []);
    assert ENDING == [Lit("."), Hole(Ext)] + [];
    NormalPair(" - ", Title, ENDING);
    NormalPair(" ", Time, TITLED);
    NormalPair(" - ", Date, TIMED);
    NormalPair("/", Author, DATED);
    NormalPair("/", Year, FILE);
    NormalConcat([], Author, FILED);
    assert [] + [Hole(Author)] + FILED == DEFAULT;
  }

  lemma PairSource(text: string, p: Placeholder, rest: seq<Part>)
    ensures Source([Lit(text), Hole(p)] + rest) == text + ("{" + Name(p) + "}" + Source(rest))
    ensures Holes([Lit(text), Hole(p)] + rest) == 1 + Holes(rest)
  {
    var parts := [Lit(text), Hole(p)] + rest;
    assert parts[1..] == [Hole(p)] + rest && parts[1..][1..] == rest;
  }

  lemma DefaultHoles()
    ensures Holes(DEFAULT) == 7
  {
    PairSource(".", Ext, []);
    assert ENDING == [Lit("."), Hole(Ext)] + [];
    PairSource(" - ", Title, ENDING);
    PairSource(" ", Time, TITLED);
    PairSource(" - ", Date, TIMED);
    PairSource("/", Author, DATED);
    PairSource("/", Year, FILE);
    assert DEFAULT[1..] == FILED;
  }

  lemma Regrouped(text: string, name: string, tail: string)
    ensures text + ("{" + name + "}" + tail) == text + "{" + name + "}" + tail
  {}

  lemma PairText(text: string, p: Placeholder, rest: seq<Part>, pair: string)
    requires pair == text + "{" + Name(p) + "}"
    ensures Source([Lit(text), Hole(p)] + rest) == pair + Source(rest)
  {
    PairSource(text, p, rest);
    Regrouped(text, Name(p), Source(rest));
  }

  lemma TitledSource()
    ensures Source(TITLED) == " - {title}" + ".{ext}"
  {
    PairText(".", Ext, [], ".{ext}");
    assert ENDING == [Lit("."), Hole(Ext)] + [] && Source([]) == "";
    assert ".{ext}" + "" == ".{ext}";
    PairText(" - ", Title, ENDING, " - {title}");
  }

  lemma DatedSource()
    ensures Source(DATED) == " - {date}" + (" {time}" + (" - {title}" + ".{ext}"))
  {
    TitledSource();
    PairText(" ", Time, TITLED, " {time}");
    PairText(" - ", Date, TIMED, " - {date}");
  }

  lemma FiledSource()
    ensures Source(FILED) == "/{year}" + ("/{author}" + (" - {date}" + (" {time}" + (" - {title}" + ".{ext}"))))
  {
    DatedSource();
    PairText("/", Author, DATED, "/{author}");
    PairText("/", Year, FILE, "/{year}");
  }

  lemma DefaultSource()
    ensures Source(DEFAULT) == DEFAULT_TEMPLATE
  {
    FiledSource();
    assert DEFAULT[1..] == FILED && DEFAULT[0] == Hole(Author);
    assert "{" + Name(Author) + "}" == "{author}";
  }

  // ----- what Render prints -----

  lemma PairExpands(text: string, p: Placeholder, rest: seq<Part>, v: Values)
    ensures Expand([Lit(text), Hole(p)] + rest, v) == text + (v.Get(p) + Expand(rest, v))
  {
    var parts := [Lit(text), Hole(p)] + rest;
    assert parts[1..] == [Hole(p)] + rest && parts[1..][1..] == rest;
  }

  lemma DefaultExpands(v: Values)
    ensures Expand(DEFAULT, v) == Spelling(v.author, v.year, v.author, v.date, v.time, v.title, v.ext)
  {
    PairExpands(".", Ext, [], v);
    assert ENDING == [Lit("."), Hole(Ext)] + [];
    assert v.ext + "" == v.ext;
    PairExpands(" - ", Title, ENDING, v);
    PairExpands(" ", Time, TITLED, v);
    PairExpands(" - ", Date, TIMED, v);
    PairExpands("/", Author, DATED, v);
    PairExpands("/", Year, FILE, v);
    assert DEFAULT[1..] == FILED;
  }

  /** A recording the default template names whole: an author SanitizeSegment leaves alone, a clean
      title with no space at either end, a real time, and an extension of letters and digits. */
  predicate Clean(host: Host, f: Fields) {
    && Safe(host, f.author)
    && f.title != "" && AllClean(f.title) && !IsSpace(f.title[0]) && !IsSpace(f.title[|f.title| - 1])
    && ValidStamp(f.started) && Fits(Ext, WithoutDot(f.extension))
  }

  function PrintedOf(f: Fields): Printed {
    Printed(f.author, Digits(f.started.year, 4), DateText(f.started), TimeText(f.started), f.title,
            WithoutDot(f.extension))
  }

  lemma PrintedIsPrintable(host: Host, f: Fields)
    requires Clean(host, f)
    ensures Printable(host, PrintedOf(f))
  {
    FourDigits(f.started.year);
    DateTextReads(f.started);
    TimeTextReads(f.started);
  }

  lemma AlnumIsPlain(c: char)
    requires IsAlnum(c) || c == '-'
    ensures !IsSpace(c) && !IsIllegal(c) && !IsControl(c)
  {}

  /** Digits, letters and dashes alone: nothing to trim, nothing to replace. */
  lemma PlainIsKept(s: string)
    requires s != "" && forall i :: 0 <= i < |s| ==> IsAlnum(s[i]) || s[i] == '-'
    ensures TrimSpace(s) == s && SanitizeValue(s) == s
  {
    forall i | 0 <= i < |s| ensures !IsSpace(s[i]) && !IsIllegal(s[i]) && !IsControl(s[i]) {
      AlnumIsPlain(s[i]);
    }
    Untrimmed(s);
    CleanIsUnchanged(s);
  }

  lemma DateIsPlain(s: Stamp)
    ensures forall i :: 0 <= i < |DateText(s)| ==> IsAlnum(DateText(s)[i]) || DateText(s)[i] == '-'
    ensures forall i :: 0 <= i < |TimeText(s)| ==> IsAlnum(TimeText(s)[i]) || TimeText(s)[i] == '-'
  {}

  lemma TextsResolve(host: Host, f: Fields)
    requires Clean(host, f)
    ensures Resolved(f).author == f.author && SanitizeValue(f.author) == f.author
    ensures Resolved(f).title == f.title && SanitizeValue(f.title) == f.title
  {
    Untrimmed(f.author);
    CleanIsUnchanged(f.author);
    Untrimmed(f.title);
    CleanIsUnchanged(f.title);
  }

  lemma StampsResolve(f: Fields)
    requires Fits(Ext, WithoutDot(f.extension))
    ensures var v, p := SafeValues(Resolved(f)), PrintedOf(f);
      v.year == p.year && v.date == p.date && v.time == p.time && v.ext == p.ext
  {
    DateIsPlain(f.started);
    PlainIsKept(DateText(f.started));
    PlainIsKept(TimeText(f.started));
    PlainIsKept(Digits(f.started.year, 4));
    PlainIsKept(WithoutDot(f.extension));
  }

  lemma ResolvesToItself(host: Host, f: Fields)
    requires Clean(host, f)
    ensures var v, p := SafeValues(Resolved(f)), PrintedOf(f);
      && v.author == p.author && v.year == p.year && v.date == p.date && v.time == p.time
      && v.title == p.title && v.ext == p.ext
  {
    TextsResolve(host, f);
    StampsResolve(f);
  }

  // ----- the components it prints -----

  function StemOf(p: Printed): string { p.author + " - " + p.date + " " + p.time + " - " + p.title }

  function FileOf(p: Printed): string { StemOf(p) + "." + p.ext }

  function DirOf(p: Printed): string { p.author + "/" + p.year + "/" }

  function SegmentsOf(p: Printed): seq<string> { [p.author, p.year, FileOf(p)] }

  lemma FileIsAuthorAndTail(p: Printed)
    ensures FileOf(p) == p.author + Tail(p.date, p.time, p.title, p.ext)
    ensures NameOf(p) == DirOf(p) + FileOf(p)
    ensures NameOf(p) == p.author + ("/" + (p.year + ("/" + FileOf(p))))
  {
    assert FileOf(p) == p.author + Tail(p.date, p.time, p.title, p.ext);
    assert DirOf(p) + FileOf(p) == p.author + ("/" + (p.year + ("/" + FileOf(p))));
  }

  lemma {:induction false} SplitAtSlash(a: string, rest: string)
    requires '/' !in a
    ensures Split(a + ("/" + rest)) == [a] + Split(rest)
  {
    var s := a + ("/" + rest);
    if a == "" {
      assert s[0] == '/' && s[1..] == rest;
    } else {
      assert s[0] == a[0] && s[1..] == a[1..] + ("/" + rest);
      SplitAtSlash(a[1..], rest);
      assert [a[0]] + a[1..] == a;
    }
  }

  lemma AlnumIsClean(s: string)
    requires forall i :: 0 <= i < |s| ==> IsAlnum(s[i]) || s[i] == '-'
    ensures AllClean(s)
  {
    forall i | 0 <= i < |s| ensures !IsIllegal(s[i]) && !IsControl(s[i]) { AlnumIsPlain(s[i]); }
  }

  lemma TimeIsClean(t: string)
    requires Fits(Time, t)
    ensures AllClean(t)
  {
    assert t[..2][0] == t[0] && t[..2][1] == t[1] && t[3..][0] == t[3] && t[3..][1] == t[4];
    AlnumIsClean(t);
  }

  lemma PrintedIsClean(host: Host, p: Printed)
    requires Printable(host, p)
    ensures AllClean(p.author) && AllClean(p.year) && AllClean(p.date) && AllClean(p.time)
      && AllClean(p.title) && AllClean(p.ext)
  {
    AlnumIsClean(p.year);
    AlnumIsClean(p.ext);
    DateIsClean(p.date);
    TimeIsClean(p.time);
  }

  lemma DateIsClean(d: string)
    requires Fits(Date, d)
    ensures AllClean(d)
  {
    forall i | 0 <= i < 10 ensures IsDigit(d[i]) || d[i] == '-' {
      if i < 4 {
        assert d[..4][i] == d[i];
      } else if 5 <= i < 7 {
        assert d[5..7][i - 5] == d[i];
      } else if 8 <= i {
        assert d[8..][i - 8] == d[i];
      }
    }
  }

  lemma CleanJoins(a: string, b: string)
    requires AllClean(a) && AllClean(b)
    ensures AllClean(a + b)
  {}

  lemma StemIsClean(host: Host, p: Printed)
    requires Printable(host, p)
    ensures AllClean(StemOf(p)) && AllClean(FileOf(p))
  {
    PrintedIsClean(host, p);
    CleanJoins(p.author, " - ");
    CleanJoins(p.author + " - ", p.date);
    CleanJoins(p.author + " - " + p.date, " ");
    CleanJoins(p.author + " - " + p.date + " ", p.time);
    CleanJoins(p.author + " - " + p.date + " " + p.time, " - ");
    CleanJoins(p.author + " - " + p.date + " " + p.time + " - ", p.title);
    CleanJoins(StemOf(p), ".");
    CleanJoins(StemOf(p) + ".", p.ext);
  }

  lemma NoSpaceInAName(name: string, i: nat)
    requires i < |name| && name[i] == ' '
    ensures !IsDevice(name) && !IsLibraryName(name)
  {
    if |name| == 4 && i < 3 { assert name[..3][i] == ' '; }
  }

  lemma {:induction false} StemStopsAtDot(s: string, n: nat)
    requires n < |s| && s[n] == '.' && '.' !in s[..n]
    ensures Stem(s) == s[..n]
  {
    if n > 0 {
      assert s[0] == s[..n][0] && s[..n][1..] == s[1..][..n - 1];
      StemStopsAtDot(s[1..], n - 1);
      assert s[..n] == [s[0]] + s[1..][..n - 1];
    }
  }

  lemma {:induction false} StemPassesDotless(a: string, s: string)
    requires '.' !in a
    ensures Stem(a + s) == a + Stem(s)
  {
    if a == "" {
      assert a + s == s;
    } else {
      assert (a + s)[1..] == a[1..] + s;
      StemPassesDotless(a[1..], s);
    }
  }

  /** What follows a safe author with a space is no device and no library name. */
  lemma AuthoredIsNoName(host: Host, a: string, tail: string)
    requires Safe(host, a) && tail != "" && tail[0] == ' '
    ensures !IsDevice(Lower(Stem(a + tail))) && !IsLibraryName(Lower(a + tail))
  {
    NoSpaceInAName(Lower(a + tail), |a|);
    if '.' in a {
      var n := |Stem(a)|;
      NotWholeStem(a);
      assert (a + tail)[..n] == a[..n];
      StemStopsAtDot(a + tail, n);
    } else {
      StemPassesDotless(a, tail);
      NoSpaceInAName(Lower(a + Stem(tail)), |a|);
    }
  }

  lemma NotWholeStem(a: string)
    requires '.' in a
    ensures |Stem(a)| < |a|
  {
    assert a[..|a|] == a;
  }

  lemma FileIsSafe(host: Host, p: Printed)
    requires Printable(host, p) && host.local(FileOf(p))
    ensures Safe(host, FileOf(p))
  {
    var file, tail := FileOf(p), Tail(p.date, p.time, p.title, p.ext);
    FileIsAuthorAndTail(p);
    StemIsClean(host, p);
    AuthoredIsNoName(host, p.author, tail);
    assert file[0] == p.author[0] && file[|file| - 1] == p.ext[|p.ext| - 1];
    AlnumIsPlain(p.ext[|p.ext| - 1]);
    assert file != "." && file != "..";
  }

  lemma NoDigitLeadsAName(name: string)
    requires name != "" && IsDigit(name[0])
    ensures !IsDevice(name) && !IsLibraryName(name)
  {
    if |name| == 4 { assert name[..3][0] == name[0]; }
  }

  lemma YearIsSafe(host: Host, year: string)
    requires Fits(Year, year) && host.local(year)
    ensures Safe(host, year)
  {
    forall i | 0 <= i < 4 ensures !IsSpace(year[i]) && !IsIllegal(year[i]) && !IsControl(year[i]) {
      AlnumIsPlain(year[i]);
    }
    var low := Lower(year);
    assert low[0] == year[0] && IsDigit(low[0]);
    StemPassesDotless(year, "");
    assert year + "" == year;
    NoDigitLeadsAName(low);
  }

  lemma CleanHasNoSeparator(s: string)
    requires AllClean(s)
    ensures NoSeparator(s) && '/' !in s && '\\' !in s && '\n' !in s
  {}

  lemma NameHasComponents(host: Host, p: Printed)
    requires Printable(host, p)
    ensures ToSlash(NameOf(p)) == NameOf(p) && Split(NameOf(p)) == SegmentsOf(p)
  {
    PrintedIsClean(host, p);
    StemIsClean(host, p);
    FileIsAuthorAndTail(p);
    CleanHasNoSeparator(p.author);
    CleanHasNoSeparator(p.year);
    CleanHasNoSeparator(FileOf(p));
    SplitAtSlash(p.author, p.year + ("/" + FileOf(p)));
    SplitAtSlash(p.year, FileOf(p));
    SplitWhole(FileOf(p));
    assert [p.author] + ([p.year] + [FileOf(p)]) == SegmentsOf(p);
    NoBackslash(p.author, p.year, FileOf(p), NameOf(p));
  }

  lemma NoBackslash(a: string, b: string, c: string, s: string)
    requires '\\' !in a && '\\' !in b && '\\' !in c && s == a + ("/" + (b + ("/" + c)))
    ensures ToSlash(s) == s
  {
    assert '\\' !in s;
  }

  lemma {:induction false} SafeAllKept(host: Host, segments: seq<string>)
    requires forall i :: 0 <= i < |segments| ==> Safe(host, segments[i])
    ensures SanitizeAll(host, segments) == Some(segments)
  {
    if segments != [] {
      SafeIsUnchanged(host, segments[0]);
      SafeAllKept(host, segments[1..]);
      assert [segments[0]] + segments[1..] == segments;
    }
  }

  /** A render that shortened nothing is of the values as they were. */
  lemma UnshortenedIsWhole(host: Host, parts: seq<Part>, safe: Values)
    requires RenderSafe(host, parts, safe).Ok? && !RenderSafe(host, parts, safe).value.shortened
    ensures SanitizeAll(host, Components(parts, safe)) == Some(RenderSafe(host, parts, safe).value.segments)
  {
    assert Fitted(parts, safe).value == safe;
  }

  lemma ComponentsOfName(host: Host, f: Fields)
    requires Clean(host, f)
    ensures Components(DEFAULT, SafeValues(Resolved(f))) == SegmentsOf(PrintedOf(f))
  {
    PrintedIsPrintable(host, f);
    ResolvesToItself(host, f);
    DefaultExpands(SafeValues(Resolved(f)));
    NameHasComponents(host, PrintedOf(f));
  }

  lemma SegmentsAreKept(host: Host, p: Printed)
    requires Printable(host, p) && host.local(p.year) && host.local(FileOf(p))
    ensures SanitizeAll(host, SegmentsOf(p)) == Some(SegmentsOf(p))
  {
    YearIsSafe(host, p.year);
    FileIsSafe(host, p);
    var s := SegmentsOf(p);
    forall i | 0 <= i < 3 ensures Safe(host, s[i]) {
      assert s[i] == p.author || s[i] == p.year || s[i] == FileOf(p);
    }
    SafeAllKept(host, s);
  }

  lemma RenderedIsSafe(host: Host, parts: seq<Part>, f: Fields)
    requires Render(host, parts, f).Ok?
    ensures Render(host, parts, f) == RenderSafe(host, parts, SafeValues(Resolved(f)))
  {}

  /** Render shortens nothing of a clean recording's name, and the host takes its components. */
  predicate RendersWhole(host: Host, f: Fields) {
    && Clean(host, f) && Render(host, DEFAULT, f).Ok? && !Render(host, DEFAULT, f).value.shortened
    && host.local(PrintedOf(f).year) && host.local(FileOf(PrintedOf(f)))
  }

  /** Render prints the name whole: the author, the year, and the file under them. */
  lemma RenderPrints(host: Host, f: Fields)
    requires RendersWhole(host, f)
    ensures Render(host, DEFAULT, f).value.segments == SegmentsOf(PrintedOf(f))
  {
    var safe := SafeValues(Resolved(f));
    RenderedIsSafe(host, DEFAULT, f);
    UnshortenedIsWhole(host, DEFAULT, safe);
    PrintedIsPrintable(host, f);
    SegmentsAreKept(host, PrintedOf(f));
    ComponentsOfName(host, f);
  }

  // ----- reading its candidates -----

  /** The k-th name Render's result may take. */
  function RenderedPath(host: Host, f: Fields, k: nat): Option<string>
    requires 1 <= k
  {
    match Render(host, DEFAULT, f)
    case Err(_) => None
    case Ok(r) => if r.segments == [] then None else Some(Join(Candidate(r.segments, k)))
  }

  lemma RenderedPathIs(host: Host, f: Fields, k: nat)
    requires RendersWhole(host, f) && 1 <= k
    ensures RenderedPath(host, f, k) == Some(PathOf(PrintedOf(f), k))
  {
    RenderPrints(host, f);
  }

  /** The k-th candidate's path. */
  function PathOf(p: Printed, k: nat): string
    requires 1 <= k
  {
    Join(Candidate(SegmentsOf(p), k))
  }

  lemma PathIs(p: Printed, k: nat)
    requires 1 <= k
    ensures PathOf(p, k) == DirOf(p) + (if k == 1 then FileOf(p) else Marked(FileOf(p), k))
  {
    var file := if k == 1 then FileOf(p) else Marked(FileOf(p), k);
    var c := Candidate(SegmentsOf(p), k);
    assert c == [p.author, p.year, file];
    assert c[1..] == [p.year, file] && [p.year, file][1..] == [file];
    assert Join([p.year, file]) == p.year + "/" + file;
    assert Join(c) == p.author + "/" + (p.year + "/" + file);
    assert p.author + "/" + (p.year + "/" + file) == DirOf(p) + file;
  }

  lemma PathIsPlain(host: Host, p: Printed, k: nat)
    requires Printable(host, p) && 1 <= k
    ensures ToSlash(PathOf(p, k)) == PathOf(p, k)
  {
    PathIs(p, k);
    PrintedIsClean(host, p);
    StemIsClean(host, p);
    CleanHasNoSeparator(p.author);
    CleanHasNoSeparator(p.year);
    CleanHasNoSeparator(StemOf(p));
    MarkPrecedesTheExt(StemOf(p), p.ext, k);
    DecimalReads(k);
    assert '\\' !in Mark(k);
    CleanHasNoSeparator(p.ext);
    var path := PathOf(p, k);
    assert '\\' !in DirOf(p);
    assert '\\' !in path;
    assert ToSlash(path) == path;
  }

  lemma StemIsOneLine(host: Host, p: Printed)
    requires Printable(host, p)
    ensures '/' !in StemOf(p) && '\n' !in StemOf(p) && AllAlnum(p.ext)
  {
    StemIsClean(host, p);
    CleanHasNoSeparator(StemOf(p));
  }

  /** The k-th candidate, without the mark it carries, is the name Render printed. */
  lemma CandidateUnmarks(p: Printed, k: nat)
    requires '/' !in StemOf(p) && '\n' !in StemOf(p) && AllAlnum(p.ext) && 2 <= k <= MAX_DUPLICATES
    ensures SplitDuplicate(PathOf(p, k)) == (NameOf(p), k)
  {
    PathIs(p, k);
    FileIsAuthorAndTail(p);
    MarkComesOff(DirOf(p), StemOf(p), p.ext, k);
  }

  /** The fields a printed name reads back as. */
  function ReadOf(f: Fields, duplicate: nat): Matched {
    Matched("", "", f.author, f.title, "", Some(f.started), WithoutDot(f.extension), duplicate,
            LossyAmong(FREE_TEXT, FoldedOf(PrintedOf(f))))
  }

  lemma FoldedReads(f: Fields, duplicate: nat)
    requires ValidStamp(f.started)
    ensures FieldsOf(FoldedOf(PrintedOf(f)), duplicate) == Ok(ReadOf(f, duplicate))
  {
    PrintedStampReads(FoldedOf(PrintedOf(f)), f.started);
  }

  /** Printer and parser undo each other, whatever separators the author and the title hold: every
      name after the first that a collision may push a recording to reads back as the author, the
      title, the start and the extension it was printed from, and as the duplicate it is. */
  lemma DuplicatesReadBack(host: Host, f: Fields, k: nat)
    requires RendersWhole(host, f) && 2 <= k <= MAX_DUPLICATES
    ensures RenderedPath(host, f, k).Some?
      && MatchPath(host, DEFAULT, RenderedPath(host, f, k).value) == Ok(ReadOf(f, k))
  {
    RenderedPathIs(host, f, k);
    DuplicatePathReadsBack(host, f, k);
  }

  lemma DuplicatePathReadsBack(host: Host, f: Fields, k: nat)
    requires Clean(host, f) && 2 <= k <= MAX_DUPLICATES
    ensures MatchPath(host, DEFAULT, PathOf(PrintedOf(f), k)) == Ok(ReadOf(f, k))
  {
    var p := PrintedOf(f);
    PrintedIsPrintable(host, f);
    PathIsPlain(host, p, k);
    StemIsOneLine(host, p);
    CandidateUnmarks(p, k);
    PrintedNameReads(host, p);
    FoldedReads(f, k);
  }

  /** The title is "(n)", or ends in " (n)", for some n a duplicate could carry. */
  ghost predicate Numbered(title: string) {
    exists n :: Carries(" " + title, n)
  }

  lemma MarkHasOneSpace(n: nat, i: nat)
    requires 0 < i < |Mark(n)|
    ensures Mark(n)[i] != ' '
  {
    DecimalReads(n);
  }

  lemma SuffixOf(s: string, t: string, suffix: string)
    requires |suffix| <= |t|
    ensures HasSuffix(s + t, suffix) <==> HasSuffix(t, suffix)
  {
    assert (s + t)[|s + t| - |suffix|..] == t[|t| - |suffix|..];
  }

  lemma TitleCarries(p: Printed, n: nat)
    ensures Carries(StemOf(p), n) <==> Carries(" " + p.title, n)
  {
    var head, end := p.author + " - " + p.date + " " + p.time + " -", " " + p.title;
    assert StemOf(p) == head + end;
    if |Mark(n)| <= |end| {
      SuffixOf(head, end, Mark(n));
    } else if Carries(StemOf(p), n) {
      var i := |Mark(n)| - |end|;
      assert Mark(n)[i] == StemOf(p)[|StemOf(p)| - |Mark(n)|..][i] == StemOf(p)[|head|] == ' ';
      MarkHasOneSpace(n, i);
    }
  }

  lemma FirstNameIsWhole(p: Printed)
    requires '/' !in StemOf(p) && '\n' !in StemOf(p) && AllAlnum(p.ext)
    ensures SplitDuplicate(PathOf(p, 1)).1 == 0 <==> !Numbered(p.title)
    ensures SplitDuplicate(PathOf(p, 1)).1 == 0 ==> SplitDuplicate(PathOf(p, 1)).0 == NameOf(p)
  {
    PathIs(p, 1);
    FileIsAuthorAndTail(p);
    UnmarkedIsWhole(DirOf(p), StemOf(p), p.ext);
    forall n ensures Carries(StemOf(p), n) <==> Carries(" " + p.title, n) { TitleCarries(p, n); }
  }

  lemma ReadWhole(host: Host, parts: seq<Part>, path: string, values: Captured)
    requires SplitDuplicate(ToSlash(path)).1 == 0 ==>
      CaptureBoth(host, parts, SplitDuplicate(ToSlash(path)).0) == Ok(values)
    requires FieldsOf(values, 0).Ok? && FieldsOf(values, 0).value.duplicate == 0
    ensures MatchPath(host, parts, path) == FieldsOf(values, 0) <==> SplitDuplicate(ToSlash(path)).1 == 0
  {}

  /** The rendered name itself reads back exactly when its title neither is nor ends in a mark. */
  lemma FirstNameReadsBack(host: Host, f: Fields)
    requires RendersWhole(host, f)
    ensures RenderedPath(host, f, 1).Some?
    ensures MatchPath(host, DEFAULT, RenderedPath(host, f, 1).value) == Ok(ReadOf(f, 0)) <==> !Numbered(f.title)
  {
    RenderedPathIs(host, f, 1);
    FirstPathReadsBack(host, f);
  }

  /** A title that is a mark and nothing else loses its text, though it holds no space to end in one. */
  lemma MarkAloneIsLost(host: Host, f: Fields)
    requires RendersWhole(host, f) && f.title == "(2)"
    ensures RenderedPath(host, f, 1).Some?
    ensures MatchPath(host, DEFAULT, RenderedPath(host, f, 1).value) != Ok(ReadOf(f, 0))
  {
    MarkIsNumbered();
    FirstNameReadsBack(host, f);
  }

  lemma MarkIsNumbered()
    ensures Numbered("(2)")
  {
    assert Decimal(2) == "2";
    assert " " + "(2)" == Mark(2);
    assert Carries(" " + "(2)", 2);
  }

  lemma FirstPathReadsBack(host: Host, f: Fields)
    requires Clean(host, f)
    ensures MatchPath(host, DEFAULT, PathOf(PrintedOf(f), 1)) == Ok(ReadOf(f, 0)) <==> !Numbered(f.title)
  {
    var p := PrintedOf(f);
    PrintedIsPrintable(host, f);
    PathIsPlain(host, p, 1);
    StemIsOneLine(host, p);
    FirstNameIsWhole(p);
    PrintedNameReads(host, p);
    FoldedReads(f, 0);
    ReadWhole(host, DEFAULT, PathOf(p, 1), FoldedOf(p));
  }
}
