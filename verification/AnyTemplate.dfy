/** Any template undone: where a name reads one way, the fields it names come back as they were printed. */
module AnyTemplate {
  import opened Basics
  import opened Text
  import opened Numerals
  import opened Sanitize
  import opened Template
  import opened Rendering
  import opened Matching
  import opened Duplicates
  import opened ReadBack
  import opened Dates
  import opened Match
  import R = RoundTrip

  // ----- what is printed -----

  /** Text as a name carries it: trimmed, and with nothing a component may not hold. */
  function Carried(text: string): string { SanitizeValue(TrimSpace(text)) }

  /** What a recording prints for each placeholder. */
  function PrintedAs(f: Fields, p: Placeholder): string {
    match p
    case Platform => Carried(f.platform)
    case Channel => Carried(f.channel)
    case Author => Carried(if TrimSpace(f.author) == "" && TrimSpace(f.channel) != "" then f.channel else f.author)
    case Title => Carried(f.title)
    case Category => Carried(f.category)
    case Date => Digits(f.started.year, 4) + "-" + Digits(f.started.month, 2) + "-" + Digits(f.started.day, 2)
    case Time => Digits(f.started.hour, 2) + "-" + Digits(f.started.minute, 2)
    case Year => Digits(f.started.year, 4)
    case Month => Digits(f.started.month, 2)
    case Day => Digits(f.started.day, 2)
    case Ext => Carried(if f.extension != "" && f.extension[0] == '.' then f.extension[1..] else f.extension)
  }

  function PrintedAll(f: Fields, names: seq<Placeholder>): (v: seq<string>)
    ensures |v| == |names| && forall i :: 0 <= i < |v| ==> v[i] == PrintedAs(f, names[i])
  {
    seq(|names|, i requires 0 <= i < |names| => PrintedAs(f, names[i]))
  }

  lemma DigitsPrint(n: nat, width: nat)
    requires width > 0
    ensures Carried(Digits(n, width)) == Digits(n, width)
  {
    R.PlainIsKept(Digits(n, width));
  }

  lemma ClocksPrint(s: Stamp)
    ensures Carried(DateText(s)) == DateText(s) && Carried(TimeText(s)) == TimeText(s)
  {
    R.DateIsPlain(s);
    R.PlainIsKept(DateText(s));
    R.PlainIsKept(TimeText(s));
  }

  lemma SafeIsCarried(f: Fields)
    ensures var v, s := SafeValues(Resolved(f)), f.started;
      && v.date == Carried(DateText(s)) && v.time == Carried(TimeText(s)) && v.year == Carried(Digits(s.year, 4))
      && v.month == Carried(Digits(s.month, 2)) && v.day == Carried(Digits(s.day, 2))
  {}

  lemma TextPrints(f: Fields)
    ensures var v := SafeValues(Resolved(f));
      && v.platform == Carried(f.platform) && v.channel == Carried(f.channel)
      && v.title == Carried(f.title) && v.category == Carried(f.category)
  {}

  lemma AuthorPrints(f: Fields)
    ensures SafeValues(Resolved(f)).author == PrintedAs(f, Author)
  {}

  lemma ExtPrints(f: Fields)
    ensures SafeValues(Resolved(f)).ext == PrintedAs(f, Ext)
  {
    var e := if f.extension != "" && f.extension[0] == '.' then f.extension[1..] else f.extension;
    assert WithoutDot(f.extension) == e;
    assert PrintedAs(f, Ext) == Carried(e);
    assert Resolved(f).ext == TrimSpace(e);
  }

  lemma PrintsAs(f: Fields, p: Placeholder)
    ensures SafeValues(Resolved(f)).Get(p) == PrintedAs(f, p)
  {
    match p
    case Author => AuthorPrints(f);
    case Ext => ExtPrints(f);
    case _ =>
      if IsFree(p) {
        TextPrints(f);
      } else {
        DatePrints(f, p);
      }
  }

  lemma DatePrints(f: Fields, p: Placeholder)
    requires !IsFree(p) && !p.Ext?
    ensures SafeValues(Resolved(f)).Get(p) == PrintedAs(f, p)
  {
    SafeIsCarried(f);
    match p
    case Date => ClocksPrint(f.started);
    case Time => ClocksPrint(f.started);
    case Year => DigitsPrint(f.started.year, 4);
    case Month => DigitsPrint(f.started.month, 2);
    case Day => DigitsPrint(f.started.day, 2);
  }

  lemma {:induction false} LiteralExpands(text: string, parts: seq<Part>, f: Fields)
    requires parts != [] && parts[0] == Lit(text)
    requires ToSlash(Expand(parts[1..], SafeValues(Resolved(f)))) ==
             Written(parts[1..], PrintedAll(f, Names(parts[1..])))
    ensures ToSlash(Expand(parts, SafeValues(Resolved(f)))) == Written(parts, PrintedAll(f, Names(parts)))
  {
    ToSlashConcat(text, Expand(parts[1..], SafeValues(Resolved(f))));
  }

  lemma {:induction false} ValueExpands(p: Placeholder, parts: seq<Part>, f: Fields)
    requires parts != [] && parts[0] == Hole(p)
    requires ToSlash(Expand(parts[1..], SafeValues(Resolved(f)))) ==
             Written(parts[1..], PrintedAll(f, Names(parts[1..])))
    ensures ToSlash(Expand(parts, SafeValues(Resolved(f)))) == Written(parts, PrintedAll(f, Names(parts)))
  {
    ToSlashConcat(SafeValues(Resolved(f)).Get(p), Expand(parts[1..], SafeValues(Resolved(f))));
    PrintedHasNoSlash(f, p);
    FirstPrinted(p, parts, f);
  }

  lemma PrintedHasNoSlash(f: Fields, p: Placeholder)
    ensures ToSlash(SafeValues(Resolved(f)).Get(p)) == PrintedAs(f, p)
  {
    PrintsAs(f, p);
    SafeValuesAreSeparated(Resolved(f));
    ToSlashWhole(SafeValues(Resolved(f)).Get(p));
  }

  lemma {:induction false} FirstPrinted(p: Placeholder, parts: seq<Part>, f: Fields)
    requires parts != [] && parts[0] == Hole(p)
    ensures Written(parts, PrintedAll(f, Names(parts))) ==
      PrintedAs(f, p) + Written(parts[1..], PrintedAll(f, Names(parts[1..])))
  {
    assert PrintedAll(f, Names(parts))[1..] == PrintedAll(f, Names(parts[1..]));
  }

  lemma {:induction false} ExpandsToWritten(parts: seq<Part>, f: Fields)
    ensures ToSlash(Expand(parts, SafeValues(Resolved(f)))) == Written(parts, PrintedAll(f, Names(parts)))
    decreases |parts|
  {
    if parts == [] {
      assert ToSlash("") == "";
    } else {
      ExpandsToWritten(parts[1..], f);
      match parts[0]
      case Lit(text) => LiteralExpands(text, parts, f);
      case Hole(p) => ValueExpands(p, parts, f);
    }
  }

  lemma JoinAfterSlash(rest: seq<string>)
    requires rest != []
    ensures Join([""] + rest) == "/" + Join(rest)
  {
    assert ([""] + rest)[1..] == rest;
    assert "" + "/" + Join(rest) == "/" + Join(rest);
  }

  lemma JoinGrows(c: char, rest: seq<string>)
    requires rest != []
    ensures Join([[c] + rest[0]] + rest[1..]) == [c] + Join(rest)
  {
    var grown := [[c] + rest[0]] + rest[1..];
    assert grown[1..] == rest[1..];
    if |rest| > 1 {
      assert ([c] + rest[0]) + "/" + Join(rest[1..]) == [c] + (rest[0] + "/" + Join(rest[1..]));
    }
  }

  lemma {:induction false} JoinUndoesSplit(s: string)
    ensures Join(Split(s)) == s
  {
    if s != [] {
      JoinUndoesSplit(s[1..]);
      if s[0] == '/' {
        JoinAfterSlash(Split(s[1..]));
      } else {
        JoinGrows(s[0], Split(s[1..]));
      }
      assert s == [s[0]] + s[1..];
    }
  }

  /** The name is printed whole: its title was not shortened, and sanitizing changed no component. */
  predicate PrintsWhole(host: Host, parts: seq<Part>, f: Fields) {
    && Render(host, parts, f).Ok? && !Render(host, parts, f).value.shortened
    && Render(host, parts, f).value.segments == Components(parts, SafeValues(Resolved(f)))
  }

  /** The name printed. */
  function NameOf(parts: seq<Part>, f: Fields): string { Written(parts, PrintedAll(f, Names(parts))) }

  lemma RendersItsName(host: Host, parts: seq<Part>, f: Fields)
    requires PrintsWhole(host, parts, f)
    ensures Join(Render(host, parts, f).value.segments) == NameOf(parts, f)
  {
    ExpandsToWritten(parts, f);
    JoinUndoesSplit(NameOf(parts, f));
  }

  // ----- that it is a reading -----

  /** The time is a real one, and a named extension is letters and digits. */
  predicate Readable(parts: seq<Part>, f: Fields) {
    ValidStamp(f.started) && (Ext in Names(parts) ==> Fits(Ext, PrintedAs(f, Ext)))
  }

  lemma {:induction false} NothingIsMissing(parts: seq<Part>, v: Values, p: Placeholder)
    requires MissingFrom(parts, v) == {} && p in Names(parts)
    ensures v.Get(p) != ""
  {
    NamedByAHole(parts, p);
    assert v.Get(p) == "" ==> p in MissingFrom(parts, v);
  }

  lemma {:induction false} NamedByAHole(parts: seq<Part>, p: Placeholder)
    requires p in Names(parts)
    ensures exists i :: 0 <= i < |parts| && parts[i] == Hole(p)
    decreases |parts|
  {
    if parts[0] != Hole(p) {
      NamedByAHole(parts[1..], p);
      var i :| 0 <= i < |parts[1..]| && parts[1..][i] == Hole(p);
      assert parts[i + 1] == Hole(p);
    }
  }

  lemma FreeTextFits(host: Host, parts: seq<Part>, f: Fields, p: Placeholder)
    requires PrintsWhole(host, parts, f) && p in Names(parts) && IsFree(p)
    ensures Fits(p, PrintedAs(f, p))
  {
    NothingIsMissing(parts, Resolved(f), p);
    PrintsAs(f, p);
    assert PrintedAs(f, p) == SanitizeValue(Resolved(f).Get(p));
    SanitizedIsClean(Resolved(f).Get(p));
  }

  lemma StampsFit(f: Fields, p: Placeholder)
    requires ValidStamp(f.started) && !IsFree(p) && !p.Ext?
    ensures Fits(p, PrintedAs(f, p))
  {
    DateTextReads(f.started);
    TimeTextReads(f.started);
    FourIsWhole(f.started.year);
  }

  lemma PrintedFits(host: Host, parts: seq<Part>, f: Fields, p: Placeholder)
    requires PrintsWhole(host, parts, f) && Readable(parts, f) && p in Names(parts)
    ensures Fits(p, PrintedAs(f, p))
  {
    if IsFree(p) {
      FreeTextFits(host, parts, f, p);
    } else if !p.Ext? {
      StampsFit(f, p);
    }
  }

  lemma FourIsWhole(n: nat)
    ensures Digits(n, 4)[..4] == Digits(n, 4)
  {}

  lemma PrintedSpells(host: Host, parts: seq<Part>, f: Fields)
    requires PrintsWhole(host, parts, f) && Readable(parts, f)
    ensures Spells(parts, PrintedAll(f, Names(parts)), NameOf(parts, f), FREE_OF_PINS)
  {
    var names := Names(parts);
    forall i | 0 <= i < |names| ensures Takes(names[i], PrintedAll(f, names)[i], FREE_OF_PINS) {
      PrintedFits(host, parts, f, names[i]);
    }
    WrittenIsSpelled(parts, PrintedAll(f, names), FREE_OF_PINS);
  }

  /** The name reads one way. */
  ghost predicate ReadsOneWay(parts: seq<Part>, s: string) { exists v :: OnlyOne(parts, s, v) }

  /** What is read is what was printed, under each name the template has and no other. */
  predicate Reads(values: Captured, f: Fields, names: seq<Placeholder>) {
    && (forall p :: p in values <==> p in names)
    && (forall p :: p in names ==> p in values && values[p] == PrintedAs(f, p))
  }

  lemma OnlyReadingIsCaptured(host: Host, parts: seq<Part>, s: string, v: seq<string>)
    requires NamesNothingTwice(parts) && OnlyOne(parts, s, v)
    ensures |v| == |Names(parts)| && CaptureBoth(host, parts, s).Ok?
    ensures var values := CaptureBoth(host, parts, s).value;
      Literal(values, Names(parts), v) && forall p :: p in values ==> p in Names(parts)
  {
    ReadingFillsEveryHole(parts, v, s, FREE_OF_PINS);
    AgreementDecides(parts, s, v);
    CollapseOfDistinct(host, map[], Names(parts), v);
    CollapsedFromNothing(host, Names(parts), v);
    assert CaptureBoth(host, parts, s) == Ok(CollapseFrom(host, map[], Names(parts), v).value);
  }

  lemma LiteralReads(values: Captured, f: Fields, names: seq<Placeholder>)
    requires Literal(values, names, PrintedAll(f, names)) && forall p :: p in values ==> p in names
    ensures Reads(values, f, names)
  {
    forall p | p in names ensures p in values && values[p] == PrintedAs(f, p) {
      var i :| 0 <= i < |names| && names[i] == p;
    }
  }

  lemma PrintedIsCaptured(host: Host, parts: seq<Part>, f: Fields)
    requires PrintsWhole(host, parts, f) && Readable(parts, f) && NamesNothingTwice(parts)
    requires ReadsOneWay(parts, NameOf(parts, f))
    ensures CaptureBoth(host, parts, NameOf(parts, f)).Ok?
    ensures Reads(CaptureBoth(host, parts, NameOf(parts, f)).value, f, Names(parts))
  {
    var v :| OnlyOne(parts, NameOf(parts, f), v);
    PrintedSpells(host, parts, f);
    assert v == PrintedAll(f, Names(parts));
    OnlyReadingIsCaptured(host, parts, NameOf(parts, f), v);
    LiteralReads(CaptureBoth(host, parts, NameOf(parts, f)).value, f, Names(parts));
  }

  // ----- the start it reads -----

  /** The start a name tells: a whole date, spelled out or in parts, and midnight where it has no clock. */
  function ToldStart(f: Fields, names: seq<Placeholder>): Option<Stamp> {
    if Date in names || (Year in names && Month in names && Day in names) then
      Some(if Time in names then f.started else f.started.(hour := 0, minute := 0))
    else None
  }

  lemma PartReads(f: Fields, names: seq<Placeholder>, values: Captured, so: Parts, p: Placeholder, n: nat)
    requires Reads(values, f, names) && (p in so ==> so[p] == n)
    requires PrintedAs(f, p) != "" && AllDigits(PrintedAs(f, p)) && ValueOf(PrintedAs(f, p)) == n
    ensures AddPart(so, p, values) == Ok(if p in names then so[p := n] else so)
  {}

  function WithPart(so: Parts, names: seq<Placeholder>, p: Placeholder, n: nat): Parts {
    if p in names then so[p := n] else so
  }

  lemma DateReads(f: Fields, names: seq<Placeholder>, values: Captured)
    requires Reads(values, f, names) && ValidStamp(f.started)
    ensures FromDate(values) ==
      Ok(if Date in names then map[Year := f.started.year, Month := f.started.month, Day := f.started.day] else map[])
  {
    DateTextReads(f.started);
    FourDigits(f.started.year);
    TwoDigits(f.started.month);
    TwoDigits(f.started.day);
  }

  lemma DatePartsAre(f: Fields, names: seq<Placeholder>, values: Captured)
    requires Reads(values, f, names) && ValidStamp(f.started)
    requires FromDate(values).Ok? && var so := FromDate(values).value;
      && (Year in so ==> so[Year] == f.started.year) && (Month in so ==> so[Month] == f.started.month)
      && (Day in so ==> so[Day] == f.started.day)
    ensures var s := f.started;
      DateParts(values) == Ok(WithPart(WithPart(WithPart(FromDate(values).value, names, Year, s.year), names, Month,
                                                s.month), names, Day, s.day))
  {
    var s := f.started;
    FourDigits(s.year);
    TwoDigits(s.month);
    TwoDigits(s.day);
    var so := FromDate(values).value;
    var y := WithPart(so, names, Year, s.year);
    var m := WithPart(y, names, Month, s.month);
    PartReads(f, names, values, so, Year, s.year);
    PartReads(f, names, values, y, Month, s.month);
    PartReads(f, names, values, m, Day, s.day);
    ThreeParts(so, values, y, m, WithPart(m, names, Day, s.day));
  }

  lemma ThreeParts(so: Parts, values: Captured, y: Parts, m: Parts, d: Parts)
    requires AddPart(so, Year, values) == Ok(y) && AddPart(y, Month, values) == Ok(m)
    requires AddPart(m, Day, values) == Ok(d)
    ensures AddParts(so, CALENDAR, values) == Ok(d)
  {
    assert CALENDAR[1..] == [Month, Day] && [Month, Day][1..] == [Day] && [Day][1..] == [];
    assert AddParts(m, [Day], values) == Ok(d);
    assert AddParts(y, [Month, Day], values) == Ok(d);
  }

  lemma DatePartsRead(f: Fields, names: seq<Placeholder>, values: Captured)
    requires Reads(values, f, names) && ValidStamp(f.started)
    ensures DateParts(values).Ok?
    ensures var parts, s := DateParts(values).value, f.started;
      && Dates.Part(parts, Year) == (if Date in names || Year in names then s.year else 0)
      && Dates.Part(parts, Month) == (if Date in names || Month in names then s.month else 0)
      && Dates.Part(parts, Day) == (if Date in names || Day in names then s.day else 0)
  {
    DateReads(f, names, values);
    DatePartsAre(f, names, values);
  }

  lemma StartReads(f: Fields, names: seq<Placeholder>, values: Captured)
    requires Reads(values, f, names) && ValidStamp(f.started)
    ensures StartedFrom(values) == Ok(ToldStart(f, names))
  {
    DatePartsRead(f, names, values);
    TimeTextReads(f.started);
  }

  // ----- the fields that come back -----

  function NamedAs(f: Fields, names: seq<Placeholder>, p: Placeholder): string {
    if p in names then PrintedAs(f, p) else ""
  }

  /** The fields the template names, as they were printed, nothing for the others, the start the name
      tells, the number of the copy, and the free text something may have been replaced in. */
  ghost predicate ComesBack(f: Fields, names: seq<Placeholder>, m: Matched, duplicate: nat) {
    && m.platform == NamedAs(f, names, Platform) && m.channel == NamedAs(f, names, Channel)
    && m.author == NamedAs(f, names, Author) && m.title == NamedAs(f, names, Title)
    && m.category == NamedAs(f, names, Category) && m.extension == NamedAs(f, names, Ext)
    && m.started == ToldStart(f, names) && m.duplicate == duplicate
    && forall p :: p in m.lossy <==> IsFree(p) && p in names && '_' in PrintedAs(f, p)
  }

  lemma FieldsComeBack(f: Fields, names: seq<Placeholder>, values: Captured, duplicate: nat)
    requires Reads(values, f, names) && ValidStamp(f.started)
    ensures FieldsOf(values, duplicate).Ok? && ComesBack(f, names, FieldsOf(values, duplicate).value, duplicate)
  {
    StartReads(f, names, values);
    forall p ensures p in LossyAmong(FREE_TEXT, values) <==> IsFree(p) && p in names && '_' in PrintedAs(f, p) {
      LossyHolds(FREE_TEXT, values, p);
      assert p in FREE_TEXT <==> IsFree(p);
    }
  }

  /** Print, then read: a path that is a printed name once its mark is off gives the fields back. */
  lemma PrintedFieldsReadBack(host: Host, parts: seq<Part>, f: Fields, path: string)
    requires PrintsWhole(host, parts, f) && Readable(parts, f) && NamesNothingTwice(parts)
    requires ReadsOneWay(parts, NameOf(parts, f)) && SplitDuplicate(ToSlash(path)).0 == NameOf(parts, f)
    ensures MatchPath(host, parts, path).Ok?
    ensures ComesBack(f, Names(parts), MatchPath(host, parts, path).value, SplitDuplicate(ToSlash(path)).1)
  {
    var names := Names(parts);
    PrintedIsCaptured(host, parts, f);
    FieldsComeBack(f, names, CaptureBoth(host, parts, NameOf(parts, f)).value, SplitDuplicate(ToSlash(path)).1);
  }

  // ----- every name it may take -----

  /** Where the last component begins, and what comes before it. */
  function Before(segments: seq<string>): string
    requires segments != []
  {
    if |segments| == 1 then "" else segments[0] + "/" + Before(segments[1..])
  }

  lemma {:induction false} JoinsBeforeLast(segments: seq<string>)
    requires segments != []
    ensures Join(segments) == Before(segments) + segments[|segments| - 1]
    ensures Before(segments) == "" || Before(segments)[|Before(segments)| - 1] == '/'
  {
    if |segments| > 1 {
      JoinsBeforeLast(segments[1..]);
      var dir, last := Before(segments[1..]), segments[|segments| - 1];
      assert segments[0] + "/" + (dir + last) == (segments[0] + "/" + dir) + last;
    }
  }

  lemma {:induction false} SameBefore(segments: seq<string>, last: string)
    requires segments != []
    ensures Before(segments[..|segments| - 1] + [last]) == Before(segments)
  {
    if |segments| > 1 {
      SameBefore(segments[1..], last);
      assert (segments[..|segments| - 1] + [last])[1..] == segments[1..][..|segments| - 2] + [last];
    }
  }

  lemma CandidateIs(segments: seq<string>, k: nat)
    requires segments != [] && 1 <= k
    ensures Join(Candidate(segments, k)) ==
      Before(segments) + (if k == 1 then segments[|segments| - 1] else Marked(segments[|segments| - 1], k))
  {
    JoinsBeforeLast(Candidate(segments, k));
    if k > 1 { SameBefore(segments, Marked(segments[|segments| - 1], k)); }
  }

  /** One line, and one component. */
  predicate Plain(base: string) { '/' !in base && '\\' !in base && '\n' !in base }

  lemma LastDot(stem: string, rest: string)
    requires '.' !in rest
    ensures var base := stem + "." + rest; WithoutExt(base) == stem && ExtOf(base) == "." + rest
  {
    var base := stem + "." + rest;
    assert base[|stem|] == '.';
    assert forall i :: |stem| < i < |base| ==> base[i] == rest[i - |stem| - 1];
    assert LastIndex(base, '.', |base|) == |stem|;
  }

  lemma NoDot(base: string)
    requires '.' !in base
    ensures WithoutExt(base) == base && ExtOf(base) == ""
  {}

  lemma ExtHasOneDot(base: string)
    ensures ExtOf(base) == "" ==> '.' !in base
    ensures ExtOf(base) != "" ==> ExtOf(base)[0] == '.' && '.' !in ExtOf(base)[1..]
    ensures base == WithoutExt(base) + ExtOf(base)
  {
    var at := LastIndex(base, '.', |base|);
    assert forall i :: 0 < i < |ExtOf(base)| ==> ExtOf(base)[i] == base[at + i];
  }

  lemma ExtFollowsMark(base: string, n: nat)
    ensures WithoutExt(Marked(base, n)) == WithoutExt(base) + Mark(n) && ExtOf(Marked(base, n)) == ExtOf(base)
  {
    MarkedIs(base, n);
    ExtHasOneDot(base);
    if ExtOf(base) == "" {
      MarkHasNoDot(n);
      NoDot(WithoutExt(base) + Mark(n));
    } else {
      LastDot(WithoutExt(base) + Mark(n), ExtOf(base)[1..]);
      DotLeads(WithoutExt(base) + Mark(n), ExtOf(base));
    }
  }

  lemma MarkedIs(base: string, n: nat)
    ensures Marked(base, n) == (WithoutExt(base) + Mark(n)) + ExtOf(base)
  {
    var stem := WithoutExt(base);
    assert stem + " (" + Decimal(n) + ")" == stem + (" (" + Decimal(n) + ")");
  }

  lemma MarkHasNoDot(n: nat)
    ensures '.' !in Mark(n)
  {
    DecimalReads(n);
    assert forall c :: c in Decimal(n) ==> IsDigit(c);
  }

  lemma DotLeads(head: string, ext: string)
    requires ext != "" && ext[0] == '.'
    ensures head + "." + ext[1..] == head + ext
  {}

  lemma PlainParts(base: string, n: nat)
    requires Plain(base)
    ensures '/' !in Marked(base, n) && '\n' !in WithoutExt(base)
  {
    MarkIsPlain(n);
    assert Marked(base, n) == (WithoutExt(base) + Mark(n)) + ExtOf(base);
  }

  lemma UnmarksTo(dir: string, marked: string, head: string, n: nat, ext: string)
    requires BaseAt(dir + marked) == |dir| && WithoutExt(marked) == head + Mark(n) && ExtOf(marked) == ext
    requires '\n' !in head && 2 <= n <= MAX_DUPLICATES
    ensures SplitDuplicate(dir + marked) == (dir + head + ext, n)
  {
    SplitOfBase(dir, marked);
    MarkedStem(head, n);
  }

  /** The mark of any name's k-th duplicate comes off again. */
  lemma AnyMarkComesOff(dir: string, base: string, n: nat)
    requires (dir == "" || dir[|dir| - 1] == '/') && Plain(base) && 2 <= n <= MAX_DUPLICATES
    ensures SplitDuplicate(dir + Marked(base, n)) == (dir + base, n)
  {
    ExtFollowsMark(base, n);
    PlainParts(base, n);
    BaseFollows(dir, Marked(base, n));
    UnmarksTo(dir, Marked(base, n), WithoutExt(base), n, ExtOf(base));
    ExtHasOneDot(base);
    Regrouped(dir, WithoutExt(base), ExtOf(base));
  }

  lemma Regrouped(dir: string, stem: string, ext: string)
    ensures dir + stem + ext == dir + (stem + ext)
  {}

  /** A name of its own carries no mark exactly when its stem ends in none. */
  lemma UnmarkedExactly(dir: string, base: string)
    requires (dir == "" || dir[|dir| - 1] == '/') && Plain(base)
    ensures SplitDuplicate(dir + base).1 == 0 <==> !exists n :: Carries(WithoutExt(base), n)
    ensures SplitDuplicate(dir + base).1 == 0 ==> SplitDuplicate(dir + base).0 == dir + base
  {
    BaseFollows(dir, base);
    SplitOfBase(dir, base);
    var stem := WithoutExt(base);
    forall n | Carries(stem, n) ensures Unmarked(stem).Some? { MarksAreRead(stem, n); }
    if Unmarked(stem).Some? {
      MarksAreRead(stem, Unmarked(stem).value.1);
      assert Carries(stem, Unmarked(stem).value.1);
    }
  }

  function LastOf(segments: seq<string>): string { if segments == [] then "" else segments[|segments| - 1] }

  function PathText(segments: seq<string>, k: nat): string
    requires 1 <= k
  {
    if segments == [] then "" else Join(Candidate(segments, k))
  }

  /** The last component of a name. */
  function BaseOf(host: Host, parts: seq<Part>, f: Fields): string
    requires Render(host, parts, f).Ok?
  {
    LastOf(Render(host, parts, f).value.segments)
  }

  /** The path of the k-th name a recording may take. */
  function PathOf(host: Host, parts: seq<Part>, f: Fields, k: nat): string
    requires Render(host, parts, f).Ok? && 1 <= k
  {
    PathText(Render(host, parts, f).value.segments, k)
  }

  // ----- what no component of a printed name holds -----

  lemma SegmentIsClean(host: Host, raw: string)
    requires SanitizeSegment(host, raw).Some?
    ensures AllClean(SanitizeSegment(host, raw).value)
  {
    TrimmedSegment(raw);
    UnderscoreIsClean(TrimComponent(SanitizeValue(raw)));
  }

  lemma UnderscoreIsClean(clean: string)
    requires AllClean(clean)
    ensures AllClean("_" + clean)
  {
    assert forall i :: 0 <= i < |clean| ==> ("_" + clean)[i + 1] == clean[i];
  }

  lemma {:induction false} SegmentsAreClean(host: Host, raw: seq<string>)
    requires SanitizeAll(host, raw).Some?
    ensures forall i :: 0 <= i < |SanitizeAll(host, raw).value| ==> AllClean(SanitizeAll(host, raw).value[i])
    decreases |raw|
  {
    if raw != [] {
      SegmentsAreClean(host, raw[1..]);
      if raw[0] != "" { SegmentIsClean(host, raw[0]); }
    }
  }

  lemma CleanIsPlain(s: string)
    requires AllClean(s)
    ensures Plain(s)
  {
    assert forall c :: c in s ==> !IsIllegal(c) && !IsControl(c);
  }

  /** What a rendered path is: clean components, none of them holding a slash or a line break. */
  lemma RenderedIsPlain(host: Host, parts: seq<Part>, f: Fields)
    requires Render(host, parts, f).Ok?
    ensures var segments := Render(host, parts, f).value.segments;
      segments != [] && forall i :: 0 <= i < |segments| ==> Plain(segments[i])
  {
    R.RenderedIsSafe(host, parts, f);
    SafeRenderIsPlain(host, parts, SafeValues(Resolved(f)));
  }

  lemma SafeRenderIsPlain(host: Host, parts: seq<Part>, safe: Values)
    requires RenderSafe(host, parts, safe).Ok?
    ensures var segments := RenderSafe(host, parts, safe).value.segments;
      segments != [] && forall i :: 0 <= i < |segments| ==> Plain(segments[i])
  {
    SegmentsAreClean(host, Components(parts, Fitted(parts, safe).value));
    var segments := RenderSafe(host, parts, safe).value.segments;
    forall i | 0 <= i < |segments| ensures Plain(segments[i]) { CleanIsPlain(segments[i]); }
  }

  lemma {:induction false} BeforeIsPlain(segments: seq<string>)
    requires segments != [] && forall i :: 0 <= i < |segments| ==> Plain(segments[i])
    ensures '\\' !in Before(segments)
  {
    if |segments| > 1 { BeforeIsPlain(segments[1..]); }
  }

  lemma NoBackslash(s: string)
    requires '\\' !in s
    ensures ToSlash(s) == s
  {}

  lemma PathHasNoBackslash(segments: seq<string>, k: nat)
    requires segments != [] && 1 <= k && forall i :: 0 <= i < |segments| ==> Plain(segments[i])
    ensures ToSlash(Join(Candidate(segments, k))) == Join(Candidate(segments, k))
  {
    CandidateIs(segments, k);
    BeforeIsPlain(segments);
    MarkHasNoBackslash(segments[|segments| - 1], k);
    NoBackslash(Join(Candidate(segments, k)));
  }

  lemma SegmentsJoin(segments: seq<string>, k: nat)
    requires segments != [] && 1 <= k && forall i :: 0 <= i < |segments| ==> Plain(segments[i])
    ensures var dir, base := Before(segments), LastOf(segments);
      && (dir == "" || dir[|dir| - 1] == '/') && Plain(base) && dir + base == Join(segments)
      && PathText(segments, k) == dir + (if k == 1 then base else Marked(base, k))
      && ToSlash(PathText(segments, k)) == PathText(segments, k)
  {
    JoinsBeforeLast(segments);
    CandidateIs(segments, k);
    PathHasNoBackslash(segments, k);
  }

  /** A name's path: the directories, and the last component with its mark where it has one. */
  lemma PathIs(host: Host, parts: seq<Part>, f: Fields, k: nat)
    requires PrintsWhole(host, parts, f) && 1 <= k
    ensures var dir := Before(Render(host, parts, f).value.segments); var base := BaseOf(host, parts, f);
      && (dir == "" || dir[|dir| - 1] == '/') && Plain(base) && dir + base == NameOf(parts, f)
      && PathOf(host, parts, f, k) == dir + (if k == 1 then base else Marked(base, k))
      && ToSlash(PathOf(host, parts, f, k)) == PathOf(host, parts, f, k)
  {
    var segments := Render(host, parts, f).value.segments;
    RenderedIsPlain(host, parts, f);
    RendersItsName(host, parts, f);
    SegmentsJoin(segments, k);
  }

  lemma MarkHasNoBackslash(base: string, k: nat)
    requires '\\' !in base
    ensures '\\' !in Marked(base, k)
  {
    DecimalReads(k);
    assert forall c :: c in Decimal(k) ==> IsDigit(c);
    assert '\\' !in WithoutExt(base) && '\\' !in ExtOf(base);
  }

  /** What a name printed from this template has to be for its fields to come back. */
  ghost predicate Undoable(host: Host, parts: seq<Part>, f: Fields) {
    && PrintsWhole(host, parts, f) && Readable(parts, f)
    && NamesNothingTwice(parts) && ReadsOneWay(parts, NameOf(parts, f))
  }

  /** Every name after the first that a collision may push a recording to gives its fields back, and the
      number of the copy it is. */
  lemma CopiesReadBack(host: Host, parts: seq<Part>, f: Fields, k: nat)
    requires Undoable(host, parts, f) && 2 <= k <= MAX_DUPLICATES
    ensures MatchPath(host, parts, PathOf(host, parts, f, k)).Ok?
    ensures ComesBack(f, Names(parts), MatchPath(host, parts, PathOf(host, parts, f, k)).value, k)
  {
    PathIs(host, parts, f, k);
    AnyMarkComesOff(Before(Render(host, parts, f).value.segments), BaseOf(host, parts, f), k);
    PrintedFieldsReadBack(host, parts, f, PathOf(host, parts, f, k));
  }

  /** The rendered name itself does exactly where its stem ends in no mark of its own. */
  lemma FirstNameReadsBack(host: Host, parts: seq<Part>, f: Fields)
    requires Undoable(host, parts, f)
    ensures var result := MatchPath(host, parts, PathOf(host, parts, f, 1));
      result.Ok? && ComesBack(f, Names(parts), result.value, 0) <==>
        !exists n :: Carries(WithoutExt(BaseOf(host, parts, f)), n)
  {
    var path := PathOf(host, parts, f, 1);
    WholeExactly(host, parts, f);
    DuplicateIsItsMark(host, parts, path);
    if SplitDuplicate(ToSlash(path)).1 == 0 {
      PrintedFieldsReadBack(host, parts, f, path);
    }
  }

  lemma WholeExactly(host: Host, parts: seq<Part>, f: Fields)
    requires PrintsWhole(host, parts, f)
    ensures var split := SplitDuplicate(ToSlash(PathOf(host, parts, f, 1)));
      && (split.1 == 0 <==> !exists n :: Carries(WithoutExt(BaseOf(host, parts, f)), n))
      && (split.1 == 0 ==> split.0 == NameOf(parts, f))
  {
    PathIs(host, parts, f, 1);
    UnmarkedExactly(Before(Render(host, parts, f).value.segments), BaseOf(host, parts, f));
  }

  lemma DuplicateIsItsMark(host: Host, parts: seq<Part>, path: string)
    ensures MatchPath(host, parts, path).Ok? ==>
      MatchPath(host, parts, path).value.duplicate == SplitDuplicate(ToSlash(path)).1
  {}

  // ----- a template every name of which reads one way -----

  const BY_CHANNEL := [Hole(Platform), Lit("/"), Hole(Channel), Lit("/"), Hole(Title), Lit("."), Hole(Ext)]

  lemma ByChannelNames()
    ensures Names(BY_CHANNEL) == [Platform, Channel, Title, Ext]
  {
    var p := BY_CHANNEL;
    assert p[1..][1..] == p[2..] && p[2..][1..] == p[3..] && p[3..][1..] == p[4..];
    assert p[4..][1..] == p[5..] && p[5..][1..] == p[6..] && p[6..][1..] == [];
    assert Names(p[6..]) == [Ext] + Names([]) == [Ext];
    assert Names(p[5..]) == Names(p[6..]);
    assert Names(p[4..]) == [Title] + Names(p[5..]) == [Title, Ext];
    assert Names(p[3..]) == Names(p[4..]);
    assert Names(p[2..]) == [Channel] + Names(p[3..]) == [Channel, Title, Ext];
    assert Names(p[1..]) == Names(p[2..]);
  }

  lemma ByChannelWrites(v: seq<string>)
    requires |v| == 4
    ensures |Names(BY_CHANNEL)| == 4
    ensures Written(BY_CHANNEL, v) == v[0] + (['/'] + (v[1] + (['/'] + (v[2] + (['.'] + v[3])))))
  {
    ByChannelNames();
    var p := BY_CHANNEL;
    assert p[1..][1..] == p[2..] && p[2..][1..] == p[3..] && p[3..][1..] == p[4..];
    assert p[4..][1..] == p[5..] && p[5..][1..] == p[6..] && p[6..][1..] == [];
    assert v[1..][1..] == v[2..] && v[2..][1..] == v[3..] && v[3..][1..] == [];
    assert ToSlash("/") == ['/'] && ToSlash(".") == ['.'];
    assert Written(p[6..], v[3..]) == v[3] + "" == v[3];
    assert Written(p[4..], v[2..]) == v[2] + (['.'] + v[3]);
    assert Written(p[2..], v[1..]) == v[1] + (['/'] + Written(p[4..], v[2..]));
  }

  lemma SpelledByChannel(v: seq<string>, s: string)
    requires Spells(BY_CHANNEL, v, s, FREE_OF_PINS)
    ensures |v| == 4 && s == v[0] + (['/'] + (v[1] + (['/'] + (v[2] + (['.'] + v[3])))))
    ensures '/' !in v[0] && '/' !in v[1] && '.' !in v[3]
  {
    ByChannelNames();
    ReadingFillsEveryHole(BY_CHANNEL, v, s, FREE_OF_PINS);
    SpelledIsWritten(BY_CHANNEL, v, s, FREE_OF_PINS);
    ByChannelWrites(v);
    assert Takes(Platform, v[0], FREE_OF_PINS) && Takes(Channel, v[1], FREE_OF_PINS) && Takes(Ext, v[3], FREE_OF_PINS);
    CleanIsPlain(v[0]);
    CleanIsPlain(v[1]);
    assert forall c :: c in v[3] ==> IsAlnum(c);
  }

  lemma CutOnce(a: string, x: string, b: string, y: string, stop: char)
    requires a + ([stop] + x) == b + ([stop] + y)
    requires (stop !in a && stop !in b) || (stop !in x && stop !in y)
    ensures a == b && x == y
  {
    assert a + ([stop] + x) == a + [stop] + x && b + ([stop] + y) == b + [stop] + y;
    if stop !in a && stop !in b {
      CutAtFirst(a, x, b, y, stop);
    } else {
      CutAtLast(a, x, b, y, stop);
    }
  }

  /** Whatever is filed by platform, channel and title reads one way. */
  lemma ByChannelReadsOneWay(v: seq<string>, s: string)
    requires Spells(BY_CHANNEL, v, s, FREE_OF_PINS)
    ensures OnlyOne(BY_CHANNEL, s, v) && NamesNothingTwice(BY_CHANNEL)
  {
    ByChannelNames();
    SpelledByChannel(v, s);
    forall a | Spells(BY_CHANNEL, a, s, FREE_OF_PINS) ensures a == v {
      SpelledByChannel(a, s);
      CutOnce(a[0], a[1] + (['/'] + (a[2] + (['.'] + a[3]))), v[0], v[1] + (['/'] + (v[2] + (['.'] + v[3]))), '/');
      CutOnce(a[1], a[2] + (['.'] + a[3]), v[1], v[2] + (['.'] + v[3]), '/');
      CutOnce(a[2], a[3], v[2], v[3], '.');
    }
  }

  lemma AreTheFour(names: seq<Placeholder>)
    requires names == [Platform, Channel, Title, Ext]
    ensures forall p: Placeholder :: p in names <==> p.Platform? || p.Channel? || p.Title? || p.Ext?
  {
    assert names[0] == Platform && names[1] == Channel && names[2] == Title && names[3] == Ext;
  }

  lemma FourFieldsCome(f: Fields, names: seq<Placeholder>, m: Matched, k: nat)
    requires ComesBack(f, names, m, k)
    requires forall p: Placeholder :: p in names <==> p.Platform? || p.Channel? || p.Title? || p.Ext?
    ensures m.platform == Carried(f.platform) && m.channel == Carried(f.channel) && m.title == Carried(f.title)
    ensures m.extension == PrintedAs(f, Ext)
    ensures m.author == "" && m.category == "" && m.started == None && m.duplicate == k
  {}

  /** So each of its copies comes back, for every recording it names whole. */
  lemma ByChannelIsUndone(host: Host, f: Fields, k: nat)
    requires PrintsWhole(host, BY_CHANNEL, f) && Readable(BY_CHANNEL, f) && 2 <= k <= MAX_DUPLICATES
    ensures MatchPath(host, BY_CHANNEL, PathOf(host, BY_CHANNEL, f, k)).Ok?
    ensures var m := MatchPath(host, BY_CHANNEL, PathOf(host, BY_CHANNEL, f, k)).value;
      && m.platform == Carried(f.platform) && m.channel == Carried(f.channel) && m.title == Carried(f.title)
      && m.extension == PrintedAs(f, Ext)
      && m.author == "" && m.category == "" && m.started == None && m.duplicate == k
  {
    PrintedSpells(host, BY_CHANNEL, f);
    ByChannelReadsOneWay(PrintedAll(f, Names(BY_CHANNEL)), NameOf(BY_CHANNEL, f));
    CopiesReadBack(host, BY_CHANNEL, f, k);
    ByChannelNames();
    AreTheFour(Names(BY_CHANNEL));
    FourFieldsCome(f, Names(BY_CHANNEL), MatchPath(host, BY_CHANNEL, PathOf(host, BY_CHANNEL, f, k)).value, k);
  }
}
