/** The default template, printed and read back: {author}/{year}/{author} - {date} {time} - {title}.{ext}. */
module DefaultName {
  import opened Basics
  import opened Text
  import opened Sanitize
  import opened Template
  import opened Matching
  import opened ReadBack
  import opened Dates

  const DEFAULT_TEMPLATE :=
    "{author}" + ("/{year}" + ("/{author}" + (" - {date}" + (" {time}" + (" - {title}" + ".{ext}")))))

  const ENDING: seq<Part> := [Lit("."), Hole(Ext)]
  const TITLED: seq<Part> := [Lit(" - "), Hole(Title)] + ENDING
  const TIMED: seq<Part> := [Lit(" "), Hole(Time)] + TITLED
  const DATED: seq<Part> := [Lit(" - "), Hole(Date)] + TIMED
  const FILE: seq<Part> := [Lit("/"), Hole(Author)] + DATED
  const FILED: seq<Part> := [Lit("/"), Hole(Year)] + FILE
  const DEFAULT: seq<Part> := [Hole(Author)] + FILED

  const NAMES: seq<Placeholder> := [Author, Year, Author, Date, Time, Title, Ext]

  // ----- what seven values spell -----

  function Ended(title: string, ext: string): string { title + ("." + ext) }

  function Timed(time: string, title: string, ext: string): string { time + (" - " + Ended(title, ext)) }

  /** The file name after the author. */
  function Tail(date: string, time: string, title: string, ext: string): string {
    " - " + (date + (" " + Timed(time, title, ext)))
  }

  function Spelling(author: string, year: string, again: string, date: string, time: string, title: string,
                    ext: string): string
  {
    author + ("/" + (year + ("/" + (again + Tail(date, time, title, ext)))))
  }

  lemma PairLeads(text: string, p: Placeholder, rest: seq<Part>, v: seq<string>)
    requires '\\' !in text
    ensures Names([Lit(text), Hole(p)] + rest) == [p] + Names(rest)
    ensures |v| == 1 + |Names(rest)| ==>
      Written([Lit(text), Hole(p)] + rest, v) == text + (v[0] + Written(rest, v[1..]))
  {
    var parts := [Lit(text), Hole(p)] + rest;
    assert parts[1..] == [Hole(p)] + rest && parts[1..][1..] == rest;
    assert ToSlash(text) == text;
  }

  lemma TitledSpells(v: seq<string>)
    requires |v| == 2
    ensures Names(TITLED) == [Title, Ext] && Written(TITLED, v) == " - " + Ended(v[0], v[1])
  {
    PairLeads(".", Ext, [], v[1..]);
    assert ENDING == [Lit("."), Hole(Ext)] + [];
    PairLeads(" - ", Title, ENDING, v);
    assert v[1..][1..] == [] && v[1] + "" == v[1];
  }

  lemma TimedSpells(v: seq<string>)
    requires |v| == 3
    ensures Names(TIMED) == [Time, Title, Ext] && Written(TIMED, v) == " " + Timed(v[0], v[1], v[2])
  {
    TitledSpells(v[1..]);
    PairLeads(" ", Time, TITLED, v);
  }

  lemma DatedSpells(v: seq<string>)
    requires |v| == 4
    ensures Names(DATED) == [Date, Time, Title, Ext] && Written(DATED, v) == Tail(v[0], v[1], v[2], v[3])
  {
    TimedSpells(v[1..]);
    PairLeads(" - ", Date, TIMED, v);
  }

  lemma FileSpells(v: seq<string>)
    requires |v| == 5
    ensures Names(FILE) == [Author, Date, Time, Title, Ext]
    ensures Written(FILE, v) == "/" + (v[0] + Tail(v[1], v[2], v[3], v[4]))
  {
    DatedSpells(v[1..]);
    PairLeads("/", Author, DATED, v);
  }

  lemma FiledSpells(v: seq<string>)
    requires |v| == 6
    ensures Names(FILED) == [Year, Author, Date, Time, Title, Ext]
    ensures Written(FILED, v) == "/" + (v[0] + ("/" + (v[1] + Tail(v[2], v[3], v[4], v[5]))))
  {
    FileSpells(v[1..]);
    PairLeads("/", Year, FILE, v);
  }

  lemma DefaultSpells(v: seq<string>)
    requires |v| == 7
    ensures Names(DEFAULT) == NAMES
    ensures Written(DEFAULT, v) == Spelling(v[0], v[1], v[2], v[3], v[4], v[5], v[6])
  {
    FiledSpells(v[1..]);
    assert DEFAULT[1..] == FILED && DEFAULT[0] == Hole(Author);
  }

  // ----- what can be cut from such a spelling -----

  lemma SlicesOfTail(d: string, t: string, title: string, x: string)
    ensures var s := Tail(d, t, title, x);
      && |s| >= 3 + |d| + 1 + |t| + 3
      && s[3..3 + |d|] == d && s[4 + |d|..4 + |d| + |t|] == t && s[7 + |d| + |t|..] == title + ['.'] + x
  {
    var s := Tail(d, t, title, x);
    assert s[3..] == d + (" " + Timed(t, title, x));
    assert s[4 + |d|..] == Timed(t, title, x);
    assert s[7 + |d| + |t|..] == Ended(title, x) == title + ['.'] + x;
  }

  lemma TailIsForced(d: string, t: string, title: string, x: string, d': string, t': string, title': string, x': string)
    requires |d| == |d'| && |t| == |t'| && '.' !in x && '.' !in x'
    requires Tail(d, t, title, x) == Tail(d', t', title', x')
    ensures d == d' && t == t' && title == title' && x == x'
  {
    SlicesOfTail(d, t, title, x);
    SlicesOfTail(d', t', title', x');
    CutAtLast(title, x, title', x', '.');
  }

  predicate Dashed(s: string, k: nat) {
    k + 3 < |s| && s[k] == ' ' && s[k + 1] == '-' && s[k + 2] == ' ' && IsDigit(s[k + 3])
  }

  lemma TailIsDashed(date: string, time: string, title: string, ext: string)
    requires Fits(Date, date)
    ensures Dashed(Tail(date, time, title, ext), 0)
  {
    assert date[..4][0] == date[0] && IsDigit(date[..4][0]);
  }

  /** Two authors of different lengths that lead the same file name differ by a dash at least. */
  lemma Apart(a: string, s: string, b: string, t: string)
    requires a + s == b + t && Dashed(s, 0) && Dashed(t, 0) && |a| < |b|
    ensures |a| + 3 <= |b| && b[..|a|] == a && b[|a| + 1] == '-'
  {
    var whole := a + s;
    assert whole[|a|] == s[0] && whole[|a| + 1] == s[1] && whole[|a| + 2] == s[2] && whole[|a| + 3] == s[3];
    assert whole[|b|] == t[0] && whole[|b| + 1] == t[1];
    assert b == whole[..|b|] && a == whole[..|a|] == b[..|a|];
  }

  lemma SegmentFormShort(host: Host, b: string)
    ensures |SegmentForm(host, b)| <= |b| + 1
  {
    var from, to := TrimComponentIsTrim(SanitizeValue(b));
  }

  lemma SegmentFormLong(host: Host, b: string, j: nat)
    requires AllClean(b) && j < |b| && !IsSpace(b[0]) && !Cuts(Trailing, b[j])
    ensures |SegmentForm(host, b)| > j
  {
    CleanIsUnchanged(b);
    var from, to := TrimComponentIsTrim(b);
  }

  lemma NotReconciled(host: Host, a: string, b: string)
    requires Safe(host, a) && AllClean(b)
    requires (|a| + 3 <= |b| && b[..|a|] == a && b[|a| + 1] == '-') || |b| + 3 <= |a|
    ensures Reconcile(host, a, b) == None
  {
    SafeIsUnchanged(host, a);
    if |b| + 3 <= |a| {
      SegmentFormShort(host, b);
    } else {
      assert b[0] == b[..|a|][0] == a[0];
      SegmentFormLong(host, b, |a| + 1);
    }
  }

  // ----- folding -----

  predicate InDefaultOrder(names: seq<Placeholder>) {
    && |names| == 7 && names[0] == Author && names[1] == Year && names[2] == Author && names[3] == Date
    && names[4] == Time && names[5] == Title && names[6] == Ext
  }

  lemma FoldNew(host: Host, so: Captured, names: seq<Placeholder>, i: nat, g: seq<string>)
    requires |g| == |names| && i < |names| && names[i] !in so
    ensures CollapseFrom(host, so, names[i..], g[i..]) ==
      CollapseFrom(host, so[names[i] := g[i]], names[i + 1..], g[i + 1..])
  {
    assert names[i..][1..] == names[i + 1..] && g[i..][1..] == g[i + 1..];
  }

  function Folded(author: string, year: string, date: string, time: string, title: string, ext: string): Captured {
    map[Author := author, Year := year, Date := date, Time := time, Title := title, Ext := ext]
  }

  lemma FoldRest(host: Host, so: Captured, names: seq<Placeholder>, g: seq<string>)
    requires InDefaultOrder(names) && |g| == 7 && Date !in so && Time !in so && Title !in so && Ext !in so
    ensures CollapseFrom(host, so, names[3..], g[3..]) ==
      Some(so[Date := g[3]][Time := g[4]][Title := g[5]][Ext := g[6]])
  {
    FoldNew(host, so, names, 3, g);
    FoldNew(host, so[Date := g[3]], names, 4, g);
    FoldNew(host, so[Date := g[3]][Time := g[4]], names, 5, g);
    FoldNew(host, so[Date := g[3]][Time := g[4]][Title := g[5]], names, 6, g);
    assert names[7..] == [];
  }

  lemma FoldAgain(host: Host, so: Captured, names: seq<Placeholder>, g: seq<string>)
    requires InDefaultOrder(names) && |g| == 7 && Author in so
    ensures CollapseFrom(host, so, names[2..], g[2..]) ==
      match Reconcile(host, so[Author], g[2])
      case None => None
      case Some(author) => CollapseFrom(host, so[Author := author], names[3..], g[3..])
  {
    assert names[2..][1..] == names[3..] && g[2..][1..] == g[3..] && names[2..][0] == Author;
  }

  lemma FoldedInOrder(a: string, again: string, y: string, d: string, t: string, title: string, x: string)
    ensures map[Author := a][Year := y][Author := again][Date := d][Time := t][Title := title][Ext := x]
      == Folded(again, y, d, t, title, x)
  {}

  lemma FoldTwo(host: Host, names: seq<Placeholder>, g: seq<string>)
    requires InDefaultOrder(names) && |g| == 7
    ensures CollapseFrom(host, map[], names, g) ==
      CollapseFrom(host, map[Author := g[0]][Year := g[1]], names[2..], g[2..])
  {
    assert names[0..] == names && g[0..] == g;
    FoldNew(host, map[], names, 0, g);
    FoldNew(host, map[Author := g[0]], names, 1, g);
  }

  lemma FoldReachesDate(host: Host, names: seq<Placeholder>, g: seq<string>, author: string)
    requires InDefaultOrder(names) && |g| == 7 && Reconcile(host, g[0], g[2]) == Some(author)
    ensures CollapseFrom(host, map[], names, g) ==
      CollapseFrom(host, map[Author := g[0]][Year := g[1]][Author := author], names[3..], g[3..])
  {
    FoldTwo(host, names, g);
    FoldAgain(host, map[Author := g[0]][Year := g[1]], names, g);
  }

  lemma FoldAgreed(host: Host, names: seq<Placeholder>, g: seq<string>, author: string)
    requires InDefaultOrder(names) && |g| == 7 && Reconcile(host, g[0], g[2]) == Some(author)
    ensures CollapseFrom(host, map[], names, g) == Some(Folded(author, g[1], g[3], g[4], g[5], g[6]))
  {
    FoldReachesDate(host, names, g, author);
    FoldRest(host, map[Author := g[0]][Year := g[1]][Author := author], names, g);
    FoldedInOrder(g[0], author, g[1], g[3], g[4], g[5], g[6]);
  }

  lemma FoldRefused(host: Host, names: seq<Placeholder>, g: seq<string>)
    requires InDefaultOrder(names) && |g| == 7 && Reconcile(host, g[0], g[2]) == None
    ensures CollapseFrom(host, map[], names, g) == None
  {
    FoldTwo(host, names, g);
    FoldAgain(host, map[Author := g[0]][Year := g[1]], names, g);
  }

  // ----- reading a printed name -----

  /** The values one name is printed from. */
  datatype Printed = Printed(author: string, year: string, date: string, time: string, title: string, ext: string)

  predicate Printable(host: Host, p: Printed) {
    && Safe(host, p.author) && Fits(Year, p.year) && Fits(Date, p.date) && Fits(Time, p.time)
    && Fits(Title, p.title) && Fits(Ext, p.ext)
  }

  function NameOf(p: Printed): string {
    Spelling(p.author, p.year, p.author, p.date, p.time, p.title, p.ext)
  }

  function ValuesOf(p: Printed): seq<string> {
    [p.author, p.year, p.author, p.date, p.time, p.title, p.ext]
  }

  function FoldedOf(p: Printed): Captured { Folded(p.author, p.year, p.date, p.time, p.title, p.ext) }

  lemma ReadingOf(g: seq<string>, s: string, pins: Pins)
    requires Spells(DEFAULT, g, s, pins)
    ensures |g| == 7 && s == Spelling(g[0], g[1], g[2], g[3], g[4], g[5], g[6])
    ensures Takes(Author, g[0], pins) && Takes(Year, g[1], pins) && Takes(Author, g[2], pins)
      && Takes(Date, g[3], pins) && Takes(Time, g[4], pins) && Takes(Title, g[5], pins) && Takes(Ext, g[6], pins)
  {
    ReadingFillsEveryHole(DEFAULT, g, s, pins);
    DefaultSpells(["", "", "", "", "", "", ""]);
    DefaultSpells(g);
    SpelledIsWritten(DEFAULT, g, s, pins);
    assert forall i :: 0 <= i < 7 ==> Names(DEFAULT)[i] == NAMES[i];
  }

  lemma ItsOwnReading(host: Host, p: Printed, pins: Pins)
    requires Printable(host, p) && (pins == map[] || pins == map[Author := p.author])
    ensures Spells(DEFAULT, ValuesOf(p), NameOf(p), pins)
  {
    var v := ValuesOf(p);
    DefaultSpells(v);
    forall i | 0 <= i < 7 ensures Takes(Names(DEFAULT)[i], v[i], pins) {
      assert Names(DEFAULT)[i] == NAMES[i];
    }
    WrittenIsSpelled(DEFAULT, v, pins);
  }

  lemma DirectoriesAreForced(a: string, y: string, file: string, a': string, y': string, file': string)
    requires a + ("/" + (y + ("/" + file))) == a' + ("/" + (y' + ("/" + file')))
    requires '/' !in a && '/' !in y && '/' !in a' && '/' !in y'
    ensures a == a' && y == y' && file == file'
  {
    var r, r' := y + ("/" + file), y' + ("/" + file');
    assert a + ['/'] + r == a + ("/" + r) && a' + ['/'] + r' == a' + ("/" + r');
    CutAtFirst(a, r, a', r', '/');
    assert y + ['/'] + file == r && y' + ['/'] + file' == r';
    CutAtFirst(y, file, y', file', '/');
  }

  lemma FitsHasNoSlash(p: Placeholder, s: string)
    requires Fits(p, s) && (IsFree(p) || p.Year?)
    ensures '/' !in s
  {}

  lemma ExtHasNoDot(s: string)
    requires Fits(Ext, s)
    ensures '.' !in s
  {}

  /** A reading of a printed name finds its directories. */
  lemma DirectoriesAreRead(host: Host, p: Printed, g: seq<string>, pins: Pins)
    requires Printable(host, p) && (pins == map[] || pins == map[Author := p.author])
    requires Spells(DEFAULT, g, NameOf(p), pins)
    ensures |g| == 7 && g[0] == p.author && g[1] == p.year
    ensures p.author + Tail(p.date, p.time, p.title, p.ext) == g[2] + Tail(g[3], g[4], g[5], g[6])
    ensures (g[2] == p.author || AllClean(g[2])) && Fits(Date, g[3]) && Fits(Time, g[4]) && Fits(Ext, g[6])
  {
    ReadingOf(g, NameOf(p), pins);
    FitsHasNoSlash(Year, p.year);
    FitsHasNoSlash(Year, g[1]);
    if pins == map[] { FitsHasNoSlash(Author, g[0]); }
    DirectoriesAreForced(p.author, p.year, p.author + Tail(p.date, p.time, p.title, p.ext),
                         g[0], g[1], g[2] + Tail(g[3], g[4], g[5], g[6]));
  }

  lemma SameAuthorSameFile(a: string, d: string, t: string, title: string, x: string,
                           d': string, t': string, title': string, x': string)
    requires a + Tail(d, t, title, x) == a + Tail(d', t', title', x')
    requires Fits(Date, d) && Fits(Date, d') && Fits(Time, t) && Fits(Time, t') && Fits(Ext, x) && Fits(Ext, x')
    ensures d == d' && t == t' && title == title' && x == x'
  {
    var tail, tail' := Tail(d, t, title, x), Tail(d', t', title', x');
    assert tail == (a + tail)[|a|..] && tail' == (a + tail')[|a|..];
    ExtHasNoDot(x);
    ExtHasNoDot(x');
    TailIsForced(d, t, title, x, d', t', title', x');
  }

  lemma OtherAuthorIsRefused(host: Host, a: string, tail: string, b: string, tail': string)
    requires Safe(host, a) && AllClean(b) && a != b && a + tail == b + tail' && Dashed(tail, 0) && Dashed(tail', 0)
    ensures Reconcile(host, a, b) == None
  {
    OtherLength(a, tail, b, tail');
    if |a| < |b| {
      Apart(a, tail, b, tail');
    } else {
      Apart(b, tail', a, tail);
    }
    NotReconciled(host, a, b);
  }

  /** Any reading of a printed name finds the author again in the file, and then everything else, or
      finds someone no author reconciles with. */
  lemma EveryReading(host: Host, p: Printed, g: seq<string>, pins: Pins)
    requires Printable(host, p) && (pins == map[] || pins == map[Author := p.author])
    requires Spells(DEFAULT, g, NameOf(p), pins)
    ensures |g| == 7 && g[0] == p.author
    ensures g[2] == p.author ==> g == ValuesOf(p)
    ensures g[2] != p.author ==> Reconcile(host, p.author, g[2]) == None
  {
    DirectoriesAreRead(host, p, g, pins);
    if g[2] == p.author {
      SameAuthorSameFile(p.author, p.date, p.time, p.title, p.ext, g[3], g[4], g[5], g[6]);
      assert g == ValuesOf(p);
    } else {
      TailIsDashed(p.date, p.time, p.title, p.ext);
      TailIsDashed(g[3], g[4], g[5], g[6]);
      OtherAuthorIsRefused(host, p.author, Tail(p.date, p.time, p.title, p.ext), g[2], Tail(g[3], g[4], g[5], g[6]));
    }
  }

  lemma OtherLength(a: string, s: string, b: string, t: string)
    requires a + s == b + t && a != b
    ensures |a| != |b|
  {
    assert a == (a + s)[..|a|] && b == (b + t)[..|b|];
  }

  lemma ReadsSomething(host: Host, p: Printed, lazy: bool, pins: Pins)
    returns (g: seq<string>)
    requires Printable(host, p) && (pins == map[] || pins == map[Author := p.author])
    ensures Read(DEFAULT, NameOf(p), lazy, pins) == Some(g) && Spells(DEFAULT, g, NameOf(p), pins)
  {
    ItsOwnReading(host, p, pins);
    ReadIsFirst(DEFAULT, ValuesOf(p), NameOf(p), lazy, pins);
    ReadSpells(DEFAULT, NameOf(p), lazy, pins);
    g := Read(DEFAULT, NameOf(p), lazy, pins).value;
  }

  /** With the author pinned there is one reading. */
  lemma PinnedReads(host: Host, p: Printed, lazy: bool)
    requires Printable(host, p)
    ensures ReadFolded(host, DEFAULT, NameOf(p), lazy, map[Author := p.author]) == Some(FoldedOf(p))
  {
    var pins: Pins := map[Author := p.author];
    var g := ReadsSomething(host, p, lazy, pins);
    ReadingOf(g, NameOf(p), pins);
    EveryReading(host, p, g, pins);
    DefaultSpells(g);
    FoldAgreed(host, NAMES, g, p.author);
  }

  lemma FirstAt(names: seq<Placeholder>, i: nat)
    requires InDefaultOrder(names) && i < 7 && i != 2
    ensures FirstOf(names, names[i]) == i
    ensures i > 0 ==> names[i] !in names[i + 1..]
  {
    assert names[i] !in names[..i];
    FirstStaysFirst(names, i, names[i]);
  }

  lemma OnlyTheAuthorRepeats(names: seq<Placeholder>, g: seq<string>)
    requires InDefaultOrder(names) && |g| == 7
    ensures Repeated(names, g) == map[Author := g[0]]
  {
    FirstAt(names, 0);
    assert names[1..][1] == Author;
    forall p | p in names && p != Author ensures p !in names[FirstOf(names, p) + 1..] {
      var i :| 0 <= i < 7 && names[i] == p;
      FirstAt(names, i);
    }
  }

  /** Each pass reads a printed name as what it was printed from, by the pinned reading where its
      first one fails. */
  lemma PassReads(host: Host, p: Printed, lazy: bool)
    requires Printable(host, p)
    ensures Capture(host, DEFAULT, NameOf(p), lazy) == Some(FoldedOf(p))
  {
    var g := ReadsSomething(host, p, lazy, map[]);
    EveryReading(host, p, g, map[]);
    DefaultSpells(g);
    if g[2] == p.author {
      FoldAgreed(host, NAMES, g, p.author);
    } else {
      FoldRefused(host, NAMES, g);
      OnlyTheAuthorRepeats(NAMES, g);
      PinnedReads(host, p, lazy);
    }
  }

  lemma PrintedNameReads(host: Host, p: Printed)
    requires Printable(host, p)
    ensures CaptureBoth(host, DEFAULT, NameOf(p)) == Ok(FoldedOf(p))
  {
    PassReads(host, p, false);
    PassReads(host, p, true);
  }
}
