/** Naming templates: parsing one, and rendering a recording's fields through it. */
module Template {
  import opened Basics
  import opened Text
  import opened Numerals
  import opened Sanitize

  datatype Placeholder =
    | Platform | Channel | Author | Title | Category
    | Date | Time | Year | Month | Day | Ext

  function Name(p: Placeholder): string {
    match p
    case Platform => "platform"
    case Channel => "channel"
    case Author => "author"
    case Title => "title"
    case Category => "category"
    case Date => "date"
    case Time => "time"
    case Year => "year"
    case Month => "month"
    case Day => "day"
    case Ext => "ext"
  }

  function Lookup(name: string): Option<Placeholder> {
    if name == "platform" then Some(Platform)
    else if name == "channel" then Some(Channel)
    else if name == "author" then Some(Author)
    else if name == "title" then Some(Title)
    else if name == "category" then Some(Category)
    else if name == "date" then Some(Date)
    else if name == "time" then Some(Time)
    else if name == "year" then Some(Year)
    else if name == "month" then Some(Month)
    else if name == "day" then Some(Day)
    else if name == "ext" then Some(Ext)
    else None
  }

  datatype Part = Lit(text: string) | Hole(placeholder: Placeholder)

  datatype ParseError = EmptyTemplate | Unclosed | Unknown(name: string) | NoPlaceholders | TooMany

  const MAX_PLACEHOLDERS := 32

  // ----- parsing -----

  /** strings.IndexByte from a position: the length when there is none. */
  function Index(s: string, c: char, from: nat): (i: nat)
    requires from <= |s|
    ensures from <= i <= |s| && (i < |s| ==> s[i] == c)
    ensures c !in s[from..i]
    decreases |s| - from
  {
    if from == |s| || s[from] == c then from
    else
      var i := Index(s, c, from + 1);
      assert s[from..i] == [s[from]] + s[from + 1..i];
      i
  }

  /** What one turn of Parse's loop takes off the front. */
  datatype Chunk =
    | Last(parts: seq<Part>)
    | Broken(error: ParseError)
    | Next(parts: seq<Part>, rest: string)

  function Before(s: string): seq<Part> {
    var start := Index(s, '{', 0);
    if start > 0 then [Lit(s[..start])] else []
  }

  function NextChunk(s: string): (c: Chunk)
    ensures c.Next? ==> |c.rest| < |s|
  {
    var start := Index(s, '{', 0);
    if start == |s| then Last(Before(s))
    else
      var end := Index(s, '}', start);
      if end == |s| then Broken(Unclosed)
      else
        var hole := Lookup(s[start + 1..end]);
        if hole.None? then Broken(Unknown(s[start + 1..end]))
        else Next(Before(s) + [Hole(hole.value)], s[end + 1..])
  }

  /** The parts a template's text spells, or what is wrong with the first hole that is wrong. */
  function PartsOf(s: string): Result<seq<Part>, ParseError>
    decreases |s|
  {
    match NextChunk(s)
    case Last(parts) => Ok(parts)
    case Broken(e) => Err(e)
    case Next(parts, rest) => Prepend(parts, PartsOf(rest))
  }

  function Prepend(parts: seq<Part>, more: Result<seq<Part>, ParseError>): Result<seq<Part>, ParseError> {
    match more
    case Err(e) => Err(e)
    case Ok(rest) => Ok(parts + rest)
  }

  lemma PrependTwice(a: seq<Part>, b: seq<Part>, more: Result<seq<Part>, ParseError>)
    ensures Prepend(a, Prepend(b, more)) == Prepend(a + b, more)
  {
    if more.Ok? { assert a + (b + more.value) == (a + b) + more.value; }
  }

  function Holes(parts: seq<Part>): nat {
    if parts == [] then 0 else (if parts[0].Hole? then 1 else 0) + Holes(parts[1..])
  }

  function Parsed(raw: string): Result<seq<Part>, ParseError> {
    if TrimSpace(raw) == "" then Err(EmptyTemplate)
    else match PartsOf(raw)
      case Err(e) => Err(e)
      case Ok(parts) =>
        if Holes(parts) == 0 then Err(NoPlaceholders)
        else if Holes(parts) > MAX_PLACEHOLDERS then Err(TooMany)
        else Ok(parts)
  }

  lemma {:induction false} HolesConcat(a: seq<Part>, b: seq<Part>)
    ensures Holes(a + b) == Holes(a) + Holes(b)
  {
    if a == [] {
      assert a + b == b;
    } else {
      assert (a + b)[1..] == a[1..] + b;
      HolesConcat(a[1..], b);
    }
  }

  /** One turn of Parse's loop: the literal up to a brace, and the hole behind it. */
  method TakeChunk(rest: string) returns (chunk: Chunk)
    ensures chunk == NextChunk(rest)
  {
    var parts: seq<Part> := [];
    var start := Index(rest, '{', 0);
    if start > 0 {
      parts := parts + [Lit(rest[..start])];
    }
    assert parts == Before(rest);
    if start == |rest| {
      return Last(parts);
    }
    var end := Index(rest, '}', start);
    if end == |rest| {
      return Broken(Unclosed);
    }
    var hole := Lookup(rest[start + 1..end]);
    if hole.None? {
      return Broken(Unknown(rest[start + 1..end]));
    }
    return Next(parts + [Hole(hole.value)], rest[end + 1..]);
  }

  /** Parse's loop. */
  method Parse(raw: string) returns (result: Result<seq<Part>, ParseError>)
    ensures result == Parsed(raw)
    ensures result.Ok? ==> 1 <= Holes(result.value) <= 32
    ensures result == Err(TooMany) ==> PartsOf(raw).Ok? && Holes(PartsOf(raw).value) > 32
  {
    if TrimSpace(raw) == "" {
      return Err(EmptyTemplate);
    }
    var parts: seq<Part>, count, rest := [], 0, raw;
    assert PartsOf(raw).Ok? ==> parts + PartsOf(raw).value == PartsOf(raw).value;
    while true
      invariant count == Holes(parts)
      invariant PartsOf(raw) == Prepend(parts, PartsOf(rest))
      decreases |rest|
    {
      var chunk := TakeChunk(rest);
      if chunk.Broken? {
        return Err(chunk.error);
      }
      HolesConcat(parts, chunk.parts);
      count := count + Holes(chunk.parts);
      if chunk.Last? {
        parts := parts + chunk.parts;
        break;
      }
      PrependTwice(parts, chunk.parts, PartsOf(chunk.rest));
      parts := parts + chunk.parts;
      rest := chunk.rest;
    }
    if count == 0 {
      return Err(NoPlaceholders);
    }
    if count > MAX_PLACEHOLDERS {
      return Err(TooMany);
    }
    return Ok(parts);
  }

  function Source(parts: seq<Part>): string {
    if parts == [] then ""
    else (match parts[0]
          case Lit(text) => text
          case Hole(p) => "{" + Name(p) + "}") + Source(parts[1..])
  }

  /** Parts a parse can return: literals neither empty, nor side by side, nor holding a brace. */
  predicate Normal(parts: seq<Part>) {
    forall i :: 0 <= i < |parts| && parts[i].Lit? ==>
      parts[i].text != "" && '{' !in parts[i].text && (i + 1 < |parts| ==> parts[i + 1].Hole?)
  }

  lemma {:induction false} SourceConcat(a: seq<Part>, b: seq<Part>)
    ensures Source(a + b) == Source(a) + Source(b)
  {
    if a == [] {
      assert a + b == b;
    } else {
      assert (a + b)[1..] == a[1..] + b;
      SourceConcat(a[1..], b);
    }
  }

  lemma NamesLookUp(p: Placeholder)
    ensures Lookup(Name(p)) == Some(p) && '}' !in Name(p) && '{' !in Name(p)
  {}

  lemma LookupIsName(name: string)
    ensures Lookup(name).Some? ==> Name(Lookup(name).value) == name
  {}

  lemma NormalConcat(before: seq<Part>, hole: Placeholder, rest: seq<Part>)
    requires Normal(before) && |before| <= 1 && Normal(rest)
    ensures Normal(before + [Hole(hole)] + rest)
  {
    var parts := before + [Hole(hole)] + rest;
    forall i | 0 <= i < |parts| && parts[i].Lit?
      ensures parts[i].text != "" && '{' !in parts[i].text && (i + 1 < |parts| ==> parts[i + 1].Hole?)
    {
      if i >= |before| {
        var j := i - |before| - 1;
        assert parts[i] == rest[j] && (i + 1 < |parts| ==> parts[i + 1] == rest[j + 1]);
      } else {
        assert parts[i] == before[i];
      }
    }
  }

  lemma BeforeIsSpelled(s: string)
    ensures Source(Before(s)) == s[..Index(s, '{', 0)] && Normal(Before(s))
  {
    var start := Index(s, '{', 0);
    assert s[0..start] == s[..start];
    if start > 0 {
      assert Before(s)[1..] == [];
      assert s[..start] + "" == s[..start];
    }
  }

  lemma SplitAround(s: string, start: nat, end: nat)
    requires start < end < |s| && s[start] == '{' && s[end] == '}'
    ensures s == s[..start] + ("{" + s[start + 1..end] + "}") + s[end + 1..]
  {}

  lemma HoleIsSpelled(before: seq<Part>, hole: Placeholder)
    ensures Source(before + [Hole(hole)]) == Source(before) + ("{" + Name(hole) + "}")
  {
    SourceConcat(before, [Hole(hole)]);
    assert [Hole(hole)][1..] == [];
    assert ("{" + Name(hole) + "}") + "" == "{" + Name(hole) + "}";
  }

  lemma ChunkIsSpelled(s: string)
    ensures match NextChunk(s)
      case Last(parts) => Source(parts) == s && Normal(parts)
      case Broken(_) => true
      case Next(parts, rest) =>
        Source(parts) + rest == s && parts == Before(s) + [Hole(parts[|parts| - 1].placeholder)]
  {
    var start := Index(s, '{', 0);
    BeforeIsSpelled(s);
    if start < |s| {
      var end := Index(s, '}', start);
      if end < |s| {
        var hole := Lookup(s[start + 1..end]);
        LookupIsName(s[start + 1..end]);
        if hole.Some? {
          HoleIsSpelled(Before(s), hole.value);
          SplitAround(s, start, end);
        }
      }
    } else {
      assert s[..start] == s;
    }
  }

  /** Parsing loses nothing: the parts spell the template back, in normal form. */
  lemma {:induction false} PartsSpellTheSource(s: string)
    ensures PartsOf(s).Ok? ==> Source(PartsOf(s).value) == s && Normal(PartsOf(s).value)
    decreases |s|
  {
    ChunkIsSpelled(s);
    match NextChunk(s)
    case Next(parts, rest) =>
      PartsSpellTheSource(rest);
      if PartsOf(rest).Ok? {
        BeforeIsSpelled(s);
        SourceConcat(parts, PartsOf(rest).value);
        NormalConcat(Before(s), parts[|parts| - 1].placeholder, PartsOf(rest).value);
      }
    case _ =>
  }

  lemma {:induction false} IndexIs(s: string, c: char, from: nat, i: nat)
    requires from <= i <= |s| && (i < |s| ==> s[i] == c) && c !in s[from..i]
    ensures Index(s, c, from) == i
    decreases i - from
  {
    if from < i {
      assert s[from] == s[from..i][0] && s[from + 1..i] == s[from..i][1..];
      IndexIs(s, c, from + 1, i);
    }
  }

  lemma Bracketed(head: string, name: string, tail: string, s: string)
    requires s == head + ("{" + name + "}" + tail)
    ensures var start, end := |head|, |head| + 1 + |name|;
      && end < |s| && s[start] == '{' && s[end] == '}' && s[..start] == head && s[0..start] == head
      && s[start..end] == "{" + name && s[start + 1..end] == name && s[end + 1..] == tail
  {
    var start, end := |head|, |head| + 1 + |name|;
    Cut(head, "{" + name + "}" + tail);
    Cut("{" + name, "}" + tail);
    assert "{" + name + "}" + tail == ("{" + name) + ("}" + tail);
    SliceOf(s, start, end);
    SliceOf(s, start + 1, end);
    SliceOf(s, end, end + 1);
    Cut("{", name);
    Cut("}", tail);
    assert s[start..end][1..] == s[start + 1..end];
  }

  lemma SliceOf(s: string, i: nat, j: nat)
    requires i <= j <= |s|
    ensures s[i..j] == s[i..][..j - i] && s[j..] == s[i..][j - i..]
  {}

  lemma Cut(a: string, b: string)
    ensures (a + b)[..|a|] == a && (a + b)[|a|..] == b
  {}

  lemma ChunkAt(s: string, start: nat, end: nat, p: Placeholder)
    requires start < end < |s| && Index(s, '{', 0) == start && Index(s, '}', start) == end
      && s[start + 1..end] == Name(p)
    ensures NextChunk(s) == Next((if start == 0 then [] else [Lit(s[..start])]) + [Hole(p)], s[end + 1..])
  {
    NamesLookUp(p);
  }

  lemma HoleCloses(head: string, p: Placeholder, tail: string)
    requires '{' !in head
    ensures NextChunk(head + ("{" + Name(p) + "}" + tail)) ==
      Next((if head == "" then [] else [Lit(head)]) + [Hole(p)], tail)
  {
    var name := Name(p);
    var s, start, end := head + ("{" + name + "}" + tail), |head|, |head| + 1 + |name|;
    NamesLookUp(p);
    Bracketed(head, name, tail, s);
    IndexIs(s, '{', 0, start);
    IndexIs(s, '}', start, end);
    ChunkAt(s, start, end, p);
  }

  lemma LiteralAlone(text: string)
    requires text != "" && '{' !in text
    ensures PartsOf(text) == Ok([Lit(text)])
  {
    assert text[0..|text|] == text == text[..|text|];
    IndexIs(text, '{', 0, |text|);
  }

  lemma HoleLeads(p: Placeholder, rest: seq<Part>)
    requires PartsOf(Source(rest)) == Ok(rest)
    ensures PartsOf(Source([Hole(p)] + rest)) == Ok([Hole(p)] + rest)
  {
    HoleSource(p, rest);
    HoleCloses("", p, Source(rest));
    assert [] + [Hole(p)] == [Hole(p)];
  }

  lemma HoleSource(p: Placeholder, rest: seq<Part>)
    ensures Source([Hole(p)] + rest) == "" + ("{" + Name(p) + "}" + Source(rest))
  {
    assert ([Hole(p)] + rest)[1..] == rest;
    var s := "{" + Name(p) + "}" + Source(rest);
    assert "" + s == s;
  }

  lemma LiteralLeads(text: string, p: Placeholder, rest: seq<Part>)
    requires text != "" && '{' !in text && PartsOf(Source(rest)) == Ok(rest)
    ensures PartsOf(Source([Lit(text), Hole(p)] + rest)) == Ok([Lit(text), Hole(p)] + rest)
  {
    var parts := [Lit(text), Hole(p)] + rest;
    assert parts[1..] == [Hole(p)] + rest && parts[1..][1..] == rest;
    assert Source(parts) == text + ("{" + Name(p) + "}" + Source(rest));
    HoleCloses(text, p, Source(rest));
    assert [Lit(text)] + [Hole(p)] == [Lit(text), Hole(p)];
  }

  /** Parts in normal form are what their own spelling parses to. */
  lemma {:induction false} SourceParsesBack(parts: seq<Part>)
    requires Normal(parts)
    ensures PartsOf(Source(parts)) == Ok(parts)
    decreases |parts|
  {
    if parts == [] {
    } else if parts[0].Hole? {
      SourceParsesBack(parts[1..]);
      HoleLeads(parts[0].placeholder, parts[1..]);
      assert parts == [parts[0]] + parts[1..];
    } else if |parts| == 1 {
      assert parts == [parts[0]] && parts[1..] == [];
      assert Source(parts) == parts[0].text + "" == parts[0].text;
      LiteralAlone(parts[0].text);
    } else {
      SourceParsesBack(parts[2..]);
      LiteralLeads(parts[0].text, parts[1].placeholder, parts[2..]);
      assert parts == [parts[0], parts[1]] + parts[2..];
    }
  }

  // ----- rendering -----

  datatype Stamp = Stamp(year: nat, month: nat, day: nat, hour: nat, minute: nat)

  datatype Fields = Fields(platform: string, channel: string, author: string, title: string,
                           category: string, started: Stamp, extension: string)

  /** Every placeholder's rendered value. */
  datatype Values = Values(platform: string, channel: string, author: string, title: string,
                           category: string, date: string, time: string, year: string,
                           month: string, day: string, ext: string)
  {
    function Get(p: Placeholder): string {
      match p
      case Platform => platform
      case Channel => channel
      case Author => author
      case Title => title
      case Category => category
      case Date => date
      case Time => time
      case Year => year
      case Month => month
      case Day => day
      case Ext => ext
    }
  }

  function DateText(s: Stamp): string { Digits(s.year, 4) + "-" + Digits(s.month, 2) + "-" + Digits(s.day, 2) }

  function TimeText(s: Stamp): string { Digits(s.hour, 2) + "-" + Digits(s.minute, 2) }

  function WithoutDot(extension: string): string {
    if extension != "" && extension[0] == '.' then extension[1..] else extension
  }

  /** resolve: the author falls back to the channel. */
  function Resolved(f: Fields): Values {
    var author := if TrimSpace(f.author) == "" && TrimSpace(f.channel) != "" then f.channel else f.author;
    Values(TrimSpace(f.platform), TrimSpace(f.channel), TrimSpace(author), TrimSpace(f.title),
           TrimSpace(f.category), TrimSpace(DateText(f.started)), TrimSpace(TimeText(f.started)),
           TrimSpace(Digits(f.started.year, 4)), TrimSpace(Digits(f.started.month, 2)),
           TrimSpace(Digits(f.started.day, 2)), TrimSpace(WithoutDot(f.extension)))
  }

  function SafeValues(v: Values): Values {
    Values(SanitizeValue(v.platform), SanitizeValue(v.channel), SanitizeValue(v.author),
           SanitizeValue(v.title), SanitizeValue(v.category), SanitizeValue(v.date),
           SanitizeValue(v.time), SanitizeValue(v.year), SanitizeValue(v.month),
           SanitizeValue(v.day), SanitizeValue(v.ext))
  }

  function Expand(parts: seq<Part>, v: Values): string {
    if parts == [] then ""
    else (match parts[0]
          case Lit(text) => text
          case Hole(p) => v.Get(p)) + Expand(parts[1..], v)
  }

  lemma UnknownIsThere(s: string, start: nat, end: nat)
    requires start < end < |s| && s[start] == '{' && s[end] == '}' && '}' !in s[start..end]
    requires Lookup(s[start + 1..end]).None?
    ensures Wrong(s[start..], Unknown(s[start + 1..end]))
  {
    var name := s[start + 1..end];
    assert s[start..][..end + 1 - start] == "{" + name + "}";
    assert s[start..end] == ['{'] + name;
  }

  lemma ChunkOf(s: string)
    returns (i: nat)
    ensures i <= |s|
    ensures NextChunk(s).Broken? ==> Wrong(s[i..], NextChunk(s).error)
    ensures NextChunk(s).Next? ==> NextChunk(s).rest == s[i..]
  {
    i := Index(s, '{', 0);
    if i < |s| {
      var end := Index(s, '}', i);
      if end == |s| {
        assert s[i..] == s[i..end];
      } else if Lookup(s[i + 1..end]).None? {
        UnknownIsThere(s, i, end);
      } else {
        i := end + 1;
      }
    }
  }

  /** What a template is refused for is there in it: a brace nothing closes, or a name nobody knows. */
  lemma {:induction false} ErrorsAreThere(s: string)
    requires PartsOf(s).Err?
    ensures exists i :: 0 <= i <= |s| && Wrong(s[i..], PartsOf(s).error)
    decreases |s|
  {
    var k := ChunkOf(s);
    if NextChunk(s).Next? {
      ErrorsAreThere(s[k..]);
      var i :| 0 <= i <= |s[k..]| && Wrong(s[k..][i..], PartsOf(s[k..]).error);
      assert s[k + i..] == s[k..][i..];
    }
  }

  predicate Wrong(s: string, error: ParseError) {
    match error
    case Unclosed => s != "" && s[0] == '{' && '}' !in s
    case Unknown(name) => "{" + name + "}" <= s && '}' !in name && Lookup(name).None?
    case _ => false
  }

  lemma NotAllSpace(s: string)
    requires s != "" && !IsSpace(s[0])
    ensures TrimSpace(s) != ""
  {
    var k := KeptEnd(s, |s|, Spaces);
    assert k > 0 && s[..k][0] == s[0];
    assert KeptStart(s[..k], 0, Spaces) == 0;
  }

  /** A template's text prints a value of the fields. */
  predicate Prints(text: string, v: Values, printed: string) {
    Parsed(text).Ok? && Expand(Parsed(text).value, v) == printed
  }

  lemma OneHolePrints(p: Placeholder, v: Values)
    ensures Prints("{" + (Name(p) + "}"), v, v.Get(p))
  {
    var text, parts := "{" + (Name(p) + "}"), [Hole(p)];
    assert parts[1..] == [];
    assert Source(parts) == text + "" == text;
    SourceParsesBack(parts);
    NotAllSpace(text);
    assert Holes(parts) == 1;
    assert v.Get(p) + "" == v.Get(p);
  }

  /** The names an operator knows, and the field each is for. */
  predicate FieldNamed(v: Values, name: string, field: string) {
    || (name == "platform" && field == v.platform) || (name == "channel" && field == v.channel)
    || (name == "author" && field == v.author) || (name == "title" && field == v.title)
    || (name == "category" && field == v.category) || (name == "ext" && field == v.ext)
    || (name == "date" && field == v.date) || (name == "time" && field == v.time)
    || (name == "year" && field == v.year) || (name == "month" && field == v.month) || (name == "day" && field == v.day)
  }

  lemma NamedByOne(v: Values, name: string, field: string)
    returns (p: Placeholder)
    requires FieldNamed(v, name, field)
    ensures Name(p) == name && v.Get(p) == field
  {
    p :| Name(p) == name;
  }

  /** What an operator writes between braces prints the field of that name, and no other name is known. */
  lemma PlaceholdersPrintTheirFields(v: Values, name: string)
    ensures forall field :: FieldNamed(v, name, field) ==> Prints("{" + (name + "}"), v, field)
    ensures Lookup(name).None? <==> !exists field :: FieldNamed(v, name, field)
  {
    forall field | FieldNamed(v, name, field) ensures Prints("{" + (name + "}"), v, field) && Lookup(name).Some? {
      var p := NamedByOne(v, name, field);
      OneHolePrints(p, v);
    }
    if Lookup(name).Some? { assert FieldNamed(v, name, v.Get(Lookup(name).value)); }
  }

  function Components(parts: seq<Part>, v: Values): seq<string> {
    Split(ToSlash(Expand(parts, v)))
  }

  /** segmentUnits: one more than the bytes of a component that is not empty. */
  function Units(segment: string): nat {
    if segment == "" then 0 else 1 + Utf8(segment)
  }

  const MAX_UNITS := 200

  function Worst(segments: seq<string>): nat {
    if segments == [] then 0
    else Max(Max(Units(segments[0]) - MAX_UNITS, 0), Worst(segments[1..]))
  }

  /** longestOverflow. */
  function Overflow(rendered: string): nat {
    Worst(Split(ToSlash(rendered)))
  }

  /** segmentUnits' loop over runes. */
  method SegmentUnits(segment: string) returns (units: nat)
    ensures units == Units(segment)
  {
    units := 0;
    for i := 0 to |segment|
      invariant units == Units(segment[..i])
    {
      assert segment[..i + 1] == segment[..i] + [segment[i]];
      Utf8Concat(segment[..i], [segment[i]]);
      assert Utf8([segment[i]]) == Utf8Char(segment[i]);
      units := Max(units, 1);
      if segment[i] as int > 0xFFFF {
        units := units + 4;
      } else {
        units := units + Utf8Char(segment[i]);
      }
    }
    assert segment[..|segment|] == segment;
  }

  /** Where a text is cut for a word's end: at its last space, if what follows is a quarter or less. */
  function WordCut(s: string): (cut: nat)
    ensures cut <= |s|
  {
    var cut := LastSpace(s, |s|);
    if cut > 0 && (Utf8(s) - Utf8(s[..cut])) * 4 <= Utf8(s) then cut else |s|
  }

  /** shrink: at least `overflow` runes off the end, back to a word boundary close by. */
  function Shrink(title: string, overflow: nat): string {
    if |title| <= overflow then ""
    else
      var trimmed := TrimEnd(title[..|title| - overflow], WordBreaks);
      TrimEnd(trimmed[..WordCut(trimmed)], WordBreaks)
  }

  /** Where the last space before n stands, or 0 where there is none past the start. */
  function LastSpace(s: string, n: nat): (i: nat)
    requires n <= |s|
    ensures i <= n && (i > 0 ==> i < n && s[i] == ' ')
    ensures forall j :: i < j < n ==> s[j] != ' '
  {
    if n == 0 then 0 else if s[n - 1] == ' ' then n - 1 else LastSpace(s, n - 1)
  }

  lemma TrimEndIsPrefix(s: string, cut: Cutset)
    ensures TrimEnd(s, cut) == s[..|TrimEnd(s, cut)|] && |TrimEnd(s, cut)| <= |s|
  {}

  /** A shrunk title is a prefix, shorter by at least the overflow in runes and in bytes. */
  lemma ShrinkIsAPrefix(title: string, overflow: nat)
    returns (n: nat)
    ensures n <= |title| && Shrink(title, overflow) == title[..n]
    ensures n == 0 || (n + overflow <= |title| && Utf8(Shrink(title, overflow)) + overflow <= Utf8(title))
  {
    n := |Shrink(title, overflow)|;
    if |title| > overflow {
      var head := title[..|title| - overflow];
      var trimmed := TrimEnd(head, WordBreaks);
      TrimEndIsPrefix(head, WordBreaks);
      var kept := trimmed[..WordCut(trimmed)];
      TrimEndIsPrefix(kept, WordBreaks);
      assert Shrink(title, overflow) == kept[..n] == trimmed[..n] == head[..n] == title[..n];
      Utf8Prefix(title, n);
    }
  }

  /** The characters no shrunk title ends in. */
  predicate IsBreak(c: char) { c in " \t-_" }

  /** The last space of title[..body], short of the very first character. */
  predicate LastSpaceBefore(title: string, i: int, body: nat) {
    0 < i < body <= |title| && title[i] == ' ' && forall j :: i < j < body ==> title[j] != ' '
  }

  lemma WordCutHolds(title: string, body: nat)
    requires body <= |title|
    ensures var cut := WordCut(title[..body]);
      && (cut < body ==> LastSpaceBefore(title, cut, body))
      && 4 * Utf8(title[..cut]) >= 3 * Utf8(title[..body])
      && (cut == body ==>
            forall i :: LastSpaceBefore(title, i, body) ==> 4 * Utf8(title[..i]) < 3 * Utf8(title[..body]))
  {
    var s := title[..body];
    var space := LastSpace(s, body);
    assert title[..space] == s[..space];
    assert forall i :: LastSpaceBefore(title, i, body) ==> s[i] == ' ';
  }

  /** What a shrunk title keeps. Taking the overflow off and then the breaks at the end leaves `body`;
      that is cut for a word's end, and nothing else is given up but the breaks left at its end. */
  lemma ShrinkKeeps(title: string, overflow: nat)
    returns (n: nat, cut: nat, body: nat)
    requires overflow < |title|
    ensures n <= cut <= body <= |title| - overflow && Shrink(title, overflow) == title[..n]
    ensures forall i :: body <= i < |title| - overflow || n <= i < cut ==> IsBreak(title[i])
    ensures (body > 0 ==> !IsBreak(title[body - 1])) && (n > 0 ==> !IsBreak(title[n - 1]))
    ensures cut < body ==> LastSpaceBefore(title, cut, body)
    ensures 4 * Utf8(title[..cut]) >= 3 * Utf8(title[..body])
    ensures cut == body ==>
              forall i :: LastSpaceBefore(title, i, body) ==> 4 * Utf8(title[..i]) < 3 * Utf8(title[..body])
  {
    var head := title[..|title| - overflow];
    body := KeptEnd(head, |head|, WordBreaks);
    var trimmed := title[..body];
    assert head[..body] == trimmed;
    cut := WordCut(trimmed);
    assert trimmed[..cut] == title[..cut];
    n := KeptEnd(title[..cut], cut, WordBreaks);
    assert title[..cut][..n] == title[..n];
    WordCutHolds(title, body);
  }

  /** What the title is left as: as it was when everything fits, shrunk once when it does not, and
      nothing at all where even an empty title overflows. */
  function Fitted(parts: seq<Part>, v: Values): Option<Values> {
    var overflow := Overflow(Expand(parts, v));
    if overflow == 0 then Some(v)
    else if Overflow(Expand(parts, v.(title := ""))) > 0 then None
    else Some(v.(title := Shrink(v.title, overflow)))
  }

  // ----- why one shrink is enough -----

  lemma {:induction false} ToSlashConcat(a: string, b: string)
    ensures ToSlash(a + b) == ToSlash(a) + ToSlash(b)
  {}

  predicate NoSeparator(s: string) { forall i :: 0 <= i < |s| ==> !IsSeparator(s[i]) }

  lemma ToSlashWhole(s: string)
    requires NoSeparator(s)
    ensures ToSlash(s) == s && Split(ToSlash(s)) == [s]
  {
    assert ToSlash(s) == s;
    SplitWhole(s);
  }

  predicate Separated(v: Values) {
    forall p: Placeholder :: NoSeparator(v.Get(p))
  }

  lemma ComponentsStep(parts: seq<Part>, v: Values)
    requires parts != []
    ensures parts[0].Lit? ==>
      Components(parts, v) == Glue(Split(ToSlash(parts[0].text)), Components(parts[1..], v))
    ensures parts[0].Hole? && NoSeparator(v.Get(parts[0].placeholder)) ==>
      Components(parts, v) == Glue([v.Get(parts[0].placeholder)], Components(parts[1..], v))
  {
    var head := match parts[0] case Lit(text) => text case Hole(p) => v.Get(p);
    var rest := Expand(parts[1..], v);
    ToSlashConcat(head, rest);
    SplitConcat(ToSlash(head), ToSlash(rest));
    if parts[0].Hole? && NoSeparator(head) { ToSlashWhole(head); }
  }

  /** ys is xs with `k` bytes or more gone from every component that is not the same in all three. */
  ghost predicate Shorter(xs: seq<string>, ys: seq<string>, zs: seq<string>, k: nat) {
    && |xs| == |ys| == |zs|
    && forall i :: 0 <= i < |xs| ==>
         (xs[i] == ys[i] == zs[i] || Utf8(ys[i]) + k <= Utf8(xs[i])) && Utf8(zs[i]) <= Utf8(xs[i])
  }

  lemma GlueShorter(xs: seq<string>, ys: seq<string>, zs: seq<string>,
                    us: seq<string>, vs: seq<string>, ws: seq<string>, k: nat)
    requires xs != [] && us != [] && Shorter(xs, ys, zs, k) && Shorter(us, vs, ws, k)
    ensures Shorter(Glue(xs, us), Glue(ys, vs), Glue(zs, ws), k)
  {
    var n := |xs| - 1;
    Utf8Concat(xs[n], us[0]);
    Utf8Concat(ys[n], vs[0]);
    Utf8Concat(zs[n], ws[0]);
    var g, h, l := Glue(xs, us), Glue(ys, vs), Glue(zs, ws);
    forall i | 0 <= i < |g|
      ensures (g[i] == h[i] == l[i] || Utf8(h[i]) + k <= Utf8(g[i])) && Utf8(l[i]) <= Utf8(g[i])
    {
      if i < n {
      } else if i > n {
        assert g[i] == us[i - n] && h[i] == vs[i - n] && l[i] == ws[i - n];
      }
    }
  }

  lemma SameIsShorter(xs: seq<string>, k: nat)
    ensures Shorter(xs, xs, xs, k)
  {}

  lemma LiteralShorter(parts: seq<Part>, v: Values, v': Values, v0: Values, k: nat)
    requires parts != [] && parts[0].Lit?
    requires Shorter(Components(parts[1..], v), Components(parts[1..], v'), Components(parts[1..], v0), k)
    ensures Shorter(Components(parts, v), Components(parts, v'), Components(parts, v0), k)
  {
    var literal := Split(ToSlash(parts[0].text));
    ComponentsStep(parts, v);
    ComponentsStep(parts, v');
    ComponentsStep(parts, v0);
    SameIsShorter(literal, k);
    GlueShorter(literal, literal, literal,
                Components(parts[1..], v), Components(parts[1..], v'), Components(parts[1..], v0), k);
  }

  lemma HoleShorter(parts: seq<Part>, v: Values, v': Values, v0: Values, k: nat)
    requires parts != [] && parts[0].Hole?
    requires Shorter(Components(parts[1..], v), Components(parts[1..], v'), Components(parts[1..], v0), k)
    requires var p := parts[0].placeholder;
      && NoSeparator(v.Get(p)) && NoSeparator(v'.Get(p)) && NoSeparator(v0.Get(p))
      && Shorter([v.Get(p)], [v'.Get(p)], [v0.Get(p)], k)
    ensures Shorter(Components(parts, v), Components(parts, v'), Components(parts, v0), k)
  {
    var p := parts[0].placeholder;
    ComponentsStep(parts, v);
    ComponentsStep(parts, v');
    ComponentsStep(parts, v0);
    GlueShorter([v.Get(p)], [v'.Get(p)], [v0.Get(p)],
                Components(parts[1..], v), Components(parts[1..], v'), Components(parts[1..], v0), k);
  }

  lemma CutShortens(v: Values, shorter: string, k: nat, p: Placeholder)
    requires Separated(v) && NoSeparator(shorter) && Utf8(shorter) + k <= Utf8(v.title)
    ensures var v', v0 := v.(title := shorter), v.(title := "");
      && NoSeparator(v.Get(p)) && NoSeparator(v'.Get(p)) && NoSeparator(v0.Get(p))
      && Shorter([v.Get(p)], [v'.Get(p)], [v0.Get(p)], k)
  {
    assert NoSeparator(v.Get(p));
    if !p.Title? { assert v.(title := shorter).Get(p) == v.Get(p) == v.(title := "").Get(p); }
  }

  lemma {:induction false} ShorterTitleShorterComponents(parts: seq<Part>, v: Values, shorter: string, k: nat)
    requires Separated(v) && NoSeparator(shorter) && Utf8(shorter) + k <= Utf8(v.title)
    ensures Shorter(Components(parts, v), Components(parts, v.(title := shorter)),
                    Components(parts, v.(title := "")), k)
  {
    var v', v0 := v.(title := shorter), v.(title := "");
    if parts == [] {
      assert Expand(parts, v) == "" == Expand(parts, v') == Expand(parts, v0);
    } else {
      ShorterTitleShorterComponents(parts[1..], v, shorter, k);
      if parts[0].Lit? {
        LiteralShorter(parts, v, v', v0, k);
      } else {
        CutShortens(v, shorter, k, parts[0].placeholder);
        HoleShorter(parts, v, v', v0, k);
      }
    }
  }

  lemma {:induction false} WorstBounds(segments: seq<string>)
    ensures forall i :: 0 <= i < |segments| ==> Units(segments[i]) <= MAX_UNITS + Worst(segments)
    ensures Worst(segments) > 0 ==> exists i :: 0 <= i < |segments| && Units(segments[i]) == MAX_UNITS + Worst(segments)
  {
    if segments != [] {
      WorstBounds(segments[1..]);
      forall i | 0 <= i < |segments| ensures Units(segments[i]) <= MAX_UNITS + Worst(segments) {
        if i > 0 { assert segments[i] == segments[1..][i - 1]; }
      }
      if Worst(segments) > 0 {
        if Worst(segments) == Worst(segments[1..]) {
          var i :| 0 <= i < |segments[1..]| && Units(segments[1..][i]) == MAX_UNITS + Worst(segments[1..]);
          assert segments[i + 1] == segments[1..][i];
        } else {
          assert Units(segments[0]) == MAX_UNITS + Worst(segments);
        }
      }
    }
  }

  /** An overflow even an empty title leaves is left by every title. */
  lemma OverflowStays(parts: seq<Part>, v: Values)
    requires Separated(v) && Overflow(Expand(parts, v.(title := ""))) > 0
    ensures Overflow(Expand(parts, v)) > 0
  {
    ShorterTitleShorterComponents(parts, v, "", 0);
    var xs, zs := Components(parts, v), Components(parts, v.(title := ""));
    WorstBounds(xs);
    WorstBounds(zs);
    var i :| 0 <= i < |zs| && Units(zs[i]) > MAX_UNITS;
    assert Units(xs[i]) >= Units(zs[i]);
  }

  /** Nothing overflows exactly where every component is under 200 bytes. */
  lemma FitsWhenShort(rendered: string)
    ensures Overflow(rendered) == 0 <==>
      forall i :: 0 <= i < |Split(ToSlash(rendered))| ==> Utf8(Split(ToSlash(rendered))[i]) < 200
  {
    var segments := Split(ToSlash(rendered));
    WorstBounds(segments);
    if forall i :: 0 <= i < |segments| ==> Utf8(segments[i]) < 200 {
      forall i | 0 <= i < |segments| ensures Units(segments[i]) <= MAX_UNITS {
        assert Utf8(segments[i]) < 200;
      }
      NoneOver(segments);
    } else {
      assert Utf8("") == 0;
    }
  }

  lemma ShorterFits(xs: seq<string>, ys: seq<string>, zs: seq<string>)
    requires Shorter(xs, ys, zs, Worst(xs)) && Worst(zs) == 0
    ensures Worst(ys) == 0
  {
    WorstBounds(xs);
    WorstBounds(zs);
    forall i | 0 <= i < |ys| ensures Units(ys[i]) <= MAX_UNITS {
      assert Units(zs[i]) <= MAX_UNITS && Units(xs[i]) <= MAX_UNITS + Worst(xs);
    }
    NoneOver(ys);
  }

  lemma {:induction false} NoneOver(segments: seq<string>)
    requires forall i :: 0 <= i < |segments| ==> Units(segments[i]) <= MAX_UNITS
    ensures Worst(segments) == 0
  {
    if segments != [] { NoneOver(segments[1..]); }
  }

  lemma OneCutFits(parts: seq<Part>, v: Values, cut: string)
    requires Separated(v) && NoSeparator(cut) && Worst(Components(parts, v.(title := ""))) == 0
    requires cut == "" || Utf8(cut) + Worst(Components(parts, v)) <= Utf8(v.title)
    ensures Worst(Components(parts, v.(title := cut))) == 0
  {
    if cut != "" {
      ShorterTitleShorterComponents(parts, v, cut, Worst(Components(parts, v)));
      ShorterFits(Components(parts, v), Components(parts, v.(title := cut)), Components(parts, v.(title := "")));
    }
  }

  lemma ShrunkTitle(title: string, overflow: nat)
    requires NoSeparator(title)
    ensures var cut := Shrink(title, overflow);
      && NoSeparator(cut) && (cut == "" || Utf8(cut) + overflow <= Utf8(title))
      && exists n :: 0 <= n <= |title| && cut == title[..n]
  {
    var n := ShrinkIsAPrefix(title, overflow);
  }

  /** One shrink is enough wherever any is. */
  lemma OneShrinkFits(parts: seq<Part>, v: Values)
    requires Separated(v) && Fitted(parts, v).Some?
    ensures Overflow(Expand(parts, Fitted(parts, v).value)) == 0
  {
    var overflow := Worst(Components(parts, v));
    if overflow > 0 {
      assert NoSeparator(v.Get(Title));
      ShrunkTitle(v.title, overflow);
      OneCutFits(parts, v, Shrink(v.title, overflow));
    }
  }

  lemma ShrinkStaysSeparated(v: Values, overflow: nat)
    requires Separated(v)
    ensures Separated(v.(title := Shrink(v.title, overflow)))
    ensures exists n :: 0 <= n <= |v.title| && Shrink(v.title, overflow) == v.title[..n]
  {
    assert NoSeparator(v.Get(Title));
    ShrunkTitle(v.title, overflow);
    var w := v.(title := Shrink(v.title, overflow));
    forall p: Placeholder ensures NoSeparator(w.Get(p)) {
      if !p.Title? { assert w.Get(p) == v.Get(p); }
    }
  }

  const MAX_PASSES := 16

  /** renderFitting's loop: it fails exactly when the template with an empty title overflows, and
      otherwise succeeds after at most one shrink with a prefix of the title. */
  method RenderFitting(parts: seq<Part>, v: Values) returns (rendered: Option<string>, shortened: bool)
    requires Separated(v)
    ensures rendered.None? <==> Overflow(Expand(parts, v.(title := ""))) > 0
    ensures rendered.Some? ==>
      && Fitted(parts, v).Some? && rendered.value == Expand(parts, Fitted(parts, v).value)
      && shortened == (Fitted(parts, v).value.title != v.title)
      && Overflow(rendered.value) == 0
      && exists n :: 0 <= n <= |v.title| && Fitted(parts, v).value.title == v.title[..n]
  {
    var working := v;
    ghost var hopeless := Overflow(Expand(parts, v.(title := ""))) > 0;
    assert v.title[..|v.title|] == v.title;
    for pass := 0 to MAX_PASSES
      invariant Separated(working) && working.(title := "") == v.(title := "")
      invariant !hopeless ==> pass <= 1 && (pass == 0 ==> working == v)
      invariant !hopeless && pass == 1 ==> Fitted(parts, v) == Some(working) && Overflow(Expand(parts, working)) == 0
      invariant !hopeless ==> exists n :: 0 <= n <= |v.title| && working.title == v.title[..n]
    {
      var text := Expand(parts, working);
      var overflow := Overflow(text);
      if overflow == 0 {
        if hopeless { OverflowStays(parts, working); }
        return Some(text), working.title != v.title;
      }
      if working.title == "" {
        assert working == working.(title := "");
        return None, false;
      }
      ShrinkStaysSeparated(working, overflow);
      if !hopeless { OneShrinkFits(parts, v); }
      working := working.(title := Shrink(working.title, overflow));
    }
    return None, false;
  }
}
