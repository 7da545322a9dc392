/** Writing a log record, and what is true of every one written. */
module Logger {
  import opened Basics
  import opened Text
  import opened Numerals
  import opened Escape
  import opened LogRecord

  // ----- how long a rendering is -----

  lemma HexBytes(n: nat, width: nat)
    ensures Utf8(Hex(n, width)) == width
  {
    HexIsPlain(n, width);
    forall i | 0 <= i < width ensures Hex(n, width)[i] as int < 0x80 { assert Hex(n, width)[i] in Hex(n, width); }
    AsciiBytes(Hex(n, width));
  }

  lemma EscapeBytes(kind: char, n: nat, width: nat)
    requires kind as int < 0x80
    ensures Utf8("\\" + [kind] + Hex(n, width)) == 2 + width
  {
    HexBytes(n, width);
    Utf8Concat("\\" + [kind], Hex(n, width));
    AsciiBytes("\\" + [kind]);
  }

  /** Quoting spends at most four bytes on each one that arrived. */
  lemma UnitExpandsFourfold(p: Printer, u: Unit)
    requires p.Sane() && (u.Bad? ==> 0x80 <= u.b < 0x100)
    ensures Utf8(Escaped(p, u)) <= 4 * |UnitBytes(u)|
  {
    match u
    case Bad(b) =>
      EscapeBytes('x', b, 2);
      assert "\\x" + Hex(b, 2) == "\\" + ['x'] + Hex(b, 2);
    case Rune(c) =>
      if Letter(c).Some? {
        AsciiBytes(['\\', Letter(c).value]);
      } else if p.isPrint(c) {
        assert Utf8([c]) == Utf8Char(c) + Utf8("");
      } else if c as int < 0x20 || c as int == 0x7F {
        EscapeBytes('x', c as int, 2);
        assert "\\x" + Hex(c as int, 2) == "\\" + ['x'] + Hex(c as int, 2);
      } else if c as int < 0x1_0000 {
        EscapeBytes('u', c as int, 4);
        assert "\\u" + Hex(c as int, 4) == "\\" + ['u'] + Hex(c as int, 4);
      } else {
        EscapeBytes('U', c as int, 8);
        assert "\\U" + Hex(c as int, 8) == "\\" + ['U'] + Hex(c as int, 8);
      }
  }

  lemma {:induction false} BodyExpandsFourfold(p: Printer, s: GoText)
    requires p.Sane() && Possible(s)
    ensures Utf8(Body(p, s)) <= 4 * |Bytes(s)|
    decreases |s|
  {
    if s != [] {
      BodyExpandsFourfold(p, s[1..]);
      UnitExpandsFourfold(p, s[0]);
      Utf8Concat(Escaped(p, s[0]), Body(p, s[1..]));
    }
  }

  lemma QuoteBytes(p: Printer, s: GoText)
    requires p.Sane() && Possible(s)
    ensures Utf8(Quote(p, s)) <= 4 * |Bytes(s)| + 2
  {
    BodyExpandsFourfold(p, s);
    Utf8Concat("\"" + Body(p, s), "\"");
    Utf8Concat("\"", Body(p, s));
    AsciiBytes("\"");
  }

  lemma Int64HasNineteenDigits(n: nat)
    requires n <= MAX_INT64
    ensures |Decimal(n)| <= 19
  {
    assert Pow10(4) == 10_000 by { assert Pow10(1) == 10 && Pow10(2) == 100 && Pow10(3) == 1000; }
    assert Pow10(8) == 1_0000_0000 by { assert Pow10(5) == 10_0000 && Pow10(6) == 100_0000 && Pow10(7) == 1000_0000; }
    assert Pow10(12) == 1_0000_0000_0000 by {
      assert Pow10(9) == 10 * Pow10(8) && Pow10(10) == 10 * Pow10(9) && Pow10(11) == 10 * Pow10(10);
    }
    assert Pow10(16) == 1_0000_0000_0000_0000 by {
      assert Pow10(13) == 10 * Pow10(12) && Pow10(14) == 10 * Pow10(13) && Pow10(15) == 10 * Pow10(14);
    }
    assert Pow10(17) == 10 * Pow10(16) && Pow10(18) == 10 * Pow10(17) && Pow10(19) == 10 * Pow10(18);
    DecimalDigits(n, 19);
  }

  lemma DecimalIsAscii(n: nat)
    ensures forall i :: 0 <= i < |Decimal(n)| ==> IsDigit(Decimal(n)[i])
    ensures Utf8(Decimal(n)) == |Decimal(n)| && OneLine(Decimal(n))
  {
    DecimalReads(n);
    AsciiBytes(Decimal(n));
  }

  lemma OpeningIsAscii()
    ensures Utf8(OPENING) == 17 && OneLine(OPENING)
  {
    assert OneLine(OPENING);
    AsciiBytes(OPENING);
  }

  lemma ClosingIsAscii()
    ensures Utf8(CLOSING) == 7 && OneLine(CLOSING)
  {
    assert OneLine(CLOSING);
    AsciiBytes(CLOSING);
  }

  lemma MarkerBytes(n: nat)
    requires n <= MAX_INT64
    ensures Utf8(Marker(n)) <= 43
  {
    Int64HasNineteenDigits(n);
    DecimalIsAscii(n);
    OpeningIsAscii();
    ClosingIsAscii();
    Utf8Concat(OPENING, Decimal(n) + CLOSING);
    Utf8Concat(Decimal(n), CLOSING);
  }

  lemma {:induction false} PlainBytes(s: GoText)
    requires AllRunes(s)
    ensures Utf8(Plain(s)) == |Bytes(s)|
    decreases |s|
  {
    if s != [] {
      PlainBytes(s[1..]);
      assert Plain(s)[1..] == Plain(s[1..]);
    }
  }

  lemma {:induction false} HeadIsShort(s: GoText)
    ensures |Bytes(Head(s))| <= MAX_LEN
  {
    if |Bytes(s)| > MAX_LEN { HeadIsBytes(s); }
  }

  /** Every rendering fits its bound, however it expands. */
  lemma RenderingsAreBounded(p: Printer, s: GoText, quote: bool)
    requires p.Sane() && Possible(s) && (NeedsQuote(p, s) ==> quote) && |Bytes(s)| <= MAX_INT64
    ensures Utf8(RenderText(p, s, quote)) <= 4 * 4096 + 64
  {
    HeadIsShort(s);
    if |Bytes(s)| > MAX_LEN {
      HeadIsPossible(s);
      QuoteBytes(p, Head(s));
      MarkerBytes(|Bytes(s)|);
      Utf8Concat(Quote(p, Head(s)), Marker(|Bytes(s)|));
    } else if quote {
      QuoteBytes(p, s);
    } else {
      PlainBytes(s);
    }
  }

  // ----- that it is one line -----

  /** Nothing that ends or rewrites a line. */
  predicate OneLine(t: string) {
    forall i :: 0 <= i < |t| ==> t[i] as int >= 0x20 && t[i] as int != 0x7F && !(0x80 <= t[i] as int < 0xA0)
  }

  lemma {:induction false} BodyIsOneLine(p: Printer, s: GoText)
    requires p.Sane() && Possible(s)
    ensures OneLine(Body(p, s))
    decreases |s|
  {
    if s != [] {
      BodyIsOneLine(p, s[1..]);
      UnitIsOneLine(p, s[0]);
    }
  }

  lemma HexIsOneLine(n: nat, width: nat)
    ensures OneLine(Hex(n, width))
  {
    HexIsPlain(n, width);
    forall i | 0 <= i < width ensures 0x20 <= Hex(n, width)[i] as int <= 0x7E {
      assert Hex(n, width)[i] in Hex(n, width);
    }
  }

  lemma UnitIsOneLine(p: Printer, u: Unit)
    requires p.Sane() && (u.Bad? ==> 0x80 <= u.b < 0x100)
    ensures OneLine(Escaped(p, u))
  {
    match u
    case Bad(b) => HexIsOneLine(b, 2);
    case Rune(c) =>
      if Letter(c).None? && !p.isPrint(c) {
        HexIsOneLine(c as int, 2);
        HexIsOneLine(c as int, 4);
        HexIsOneLine(c as int, 8);
      }
  }

  lemma OneLineJoins(a: string, b: string)
    requires OneLine(a) && OneLine(b)
    ensures OneLine(a + b)
  {}

  lemma QuoteIsOneLine(p: Printer, s: GoText)
    requires p.Sane() && Possible(s)
    ensures OneLine(Quote(p, s))
  {
    BodyIsOneLine(p, s);
    OneLineJoins("\"", Body(p, s));
    OneLineJoins("\"" + Body(p, s), "\"");
  }

  lemma MarkerIsOneLine(n: nat)
    ensures OneLine(Marker(n))
  {
    DecimalIsAscii(n);
    OpeningIsAscii();
    ClosingIsAscii();
    OneLineJoins(Decimal(n), CLOSING);
    OneLineJoins(OPENING, Decimal(n) + CLOSING);
  }

  lemma RenderingsAreOneLine(p: Printer, s: GoText, quote: bool)
    requires p.Sane() && Possible(s) && (NeedsQuote(p, s) ==> quote)
    ensures OneLine(RenderText(p, s, quote))
  {
    if |Bytes(s)| > MAX_LEN {
      HeadIsPossible(s);
      QuoteIsOneLine(p, Head(s));
      MarkerIsOneLine(|Bytes(s)|);
      OneLineJoins(Quote(p, Head(s)), Marker(|Bytes(s)|));
    } else if quote {
      QuoteIsOneLine(p, s);
    } else {
      forall i | 0 <= i < |s| ensures p.isPrint(Plain(s)[i]) { assert s[i].Rune?; }
    }
  }

  lemma {:induction false} JoinedIsOneLine(pairs: seq<(string, string)>)
    requires forall i :: 0 <= i < |pairs| ==> OneLine(pairs[i].0) && OneLine(pairs[i].1)
    ensures OneLine(Joined(pairs))
    decreases |pairs|
  {
    if |pairs| > 1 { JoinedIsOneLine(pairs[1..]); }
  }

  lemma PairIsOneLine(p: Printer, f: Field)
    requires p.Sane() && Possible(f.key) && Possible(f.value)
    ensures OneLine(PairOf(p, f).0) && OneLine(PairOf(p, f).1)
  {
    RenderingsAreOneLine(p, f.key, NeedsQuote(p, f.key) || HasSeparator(f.key));
    RenderingsAreOneLine(p, f.value, NeedsQuote(p, f.value) || HasSeparator(f.value));
  }

  /** A record is one line whatever its message, keys and values carry. */
  lemma RecordsAreOneLine(p: Printer, message: GoText, fields: seq<Field>)
    requires p.Sane() && Possible(message) && AllPossible(fields)
    ensures OneLine(RecordText(p, message, fields))
  {
    var head, pairs := FieldOf(p, message), Renderings(p, fields);
    RenderingsAreOneLine(p, message, NeedsQuote(p, message) || HasSeparator(message));
    forall i | 0 <= i < |fields|
      ensures OneLine(Renderings(p, fields)[i].0) && OneLine(Renderings(p, fields)[i].1)
    {
      PairIsOneLine(p, fields[i]);
    }
    JoinedIsOneLine(pairs);
    OneLineJoins(" | ", Joined(pairs));
    OneLineJoins(head, " | " + Joined(pairs));
    OneLineJoins(head, "");
  }

  // ----- the handler -----

  datatype Attr = Attr(key: GoText, value: GoText)

  /** A handler's attributes carry the keys they were given when they joined it. */
  datatype Handler = Handler(fields: seq<Field>, prefix: GoText)

  function Keyed(prefix: GoText, attrs: seq<Attr>): (fields: seq<Field>)
    ensures |fields| == |attrs|
    ensures forall i :: 0 <= i < |attrs| ==> fields[i] == Field(prefix + attrs[i].key, attrs[i].value)
  {
    seq(|attrs|, i requires 0 <= i < |attrs| => Field(prefix + attrs[i].key, attrs[i].value))
  }

  const DOT: GoText := [Rune('.')]

  /** WithAttrs: a copy with more fields; the handler copied is as it was. */
  method WithAttrs(h: Handler, attrs: seq<Attr>) returns (more: Handler)
    ensures more == h.(fields := h.fields + Keyed(h.prefix, attrs))
  {
    if attrs == [] {
      assert h.fields + Keyed(h.prefix, attrs) == h.fields;
      return h;
    }
    var fields := h.fields;
    for i := 0 to |attrs|
      invariant fields == h.fields + Keyed(h.prefix, attrs[..i])
    {
      fields := fields + [Field(h.prefix + attrs[i].key, attrs[i].value)];
      assert Keyed(h.prefix, attrs[..i + 1]) ==
        Keyed(h.prefix, attrs[..i]) + [Field(h.prefix + attrs[i].key, attrs[i].value)];
    }
    assert attrs[..|attrs|] == attrs;
    return h.(fields := fields);
  }

  function Grouped(h: Handler, name: GoText): Handler {
    if name == [] then h else h.(prefix := h.prefix + name + DOT)
  }

  datatype Setup = Attrs(attrs: seq<Attr>) | Group(name: GoText)

  function After(h: Handler, setups: seq<Setup>): Handler
    decreases |setups|
  {
    if setups == [] then h
    else match setups[0]
      case Attrs(attrs) => After(h.(fields := h.fields + Keyed(h.prefix, attrs)), setups[1..])
      case Group(name) => After(Grouped(h, name), setups[1..])
  }

  function Opened(prefix: GoText, name: GoText): GoText { if name == [] then prefix else prefix + name + [Rune('.')] }

  /** The fields a chain of groups and attributes adds, each keyed by the groups opened before it. */
  function Added(prefix: GoText, setups: seq<Setup>): seq<Field>
    decreases |setups|
  {
    if setups == [] then []
    else match setups[0]
      case Attrs(attrs) => Keyed(prefix, attrs) + Added(prefix, setups[1..])
      case Group(name) => Added(Opened(prefix, name), setups[1..])
  }

  /** A group scopes exactly the attributes that follow it: none that came before is relabelled. */
  lemma {:induction false} GroupsScopeWhatFollows(h: Handler, setups: seq<Setup>)
    ensures After(h, setups).fields == h.fields + Added(h.prefix, setups)
    decreases |setups|
  {
    if setups != [] {
      match setups[0]
      case Attrs(attrs) =>
        GroupsScopeWhatFollows(h.(fields := h.fields + Keyed(h.prefix, attrs)), setups[1..]);
      case Group(name) =>
        GroupsScopeWhatFollows(Grouped(h, name), setups[1..]);
    }
  }

  /** formatField. */
  method RenderField(p: Printer, f: Field) returns (pair: (string, string))
    requires Possible(f.key) && Possible(f.value)
    ensures pair == PairOf(p, f)
  {
    var quoteKey := MustQuote(p, f.key);
    var quoteValue := MustQuote(p, f.value);
    return (RenderText(p, f.key, quoteKey || HasSeparator(f.key)),
            RenderText(p, f.value, quoteValue || HasSeparator(f.value)));
  }

  /** One more attribute, rendered behind those before it. */
  method RenderNext(p: Printer, fields: seq<Field>, i: nat, pairs: seq<(string, string)>)
    returns (more: seq<(string, string)>)
    requires AllPossible(fields) && i < |fields| && pairs == Renderings(p, fields)[..i]
    ensures more == Renderings(p, fields)[..i + 1]
  {
    var pair := RenderField(p, fields[i]);
    OneMore(Renderings(p, fields), i);
    return pairs + [pair];
  }

  /** Each attribute rendered in turn. */
  method RenderFields(p: Printer, fields: seq<Field>) returns (pairs: seq<(string, string)>)
    requires AllPossible(fields)
    ensures pairs == Renderings(p, fields)
  {
    ghost var all := Renderings(p, fields);
    pairs := [];
    for i := 0 to |fields|
      invariant pairs == all[..i]
    {
      pairs := RenderNext(p, fields, i, pairs);
    }
    assert all[..|fields|] == all;
  }

  /** The record's own, keyed by the groups open now. */
  method KeyAttrs(prefix: GoText, attrs: seq<Attr>) returns (fields: seq<Field>)
    ensures fields == Keyed(prefix, attrs)
  {
    fields := [];
    for i := 0 to |attrs|
      invariant |fields| == i && forall j :: 0 <= j < i ==> fields[j] == Field(prefix + attrs[j].key, attrs[j].value)
    {
      fields := fields + [Field(prefix + attrs[i].key, attrs[i].value)];
    }
    assert fields == Keyed(prefix, attrs);
  }

  lemma RenderingsJoin(p: Printer, a: seq<Field>, b: seq<Field>)
    requires AllPossible(a) && AllPossible(b)
    ensures AllPossible(a + b) && Renderings(p, a + b) == Renderings(p, a) + Renderings(p, b)
  {}

  /** Handle: the record as it is written. */
  method Handle(p: Printer, h: Handler, stamp: string, level: string, message: GoText, attrs: seq<Attr>, ending: string)
    returns (line: string)
    requires Possible(message) && AllPossible(h.fields) && AllPossible(Keyed(h.prefix, attrs))
    ensures AllPossible(h.fields + Keyed(h.prefix, attrs))
    ensures line == stamp + " [" + level + "] " + RecordText(p, message, h.fields + Keyed(h.prefix, attrs)) + ending
  {
    var kept := RenderFields(p, h.fields);
    var own := KeyAttrs(h.prefix, attrs);
    var more := RenderFields(p, own);
    RenderingsJoin(p, h.fields, own);
    var text := Compose(FieldOf(p, message), kept + more);
    line := stamp + " [" + level + "] " + text + ending;
  }
}
