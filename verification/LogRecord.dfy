/** A log record: one line, with a structure nothing inside it can imitate. */
module LogRecord {
  import opened Basics
  import opened Text
  import opened Numerals
  import opened Escape

  // ----- one rendering -----

  predicate EndsPlainText(c: char) { c == ',' || c == '=' || c == '|' }

  predicate NeedsQuote(p: Printer, s: GoText) {
    (s != [] && s[0] == Rune('"')) || exists i :: 0 <= i < |s| && (s[i].Bad? || !p.isPrint(s[i].c))
  }

  predicate HasSeparator(s: GoText) {
    exists i :: 0 <= i < |s| && s[i].Rune? && EndsPlainText(s[i].c)
  }

  /** mustQuote's tests. */
  method MustQuote(p: Printer, s: GoText) returns (quote: bool)
    ensures quote == NeedsQuote(p, s)
  {
    if s != [] && s[0] == Rune('"') {
      return true;
    }
    for i := 0 to |s|
      invariant forall j :: 0 <= j < i ==> s[j].Rune?
    {
      if s[i].Bad? {
        return true;
      }
    }
    for i := 0 to |s|
      invariant forall j :: 0 <= j < i ==> p.isPrint(s[j].c)
    {
      if !p.isPrint(s[i].c) {
        return true;
      }
    }
    return false;
  }

  predicate AllRunes(s: GoText) { forall i :: 0 <= i < |s| ==> s[i].Rune? }

  function Plain(s: GoText): (r: string)
    requires AllRunes(s)
    ensures |r| == |s| && forall i :: 0 <= i < |s| ==> r[i] == s[i].c
  {
    seq(|s|, i requires 0 <= i < |s| => s[i].c)
  }

  function Runes(t: string): (s: GoText)
    ensures |s| == |t| && forall i :: 0 <= i < |t| ==> s[i] == Rune(t[i])
  {
    seq(|t|, i requires 0 <= i < |t| => Rune(t[i]))
  }

  const OPENING := " (truncated from "
  const CLOSING := " bytes)"

  function Marker(n: nat): string { OPENING + (Decimal(n) + CLOSING) }

  /** render, of text that is quoted wherever it must be. */
  function RenderText(p: Printer, s: GoText, quote: bool): string
    requires Possible(s) && (NeedsQuote(p, s) ==> quote)
  {
    if |Bytes(s)| > MAX_LEN then
      Quote(p, Head(s)) + Marker(|Bytes(s)|)
    else if quote then Quote(p, s)
    else Plain(s)
  }

  /** Field: separators are quoted too. */
  function FieldOf(p: Printer, s: GoText): string
    requires Possible(s)
  {
    RenderText(p, s, NeedsQuote(p, s) || HasSeparator(s))
  }

  /** Text is left as it came exactly where it may be: short enough, not opening with a quote, whole
      and printable throughout, and without a comma, an equals sign or a bar. */
  lemma PlainExactly(p: Printer, s: GoText)
    requires Possible(s)
    ensures FieldOf(p, s) == "" || FieldOf(p, s)[0] != '"' <==>
      && |Bytes(s)| <= 4096 && (s != [] ==> s[0] != Rune('"'))
      && forall i :: 0 <= i < |s| ==> s[i].Rune? && p.isPrint(s[i].c) && s[i].c !in ",=|"
    ensures FieldOf(p, s) == "" || FieldOf(p, s)[0] != '"' ==> AllRunes(s) && FieldOf(p, s) == Plain(s)
  {}

  // ----- reading one rendering -----

  function Plus(n: nat, more: Option<nat>): Option<nat> {
    match more case None => None case Some(m) => Some(n + m)
  }

  /** How long a literal's body is, up to its closing quote. */
  function BodyLength(t: string): (n: Option<nat>)
    ensures n.Some? ==> n.value < |t| && t[n.value] == '"'
    decreases |t|
  {
    if t == "" then None
    else if t[0] == '"' then Some(0)
    else if t[0] == '\\' then (if |t| < 2 then None else Plus(2, BodyLength(t[2..])))
    else Plus(1, BodyLength(t[1..]))
  }

  lemma {:induction false} PlainSkips(w: string, t: string)
    requires forall c :: c in w ==> c != '"' && c != '\\'
    ensures BodyLength(w + t) == Plus(|w|, BodyLength(t))
    decreases |w|
  {
    if w == "" {
      assert w + t == t;
    } else {
      assert (w + t)[0] == w[0] && (w + t)[1..] == w[1..] + t;
      assert w[0] in w && forall c :: c in w[1..] ==> c in w;
      PlainSkips(w[1..], t);
    }
  }

  lemma EscapeSkips(kind: char, w: string, t: string)
    requires forall c :: c in w ==> c != '"' && c != '\\'
    ensures BodyLength("\\" + [kind] + w + t) == Plus(2 + |w|, BodyLength(t))
  {
    var all := "\\" + [kind] + w + t;
    assert all[0] == '\\' && all[2..] == w + t;
    PlainSkips(w, t);
  }

  /** An escape is plain text, or a backslash, one letter and plain text. */
  lemma EscapeShape(p: Printer, u: Unit) returns (letter: char, plain: string)
    requires u.Bad? ==> 0x80 <= u.b < 0x100
    ensures forall c :: c in plain ==> c != '"' && c != '\\'
    ensures Escaped(p, u) == plain || Escaped(p, u) == "\\" + [letter] + plain
  {
    match u
    case Bad(b) =>
      HexIsPlain(b, 2);
      return 'x', Hex(b, 2);
    case Rune(c) =>
      if Letter(c).Some? {
        return Letter(c).value, "";
      }
      if p.isPrint(c) {
        return c, [c];
      }
      var kind := if c as int < 0x20 || c as int == 0x7F then 'x' else if c as int < 0x1_0000 then 'u' else 'U';
      HexIsPlain(c as int, WidthOf(kind));
      return kind, Hex(c as int, WidthOf(kind));
  }

  /** No unit's escape closes the literal it stands in. */
  lemma UnitSkips(p: Printer, u: Unit, t: string)
    requires u.Bad? ==> 0x80 <= u.b < 0x100
    ensures BodyLength(Escaped(p, u) + t) == Plus(|Escaped(p, u)|, BodyLength(t))
  {
    var letter, plain := EscapeShape(p, u);
    if Escaped(p, u) == plain {
      PlainSkips(plain, t);
    } else {
      EscapeSkips(letter, plain, t);
    }
  }

  lemma Regroup(a: string, b: string, c: string)
    ensures (a + b) + c == a + (b + c)
  {}

  lemma {:induction false} BodyEnds(p: Printer, s: GoText, rest: string)
    requires Possible(s)
    ensures BodyLength(Body(p, s) + ("\"" + rest)) == Some(|Body(p, s)|)
    decreases |s|
  {
    var end := "\"" + rest;
    if s == [] {
      assert Body(p, s) + end == end && end[0] == '"';
    } else {
      var first, more := Escaped(p, s[0]), Body(p, s[1..]);
      BodyEnds(p, s[1..], rest);
      UnitSkips(p, s[0], more + end);
      Regroup(first, more, end);
    }
  }

  /** What a reader makes of a rendering: the whole text, or its head and how long it was. */
  datatype Reading = Whole(text: GoText) | Cut(head: GoText, length: nat)

  function ReadMarker(t: string): Option<nat> {
    var from, end := |OPENING|, |t| - |CLOSING|;
    if from <= end && t[..from] == OPENING && t[end..] == CLOSING && AllDigits(t[from..end]) then
      Some(ValueOf(t[from..end]))
    else None
  }

  function ReadRendering(r: string): Option<Reading> {
    if r == "" || r[0] != '"' then Some(Whole(Runes(r)))
    else match BodyLength(r[1..])
      case None => None
      case Some(n) =>
        var text, tail := Unquoted(r[1..][..n]), r[1..][n + 1..];
        if text.None? then None
        else if tail == "" then Some(Whole(text.value))
        else match ReadMarker(tail)
          case None => None
          case Some(length) => Some(Cut(text.value, length))
  }

  lemma MarkerReads(n: nat)
    ensures ReadMarker(Marker(n)) == Some(n) && Marker(n) != ""
  {
    DecimalReads(n);
    var t, from := Marker(n), |OPENING|;
    assert t[..from] == OPENING;
    assert t[from..] == Decimal(n) + CLOSING;
    assert t[from..|t| - |CLOSING|] == Decimal(n) && t[|t| - |CLOSING|..] == CLOSING;
  }

  lemma QuoteReads(p: Printer, s: GoText, tail: string)
    requires Possible(s)
    ensures var r := Quote(p, s) + tail;
      r[0] == '"' && BodyLength(r[1..]) == Some(|Body(p, s)|)
      && Unquoted(r[1..][..|Body(p, s)|]) == Some(s) && r[1..][|Body(p, s)| + 1..] == tail
  {
    var r, body := Quote(p, s) + tail, Body(p, s);
    assert r[1..] == body + ("\"" + tail);
    BodyEnds(p, s, tail);
    QuotedBodyReads(p, s);
    assert (body + ("\"" + tail))[..|body|] == body && (body + ("\"" + tail))[|body| + 1..] == tail;
  }

  lemma HeadIsPossible(s: GoText)
    requires Possible(s)
    ensures Possible(Head(s))
  {}

  /** What a reader can recover of a text: all of it, or how it began and how long it was. */
  function OriginalOf(s: GoText): Reading {
    if |Bytes(s)| > 4096 then Cut(Head(s), |Bytes(s)|) else Whole(s)
  }

  /** Every rendering is unambiguous: the text it was made from comes back, whole, or its head and the
      length that arrived. */
  lemma RenderingsAreUnambiguous(p: Printer, s: GoText, quote: bool)
    requires Possible(s) && (NeedsQuote(p, s) ==> quote)
    ensures ReadRendering(RenderText(p, s, quote)) == Some(OriginalOf(s))
  {
    if |Bytes(s)| > MAX_LEN {
      HeadIsPossible(s);
      QuoteReads(p, Head(s), Marker(|Bytes(s)|));
      MarkerReads(|Bytes(s)|);
    } else if quote {
      QuoteReads(p, s, "");
      assert Quote(p, s) + "" == Quote(p, s);
    } else {
      assert Runes(Plain(s)) == s;
    }
  }

  // ----- a record -----

  datatype Field = Field(key: GoText, value: GoText)

  predicate AllPossible(fields: seq<Field>) {
    forall i :: 0 <= i < |fields| ==> Possible(fields[i].key) && Possible(fields[i].value)
  }

  /** formatField, of what a key and a value are rendered as, with what follows it. */
  function PairText(pair: (string, string), tail: string): string { pair.0 + ("=" + (pair.1 + tail)) }

  /** What follows the first of some pairs. */
  function TailOf(pairs: seq<(string, string)>): string
    requires pairs != []
    decreases |pairs|, 0
  {
    if |pairs| == 1 then "" else ", " + Joined(pairs[1..])
  }

  /** The attributes, joined. */
  function Joined(pairs: seq<(string, string)>): string
    decreases |pairs|, 1
  {
    if pairs == [] then "" else PairText(pairs[0], TailOf(pairs))
  }

  function PairOf(p: Printer, f: Field): (string, string)
    requires Possible(f.key) && Possible(f.value)
  {
    (FieldOf(p, f.key), FieldOf(p, f.value))
  }

  function Renderings(p: Printer, fields: seq<Field>): (pairs: seq<(string, string)>)
    requires AllPossible(fields)
    ensures |pairs| == |fields| && forall i :: 0 <= i < |fields| ==> pairs[i] == PairOf(p, fields[i])
  {
    seq(|fields|, i requires 0 <= i < |fields| => PairOf(p, fields[i]))
  }

  /** A message and its attributes, as rendered. */
  function Compose(message: string, pairs: seq<(string, string)>): string {
    if pairs == [] then message else message + (" | " + Joined(pairs))
  }

  /** Everything after the level. */
  function RecordText(p: Printer, message: GoText, fields: seq<Field>): string
    requires Possible(message) && AllPossible(fields)
  {
    Compose(FieldOf(p, message), Renderings(p, fields))
  }

  // ----- reading a record -----

  /** Up to the first separator, or all of it. */
  function PlainLength(t: string): (n: nat)
    ensures n <= |t| && (n < |t| ==> EndsPlainText(t[n])) && forall i :: 0 <= i < n ==> !EndsPlainText(t[i])
  {
    if t == "" || EndsPlainText(t[0]) then 0 else 1 + PlainLength(t[1..])
  }

  predicate StartsWith(t: string, w: string) { |w| <= |t| && t[..|w|] == w }

  /** Up to and with the first closing bracket. */
  function BracketLength(t: string): (n: nat)
    ensures n <= |t|
  {
    if t == "" then 0 else if t[0] == ')' then 1 else 1 + BracketLength(t[1..])
  }

  /** How much of the text at the front is one rendering. */
  function TakeLength(t: string): (n: nat)
    ensures n <= |t|
  {
    if t == "" || t[0] != '"' then PlainLength(t)
    else match BodyLength(t[1..])
      case None => |t|
      case Some(n) => n + 2 + if StartsWith(t[n + 2..], OPENING) then BracketLength(t[n + 2..]) else 0
  }

  datatype Parsed = Parsed(message: string, fields: seq<(string, string)>)

  function ReadFields(t: string): Option<seq<(string, string)>>
    decreases |t|
  {
    var k := TakeLength(t);
    if k == |t| || t[k] != '=' then None
    else
      var rest := t[k + 1..];
      var v := TakeLength(rest);
      if v == |rest| then Some([(t[..k], rest)])
      else if |rest| < v + 2 || rest[v..v + 2] != ", " then None
      else match ReadFields(rest[v + 2..])
        case None => None
        case Some(more) => Some([(t[..k], rest[..v])] + more)
  }

  /** A message ends at the bar, with the space before it. */
  function MessageLength(t: string): (n: nat)
    ensures n <= |t|
  {
    var n := TakeLength(t);
    if t != "" && t[0] != '"' && n < |t| && t[n] == '|' && n > 0 then n - 1 else n
  }

  function ReadRecord(t: string): Option<Parsed> {
    var n := MessageLength(t);
    if n == |t| then Some(Parsed(t, []))
    else if !StartsWith(t[n..], " | ") then None
    else match ReadFields(t[n + 3..])
      case None => None
      case Some(fields) => Some(Parsed(t[..n], fields))
  }

  lemma {:induction false} PlainStops(w: string, rest: string)
    requires forall i :: 0 <= i < |w| ==> !EndsPlainText(w[i])
    requires rest == "" || EndsPlainText(rest[0])
    ensures PlainLength(w + rest) == |w|
    decreases |w|
  {
    if w == "" {
      assert w + rest == rest;
    } else {
      assert (w + rest)[0] == w[0] && (w + rest)[1..] == w[1..] + rest;
      PlainStops(w[1..], rest);
    }
  }

  lemma {:induction false} BracketStops(w: string, rest: string)
    requires ')' !in w
    ensures BracketLength(w + (")" + rest)) == |w| + 1
    decreases |w|
  {
    var t := w + (")" + rest);
    if w == "" {
      assert t == ")" + rest;
    } else {
      assert t[0] == w[0] && t[1..] == w[1..] + (")" + rest);
      assert w[0] in w;
      BracketStops(w[1..], rest);
    }
  }

  lemma MarkerStops(n: nat, rest: string)
    ensures StartsWith(Marker(n) + rest, OPENING) && BracketLength(Marker(n) + rest) == |Marker(n)|
  {
    DecimalReads(n);
    var w := OPENING + (Decimal(n) + " bytes");
    assert ')' !in OPENING && ')' !in " bytes";
    assert ')' !in Decimal(n) by {
      assert forall c :: c in Decimal(n) ==> IsDigit(c);
    }
    assert ')' !in w;
    BracketStops(w, rest);
    assert Marker(n) + rest == w + (")" + rest) && |Marker(n)| == |w| + 1;
    assert (Marker(n) + rest)[..|OPENING|] == OPENING;
  }

  lemma AfterQuote(p: Printer, s: GoText, tail: string)
    requires Possible(s)
    ensures |Quote(p, s)| == |Body(p, s)| + 2 && (Quote(p, s) + tail)[|Body(p, s)| + 2..] == tail
  {}

  lemma QuoteTaken(p: Printer, s: GoText, rest: string)
    requires Possible(s) && !StartsWith(rest, OPENING)
    ensures TakeLength(Quote(p, s) + rest) == |Quote(p, s)|
  {
    QuoteReads(p, s, rest);
    AfterQuote(p, s, rest);
  }

  lemma CutTaken(p: Printer, s: GoText, length: nat, rest: string)
    requires Possible(s)
    ensures TakeLength((Quote(p, s) + Marker(length)) + rest) == |Quote(p, s) + Marker(length)|
  {
    var tail := Marker(length) + rest;
    QuoteReads(p, s, tail);
    MarkerStops(length, rest);
    AfterQuote(p, s, tail);
    Regroup(Quote(p, s), Marker(length), rest);
  }

  predicate IsPlain(p: Printer, s: GoText) {
    |Bytes(s)| <= MAX_LEN && !NeedsQuote(p, s) && !HasSeparator(s)
  }

  /** A field's rendering is taken whole wherever a separator, or nothing, follows it. */
  lemma FieldTaken(p: Printer, s: GoText, rest: string)
    requires Possible(s) && (rest == "" || EndsPlainText(rest[0]))
    ensures TakeLength(FieldOf(p, s) + rest) == |FieldOf(p, s)|
    ensures (FieldOf(p, s) + rest)[..|FieldOf(p, s)|] == FieldOf(p, s)
      && (FieldOf(p, s) + rest)[|FieldOf(p, s)|..] == rest
  {
    var r := FieldOf(p, s);
    if IsPlain(p, s) {
      PlainStops(r, rest);
      assert r + rest == "" || (r + rest)[0] != '"';
    } else if |Bytes(s)| > MAX_LEN {
      HeadIsPossible(s);
      CutTaken(p, Head(s), |Bytes(s)|, rest);
    } else {
      assert OPENING[0] == ' ' && !StartsWith(rest, OPENING);
      QuoteTaken(p, s, rest);
    }
  }

  lemma NoMarker(t: string)
    requires |t| >= 2 && t[1] != '('
    ensures !StartsWith(t, OPENING)
  {
    assert OPENING[1] == '(';
    assert |t| >= |OPENING| ==> t[..|OPENING|][1] == t[1];
  }

  lemma PlainMessageTaken(r: string, rest: string)
    requires forall i :: 0 <= i < |r| ==> !EndsPlainText(r[i])
    requires r == "" || r[0] != '"'
    ensures MessageLength(r + (" | " + rest)) == |r|
  {
    var t := r + (" | " + rest);
    PlainStops(r + " ", "| " + rest);
    assert t == (r + " ") + ("| " + rest);
    assert t[0] != '"' && t[|r| + 1] == '|';
  }

  lemma QuotedMessageTaken(r: string, tail: string)
    requires r != "" && r[0] == '"' && TakeLength(r + tail) == |r|
    ensures MessageLength(r + tail) == |r|
  {
    assert (r + tail)[0] == '"';
  }

  /** A message's rendering is taken whole before the bar. */
  lemma MessageTaken(p: Printer, s: GoText, rest: string)
    requires Possible(s)
    ensures MessageLength(FieldOf(p, s) + (" | " + rest)) == |FieldOf(p, s)|
  {
    var tail := " | " + rest;
    if IsPlain(p, s) {
      PlainMessageTaken(Plain(s), rest);
    } else if |Bytes(s)| > MAX_LEN {
      HeadIsPossible(s);
      CutTaken(p, Head(s), |Bytes(s)|, tail);
      QuotedMessageTaken(FieldOf(p, s), tail);
    } else {
      NoMarker(tail);
      QuoteTaken(p, s, tail);
      QuotedMessageTaken(FieldOf(p, s), tail);
    }
  }

  lemma LoneMessageTaken(p: Printer, s: GoText)
    requires Possible(s)
    ensures MessageLength(FieldOf(p, s)) == |FieldOf(p, s)|
  {
    FieldTaken(p, s, "");
    assert FieldOf(p, s) + "" == FieldOf(p, s);
  }

  /** A pair is taken apart where it should be, whatever of the two tails follows it. */
  predicate Taken(pair: (string, string), tail: string) {
    TakeLength(PairText(pair, tail)) == |pair.0| && TakeLength(pair.1 + tail) == |pair.1|
  }

  lemma LastPairReads(pair: (string, string))
    requires Taken(pair, "")
    ensures ReadFields(PairText(pair, "")) == Some([pair])
  {
    var t, key := PairText(pair, ""), pair.0;
    assert t[|key|] == '=' && t[..|key|] == key && t[|key| + 1..] == pair.1 + "" == pair.1;
  }

  lemma PairReads(pair: (string, string), more: string)
    requires Taken(pair, ", " + more)
    ensures ReadFields(PairText(pair, ", " + more)) ==
      match ReadFields(more)
      case None => None
      case Some(rest) => Some([pair] + rest)
  {
    var r, key, value := pair.1 + (", " + more), pair.0, pair.1;
    var t := PairText(pair, ", " + more);
    assert t[|key|] == '=' && t[..|key|] == key && t[|key| + 1..] == r;
    assert r[|value|..|value| + 2] == ", " && r[|value| + 2..] == more && r[..|value|] == value;
  }

  predicate AllTaken(pairs: seq<(string, string)>) {
    pairs != [] ==> Taken(pairs[0], TailOf(pairs)) && AllTaken(pairs[1..])
  }

  lemma {:induction false} PairsRead(pairs: seq<(string, string)>)
    requires AllTaken(pairs) && pairs != []
    ensures ReadFields(Joined(pairs)) == Some(pairs)
    decreases |pairs|
  {
    var rest := pairs[1..];
    assert pairs == [pairs[0]] + rest;
    if rest == [] {
      assert |pairs| == 1 && TailOf(pairs) == "" && pairs == [pairs[0]];
      LastPairReads(pairs[0]);
    } else {
      PairsRead(rest);
      PairReads(pairs[0], Joined(rest));
    }
  }

  lemma RenderedPairIsTaken(p: Printer, f: Field, tail: string)
    requires Possible(f.key) && Possible(f.value) && (tail == "" || EndsPlainText(tail[0]))
    ensures Taken((FieldOf(p, f.key), FieldOf(p, f.value)), tail)
  {
    FieldTaken(p, f.key, "=" + (FieldOf(p, f.value) + tail));
    FieldTaken(p, f.value, tail);
  }

  lemma {:induction false} RenderingsAreTaken(p: Printer, fields: seq<Field>)
    requires AllPossible(fields)
    ensures AllTaken(Renderings(p, fields))
    decreases |fields|
  {
    if fields != [] {
      RenderingsAreTaken(p, fields[1..]);
      var pairs := Renderings(p, fields);
      assert pairs[1..] == Renderings(p, fields[1..]);
      assert TailOf(pairs) == "" || TailOf(pairs)[0] == ',';
      RenderedPairIsTaken(p, fields[0], TailOf(pairs));
    }
  }

  lemma RecordReads(message: string, more: string)
    requires MessageLength(message + (" | " + more)) == |message|
    ensures ReadRecord(message + (" | " + more)) ==
      match ReadFields(more)
      case None => None
      case Some(fields) => Some(Parsed(message, fields))
  {
    var t := message + (" | " + more);
    assert t[|message|..] == " | " + more && t[|message|..][..3] == " | ";
    assert t[|message| + 3..] == more && t[..|message|] == message;
  }

  /** A log record is unambiguous: from the text after its level a reader recovers the message and
      every key and value as rendered, in order, whatever any of them contains. */
  lemma RecordsAreUnambiguous(p: Printer, message: GoText, fields: seq<Field>)
    requires Possible(message) && AllPossible(fields)
    ensures ReadRecord(RecordText(p, message, fields)) == Some(Parsed(FieldOf(p, message), Renderings(p, fields)))
  {
    var r := FieldOf(p, message);
    if fields == [] {
      LoneMessageTaken(p, message);
    } else {
      var more := Joined(Renderings(p, fields));
      MessageTaken(p, message, more);
      RenderingsAreTaken(p, fields);
      PairsRead(Renderings(p, fields));
      RecordReads(r, more);
    }
  }

  lemma FieldIsReadable(p: Printer, s: GoText)
    requires Possible(s)
    ensures ReadRendering(FieldOf(p, s)) == Some(OriginalOf(s))
  {
    RenderingsAreUnambiguous(p, s, NeedsQuote(p, s) || HasSeparator(s));
  }

  /** A reader who knows nothing of how a record is put together gets its text back: the message, and of
      every field in order its key before the sign of equality and its value after it. */
  lemma RecordsReadBack(p: Printer, message: GoText, fields: seq<Field>)
    requires Possible(message) && AllPossible(fields)
    ensures var read := ReadRecord(RecordText(p, message, fields));
      && read.Some? && ReadRendering(read.value.message) == Some(OriginalOf(message))
      && |read.value.fields| == |fields|
      && forall i :: 0 <= i < |fields| ==>
           var (key, value) := read.value.fields[i];
           ReadRendering(key) == Some(OriginalOf(fields[i].key))
           && ReadRendering(value) == Some(OriginalOf(fields[i].value))
  {
    RecordsAreUnambiguous(p, message, fields);
    FieldIsReadable(p, message);
    forall i | 0 <= i < |fields|
      ensures ReadRendering(PairOf(p, fields[i]).0) == Some(OriginalOf(fields[i].key))
      ensures ReadRendering(PairOf(p, fields[i]).1) == Some(OriginalOf(fields[i].value))
    {
      FieldIsReadable(p, fields[i].key);
      FieldIsReadable(p, fields[i].value);
    }
  }

  /** Two records that read the same were written from the same text: message, keys and values alike,
      to the last byte of whatever was not cut short. */
  lemma RecordsDetermineTheirText(p: Printer, m: GoText, fs: seq<Field>, n: GoText, gs: seq<Field>)
    requires Possible(m) && Possible(n) && AllPossible(fs) && AllPossible(gs)
    requires RecordText(p, m, fs) == RecordText(p, n, gs)
    ensures OriginalOf(m) == OriginalOf(n) && |fs| == |gs|
    ensures forall i :: 0 <= i < |fs| ==>
      OriginalOf(fs[i].key) == OriginalOf(gs[i].key) && OriginalOf(fs[i].value) == OriginalOf(gs[i].value)
  {
    RecordsReadBack(p, m, fs);
    RecordsReadBack(p, n, gs);
  }
}
