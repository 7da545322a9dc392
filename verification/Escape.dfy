/** Rendering text written by someone else: plain, quoted, or quoted and cut short. */
module Escape {
  import opened Basics
  import opened Text

  // ----- text as it arrives -----

  /** One decoded step of a Go string: a rune, or a byte that is not valid UTF-8. */
  datatype Unit = Rune(c: char) | Bad(b: int)

  type GoText = seq<Unit>

  predicate Possible(s: GoText) {
    forall i :: 0 <= i < |s| && s[i].Bad? ==> 0x80 <= s[i].b < 0x100
  }

  /** A rune's UTF-8 bytes. */
  function Encoded(c: char): (bytes: seq<int>)
    ensures |bytes| == Utf8Char(c)
  {
    var n := c as int;
    if n < 0x80 then [n]
    else if n < 0x800 then [0xC0 + n / 0x40, 0x80 + n % 0x40]
    else if n < 0x1_0000 then [0xE0 + n / 0x1000, 0x80 + n / 0x40 % 0x40, 0x80 + n % 0x40]
    else [0xF0 + n / 0x4_0000, 0x80 + n / 0x1000 % 0x40, 0x80 + n / 0x40 % 0x40, 0x80 + n % 0x40]
  }

  function UnitBytes(u: Unit): (bytes: seq<int>)
    ensures 1 <= |bytes| <= 4
  {
    match u
    case Rune(c) => Encoded(c)
    case Bad(b) => [b]
  }

  function Bytes(s: GoText): seq<int> {
    if s == [] then [] else UnitBytes(s[0]) + Bytes(s[1..])
  }

  lemma {:induction false} BytesConcat(a: GoText, b: GoText)
    ensures Bytes(a + b) == Bytes(a) + Bytes(b)
    decreases |a|
  {
    if a == [] {
      assert a + b == b;
    } else {
      assert (a + b)[1..] == a[1..] + b;
      BytesConcat(a[1..], b);
    }
  }

  /** utf8.RuneStart. */
  predicate RuneStart(b: int) { !(0x80 <= b < 0xC0) }

  const MAX_LEN := 4096

  /** The longest prefix at or under n bytes that ends where a rune or its beginning starts. */
  function HeadFrom(bytes: seq<int>, n: nat): (k: nat)
    requires n < |bytes|
    ensures k <= n && (k == 0 || RuneStart(bytes[k]))
    ensures forall i :: k < i <= n ==> !RuneStart(bytes[i])
  {
    if n == 0 || RuneStart(bytes[n]) then n else HeadFrom(bytes, n - 1)
  }

  /** headLen's loop. */
  method HeadLen(bytes: seq<int>) returns (n: nat)
    requires |bytes| > MAX_LEN
    ensures n == HeadFrom(bytes, MAX_LEN) <= 4096
    ensures (n == 0 || !(0x80 <= bytes[n] < 0xC0)) && forall i :: n < i <= 4096 ==> 0x80 <= bytes[i] < 0xC0
  {
    n := MAX_LEN;
    while n > 0 && !RuneStart(bytes[n])
      invariant n <= MAX_LEN && HeadFrom(bytes, n) == HeadFrom(bytes, MAX_LEN)
    {
      n := n - 1;
    }
  }

  lemma Continuations(c: char, i: nat)
    requires 0 < i < |Encoded(c)|
    ensures !RuneStart(Encoded(c)[i])
  {}

  lemma FirstUnitEnds(s: GoText, n: nat)
    requires 0 < n < |Bytes(s)| && RuneStart(Bytes(s)[n])
    ensures |UnitBytes(s[0])| <= n && Bytes(s)[n] == Bytes(s[1..])[n - |UnitBytes(s[0])|]
  {
    if s[0].Rune? && n < |UnitBytes(s[0])| { Continuations(s[0].c, n); }
  }

  /** A byte that starts a rune stands where a unit begins: cutting there cuts no unit in two. */
  lemma {:induction false} CutBetweenUnits(s: GoText, n: nat) returns (k: nat)
    requires n < |Bytes(s)| && (n == 0 || RuneStart(Bytes(s)[n]))
    ensures k <= |s| && Bytes(s[..k]) == Bytes(s)[..n]
    decreases |s|
  {
    k := 0;
    if n > 0 {
      var w := |UnitBytes(s[0])|;
      FirstUnitEnds(s, n);
      var j := CutBetweenUnits(s[1..], n - w);
      k := 1 + j;
      assert s[..k] == [s[0]] + s[1..][..j] && s[..k][1..] == s[1..][..j];
      assert Bytes(s)[..n] == UnitBytes(s[0]) + Bytes(s[1..])[..n - w];
    }
  }

  /** How many whole units the head holds. */
  function UnitsIn(s: GoText, bytes: nat): (k: nat)
    ensures k <= |s|
  {
    if s == [] || |UnitBytes(s[0])| > bytes then 0 else 1 + UnitsIn(s[1..], bytes - |UnitBytes(s[0])|)
  }

  lemma {:induction false} UnitsInCounts(s: GoText, k: nat)
    requires k <= |s|
    ensures UnitsIn(s, |Bytes(s[..k])|) == k
    decreases |s|
  {
    if k > 0 {
      assert s[..k][0] == s[0] && s[..k][1..] == s[1..][..k - 1];
      UnitsInCounts(s[1..], k - 1);
    } else if s != [] {
      assert s[..0] == [];
    }
  }

  function Head(s: GoText): GoText {
    if |Bytes(s)| <= MAX_LEN then s else s[..UnitsIn(s, HeadFrom(Bytes(s), MAX_LEN))]
  }

  /** The head of text that is too long is exactly its first headLen bytes. */
  lemma HeadIsBytes(s: GoText)
    requires |Bytes(s)| > MAX_LEN
    ensures Bytes(Head(s)) == Bytes(s)[..HeadFrom(Bytes(s), MAX_LEN)]
  {
    var n := HeadFrom(Bytes(s), MAX_LEN);
    var k := CutBetweenUnits(s, n);
    UnitsInCounts(s, k);
  }

  // ----- quoting -----

  /** Which runes unicode.IsPrint admits: of ASCII, the visible ones and the space. */
  datatype Printer = Printer(isPrint: char -> bool)
  {
    ghost predicate Sane() {
      forall c: char :: c as int < 0xA0 ==> (isPrint(c) <==> 0x20 <= c as int <= 0x7E)
    }
  }

  function HexDigit(n: nat): (c: char)
    requires n < 16
  {
    if n < 10 then ('0' as int + n) as char else ('a' as int + n - 10) as char
  }

  function HexValue(c: char): Option<nat> {
    if '0' <= c <= '9' then Some(c as int - '0' as int)
    else if 'a' <= c <= 'f' then Some(c as int - 'a' as int + 10)
    else None
  }

  function Hex(n: nat, width: nat): (s: string)
    ensures |s| == width
  {
    if width == 0 then "" else Hex(n / 16, width - 1) + [HexDigit(n % 16)]
  }

  function Pow16(width: nat): (p: nat)
    ensures p > 0
  {
    if width == 0 then 1 else 16 * Pow16(width - 1)
  }

  /** The letter that stands for a control character after a backslash. */
  function Letter(c: char): Option<char> {
    match c as int
    case 7 => Some('a')
    case 8 => Some('b')
    case 9 => Some('t')
    case 10 => Some('n')
    case 11 => Some('v')
    case 12 => Some('f')
    case 13 => Some('r')
    case _ => if c == '"' || c == '\\' then Some(c) else None
  }

  function FromLetter(c: char): Option<char> {
    match c
    case 'a' => Some(7 as char)
    case 'b' => Some(8 as char)
    case 't' => Some(9 as char)
    case 'n' => Some(10 as char)
    case 'v' => Some(11 as char)
    case 'f' => Some(12 as char)
    case 'r' => Some(13 as char)
    case _ => if c == '"' || c == '\\' then Some(c) else None
  }

  /** strconv.Quote, one unit at a time. */
  function Escaped(p: Printer, u: Unit): string
    requires u.Bad? ==> 0 <= u.b
  {
    match u
    case Bad(b) => "\\x" + Hex(b, 2)
    case Rune(c) =>
      if Letter(c).Some? then ['\\', Letter(c).value]
      else if p.isPrint(c) then [c]
      else if c as int < 0x20 || c as int == 0x7F then "\\x" + Hex(c as int, 2)
      else if c as int < 0x1_0000 then "\\u" + Hex(c as int, 4)
      else "\\U" + Hex(c as int, 8)
  }

  function Body(p: Printer, s: GoText): string
    requires Possible(s)
  {
    if s == [] then "" else Escaped(p, s[0]) + Body(p, s[1..])
  }

  function Quote(p: Printer, s: GoText): string
    requires Possible(s)
  {
    "\"" + Body(p, s) + "\""
  }

  // ----- unquoting -----

  function ReadHex(s: string): Option<nat> {
    if s == "" then Some(0)
    else
      var front, last := ReadHex(s[..|s| - 1]), HexValue(s[|s| - 1]);
      if front.None? || last.None? then None else Some(16 * front.value + last.value)
  }

  predicate IsScalar(n: nat) { n < 0xD800 || 0xE000 <= n < 0x11_0000 }

  /** How many digits follow the letter of a hexadecimal escape. */
  function WidthOf(kind: char): nat {
    if kind == 'x' then 2 else if kind == 'u' then 4 else if kind == 'U' then 8 else 0
  }

  /** The first unit of a literal's body, and how much of the body spells it. */
  function FirstUnit(t: string): Option<(Unit, nat)>
    requires t != ""
  {
    if t[0] != '\\' then Some((Rune(t[0]), 1))
    else if |t| < 2 then None
    else if FromLetter(t[1]).Some? then Some((Rune(FromLetter(t[1]).value), 2))
    else
      var width := WidthOf(t[1]);
      if width == 0 || |t| < 2 + width then None
      else match ReadHex(t[2..2 + width])
        case None => None
        case Some(n) =>
          if width == 2 && n >= 0x80 then Some((Bad(n), 4))
          else if IsScalar(n) then Some((Rune(n as char), 2 + width))
          else None
  }

  /** strconv.Unquote of a literal's body. */
  function Unquoted(t: string): Option<GoText>
    decreases |t|
  {
    if t == "" then Some([])
    else match FirstUnit(t)
      case None => None
      case Some(first) =>
        if first.1 == 0 || first.1 > |t| then None
        else match Unquoted(t[first.1..])
          case None => None
          case Some(rest) => Some([first.0] + rest)
  }

  lemma HexDigitReads(n: nat)
    requires n < 16
    ensures HexValue(HexDigit(n)) == Some(n)
    ensures HexDigit(n) != '"' && HexDigit(n) != '\\' && 0x20 <= HexDigit(n) as int <= 0x7E
  {}

  lemma {:induction false} HexReads(n: nat, width: nat)
    requires n < Pow16(width)
    ensures ReadHex(Hex(n, width)) == Some(n)
  {
    if width > 0 {
      HexReads(n / 16, width - 1);
      HexDigitReads(n % 16);
      assert Hex(n, width)[..width - 1] == Hex(n / 16, width - 1);
    }
  }

  lemma {:induction false} HexIsPlain(n: nat, width: nat)
    ensures forall c :: c in Hex(n, width) ==> c != '"' && c != '\\' && 0x20 <= c as int <= 0x7E
  {
    if width > 0 {
      HexIsPlain(n / 16, width - 1);
      HexDigitReads(n % 16);
    }
  }

  lemma HexAfter(kind: char, n: nat, width: nat, rest: string)
    requires n < Pow16(width)
    ensures var t := "\\" + [kind] + Hex(n, width) + rest;
      t[0] == '\\' && t[1] == kind && |t| >= 2 + width && ReadHex(t[2..2 + width]) == Some(n) && t[2 + width..] == rest
  {
    HexReads(n, width);
    var t := "\\" + [kind] + Hex(n, width) + rest;
    assert t[2..2 + width] == Hex(n, width);
  }

  lemma LettersRead(c: char)
    ensures Letter(c).Some? ==> FromLetter(Letter(c).value) == Some(c)
  {}

  lemma Bounds()
    ensures Pow16(2) == 0x100 && Pow16(4) == 0x1_0000 && Pow16(8) == 0x1_0000_0000
  {
    assert Pow16(1) == 16 && Pow16(3) == 0x1000 && Pow16(5) == 0x10_0000 && Pow16(6) == 0x100_0000;
  }

  // A hexadecimal escape read back, of each width.

  lemma ByteReads(n: nat, rest: string)
    requires n < Pow16(2)
    ensures FirstUnit(("\\" + ['x'] + Hex(n, 2)) + rest) ==
      if n >= 0x80 then Some((Bad(n), 4)) else Some((Rune(n as char), 4))
  {
    HexAfter('x', n, 2, rest);
  }

  lemma ShortReads(n: nat, rest: string)
    requires n < Pow16(4) && IsScalar(n)
    ensures FirstUnit(("\\" + ['u'] + Hex(n, 4)) + rest) == Some((Rune(n as char), 6))
  {
    HexAfter('u', n, 4, rest);
  }

  lemma LongReads(n: nat, rest: string)
    requires n < Pow16(8) && IsScalar(n)
    ensures FirstUnit(("\\" + ['U'] + Hex(n, 8)) + rest) == Some((Rune(n as char), 10))
  {
    HexAfter('U', n, 8, rest);
  }

  lemma UnprintableReads(p: Printer, c: char, rest: string)
    requires Letter(c).None? && !p.isPrint(c)
    ensures FirstUnit(Escaped(p, Rune(c)) + rest) == Some((Rune(c), |Escaped(p, Rune(c))|))
  {
    Bounds();
    if c as int < 0x20 || c as int == 0x7F {
      ByteReads(c as int, rest);
    } else if c as int < 0x1_0000 {
      ShortReads(c as int, rest);
    } else {
      LongReads(c as int, rest);
    }
  }

  /** Reading undoes one unit's escape, whatever follows it. */
  lemma FirstUnitReads(p: Printer, u: Unit, rest: string)
    requires u.Bad? ==> 0x80 <= u.b < 0x100
    ensures FirstUnit(Escaped(p, u) + rest) == Some((u, |Escaped(p, u)|))
  {
    Bounds();
    match u
    case Bad(b) => ByteReads(b, rest);
    case Rune(c) =>
      if Letter(c).Some? {
        LettersRead(c);
      } else if !p.isPrint(c) {
        UnprintableReads(p, c, rest);
      }
  }

  /** Unquoting a quoted body gives back the text, rune for rune and bad byte for bad byte. */
  lemma {:induction false} QuotedBodyReads(p: Printer, s: GoText)
    requires Possible(s)
    ensures Unquoted(Body(p, s)) == Some(s)
    decreases |s|
  {
    if s != [] {
      FirstUnitReads(p, s[0], Body(p, s[1..]));
      assert Body(p, s)[|Escaped(p, s[0])|..] == Body(p, s[1..]);
      QuotedBodyReads(p, s[1..]);
      assert [s[0]] + s[1..] == s;
    }
  }
}
