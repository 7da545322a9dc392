/** Characters and text as the naming package needs them. A string is the decoded runes of valid
    UTF-8; its length on disk is counted in bytes and in UTF-16 units separately. */
module Text {

  function Code(c: char): int { c as int }

  /** unicode.IsSpace. */
  predicate IsSpace(c: char) {
    var n := Code(c);
    0x09 <= n <= 0x0D || n == 0x20 || n == 0x85 || n == 0xA0 || n == 0x1680 || 0x2000 <= n <= 0x200A
    || n == 0x2028 || n == 0x2029 || n == 0x202F || n == 0x205F || n == 0x3000
  }

  /** unicode.IsControl. */
  predicate IsControl(c: char) {
    Code(c) < 0x20 || 0x7F <= Code(c) < 0xA0
  }

  predicate IsDigit(c: char) { '0' <= c <= '9' }

  predicate IsAlnum(c: char) { IsDigit(c) || 'a' <= c <= 'z' || 'A' <= c <= 'Z' }

  predicate IsSeparator(c: char) { c == '/' || c == '\\' }

  /** What no component may hold on Windows. */
  predicate IsIllegal(c: char) {
    c == '<' || c == '>' || c == ':' || c == '"' || IsSeparator(c) || c == '|' || c == '?' || c == '*'
  }

  /** strings.ToLower, as far as a comparison with ASCII text can tell: the runes whose lower case is
      an ASCII letter are the capitals, the Kelvin sign and the dotted capital I. */
  function LowerChar(c: char): char {
    if 'A' <= c <= 'Z' then (c as int + 32) as char
    else if Code(c) == 0x212A then 'k'
    else if Code(c) == 0x130 then 'i'
    else c
  }

  function Lower(s: string): (r: string)
    ensures |r| == |s|
    ensures forall i :: 0 <= i < |s| ==> r[i] == LowerChar(s[i])
  {
    seq(|s|, i requires 0 <= i < |s| => LowerChar(s[i]))
  }

  // ----- measuring -----

  function Utf8Char(c: char): nat {
    if Code(c) < 0x80 then 1 else if Code(c) < 0x800 then 2 else if Code(c) < 0x1_0000 then 3 else 4
  }

  function Utf16Char(c: char): nat {
    if Code(c) < 0x1_0000 then 1 else 2
  }

  function Utf8(s: string): nat {
    if s == [] then 0 else Utf8Char(s[0]) + Utf8(s[1..])
  }

  function Utf16(s: string): nat {
    if s == [] then 0 else Utf16Char(s[0]) + Utf16(s[1..])
  }

  lemma {:induction false} Utf8Concat(a: string, b: string)
    ensures Utf8(a + b) == Utf8(a) + Utf8(b)
  {
    if a == [] {
      assert a + b == b;
    } else {
      assert (a + b)[1..] == a[1..] + b;
      Utf8Concat(a[1..], b);
    }
  }

  lemma {:induction false} AsciiBytes(s: string)
    requires forall i :: 0 <= i < |s| ==> s[i] as int < 0x80
    ensures Utf8(s) == |s|
    decreases |s|
  {
    if s != "" { AsciiBytes(s[1..]); }
  }

  lemma {:induction false} Utf8Prefix(s: string, n: nat)
    requires n <= |s|
    ensures Utf8(s[..n]) + (|s| - n) <= Utf8(s)
  {
    assert s == s[..n] + s[n..];
    Utf8Concat(s[..n], s[n..]);
    Utf8AtLeastRunes(s[n..]);
  }

  lemma Utf8AtLeastRunes(s: string)
    ensures |s| <= Utf8(s)
  {}

  lemma Utf16AtMostUtf8(s: string)
    ensures Utf16(s) <= Utf8(s)
  {}

  // ----- trimming -----

  /** The cutsets the package trims by. */
  datatype Cutset = Spaces | DotsAndSpaces | Trailing | WordBreaks

  predicate Cuts(cut: Cutset, c: char) {
    match cut
    case Spaces => IsSpace(c)
    case DotsAndSpaces => c == '.' || c == ' '
    case Trailing => c == '.' || IsSpace(c)
    case WordBreaks => c == ' ' || c == '\t' || c == '-' || c == '_'
  }

  /** How much of s[..n] is kept when its end is trimmed. */
  function KeptEnd(s: string, n: nat, cut: Cutset): (k: nat)
    requires n <= |s|
    ensures k <= n && (k == 0 || !Cuts(cut, s[k - 1]))
    ensures forall i :: k <= i < n ==> Cuts(cut, s[i])
  {
    if n == 0 || !Cuts(cut, s[n - 1]) then n else KeptEnd(s, n - 1, cut)
  }

  /** Where s[n..] begins once its start is trimmed. */
  function KeptStart(s: string, n: nat, cut: Cutset): (k: nat)
    requires n <= |s|
    ensures n <= k <= |s| && (k == |s| || !Cuts(cut, s[k]))
    ensures forall i :: n <= i < k ==> Cuts(cut, s[i])
    decreases |s| - n
  {
    if n == |s| || !Cuts(cut, s[n]) then n else KeptStart(s, n + 1, cut)
  }

  function TrimEnd(s: string, cut: Cutset): string {
    s[..KeptEnd(s, |s|, cut)]
  }

  function TrimStart(s: string, cut: Cutset): string {
    s[KeptStart(s, 0, cut)..]
  }

  predicate HasSuffix(s: string, suffix: string) {
    |suffix| <= |s| && s[|s| - |suffix|..] == suffix
  }

  /** strings.TrimSpace. */
  function TrimSpace(s: string): string {
    TrimStart(TrimEnd(s, Spaces), Spaces)
  }

  lemma Untrimmed(s: string)
    requires s != "" && !IsSpace(s[0]) && !IsSpace(s[|s| - 1])
    ensures TrimSpace(s) == s
  {
    assert s[..|s|] == s && s[0..] == s;
  }

  // ----- path components -----

  function ToSlash(s: string): (r: string)
    ensures |r| == |s|
    ensures forall i :: 0 <= i < |s| ==> r[i] == if s[i] == '\\' then '/' else s[i]
  {
    seq(|s|, i requires 0 <= i < |s| => if s[i] == '\\' then '/' else s[i])
  }

  /** strings.Split on a forward slash: never empty. */
  function Split(s: string): (r: seq<string>)
    ensures r != []
  {
    if s == [] then [""]
    else
      var rest := Split(s[1..]);
      if s[0] == '/' then [""] + rest else [[s[0]] + rest[0]] + rest[1..]
  }

  /** Joins two splits at the component that spans them. */
  function Glue(a: seq<string>, b: seq<string>): seq<string>
    requires a != [] && b != []
  {
    a[..|a| - 1] + [a[|a| - 1] + b[0]] + b[1..]
  }

  lemma GlueAfter(x: string, a: seq<string>, b: seq<string>)
    requires a != [] && b != []
    ensures Glue([x] + a, b) == [x] + Glue(a, b)
  {}

  lemma GlueGrows(c: char, a: seq<string>, b: seq<string>)
    requires a != [] && b != []
    ensures var g := Glue(a, b);
      Glue([[c] + a[0]] + a[1..], b) == [[c] + g[0]] + g[1..]
  {
    var g := Glue(a, b);
    if |a| == 1 {
      assert [c] + g[0] == ([c] + a[0]) + b[0];
    }
  }

  lemma {:induction false} SplitConcat(a: string, b: string)
    ensures Split(a + b) == Glue(Split(a), Split(b))
  {
    if a == [] {
      assert a + b == b;
      assert "" + Split(b)[0] == Split(b)[0];
    } else {
      assert (a + b)[1..] == a[1..] + b;
      SplitConcat(a[1..], b);
      if a[0] == '/' {
        GlueAfter("", Split(a[1..]), Split(b));
      } else {
        GlueGrows(a[0], Split(a[1..]), Split(b));
      }
    }
  }

  lemma {:induction false} SplitWhole(s: string)
    requires '/' !in s
    ensures Split(s) == [s]
  {
    if s != [] {
      SplitWhole(s[1..]);
      assert [s[0]] + s[1..] == s;
    }
  }

  lemma {:induction false} SplitHasNoSlash(s: string)
    ensures forall i :: 0 <= i < |Split(s)| ==> '/' !in Split(s)[i]
    ensures forall i, c :: 0 <= i < |Split(s)| && c in Split(s)[i] ==> c in s
  {
    if s != [] {
      SplitHasNoSlash(s[1..]);
      assert s == [s[0]] + s[1..];
    }
  }

  function Slashes(s: string): nat {
    if s == [] then 0 else (if s[0] == '/' then 1 else 0) + Slashes(s[1..])
  }

  lemma {:induction false} SplitCountsSlashes(s: string)
    ensures |Split(s)| == 1 + Slashes(s)
  {
    if s != [] { SplitCountsSlashes(s[1..]); }
  }

  /** filepath.Join of components that need no cleaning. */
  function Join(segments: seq<string>): string
    requires segments != []
  {
    if |segments| == 1 then segments[0] else segments[0] + "/" + Join(segments[1..])
  }

  /** Where two texts are cut at their first stop, they are cut alike. */
  lemma CutAtFirst(a: string, x: string, b: string, y: string, stop: char)
    requires a + [stop] + x == b + [stop] + y && stop !in a && stop !in b
    ensures a == b && x == y
  {
    var s, t := a + [stop] + x, b + [stop] + y;
    assert s[|a|] == stop && t[|b|] == stop;
    assert forall i :: 0 <= i < |a| ==> s[i] == a[i];
    assert forall i :: 0 <= i < |b| ==> t[i] == b[i];
    assert a == s[..|a|] && b == t[..|b|];
    assert x == s[|a| + 1..] && y == t[|b| + 1..];
  }

  /** Where two texts are cut at their last stop, they are cut alike. */
  lemma CutAtLast(a: string, x: string, b: string, y: string, stop: char)
    requires a + [stop] + x == b + [stop] + y && stop !in x && stop !in y
    ensures a == b && x == y
  {
    var s, t := a + [stop] + x, b + [stop] + y;
    assert s[|a|] == stop && t[|b|] == stop;
    assert forall i :: |a| < i < |s| ==> s[i] == x[i - |a| - 1];
    assert forall i :: |b| < i < |t| ==> t[i] == y[i - |b| - 1];
    assert a == s[..|a|] && b == t[..|b|];
    assert x == s[|a| + 1..] && y == t[|b| + 1..];
  }
}
