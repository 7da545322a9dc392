/** The " (2)" a collision adds to a name, and reading it off again. */
module Duplicates {
  import opened Basics
  import opened Text
  import opened Numerals
  import opened Rendering
  import opened Matching

  // ----- the suffix -----

  /** The stem ends in " (", so many digits with no leading zero, and ")". */
  predicate EndsInMark(stem: string, width: nat) {
    var n := |stem|;
    && width + 3 <= n && 1 <= width && stem[n - 1] == ')'
    && AllDigits(stem[n - 1 - width..n - 1]) && stem[n - 1 - width] != '0'
    && stem[n - 2 - width] == '(' && stem[n - 3 - width] == ' '
    && '\n' !in stem[..n - 3 - width]
  }

  /** How many digits the mark holds, or 0 where there is none. */
  function MarkWidth(stem: string): (width: nat)
    ensures width <= 3 && (width > 0 ==> EndsInMark(stem, width))
  {
    if EndsInMark(stem, 1) then 1
    else if EndsInMark(stem, 2) then 2
    else if EndsInMark(stem, 3) then 3
    else 0
  }

  /** Where a path's last component begins. */
  function BaseAt(path: string): (i: nat)
    ensures i <= |path|
  {
    var i := LastIndex(path, '/', |path|);
    if i == |path| then 0 else i + 1
  }

  /** What a stem is without its mark, and the number the mark carries. */
  function Unmarked(stem: string): Option<(string, nat)> {
    var width := MarkWidth(stem);
    if width == 0 then None
    else
      var n := ValueOf(stem[|stem| - 1 - width..|stem| - 1]);
      if n < 2 || n > MAX_DUPLICATES then None else Some((stem[..|stem| - 3 - width], n))
  }

  /** splitDuplicate: the path without its mark, and the number the mark carried. */
  function SplitDuplicate(path: string): (string, nat) {
    var dir, base := path[..BaseAt(path)], path[BaseAt(path)..];
    match Unmarked(WithoutExt(base))
    case None => (path, 0)
    case Some(pair) => (dir + pair.0 + ExtOf(base), pair.1)
  }

  function Mark(n: nat): string { " (" + Decimal(n) + ")" }

  /** The stem carries the mark of the n-th duplicate. */
  predicate Carries(stem: string, n: nat) {
    2 <= n <= MAX_DUPLICATES && HasSuffix(stem, Mark(n))
  }

  lemma DecimalWidth(n: nat)
    requires 1 <= n <= MAX_DUPLICATES
    ensures 1 <= |Decimal(n)| <= 3
  {
    DecimalIsShort(n);
  }

  lemma OnlyDigitsInside(stem: string, v: nat, w: nat)
    requires EndsInMark(stem, w) && v < w
    ensures stem[|stem| - 2 - v] != '('
  {
    assert stem[|stem| - 1 - w..|stem| - 1][w - v - 1] == stem[|stem| - 2 - v];
  }

  lemma OneWidth(stem: string, v: nat, w: nat)
    requires EndsInMark(stem, v) && EndsInMark(stem, w)
    ensures v == w
  {
    if v < w {
      OnlyDigitsInside(stem, v, w);
    } else if w < v {
      OnlyDigitsInside(stem, w, v);
    }
  }

  lemma MarkSlices(head: string, digits: string, stem: string)
    requires stem == head + (" (" + digits + ")")
    ensures var h, w := |head|, |digits|;
      && |stem| == h + w + 3 && stem[..h] == head && stem[h + 2..h + 2 + w] == digits
      && stem[h] == ' ' && stem[h + 1] == '(' && stem[h + w + 2] == ')'
  {
    var mark := " (" + digits + ")";
    assert stem[|head|..] == mark;
    assert mark[2..2 + |digits|] == digits;
    assert stem[|head| + 2..|head| + 2 + |digits|] == stem[|head|..][2..2 + |digits|];
  }

  lemma MarkAt(head: string, digits: string, stem: string)
    requires AllDigits(digits) && 1 <= |digits| <= 3 && digits[0] != '0' && '\n' !in head
    requires stem == head + (" (" + digits + ")")
    ensures MarkWidth(stem) == |digits| && |stem| == |head| + |digits| + 3
    ensures stem[..|head|] == head && stem[|head| + 2..|stem| - 1] == digits
  {
    MarkSlices(head, digits, stem);
    assert stem[|head| + 2] == digits[0];
    assert EndsInMark(stem, |digits|);
    OneWidth(stem, |digits|, MarkWidth(stem));
  }

  lemma MarkedStem(head: string, n: nat)
    requires '\n' !in head && 2 <= n <= MAX_DUPLICATES
    ensures Unmarked(head + Mark(n)) == Some((head, n))
  {
    DecimalReads(n);
    DecimalWidth(n);
    MarkAt(head, Decimal(n), head + Mark(n));
  }

  lemma WrittenMarkIsRead(stem: string, n: nat)
    requires '\n' !in stem && Carries(stem, n)
    ensures Unmarked(stem).Some? && Unmarked(stem).value.1 == n && stem == Unmarked(stem).value.0 + Mark(n)
  {
    var head := stem[..|stem| - |Mark(n)|];
    assert stem == head + Mark(n);
    MarkedStem(head, n);
  }

  lemma SuffixOfWidth(stem: string, v: nat, digits: string)
    requires EndsInMark(stem, v) && digits == stem[|stem| - 1 - v..|stem| - 1]
    ensures HasSuffix(stem, " (" + digits + ")")
  {
    var at := |stem| - 3 - v;
    assert stem[at..] == [stem[at], stem[at + 1]] + digits + [stem[|stem| - 1]];
  }

  lemma ReadMarkWasWritten(stem: string)
    requires Unmarked(stem).Some?
    ensures Carries(stem, Unmarked(stem).value.1)
  {
    var v := MarkWidth(stem);
    var digits := stem[|stem| - 1 - v..|stem| - 1];
    ReadsDecimal(digits);
    SuffixOfWidth(stem, v, digits);
  }

  /** A stem on one line carries a mark exactly when one is read off it, with the number it was
      written with. */
  lemma MarksAreRead(stem: string, n: nat)
    requires '\n' !in stem
    ensures Carries(stem, n) <==> Unmarked(stem).Some? && Unmarked(stem).value.1 == n
    ensures Carries(stem, n) ==> stem == Unmarked(stem).value.0 + Mark(n)
  {
    if Carries(stem, n) { WrittenMarkIsRead(stem, n); }
    if Unmarked(stem).Some? { ReadMarkWasWritten(stem); }
  }

  lemma BaseFollows(dir: string, base: string)
    requires dir == "" || dir[|dir| - 1] == '/'
    requires '/' !in base
    ensures BaseAt(dir + base) == |dir|
  {
    var path := dir + base;
    assert forall i :: |dir| <= i < |path| ==> path[i] == base[i - |dir|];
    if dir != "" {
      assert path[|dir| - 1] == '/';
    }
  }

  lemma DotAt(stem: string, ext: string)
    requires AllAlnum(ext)
    ensures var base := stem + "." + ext; WithoutExt(base) == stem && ExtOf(base) == "." + ext
  {
    var base := stem + "." + ext;
    assert base[|stem|] == '.';
    assert forall i :: |stem| < i < |base| ==> base[i] == ext[i - |stem| - 1];
    assert LastIndex(base, '.', |base|) == |stem|;
  }

  lemma SplitOfBase(dir: string, base: string)
    requires BaseAt(dir + base) == |dir|
    ensures SplitDuplicate(dir + base) ==
      match Unmarked(WithoutExt(base))
      case None => (dir + base, 0)
      case Some(pair) => (dir + pair.0 + ExtOf(base), pair.1)
  {
    var path := dir + base;
    assert path[..|dir|] == dir && path[|dir|..] == base;
  }

  function Restored(dir: string, stem: string, ext: string): (string, nat) {
    match Unmarked(stem)
    case None => (dir + (stem + "." + ext), 0)
    case Some(pair) => (dir + (pair.0 + "." + ext), pair.1)
  }

  lemma BaseHasNoSlash(stem: string, ext: string)
    requires '/' !in stem && AllAlnum(ext)
    ensures '/' !in stem + "." + ext
  {}

  lemma ExtensionLast(dir: string, head: string, ext: string)
    ensures dir + head + ("." + ext) == dir + (head + "." + ext)
  {}

  /** Taking a mark off looks at the stem alone. */
  lemma SplitLooksAtTheStem(dir: string, stem: string, ext: string)
    requires dir == "" || dir[|dir| - 1] == '/'
    requires '/' !in stem && AllAlnum(ext)
    ensures SplitDuplicate(dir + (stem + "." + ext)) == Restored(dir, stem, ext)
  {
    var base := stem + "." + ext;
    BaseHasNoSlash(stem, ext);
    BaseFollows(dir, base);
    DotAt(stem, ext);
    SplitOfBase(dir, base);
    var plain := Unmarked(stem);
    if plain.Some? {
      ExtensionLast(dir, plain.value.0, ext);
    }
  }

  lemma MarkPrecedesTheExt(stem: string, ext: string, n: nat)
    requires AllAlnum(ext)
    ensures Marked(stem + "." + ext, n) == (stem + Mark(n)) + "." + ext
  {
    DotAt(stem, ext);
    assert stem + " (" + Decimal(n) + ")" == stem + Mark(n);
    assert (stem + Mark(n)) + ("." + ext) == (stem + Mark(n)) + "." + ext;
  }

  lemma MarkIsPlain(n: nat)
    ensures '/' !in Mark(n) && '\n' !in Mark(n)
  {
    DecimalReads(n);
    assert forall c :: c in Decimal(n) ==> IsDigit(c);
  }

  /** The k-th duplicate's mark comes off again, and leaves the name it was added to. */
  lemma MarkComesOff(dir: string, stem: string, ext: string, n: nat)
    requires dir == "" || dir[|dir| - 1] == '/'
    requires '/' !in stem && '\n' !in stem && AllAlnum(ext) && 2 <= n <= MAX_DUPLICATES
    ensures SplitDuplicate(dir + Marked(stem + "." + ext, n)) == (dir + (stem + "." + ext), n)
  {
    MarkPrecedesTheExt(stem, ext, n);
    MarkIsPlain(n);
    MarkedStem(stem, n);
    SplitLooksAtTheStem(dir, stem + Mark(n), ext);
  }

  /** A name is left whole exactly when its stem carries no mark of its own. */
  lemma UnmarkedIsWhole(dir: string, stem: string, ext: string)
    requires dir == "" || dir[|dir| - 1] == '/'
    requires '/' !in stem && '\n' !in stem && AllAlnum(ext)
    ensures var path := dir + (stem + "." + ext);
      && (SplitDuplicate(path).1 == 0 <==> !exists n :: Carries(stem, n))
      && (SplitDuplicate(path).1 == 0 ==> SplitDuplicate(path).0 == path)
  {
    SplitLooksAtTheStem(dir, stem, ext);
    forall n | Carries(stem, n) ensures Unmarked(stem).Some? {
      MarksAreRead(stem, n);
    }
    if Unmarked(stem).Some? {
      MarksAreRead(stem, Unmarked(stem).value.1);
      assert Carries(stem, Unmarked(stem).value.1);
    }
  }
}
