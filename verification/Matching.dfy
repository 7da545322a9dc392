/** Reading a rendered name back: the template's expression as a backtracking matcher, leftmost
    first, with free text greedy in one pass and lazy in the other. */
module Matching {
  import opened Basics
  import opened Text
  import opened Numerals
  import opened Sanitize
  import opened Template

  predicate IsFree(p: Placeholder) {
    p.Platform? || p.Channel? || p.Author? || p.Title? || p.Category?
  }

  predicate AllAlnum(s: string) { forall i :: 0 <= i < |s| ==> IsAlnum(s[i]) }

  /** The shape a placeholder's own pattern matches. */
  predicate Fits(p: Placeholder, s: string) {
    match p
    case Date =>
      |s| == 10 && AllDigits(s[..4]) && s[4] == '-' && AllDigits(s[5..7]) && s[7] == '-' && AllDigits(s[8..])
    case Time => |s| == 5 && AllDigits(s[..2]) && s[2] == '-' && AllDigits(s[3..])
    case Year => |s| == 4 && AllDigits(s)
    case Month => |s| == 2 && AllDigits(s)
    case Day => |s| == 2 && AllDigits(s)
    case Ext => s != "" && AllAlnum(s)
    case _ => s != "" && AllClean(s)
  }

  type Pins = map<Placeholder, string>

  /** A pinned placeholder matches its value and nothing else. */
  predicate Takes(p: Placeholder, s: string, pins: Pins) {
    if p in pins then s == pins[p] else Fits(p, s)
  }

  /** The lazy pass tries free text shortest first; everything else is tried longest first. */
  predicate ShortestFirst(p: Placeholder, lazy: bool, pins: Pins) {
    lazy && IsFree(p) && p !in pins
  }

  /** The first reading of s as these parts, one value for each hole. */
  function Read(parts: seq<Part>, s: string, lazy: bool, pins: Pins): Option<seq<string>>
    decreases |parts|, |s| + 2
  {
    if parts == [] then
      if s == "" then Some([]) else None
    else match parts[0]
      case Lit(text) =>
        if ToSlash(text) <= s then Read(parts[1..], s[|text|..], lazy, pins) else None
      case Hole(p) =>
        if ShortestFirst(p, lazy, pins) then TryUp(parts, s, lazy, pins, 0) else TryDown(parts, s, lazy, pins, |s|)
  }

  /** Value and rest, when the first hole takes the first n characters. */
  function TryAt(parts: seq<Part>, s: string, lazy: bool, pins: Pins, n: nat): Option<seq<string>>
    requires parts != [] && parts[0].Hole? && n <= |s|
    decreases |parts|, 0
  {
    if !Takes(parts[0].placeholder, s[..n], pins) then None
    else match Read(parts[1..], s[n..], lazy, pins)
      case None => None
      case Some(rest) => Some([s[..n]] + rest)
  }

  function TryUp(parts: seq<Part>, s: string, lazy: bool, pins: Pins, n: nat): Option<seq<string>>
    requires parts != [] && parts[0].Hole? && n <= |s|
    decreases |parts|, |s| - n + 1
  {
    var here := TryAt(parts, s, lazy, pins, n);
    if here.Some? || n == |s| then here else TryUp(parts, s, lazy, pins, n + 1)
  }

  function TryDown(parts: seq<Part>, s: string, lazy: bool, pins: Pins, n: nat): Option<seq<string>>
    requires parts != [] && parts[0].Hole? && n <= |s|
    decreases |parts|, n + 1
  {
    var here := TryAt(parts, s, lazy, pins, n);
    if here.Some? || n == 0 then here else TryDown(parts, s, lazy, pins, n - 1)
  }

  // ----- what a reading is -----

  /** Values that, put into the holes, spell s, each of the shape its hole takes. */
  predicate Spells(parts: seq<Part>, values: seq<string>, s: string, pins: Pins) {
    if parts == [] then values == [] && s == ""
    else match parts[0]
      case Lit(text) => ToSlash(text) <= s && Spells(parts[1..], values, s[|text|..], pins)
      case Hole(p) =>
        && values != [] && values[0] <= s && Takes(p, values[0], pins)
        && Spells(parts[1..], values[1..], s[|values[0]|..], pins)
  }

  /** Where two readings first differ, the pass prefers the first of them. */
  predicate Preferred(parts: seq<Part>, g: seq<string>, a: seq<string>, lazy: bool, pins: Pins) {
    if parts == [] || g == [] || a == [] then false
    else match parts[0]
      case Lit(_) => Preferred(parts[1..], g, a, lazy, pins)
      case Hole(p) =>
        if g[0] == a[0] then Preferred(parts[1..], g[1..], a[1..], lazy, pins)
        else if ShortestFirst(p, lazy, pins) then |g[0]| < |a[0]| else |a[0]| < |g[0]|
  }

  lemma TryAtSpells(parts: seq<Part>, s: string, lazy: bool, pins: Pins, n: nat)
    requires parts != [] && parts[0].Hole? && n <= |s|
    requires Read(parts[1..], s[n..], lazy, pins).Some? ==>
      Spells(parts[1..], Read(parts[1..], s[n..], lazy, pins).value, s[n..], pins)
    ensures TryAt(parts, s, lazy, pins, n).Some? ==>
      Spells(parts, TryAt(parts, s, lazy, pins, n).value, s, pins)
  {
    var here := TryAt(parts, s, lazy, pins, n);
    if here.Some? {
      assert here.value[0] == s[..n] && here.value[1..] == Read(parts[1..], s[n..], lazy, pins).value;
    }
  }

  lemma {:induction false} UpStopsAtFirst(parts: seq<Part>, s: string, lazy: bool, pins: Pins, n: nat)
    returns (m: nat)
    requires parts != [] && parts[0].Hole? && n <= |s|
    ensures n <= m <= |s| && TryUp(parts, s, lazy, pins, n) == TryAt(parts, s, lazy, pins, m)
    ensures forall k :: n <= k < m ==> TryAt(parts, s, lazy, pins, k).None?
    ensures TryAt(parts, s, lazy, pins, m).None? ==> m == |s|
    decreases |s| - n
  {
    m := n;
    if TryAt(parts, s, lazy, pins, n).None? && n < |s| {
      m := UpStopsAtFirst(parts, s, lazy, pins, n + 1);
    }
  }

  lemma {:induction false} DownStopsAtFirst(parts: seq<Part>, s: string, lazy: bool, pins: Pins, n: nat)
    returns (m: nat)
    requires parts != [] && parts[0].Hole? && n <= |s|
    ensures m <= n && TryDown(parts, s, lazy, pins, n) == TryAt(parts, s, lazy, pins, m)
    ensures forall k :: m < k <= n ==> TryAt(parts, s, lazy, pins, k).None?
    ensures TryAt(parts, s, lazy, pins, m).None? ==> m == 0
  {
    m := n;
    if TryAt(parts, s, lazy, pins, n).None? && n > 0 {
      m := DownStopsAtFirst(parts, s, lazy, pins, n - 1);
    }
  }

  /** The length the reading gives its first hole: the first, in the pass's own order, that leads
      anywhere. */
  lemma HoleStopsAtFirst(parts: seq<Part>, s: string, lazy: bool, pins: Pins)
    returns (m: nat)
    requires parts != [] && parts[0].Hole?
    ensures m <= |s| && Read(parts, s, lazy, pins) == TryAt(parts, s, lazy, pins, m)
    ensures forall k :: 0 <= k <= |s| && TryAt(parts, s, lazy, pins, k).Some? ==>
      TryAt(parts, s, lazy, pins, m).Some? &&
      if ShortestFirst(parts[0].placeholder, lazy, pins) then m <= k else k <= m
  {
    if ShortestFirst(parts[0].placeholder, lazy, pins) {
      m := UpStopsAtFirst(parts, s, lazy, pins, 0);
    } else {
      m := DownStopsAtFirst(parts, s, lazy, pins, |s|);
    }
  }

  /** A reading spells the name, and is found whenever anything does. */
  lemma {:induction false} ReadSpells(parts: seq<Part>, s: string, lazy: bool, pins: Pins)
    ensures Read(parts, s, lazy, pins).Some? ==> Spells(parts, Read(parts, s, lazy, pins).value, s, pins)
    decreases |parts|
  {
    if parts != [] {
      if parts[0].Lit? {
        if ToSlash(parts[0].text) <= s { ReadSpells(parts[1..], s[|parts[0].text|..], lazy, pins); }
      } else {
        var m := HoleStopsAtFirst(parts, s, lazy, pins);
        ReadSpells(parts[1..], s[m..], lazy, pins);
        TryAtSpells(parts, s, lazy, pins, m);
      }
    }
  }

  /** Whatever spells the name, the pass reads something, and prefers it to anything else. */
  lemma {:induction false} ReadIsFirst(parts: seq<Part>, a: seq<string>, s: string, lazy: bool, pins: Pins)
    requires Spells(parts, a, s, pins)
    ensures Read(parts, s, lazy, pins).Some?
    ensures Read(parts, s, lazy, pins).value == a || Preferred(parts, Read(parts, s, lazy, pins).value, a, lazy, pins)
    decreases |parts|
  {
    if parts != [] {
      if parts[0].Lit? {
        ReadIsFirst(parts[1..], a, s[|parts[0].text|..], lazy, pins);
      } else {
        var n := |a[0]|;
        assert s[..n] == a[0];
        ReadIsFirst(parts[1..], a[1..], s[n..], lazy, pins);
        var m := HoleStopsAtFirst(parts, s, lazy, pins);
        assert TryAt(parts, s, lazy, pins, n).Some?;
        var g := Read(parts, s, lazy, pins).value;
        assert g[0] == s[..m];
        if m == n {
          assert g[1..] == Read(parts[1..], s[n..], lazy, pins).value;
          assert a == [a[0]] + a[1..];
        } else {
          assert |g[0]| == m;
        }
      }
    }
  }

  // ----- the ambiguity test -----

  const FREE_OF_PINS: Pins := map[]

  /** The two readings differ from a only in that, where they first part, they give {ext} more. */
  predicate LongerExtFirst(parts: seq<Part>, v: seq<string>, a: seq<string>) {
    if parts == [] || v == [] || a == [] then false
    else match parts[0]
      case Lit(_) => LongerExtFirst(parts[1..], v, a)
      case Hole(p) =>
        if v[0] == a[0] then LongerExtFirst(parts[1..], v[1..], a[1..])
        else p.Ext? && |a[0]| < |v[0]|
  }

  lemma FixedWidth(p: Placeholder, s: string, t: string)
    requires Fits(p, s) && Fits(p, t) && !IsFree(p) && !p.Ext?
    ensures |s| == |t|
  {}

  /** Preferred by both passes at once: only {ext} can do that. */
  lemma {:induction false} PreferredByBoth(parts: seq<Part>, v: seq<string>, a: seq<string>, s: string)
    requires Spells(parts, v, s, FREE_OF_PINS) && Spells(parts, a, s, FREE_OF_PINS)
    ensures Preferred(parts, v, a, false, FREE_OF_PINS) && Preferred(parts, v, a, true, FREE_OF_PINS) <==>
      LongerExtFirst(parts, v, a)
    decreases |parts|
  {
    if parts != [] {
      if parts[0].Lit? {
        PreferredByBoth(parts[1..], v, a, s[|parts[0].text|..]);
      } else if v[0] == a[0] {
        PreferredByBoth(parts[1..], v[1..], a[1..], s[|v[0]|..]);
      } else {
        var p := parts[0].placeholder;
        if !IsFree(p) && !p.Ext? {
          FixedWidth(p, v[0], a[0]);
        }
      }
    }
  }

  lemma {:induction false} NeverBothWays(parts: seq<Part>, v: seq<string>, a: seq<string>, lazy: bool)
    ensures !(Preferred(parts, v, a, lazy, FREE_OF_PINS) && LongerExtFirst(parts, a, v))
    decreases |parts|
  {
    if parts != [] && v != [] && a != [] {
      if parts[0].Lit? {
        NeverBothWays(parts[1..], v, a, lazy);
      } else if v[0] == a[0] {
        NeverBothWays(parts[1..], v[1..], a[1..], lazy);
      }
    }
  }

  /** The greedy and lazy passes read one thing from a name. */
  predicate ReadAlike(parts: seq<Part>, s: string, v: seq<string>) {
    Read(parts, s, false, FREE_OF_PINS) == Some(v) && Read(parts, s, true, FREE_OF_PINS) == Some(v)
  }

  /** v spells s, and anything else that does first parts from v by giving {ext} less. */
  ghost predicate OnlyExtCouldDiffer(parts: seq<Part>, s: string, v: seq<string>) {
    && Spells(parts, v, s, FREE_OF_PINS)
    && forall a :: Spells(parts, a, s, FREE_OF_PINS) && a != v ==> LongerExtFirst(parts, v, a)
  }

  /** v spells s, and nothing else does. */
  ghost predicate OnlyOne(parts: seq<Part>, s: string, v: seq<string>) {
    && Spells(parts, v, s, FREE_OF_PINS)
    && forall a :: Spells(parts, a, s, FREE_OF_PINS) ==> a == v
  }

  /** Exactly what the greedy-versus-lazy test decides, for every template and every name: the two
      passes agree on v if and only if v spells the name and anything else that spells it first
      parts from v by giving {ext} less. */
  lemma AgreementDecides(parts: seq<Part>, s: string, v: seq<string>)
    ensures ReadAlike(parts, s, v) <==> OnlyExtCouldDiffer(parts, s, v)
  {
    if ReadAlike(parts, s, v) {
      ReadSpells(parts, s, false, FREE_OF_PINS);
      forall a | Spells(parts, a, s, FREE_OF_PINS) && a != v
        ensures LongerExtFirst(parts, v, a)
      {
        ReadIsFirst(parts, a, s, false, FREE_OF_PINS);
        ReadIsFirst(parts, a, s, true, FREE_OF_PINS);
        PreferredByBoth(parts, v, a, s);
      }
    }
    if OnlyExtCouldDiffer(parts, s, v) {
      OnlyReading(parts, s, v, false);
      OnlyReading(parts, s, v, true);
    }
  }

  lemma OnlyReading(parts: seq<Part>, s: string, v: seq<string>, lazy: bool)
    requires OnlyExtCouldDiffer(parts, s, v)
    ensures Read(parts, s, lazy, FREE_OF_PINS) == Some(v)
  {
    ReadIsFirst(parts, v, s, lazy, FREE_OF_PINS);
    ReadSpells(parts, s, lazy, FREE_OF_PINS);
    var g := Read(parts, s, lazy, FREE_OF_PINS).value;
    if g != v {
      NeverBothWays(parts, g, v, lazy);
    }
  }

  lemma {:induction false} NeverLongerThanItself(parts: seq<Part>, v: seq<string>)
    ensures !LongerExtFirst(parts, v, v)
    decreases |parts|
  {
    if parts != [] && v != [] {
      if parts[0].Lit? {
        NeverLongerThanItself(parts[1..], v);
      } else {
        NeverLongerThanItself(parts[1..], v[1..]);
      }
    }
  }

  /** a spells s too, and where it first parts from v it gives {ext} less. */
  predicate GivesExtLess(parts: seq<Part>, s: string, v: seq<string>, a: seq<string>) {
    Spells(parts, a, s, FREE_OF_PINS) && LongerExtFirst(parts, v, a)
  }

  /** Exactly when the test lets an ambiguous name through: the passes agree on v although something
      else spells the name, if and only if giving {ext} less is the first difference of everything
      else that does, and there is something else. */
  lemma AgreementHidesExactly(parts: seq<Part>, s: string, v: seq<string>)
    ensures ReadAlike(parts, s, v) && !OnlyOne(parts, s, v) <==>
      OnlyExtCouldDiffer(parts, s, v) && exists a :: GivesExtLess(parts, s, v, a)
  {
    AgreementDecides(parts, s, v);
    NeverLongerThanItself(parts, v);
    if ReadAlike(parts, s, v) && !OnlyOne(parts, s, v) {
      var a :| Spells(parts, a, s, FREE_OF_PINS) && a != v;
      assert GivesExtLess(parts, s, v, a);
    }
  }

  // ----- where it is exact -----

  function Width(p: Placeholder): nat {
    match p
    case Date => 10
    case Time => 5
    case Year => 4
    case _ => 2
  }

  /** How many letters and digits open every text these parts spell before something that is neither,
      or the end; nothing where a part of variable width comes first. */
  function Run(parts: seq<Part>): Option<nat> {
    if parts == [] then Some(0)
    else match parts[0]
      case Lit(text) => if AllAlnum(text) then After(|text|, Run(parts[1..])) else Some(AlnumPrefix(text))
      case Hole(p) =>
        match p
        case Date => Some(4)
        case Time => Some(2)
        case Ext => None
        case _ => if IsFree(p) then None else After(Width(p), Run(parts[1..]))
  }

  function After(n: nat, rest: Option<nat>): Option<nat> {
    if rest.None? then None else Some(n + rest.value)
  }

  function AlnumPrefix(s: string): (n: nat)
    ensures BreaksAt(s, n)
  {
    if s == "" || !IsAlnum(s[0]) then 0 else 1 + AlnumPrefix(s[1..])
  }

  /** Text opens with exactly n letters and digits. */
  predicate BreaksAt(s: string, n: nat) {
    n <= |s| && (forall i :: 0 <= i < n ==> IsAlnum(s[i])) && (n == |s| || !IsAlnum(s[n]))
  }

  lemma BreaksLater(s: string, w: nat, n: nat)
    requires w <= |s| && (forall i :: 0 <= i < w ==> IsAlnum(s[i])) && BreaksAt(s[w..], n)
    ensures BreaksAt(s, w + n)
  {
    assert forall i :: w <= i < |s| ==> s[i] == s[w..][i - w];
  }

  lemma SlashesAreNoMatter(text: string, s: string, i: nat)
    requires ToSlash(text) <= s && i < |text|
    ensures |text| <= |s| && (IsAlnum(s[i]) <==> IsAlnum(text[i]))
  {
    assert s[i] == ToSlash(text)[i];
  }

  lemma LettersBreak(text: string, s: string, n: nat)
    requires ToSlash(text) <= s && AllAlnum(text) && BreaksAt(s[|text|..], n)
    ensures BreaksAt(s, |text| + n)
  {
    forall i | 0 <= i < |text| ensures IsAlnum(s[i]) { SlashesAreNoMatter(text, s, i); }
    BreaksLater(s, |text|, n);
  }

  lemma PrefixBreaks(text: string, s: string)
    requires ToSlash(text) <= s && !AllAlnum(text)
    ensures BreaksAt(s, AlnumPrefix(text))
  {
    var n := AlnumPrefix(text);
    assert n < |text|;
    forall i | 0 <= i <= n ensures IsAlnum(s[i]) <==> IsAlnum(text[i]) { SlashesAreNoMatter(text, s, i); }
  }

  lemma DigitsBreak(w: string, s: string, n: nat)
    requires w <= s && AllDigits(w) && BreaksAt(s[|w|..], n)
    ensures BreaksAt(s, |w| + n)
  {
    assert forall i :: 0 <= i < |w| ==> s[i] == w[i];
    BreaksLater(s, |w|, n);
  }

  lemma ClockBreaks(w: string, s: string, n: nat)
    requires w <= s && n < |w| && AllDigits(w[..n]) && !IsAlnum(w[n])
    ensures BreaksAt(s, n)
  {
    assert forall i :: 0 <= i < n ==> s[i] == w[..n][i];
    assert s[n] == w[n];
  }

  lemma {:induction false} RunsBreak(parts: seq<Part>, v: seq<string>, s: string)
    requires Spells(parts, v, s, FREE_OF_PINS) && Run(parts).Some?
    ensures BreaksAt(s, Run(parts).value)
    decreases |parts|
  {
    if parts != [] {
      match parts[0]
      case Lit(text) =>
        if AllAlnum(text) {
          RunsBreak(parts[1..], v, s[|text|..]);
          LettersBreak(text, s, Run(parts[1..]).value);
        } else {
          PrefixBreaks(text, s);
        }
      case Hole(p) =>
        if p.Date? || p.Time? {
          ClockBreaks(v[0], s, Run(parts).value);
        } else {
          RunsBreak(parts[1..], v[1..], s[|v[0]|..]);
          DigitsBreak(v[0], s, Run(parts[1..]).value);
        }
    }
  }

  /** {ext} is absent, or cut off from the next part of variable width by something that is neither a
      letter nor a digit; with no such part after it, the end of the name cuts it off. */
  predicate ExtCutOff(parts: seq<Part>) {
    forall i :: 0 <= i < |parts| && parts[i] == Hole(Ext) ==> Run(parts[i + 1..]).Some?
  }

  /** {ext} is absent, or nothing of variable width follows it. */
  predicate ExtLast(parts: seq<Part>) {
    forall i, j :: 0 <= i < j < |parts| && parts[i] == Hole(Ext) && parts[j].Hole? ==>
      !parts[j].placeholder.Ext? && !IsFree(parts[j].placeholder)
  }

  lemma {:induction false} FixedPartsRun(parts: seq<Part>)
    requires forall i :: 0 <= i < |parts| && parts[i].Hole? ==>
      !parts[i].placeholder.Ext? && !IsFree(parts[i].placeholder)
    ensures Run(parts).Some?
    decreases |parts|
  {
    if parts != [] { FixedPartsRun(parts[1..]); }
  }

  lemma LastIsCutOff(parts: seq<Part>)
    requires ExtLast(parts)
    ensures ExtCutOff(parts)
  {
    forall i | 0 <= i < |parts| && parts[i] == Hole(Ext) ensures Run(parts[i + 1..]).Some? {
      FixedPartsRun(parts[i + 1..]);
    }
  }

  /** Two values of an extension that is cut off end at the same place. */
  lemma OneEnd(rest: seq<Part>, s: string, v: seq<string>, a: seq<string>, n: nat, m: nat)
    requires Run(rest).Some? && n <= |s| && m <= |s| && forall i :: 0 <= i < n || 0 <= i < m ==> IsAlnum(s[i])
    requires Spells(rest, v, s[n..], FREE_OF_PINS) && Spells(rest, a, s[m..], FREE_OF_PINS)
    ensures n == m
  {
    RunsBreak(rest, v, s[n..]);
    RunsBreak(rest, a, s[m..]);
    BreaksLater(s, n, Run(rest).value);
    BreaksLater(s, m, Run(rest).value);
  }

  lemma {:induction false} CutOffExtIsSettled(parts: seq<Part>, v: seq<string>, a: seq<string>, s: string)
    requires ExtCutOff(parts) && Spells(parts, v, s, FREE_OF_PINS) && Spells(parts, a, s, FREE_OF_PINS)
    ensures !LongerExtFirst(parts, v, a)
    decreases |parts|
  {
    if parts != [] {
      forall i | 0 <= i < |parts[1..]| && parts[1..][i] == Hole(Ext) ensures Run(parts[1..][i + 1..]).Some? {
        assert parts[i + 1] == Hole(Ext) && parts[1..][i + 1..] == parts[i + 2..];
      }
      if parts[0].Lit? {
        CutOffExtIsSettled(parts[1..], v, a, s[|parts[0].text|..]);
      } else if v[0] == a[0] {
        CutOffExtIsSettled(parts[1..], v[1..], a[1..], s[|v[0]|..]);
      } else if parts[0].placeholder.Ext? {
        assert forall i :: 0 <= i < |v[0]| ==> s[i] == v[0][i];
        assert forall i :: 0 <= i < |a[0]| ==> s[i] == a[0][i];
        assert parts[0 + 1..] == parts[1..];
        OneEnd(parts[1..], s, v[1..], a[1..], |v[0]|, |a[0]|);
      }
    }
  }

  /** Where {ext} is absent, last or cut off, the test is exact: the passes agree if and only if
      exactly one assignment of values spells the name. */
  lemma AgreementIsUniqueness(parts: seq<Part>, s: string, v: seq<string>)
    requires ExtCutOff(parts)
    ensures ReadAlike(parts, s, v) <==> OnlyOne(parts, s, v)
  {
    AgreementDecides(parts, s, v);
    forall a | Spells(parts, a, s, FREE_OF_PINS) && Spells(parts, v, s, FREE_OF_PINS)
      ensures !LongerExtFirst(parts, v, a)
    {
      CutOffExtIsSettled(parts, v, a, s);
    }
  }

  /** Where free text follows {ext} directly the passes can agree on a name that reads two ways. */
  lemma GreedyExtHidesAReading()
    ensures var parts := [Hole(Ext), Hole(Title)];
      && !ExtCutOff(parts) && ReadAlike(parts, "abc", ["ab", "c"])
      && Spells(parts, ["ab", "c"], "abc", FREE_OF_PINS) && Spells(parts, ["a", "bc"], "abc", FREE_OF_PINS)
  {
    var parts := [Hole(Ext), Hole(Title)];
    assert parts[1..] == [Hole(Title)] && parts[1..][1..] == [];
    assert parts[0] == Hole(Ext) && Run(parts[0 + 1..]).None?;
    BothCuts();
    forall a | Spells(parts, a, "abc", FREE_OF_PINS) && a != ["ab", "c"]
      ensures LongerExtFirst(parts, ["ab", "c"], a)
    {
      OnlyTwoCuts(a);
    }
    AgreementDecides(parts, "abc", ["ab", "c"]);
  }

  /** What spells "abc" as an extension and a title: a cut after its first or its second letter. */
  lemma OnlyTwoCuts(a: seq<string>)
    requires Spells([Hole(Ext), Hole(Title)], a, "abc", FREE_OF_PINS)
    ensures a == ["ab", "c"] || a == ["a", "bc"]
  {
    var parts, s := [Hole(Ext), Hole(Title)], "abc";
    assert parts[1..] == [Hole(Title)] && parts[1..][1..] == [];
    var b := a[1..];
    assert Spells(parts[1..], b, s[|a[0]|..], FREE_OF_PINS);
    assert Spells([], b[1..], s[|a[0]|..][|b[0]|..], FREE_OF_PINS);
    assert a == [a[0], b[0]] && a[0] + b[0] == s;
    assert s[..1] == "a" && s[1..] == "bc" && s[..2] == "ab" && s[2..] == "c";
    assert |a[0]| == 1 || |a[0]| == 2;
    assert a[0] == s[..|a[0]|] && b[0] == s[|a[0]|..];
  }

  lemma BothCuts()
    ensures Spells([Hole(Ext), Hole(Title)], ["ab", "c"], "abc", FREE_OF_PINS)
    ensures Spells([Hole(Ext), Hole(Title)], ["a", "bc"], "abc", FREE_OF_PINS)
  {
    OneCut("ab", "c");
    OneCut("a", "bc");
    assert "ab" + "c" == "abc" == "a" + "bc";
  }

  lemma OneCut(ext: string, title: string)
    requires ext != "" && title != "" && AllAlnum(ext) && AllClean(title)
    ensures Spells([Hole(Ext), Hole(Title)], [ext, title], ext + title, FREE_OF_PINS)
  {
    var parts, a, s := [Hole(Ext), Hole(Title)], [ext, title], ext + title;
    assert parts[1..] == [Hole(Title)] && parts[1..][1..] == [];
    assert a[1..] == [title] && a[1..][1..] == [];
    assert s[|ext|..] == title && title[|title|..] == "";
    assert Spells([], [], "", FREE_OF_PINS);
    assert Spells(parts[1..], [title], title, FREE_OF_PINS);
  }
}
