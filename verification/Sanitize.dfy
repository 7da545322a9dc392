/** Making one path component safe on every filesystem. */
module Sanitize {
  import opened Basics
  import opened Text

  /** What the host's own filepath.IsLocal says of a component. */
  datatype Host = Host(local: string -> bool)
  {
    /** Behind an underscore, text without separators, colons or any other character a component may
        not hold is local on every platform: no device name begins with one. */
    ghost predicate Sane() {
      forall s: string :: s != "" && AllClean(s) ==> local("_" + s)
    }
  }

  /** The Windows device names, in lower case. */
  predicate IsDevice(name: string) {
    || name == "con" || name == "prn" || name == "aux" || name == "nul"
    || (|name| == 4 && (name[..3] == "com" || name[..3] == "lpt") && '1' <= name[3] <= '9')
  }

  /** The names of the state and capture directories. */
  predicate IsLibraryName(name: string) {
    name == ".dvr" || name == "incoming"
  }

  const REPLACEMENT: char := '_'

  function SanitizeChar(c: char): char {
    if IsIllegal(c) || IsControl(c) then REPLACEMENT else c
  }

  function SanitizeValue(s: string): (r: string)
    ensures |r| == |s|
    ensures forall i :: 0 <= i < |s| ==> r[i] == SanitizeChar(s[i])
  {
    seq(|s|, i requires 0 <= i < |s| => SanitizeChar(s[i]))
  }

  /** sanitizeValue's loop. */
  method SanitizeRunes(value: string) returns (safe: string)
    ensures safe == SanitizeValue(value)
    ensures AllClean(safe)
  {
    safe := "";
    for i := 0 to |value|
      invariant |safe| == i && forall j :: 0 <= j < i ==> safe[j] == SanitizeChar(value[j])
    {
      if IsIllegal(value[i]) || IsControl(value[i]) {
        safe := safe + [REPLACEMENT];
      } else {
        safe := safe + [value[i]];
      }
    }
    assert safe == SanitizeValue(value);
  }

  /** No character sanitizeValue would replace. */
  predicate AllClean(s: string) {
    forall i :: 0 <= i < |s| ==> !IsIllegal(s[i]) && !IsControl(s[i])
  }

  /** What trimming to a fixed point leaves: no leading space, no trailing dot or space. */
  function TrimComponent(s: string): string {
    TrimStart(TrimEnd(s, Trailing), Spaces)
  }

  /** The text before the first dot. */
  function Stem(s: string): (r: string)
    ensures |r| <= |s| && r == s[..|r|]
    ensures |r| < |s| ==> s[|r|] == '.'
    ensures '.' !in r
  {
    if s == [] || s[0] == '.' then [] else [s[0]] + Stem(s[1..])
  }

  predicate MustPrefix(host: Host, clean: string) {
    IsDevice(Lower(Stem(clean))) || IsLibraryName(Lower(clean)) || !host.local(clean)
  }

  /** SanitizeSegment: None where nothing is left. */
  function SanitizeSegment(host: Host, segment: string): Option<string> {
    var clean := TrimComponent(SanitizeValue(segment));
    if clean == "" then None
    else if MustPrefix(host, clean) then Some("_" + clean)
    else Some(clean)
  }

  // ----- the trim loop -----

  function TrimPass(s: string): string {
    TrimSpace(TrimEnd(s, DotsAndSpaces))
  }

  /** The stretch s[from..to] a trim keeps, found by where it must begin and end. */
  lemma TrimmedAt(s: string, from: nat, to: nat)
    requires from <= to <= |s|
    requires from < to ==> !Cuts(Spaces, s[from]) && !Cuts(Trailing, s[to - 1])
    requires forall i :: 0 <= i < from ==> Cuts(Spaces, s[i])
    requires forall i :: to <= i < |s| ==> Cuts(Trailing, s[i])
    ensures TrimComponent(s) == s[from..to]
  {
    var k := KeptEnd(s, |s|, Trailing);
    if from < to {
      assert k == to;
      assert forall i :: 0 <= i < to ==> s[..to][i] == s[i];
      assert KeptStart(s[..to], 0, Spaces) == from;
    } else {
      assert k == 0;
    }
  }

  /** Trimming a component is stripping both its ends once. */
  lemma TrimComponentIsTrim(s: string)
    returns (from: nat, to: nat)
    ensures from <= to <= |s| && TrimComponent(s) == s[from..to]
    ensures from < to ==> !Cuts(Spaces, s[from]) && !Cuts(Trailing, s[to - 1])
    ensures forall i :: 0 <= i < from ==> Cuts(Spaces, s[i])
    ensures forall i :: to <= i < |s| ==> Cuts(Trailing, s[i])
  {
    to := KeptEnd(s, |s|, Trailing);
    from := KeptStart(s[..to], 0, Spaces);
    assert forall i :: 0 <= i < to ==> s[..to][i] == s[i];
  }

  lemma PassIsTrim(s: string)
    returns (from: nat, to: nat)
    ensures from <= to <= |s| && TrimPass(s) == s[from..to]
    ensures from < to ==> !Cuts(Spaces, s[from]) && !Cuts(Spaces, s[to - 1])
    ensures forall i :: 0 <= i < from ==> Cuts(Spaces, s[i])
    ensures forall i :: to <= i < |s| ==> Cuts(Trailing, s[i])
    ensures to == |s| && s != [] ==> !Cuts(Trailing, s[|s| - 1])
  {
    var a := KeptEnd(s, |s|, DotsAndSpaces);
    to := KeptEnd(s[..a], a, Spaces);
    assert s[..a][..to] == s[..to];
    from := KeptStart(s[..to], 0, Spaces);
  }

  /** Everything outside s[from..to] is what a trim takes. */
  predicate Strips(s: string, from: nat, to: nat) {
    && (forall i :: 0 <= i < from && i < |s| ==> Cuts(Spaces, s[i]))
    && (forall i :: to <= i < |s| ==> Cuts(Trailing, s[i]))
  }

  lemma StripsFurther(s: string, p: string, from: nat, f: nat, t: nat)
    requires from + |p| <= |s| && f <= t <= |p| && Strips(s, from, from + |p|) && Strips(p, f, t)
    requires forall j :: 0 <= j < |p| ==> p[j] == s[from + j]
    ensures Strips(s, from + f, from + t)
  {
    forall i | 0 <= i < from + f ensures Cuts(Spaces, s[i]) {
      if from <= i { assert p[i - from] == s[i]; }
    }
    forall i | from + t <= i < |s| ensures Cuts(Trailing, s[i]) {
      if i < from + |p| { assert p[i - from] == s[i]; }
    }
  }

  lemma TrimWithin(s: string, from: nat, to: nat)
    requires from <= to <= |s| && Strips(s, from, to)
    ensures TrimComponent(s[from..to]) == TrimComponent(s)
  {
    var p := s[from..to];
    var f, t := TrimComponentIsTrim(p);
    StripsFurther(s, p, from, f, t);
    assert f < t ==> p[f] == s[from + f] && p[t - 1] == s[from + t - 1];
    TrimmedAt(s, from + f, from + t);
    assert p[f..t] == s[from + f..from + t];
  }

  /** One pass takes nothing the fixed point keeps, and leaves text alone only at the fixed point. */
  lemma PassKeepsFixedPoint(s: string)
    ensures TrimComponent(TrimPass(s)) == TrimComponent(s)
    ensures TrimPass(s) == s ==> TrimComponent(s) == s
    ensures TrimPass(s) != s ==> |TrimPass(s)| < |s|
  {
    var from, to := PassIsTrim(s);
    TrimWithin(s, from, to);
    if to - from == |s| {
      TrimmedAt(s, 0, |s|);
      assert s[0..|s|] == s;
    }
  }

  /** SanitizeSegment's own loop: it terminates, at the fixed point. */
  method SanitizeOne(host: Host, segment: string) returns (result: Option<string>)
    ensures result == SanitizeSegment(host, segment)
    ensures result.Some? && host.Sane() ==> Safe(host, result.value)
  {
    var clean := SanitizeRunes(segment);
    ghost var start := clean;
    while TrimPass(clean) != clean
      invariant TrimComponent(clean) == TrimComponent(start)
      decreases |clean|
    {
      PassKeepsFixedPoint(clean);
      clean := TrimPass(clean);
    }
    PassKeepsFixedPoint(clean);
    if host.Sane() { SegmentsAreSafe(host, segment); }
    if clean == "" {
      return None;
    }
    if IsDevice(Lower(Stem(clean))) || IsLibraryName(Lower(clean)) || !host.local(clean) {
      return Some("_" + clean);
    }
    return Some(clean);
  }

  // ----- what a sanitized component is -----

  /** A component every supported filesystem takes, holding nothing that could leave it. */
  predicate Safe(host: Host, s: string) {
    && s != "" && s != "." && s != ".." && AllClean(s)
    && !IsSpace(s[0]) && s[|s| - 1] != '.' && !IsSpace(s[|s| - 1])
    && !IsDevice(Lower(Stem(s))) && !IsLibraryName(Lower(s)) && host.local(s)
  }

  /** The device names, as a list. */
  const DEVICE_NAMES :=
    ["con", "prn", "aux", "nul", "com1", "com2", "com3", "com4", "com5", "com6", "com7", "com8", "com9",
     "lpt1", "lpt2", "lpt3", "lpt4", "lpt5", "lpt6", "lpt7", "lpt8", "lpt9"]

  lemma DevicesAreListed(name: string)
    ensures IsDevice(name) <==> name in DEVICE_NAMES
  {
    if IsDevice(name) && |name| == 4 {
      var n := name[3] as int - '1' as int;
      assert name == name[..3] + [name[3]];
      assert name == DEVICE_NAMES[if name[..3] == "com" then 4 + n else 13 + n];
    }
  }

  /** A character every filesystem takes, away from the list of those that one does not. */
  predicate Permitted(c: char) {
    c !in "<>:\"/\\|?*" && 0x20 <= c as int && !(0x7F <= c as int < 0xA0)
  }

  lemma PermittedIsClean(c: char)
    ensures Permitted(c) <==> !IsIllegal(c) && !IsControl(c)
  {}

  lemma CleanIsPermitted(s: string)
    ensures AllClean(s) <==> forall i :: 0 <= i < |s| ==> Permitted(s[i])
  {
    forall i | 0 <= i < |s| ensures Permitted(s[i]) <==> !IsIllegal(s[i]) && !IsControl(s[i]) {
      PermittedIsClean(s[i]);
    }
  }

  /** What safety comes to, character by character and name by name. */
  lemma SafeMeans(host: Host, s: string)
    ensures Safe(host, s) <==>
      && s != "" && s != "." && s != ".." && !IsSpace(s[0]) && !IsSpace(s[|s| - 1]) && s[|s| - 1] != '.'
      && (forall i :: 0 <= i < |s| ==> Permitted(s[i]))
      && Lower(Stem(s)) !in DEVICE_NAMES && Lower(s) !in [".dvr", "incoming"] && host.local(s)
  {
    DevicesAreListed(Lower(Stem(s)));
    CleanIsPermitted(s);
  }

  lemma SanitizedIsClean(s: string)
    ensures AllClean(SanitizeValue(s))
  {}

  lemma CleanIsUnchanged(s: string)
    requires AllClean(s)
    ensures SanitizeValue(s) == s
  {
    var r := SanitizeValue(s);
    assert forall i :: 0 <= i < |s| ==> r[i] == s[i];
  }

  lemma UnderscoreIsNoName(s: string)
    ensures !IsDevice(Lower(Stem("_" + s))) && !IsLibraryName(Lower("_" + s))
  {
    var t := "_" + s;
    assert t[0] == '_';
    assert Stem(t) != [] && Stem(t)[0] == '_';
    assert Lower(Stem(t))[0] == '_' && Lower(t)[0] == '_';
    var d := Lower(Stem(t));
    assert |d| == 4 ==> d[..3][0] == '_';
  }

  lemma TrimmedSegment(s: string)
    ensures var clean := TrimComponent(SanitizeValue(s));
      AllClean(clean) && (clean == "" || (!IsSpace(clean[0]) && !Cuts(Trailing, clean[|clean| - 1])))
  {
    SanitizedIsClean(s);
    var from, to := TrimComponentIsTrim(SanitizeValue(s));
  }

  lemma PrefixedIsSafe(host: Host, clean: string)
    requires host.Sane() && AllClean(clean) && clean != ""
    requires !IsSpace(clean[|clean| - 1]) && clean[|clean| - 1] != '.'
    ensures Safe(host, "_" + clean)
  {
    var prefixed := "_" + clean;
    UnderscoreIsNoName(clean);
    assert prefixed[0] == '_' && forall i :: 1 <= i < |prefixed| ==> prefixed[i] == clean[i - 1];
    assert !IsSpace('_') && !IsIllegal('_') && !IsControl('_');
  }

  /** Every component SanitizeSegment returns is safe. */
  lemma SegmentsAreSafe(host: Host, segment: string)
    requires host.Sane()
    ensures SanitizeSegment(host, segment).Some? ==> Safe(host, SanitizeSegment(host, segment).value)
  {
    TrimmedSegment(segment);
    var clean := TrimComponent(SanitizeValue(segment));
    if clean != "" {
      PrefixedIsSafe(host, clean);
    }
  }

  /** SanitizeSegment leaves a safe component exactly as it is. */
  lemma SafeIsUnchanged(host: Host, s: string)
    requires Safe(host, s)
    ensures SanitizeSegment(host, s) == Some(s)
  {
    CleanIsUnchanged(s);
    TrimmedAt(s, 0, |s|);
    assert s[0..|s|] == s;
  }

  /** Each character stays as it is, unless it must be replaced. */
  lemma ReplacedMeans(s: string)
    ensures forall i :: 0 <= i < |s| ==> SanitizeValue(s)[i] == if Permitted(s[i]) then s[i] else '_'
  {
    forall i | 0 <= i < |s| ensures SanitizeValue(s)[i] == if Permitted(s[i]) then s[i] else '_' {
      PermittedIsClean(s[i]);
    }
  }

  function MadeSafe(host: Host, s: string): string { if Safe(host, s) then s else "_" + s }

  /** What a component becomes: once replaced, less the spaces at its start and the dots and spaces at its
      end; nothing, where that is all there is; and behind an underscore exactly where it would not be
      safe without. */
  lemma SanitizeMeans(host: Host, s: string)
    returns (from: nat, to: nat)
    ensures var value := SanitizeValue(s);
      && from <= to <= |value|
      && (forall i :: 0 <= i < from ==> IsSpace(value[i]))
      && (forall i :: to <= i < |value| ==> IsSpace(value[i]) || value[i] == '.')
      && (from < to ==> !IsSpace(value[from]) && !IsSpace(value[to - 1]) && value[to - 1] != '.')
      && SanitizeSegment(host, s) == if from == to then None else Some(MadeSafe(host, value[from..to]))
  {
    from, to := TrimComponentIsTrim(SanitizeValue(s));
    TrimmedSegment(s);
  }

  /** SanitizeSegment is idempotent. */
  lemma SanitizeIsIdempotent(host: Host, segment: string)
    requires host.Sane() && SanitizeSegment(host, segment).Some?
    ensures SanitizeSegment(host, SanitizeSegment(host, segment).value) == SanitizeSegment(host, segment)
  {
    SegmentsAreSafe(host, segment);
    SafeIsUnchanged(host, SanitizeSegment(host, segment).value);
  }

  /** Exactly the safe components are left alone. */
  lemma FixedExactlyWhenSafe(host: Host, s: string)
    requires host.Sane()
    ensures SanitizeSegment(host, s) == Some(s) <==> Safe(host, s)
  {
    SegmentsAreSafe(host, s);
    if Safe(host, s) { SafeIsUnchanged(host, s); }
  }

  /** Sanitizing costs at most the one byte of a prefix. */
  lemma SanitizeCostsAtMostOneByte(host: Host, s: string)
    requires SanitizeSegment(host, s).Some?
    ensures Utf8(SanitizeSegment(host, s).value) <= 1 + Utf8(s)
  {
    var v := SanitizeValue(s);
    ReplacingShrinks(s);
    var from, to := TrimComponentIsTrim(v);
    Utf8Slice(v, from, to);
    Utf8Concat("_", v[from..to]);
    assert Utf8("_") == 1;
  }

  lemma Utf8Slice(s: string, from: nat, to: nat)
    requires from <= to <= |s|
    ensures Utf8(s[from..to]) <= Utf8(s)
  {
    assert s == s[..from] + s[from..] && s[from..] == s[from..to] + s[to..];
    Utf8Concat(s[..from], s[from..]);
    Utf8Concat(s[from..to], s[to..]);
  }

  lemma {:induction false} ReplacingShrinks(s: string)
    ensures Utf8(SanitizeValue(s)) <= Utf8(s)
  {
    if s != [] {
      assert SanitizeValue(s)[1..] == SanitizeValue(s[1..]);
      ReplacingShrinks(s[1..]);
    }
  }
}
