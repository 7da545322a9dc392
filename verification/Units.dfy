/** Byte counts as an operator writes them, printed and parsed without loss. */
module Units {
  import opened Basics
  import opened Text
  import opened Numerals

  datatype SizeUnit = SizeUnit(suffix: string, scale: nat)

  const KILOBYTE := 1000
  const MEGABYTE := 1000 * KILOBYTE
  const GIGABYTE := 1000 * MEGABYTE
  const TERABYTE := 1000 * GIGABYTE
  const KIBIBYTE := 1024
  const MEBIBYTE := 1024 * KIBIBYTE
  const GIBIBYTE := 1024 * MEBIBYTE
  const TEBIBYTE := 1024 * GIBIBYTE

  /** Every suffix that is read, in the order they are tried. */
  const SIZE_UNITS: seq<SizeUnit> :=
    [SizeUnit("TIB", TEBIBYTE), SizeUnit("GIB", GIBIBYTE), SizeUnit("MIB", MEBIBYTE), SizeUnit("KIB", KIBIBYTE),
     SizeUnit("TB", TERABYTE), SizeUnit("GB", GIGABYTE), SizeUnit("MB", MEGABYTE), SizeUnit("KB", KILOBYTE),
     SizeUnit("T", TERABYTE), SizeUnit("G", GIGABYTE), SizeUnit("M", MEGABYTE), SizeUnit("K", KILOBYTE),
     SizeUnit("B", 1)]

  datatype Pair = Pair(decimal: SizeUnit, binary: SizeUnit)

  /** The units that are written, largest first. */
  const UNIT_PAIRS: seq<Pair> :=
    [Pair(SizeUnit("TB", TERABYTE), SizeUnit("TiB", TEBIBYTE)),
     Pair(SizeUnit("GB", GIGABYTE), SizeUnit("GiB", GIBIBYTE)),
     Pair(SizeUnit("MB", MEGABYTE), SizeUnit("MiB", MEBIBYTE)),
     Pair(SizeUnit("KB", KILOBYTE), SizeUnit("KiB", KIBIBYTE))]

  // ----- parsing -----

  datatype SizeError = Empty | NoNumber | Negative | Overflows | NotWhole

  /** strings.ToUpper, as far as the suffixes can tell: the dotless i is upper-cased to I as well. */
  function UpperChar(c: char): char {
    if 'a' <= c <= 'z' then (c as int - 32) as char else if c as int == 0x131 then 'I' else c
  }

  function Upper(s: string): (r: string)
    ensures |r| == |s| && forall i :: 0 <= i < |s| ==> r[i] == UpperChar(s[i])
  {
    seq(|s|, i requires 0 <= i < |s| => UpperChar(s[i]))
  }

  function WithoutSpaces(s: string): string {
    if s == "" then "" else (if s[0] == ' ' then "" else [s[0]]) + WithoutSpaces(s[1..])
  }

  /** strconv.ParseInt in base ten: a sign, digits, and nothing past 64 bits. */
  function ParseInt(s: string): Option<int> {
    var negative, digits := s != "" && s[0] == '-', if s != "" && (s[0] == '-' || s[0] == '+') then s[1..] else s;
    if digits == "" || !AllDigits(digits) then None
    else
      var n: int := (if negative then -1 else 1) * ValueOf(digits);
      if -MAX_INT64 - 1 <= n <= MAX_INT64 then Some(n) else None
  }

  /** scaleValue, on whole numbers; anything else is left to the floating-point reading. */
  function ScaleValue(number: string, scale: nat, floating: string -> Result<int, SizeError>): Result<int, SizeError>
    requires scale > 0
  {
    match ParseInt(number)
    case None => floating(number)
    case Some(whole) =>
      if whole < 0 then Err(Negative)
      else if whole > MAX_INT64 / scale then Err(Overflows)
      else Ok(whole * scale)
  }

  /** The first unit of a table whose suffix the text ends in. */
  function FindUnit(units: seq<SizeUnit>, s: string): (u: Option<SizeUnit>)
    ensures u.Some? ==> u.value in units && HasSuffix(s, u.value.suffix)
  {
    if units == [] then None
    else if HasSuffix(s, units[0].suffix) then Some(units[0])
    else FindUnit(units[1..], s)
  }

  ghost predicate Positive(units: seq<SizeUnit>) {
    forall i :: 0 <= i < |units| ==> units[i].scale > 0
  }

  lemma ScalesArePositive()
    ensures Positive(SIZE_UNITS)
  {}

  /** What is left of the text once its unit is known. */
  function ParseIn(upper: string, unit: Option<SizeUnit>,
                  floating: (string, nat) -> Result<int, SizeError>): Result<int, SizeError>
    requires unit.Some? ==> unit.value.scale > 0 && HasSuffix(upper, unit.value.suffix)
  {
    match unit
    case None => ScaleValue(upper, 1, n => floating(n, 1))
    case Some(u) =>
      var number := upper[..|upper| - |u.suffix|];
      if number == "" then Err(NoNumber) else ScaleValue(number, u.scale, n => floating(n, u.scale))
  }

  function ParseWith(units: seq<SizeUnit>, text: string,
                    floating: (string, nat) -> Result<int, SizeError>): Result<int, SizeError>
    requires Positive(units)
  {
    var trimmed := TrimSpace(text);
    if trimmed == "" then Err(Empty)
    else
      var upper := Upper(WithoutSpaces(trimmed));
      ParseIn(upper, FindUnit(units, upper), floating)
  }

  function ParseSize(text: string, floating: (string, nat) -> Result<int, SizeError>): Result<int, SizeError> {
    ScalesArePositive();
    ParseWith(SIZE_UNITS, text, floating)
  }

  /** ParseSize's loop over the suffixes. */
  method FindSuffix(units: seq<SizeUnit>, s: string) returns (unit: Option<SizeUnit>)
    ensures unit == FindUnit(units, s)
  {
    assert units[0..] == units;
    for i := 0 to |units|
      invariant FindUnit(units, s) == FindUnit(units[i..], s)
    {
      assert units[i..][1..] == units[i + 1..];
      if HasSuffix(s, units[i].suffix) {
        return Some(units[i]);
      }
    }
    return None;
  }

  // ----- printing -----

  function ExactFrom(pairs: seq<Pair>, s: nat): string
    requires forall i :: 0 <= i < |pairs| ==> pairs[i].decimal.scale > 0 && pairs[i].binary.scale > 0
  {
    if pairs == [] then Decimal(s) + "B"
    else
      var d, b := pairs[0].decimal, pairs[0].binary;
      if s >= d.scale && s % d.scale == 0 then Decimal(s / d.scale) + d.suffix
      else if s >= b.scale && s % b.scale == 0 then Decimal(s / b.scale) + b.suffix
      else ExactFrom(pairs[1..], s)
  }

  /** exact. */
  function Exact(s: nat): string { if s == 0 then "0B" else ExactFrom(UNIT_PAIRS, s) }

  /** exact's loop. */
  method Print(pairs: seq<Pair>, s: nat) returns (text: string)
    requires forall i :: 0 <= i < |pairs| ==> pairs[i].decimal.scale > 0 && pairs[i].binary.scale > 0
    ensures text == ExactFrom(pairs, s)
  {
    assert pairs[0..] == pairs;
    for i := 0 to |pairs|
      invariant ExactFrom(pairs, s) == ExactFrom(pairs[i..], s)
    {
      assert pairs[i..][1..] == pairs[i + 1..];
      var d, b := pairs[i].decimal, pairs[i].binary;
      if s >= d.scale && s % d.scale == 0 {
        return Decimal(s / d.scale) + d.suffix;
      }
      if s >= b.scale && s % b.scale == 0 {
        return Decimal(s / b.scale) + b.suffix;
      }
    }
    return Decimal(s) + "B";
  }

  // ----- the round trip -----

  predicate Letters(s: string) { forall i :: 0 <= i < |s| ==> 'A' <= s[i] <= 'Z' || 'a' <= s[i] <= 'z' }

  lemma DigitsPrecedeSuffix(digits: string, u: string, suffix: string)
    requires AllDigits(digits) && digits != "" && Letters(suffix)
    ensures HasSuffix(digits + u, suffix) <==> HasSuffix(u, suffix)
  {
    var w := digits + u;
    if |suffix| <= |u| {
      assert w[|w| - |suffix|..] == u[|u| - |suffix|..];
    } else if |suffix| <= |w| {
      var i := |suffix| - |u| - 1;
      assert w[|w| - |suffix|..][i] == digits[|digits| - 1];
      assert IsDigit(digits[|digits| - 1]);
      assert 'A' <= suffix[i] <= 'Z' || 'a' <= suffix[i] <= 'z';
    }
  }

  lemma SignedPrecedesSuffix(sign: string, digits: string, u: string, suffix: string)
    requires (sign == "" || sign == "-") && AllDigits(digits) && digits != "" && Letters(suffix)
    ensures HasSuffix(sign + digits + u, suffix) <==> HasSuffix(u, suffix)
  {
    var w, t := sign + digits + u, digits + u;
    if |suffix| <= |t| {
      assert w[|w| - |suffix|..] == t[|t| - |suffix|..];
    } else if |suffix| <= |w| {
      assert w[|w| - |suffix|..][0] == '-';
    }
    DigitsPrecedeSuffix(digits, u, suffix);
  }

  lemma {:induction false} SignedPrecedesUnit(units: seq<SizeUnit>, sign: string, digits: string, u: string)
    requires sign == "" || sign == "-"
    requires AllDigits(digits) && digits != "" && forall i :: 0 <= i < |units| ==> Letters(units[i].suffix)
    ensures FindUnit(units, sign + digits + u) == FindUnit(units, u)
    decreases |units|
  {
    if units != [] {
      SignedPrecedesSuffix(sign, digits, u, units[0].suffix);
      SignedPrecedesUnit(units[1..], sign, digits, u);
    }
  }

  lemma {:induction false} NoSpacesToDrop(s: string)
    requires ' ' !in s
    ensures WithoutSpaces(s) == s
    decreases |s|
  {
    if s != "" {
      assert s[0] in s && forall c :: c in s[1..] ==> c in s;
      NoSpacesToDrop(s[1..]);
      assert s == [s[0]] + s[1..];
    }
  }

  lemma AlnumIsNoSpace(c: char)
    requires IsAlnum(c)
    ensures !IsSpace(c) && c != ' '
  {}

  /** A signed number and its suffix hold no space. */
  lemma SpacesNowhere(sign: string, digits: string, u: string)
    requires (sign == "" || sign == "-") && digits != "" && AllDigits(digits) && Letters(u)
    ensures TrimSpace(sign + digits + u) == sign + digits + u
    ensures WithoutSpaces(sign + digits + u) == sign + digits + u
  {
    var text := sign + digits + u;
    forall i | 0 <= i < |text| ensures !IsSpace(text[i]) && text[i] != ' ' {
      if |sign| <= i {
        AlnumIsNoSpace(text[i]);
      }
    }
    Untrimmed(text);
    NoSpacesToDrop(text);
  }

  lemma UpperJoins(sign: string, digits: string, u: string)
    requires (sign == "" || sign == "-") && AllDigits(digits)
    ensures Upper(sign + digits + u) == sign + digits + Upper(u)
  {}

  lemma Quotient(n: nat, scale: nat)
    requires scale > 0
    ensures n <= MAX_INT64 / scale <==> n * scale <= MAX_INT64
  {
    var q, r := MAX_INT64 / scale, MAX_INT64 % scale;
    assert MAX_INT64 == scale * q + r && 0 <= r < scale;
    if n <= q {
      assert scale * n <= scale * q;
    } else {
      assert scale * n >= scale * (q + 1) == scale * q + scale;
    }
  }

  lemma AtLeast(n: nat, scale: nat)
    requires scale > 0
    ensures n <= n * scale
  {}

  /** The overflow test is exact: a whole number of units is refused exactly where their product does
      not fit, so that none wraps and none that fits is turned away. */
  lemma WholeNumbersScale(n: nat, scale: nat, floating: string -> Result<int, SizeError>)
    requires scale > 0 && n <= MAX_INT64
    ensures ScaleValue(Decimal(n), scale, floating) == if n * scale <= MAX_INT64 then Ok(n * scale) else Err(Overflows)
  {
    DecimalReads(n);
    var digits := Decimal(n);
    assert IsDigit(digits[0]);
    assert ParseInt(digits) == Some(n);
    Quotient(n, scale);
  }

  lemma SuffixComesOff(number: string, u: string)
    ensures (number + u)[..|number + u| - |u|] == number
  {}

  /** What is read of a number, signed or not, and the suffix of a unit: that number, in that unit. */
  lemma NumberIsScaled(units: seq<SizeUnit>, sign: string, digits: string, u: string, unit: Option<SizeUnit>,
                       floating: (string, nat) -> Result<int, SizeError>)
    requires Positive(units) && forall i :: 0 <= i < |units| ==> Letters(units[i].suffix)
    requires (sign == "" || sign == "-") && digits != "" && AllDigits(digits) && Letters(u)
    requires FindUnit(units, Upper(u)) == unit && |u| == (if unit.Some? then |unit.value.suffix| else 0)
    ensures var scale := if unit.Some? then unit.value.scale else 1;
            ParseWith(units, sign + digits + u, floating) ==
            ScaleValue(sign + digits, scale, n => floating(n, scale))
  {
    var upper := sign + digits + Upper(u);
    SpacesNowhere(sign, digits, u);
    UpperJoins(sign, digits, u);
    SignedPrecedesUnit(units, sign, digits, Upper(u));
    SuffixComesOff(sign + digits, Upper(u));
    assert ParseWith(units, sign + digits + u, floating) == ParseIn(upper, unit, floating);
  }

  /** A whole number of some unit parses to exactly that many, or is refused as too many. */
  lemma NumberOfUnitsParses(units: seq<SizeUnit>, n: nat, u: string, unit: Option<SizeUnit>, scale: nat,
                            floating: (string, nat) -> Result<int, SizeError>)
    requires Positive(units) && forall i :: 0 <= i < |units| ==> Letters(units[i].suffix)
    requires Letters(u) && FindUnit(units, Upper(u)) == unit
    requires |u| == (if unit.Some? then |unit.value.suffix| else 0) && n <= MAX_INT64
    requires 0 < scale == if unit.Some? then unit.value.scale else 1
    ensures ParseWith(units, Decimal(n) + u, floating) ==
            if n * scale <= MAX_INT64 then Ok(n * scale) else Err(Overflows)
  {
    DecimalReads(n);
    assert "" + Decimal(n) == Decimal(n);
    NumberIsScaled(units, "", Decimal(n), u, unit, floating);
    WholeNumbersScale(n, scale, m => floating(m, scale));
  }

  lemma {:induction false} FoundAt(units: seq<SizeUnit>, s: string, k: nat)
    requires k < |units| && HasSuffix(s, units[k].suffix)
    requires forall i :: 0 <= i < k ==> !HasSuffix(s, units[i].suffix)
    ensures FindUnit(units, s) == Some(units[k])
    decreases |units|
  {
    if k > 0 {
      FoundAt(units[1..], s, k - 1);
    }
  }

  /** Two suffixes that part at their last letter, or at the one before it. */
  lemma Parts(s: string, suffix: string)
    requires s != "" && suffix != ""
    requires s[|s| - 1] != suffix[|suffix| - 1]
          || (|s| >= 2 && |suffix| >= 2 && s[|s| - 2] != suffix[|suffix| - 2])
          || (|s| >= 3 && |suffix| >= 3 && s[|s| - 3] != suffix[|suffix| - 3])
          || |s| < |suffix|
    ensures !HasSuffix(s, suffix)
  {
    if |suffix| <= |s| {
      var t := s[|s| - |suffix|..];
      assert t[|t| - 1] == s[|s| - 1];
      assert |t| >= 2 ==> t[|t| - 2] == s[|s| - 2];
      assert |t| >= 3 ==> t[|t| - 3] == s[|s| - 3];
    }
  }

  lemma TableLetters()
    ensures forall i :: 0 <= i < |SIZE_UNITS| ==> Letters(SIZE_UNITS[i].suffix)
  {}

  /** No suffix of the table tried before a written one is taken for it. */
  lemma WrittenSuffixIsRead(k: nat)
    requires k < |SIZE_UNITS|
    ensures FindUnit(SIZE_UNITS, SIZE_UNITS[k].suffix) == Some(SIZE_UNITS[k])
  {
    var s := SIZE_UNITS[k].suffix;
    forall i | 0 <= i < k ensures !HasSuffix(s, SIZE_UNITS[i].suffix) {
      Parts(s, SIZE_UNITS[i].suffix);
    }
    FoundAt(SIZE_UNITS, s, k);
  }

  /** The unit a written suffix names, in the table that reads it. */
  predicate Reads(u: SizeUnit) {
    && Letters(u.suffix) && u.suffix != "" && u.scale > 0
    && exists k :: 0 <= k < |SIZE_UNITS| && SIZE_UNITS[k] == SizeUnit(Upper(u.suffix), u.scale)
  }

  lemma ReadsAt(u: SizeUnit, k: nat)
    requires Letters(u.suffix) && u.suffix != "" && u.scale > 0 && k < |SIZE_UNITS|
    requires SIZE_UNITS[k].scale == u.scale && SIZE_UNITS[k].suffix == Upper(u.suffix)
    ensures Reads(u)
  {
    assert SIZE_UNITS[k] == SizeUnit(Upper(u.suffix), u.scale);
  }

  lemma PairReads(i: nat)
    requires i < 4
    ensures |UNIT_PAIRS| == 4 && Reads(UNIT_PAIRS[i].decimal) && Reads(UNIT_PAIRS[i].binary)
  {
    assert SIZE_UNITS[4 + i].suffix == Upper(UNIT_PAIRS[i].decimal.suffix);
    ReadsAt(UNIT_PAIRS[i].decimal, 4 + i);
    assert SIZE_UNITS[i].suffix == Upper(UNIT_PAIRS[i].binary.suffix);
    ReadsAt(UNIT_PAIRS[i].binary, i);
  }

  /** Every unit that is written is in the table that reads. */
  lemma WrittenUnitsRead()
    ensures forall i :: 0 <= i < |UNIT_PAIRS| ==> Reads(UNIT_PAIRS[i].decimal) && Reads(UNIT_PAIRS[i].binary)
    ensures Reads(SizeUnit("B", 1))
  {
    PairReads(0);
    forall i | 0 <= i < |UNIT_PAIRS| ensures Reads(UNIT_PAIRS[i].decimal) && Reads(UNIT_PAIRS[i].binary) {
      PairReads(i);
    }
    ReadsAt(SizeUnit("B", 1), 12);
  }

  lemma WrittenParses(n: nat, u: SizeUnit, floating: (string, nat) -> Result<int, SizeError>)
    requires Reads(u) && n * u.scale <= MAX_INT64
    ensures ParseSize(Decimal(n) + u.suffix, floating) == Ok(n * u.scale)
  {
    var k :| 0 <= k < |SIZE_UNITS| && SIZE_UNITS[k] == SizeUnit(Upper(u.suffix), u.scale);
    WrittenSuffixIsRead(k);
    ScalesArePositive();
    TableLetters();
    AtLeast(n, u.scale);
    NumberOfUnitsParses(SIZE_UNITS, n, u.suffix, Some(SIZE_UNITS[k]), u.scale, floating);
  }

  lemma MultipleParses(s: nat, u: SizeUnit, floating: (string, nat) -> Result<int, SizeError>)
    requires Reads(u) && s % u.scale == 0 && s <= MAX_INT64
    ensures ParseSize(Decimal(s / u.scale) + u.suffix, floating) == Ok(s)
  {
    assert s == s / u.scale * u.scale;
    WrittenParses(s / u.scale, u, floating);
  }

  lemma {:induction false} ExactParses(pairs: seq<Pair>, s: nat, floating: (string, nat) -> Result<int, SizeError>)
    requires s <= MAX_INT64 && Reads(SizeUnit("B", 1))
    requires forall i :: 0 <= i < |pairs| ==> Reads(pairs[i].decimal) && Reads(pairs[i].binary)
    requires forall i :: 0 <= i < |pairs| ==> pairs[i].decimal.scale > 0 && pairs[i].binary.scale > 0
    ensures ParseSize(ExactFrom(pairs, s), floating) == Ok(s)
    decreases |pairs|
  {
    if pairs == [] {
      WrittenParses(s, SizeUnit("B", 1), floating);
    } else {
      var d, b := pairs[0].decimal, pairs[0].binary;
      if s >= d.scale && s % d.scale == 0 {
        MultipleParses(s, d, floating);
      } else if s >= b.scale && s % b.scale == 0 {
        MultipleParses(s, b, floating);
      } else {
        ExactParses(pairs[1..], s, floating);
      }
    }
  }

  /** Saving a size loses nothing: every size there is parses back from what it is saved as. */
  lemma SavingASizeLosesNothing(s: nat, floating: (string, nat) -> Result<int, SizeError>)
    requires s <= MAX_INT64
    ensures ParseSize(Exact(s), floating) == Ok(s)
  {
    WrittenUnitsRead();
    if s == 0 {
      WrittenParses(0, SizeUnit("B", 1), floating);
      assert Decimal(0) + "B" == "0B";
    } else {
      ExactParses(UNIT_PAIRS, s, floating);
    }
  }

  // ----- what each suffix is worth -----

  /** The bytes an operator means by each suffix, on its own terms. */
  const WORTH: seq<(string, nat)> :=
    [("", 1), ("B", 1),
     ("K", 1000), ("KB", 1000), ("KIB", 1024),
     ("M", 1_000_000), ("MB", 1_000_000), ("MIB", 1_048_576),
     ("G", 1_000_000_000), ("GB", 1_000_000_000), ("GIB", 1_073_741_824),
     ("T", 1_000_000_000_000), ("TB", 1_000_000_000_000), ("TIB", 1_099_511_627_776)]

  /** The same letters, the first text's in either case. */
  predicate InAnyCase(s: string, upper: string) {
    |s| == |upper| && forall i :: 0 <= i < |s| ==> s[i] == upper[i] || s[i] as int == upper[i] as int + 32
  }

  lemma SuffixUppers(s: string, j: nat)
    requires j < |WORTH| && InAnyCase(s, WORTH[j].0)
    ensures Upper(s) == WORTH[j].0 && Letters(s)
  {}

  /** Where a suffix stands in the table that reads it. */
  function TableIndex(j: nat): nat {
    [0, 12, 11, 7, 3, 10, 6, 2, 9, 5, 1, 8, 4, 0][if j < 14 then j else 0]
  }

  lemma WorthIsTheScale(j: nat)
    requires 1 <= j < |WORTH|
    ensures TableIndex(j) < |SIZE_UNITS| && SIZE_UNITS[TableIndex(j)] == SizeUnit(WORTH[j].0, WORTH[j].1)
  {}

  lemma {:induction false} NoUnitIsEmpty(units: seq<SizeUnit>)
    requires forall i :: 0 <= i < |units| ==> units[i].suffix != ""
    ensures FindUnit(units, "") == None
    decreases |units|
  {
    if units != [] {
      NoUnitIsEmpty(units[1..]);
    }
  }

  /** The unit a suffix in any case is found to name. */
  lemma SuffixIsFound(s: string, j: nat)
    requires j < |WORTH| && InAnyCase(s, WORTH[j].0)
    ensures var unit := FindUnit(SIZE_UNITS, Upper(s));
            && Positive(SIZE_UNITS) && (forall i :: 0 <= i < |SIZE_UNITS| ==> Letters(SIZE_UNITS[i].suffix))
            && Letters(s) && |s| == (if unit.Some? then |unit.value.suffix| else 0)
            && 0 < WORTH[j].1 == if unit.Some? then unit.value.scale else 1
  {
    SuffixUppers(s, j);
    ScalesArePositive();
    TableLetters();
    if j == 0 {
      NoUnitIsEmpty(SIZE_UNITS);
    } else {
      WorthIsTheScale(j);
      WrittenSuffixIsRead(TableIndex(j));
    }
  }

  /** Every suffix, in any case, is worth what the operator means by it. A whole number of it is read
      as exactly that many bytes, and is refused exactly where they are more than an int64 holds. */
  lemma SuffixesAreWorth(n: nat, s: string, j: nat, floating: (string, nat) -> Result<int, SizeError>)
    requires n <= MAX_INT64 && j < |WORTH| && InAnyCase(s, WORTH[j].0)
    ensures ParseSize(Decimal(n) + s, floating) ==
            if n * WORTH[j].1 <= MAX_INT64 then Ok(n * WORTH[j].1) else Err(Overflows)
  {
    SuffixIsFound(s, j);
    NumberOfUnitsParses(SIZE_UNITS, n, s, FindUnit(SIZE_UNITS, Upper(s)), WORTH[j].1, floating);
  }

  /** No negative size is read, whatever its suffix. */
  lemma NegativesAreRefused(n: nat, s: string, j: nat, floating: (string, nat) -> Result<int, SizeError>)
    requires 0 < n <= MAX_INT64 + 1 && j < |WORTH| && InAnyCase(s, WORTH[j].0)
    ensures ParseSize("-" + Decimal(n) + s, floating) == Err(Negative)
  {
    DecimalReads(n);
    SuffixIsFound(s, j);
    NumberIsScaled(SIZE_UNITS, "-", Decimal(n), s, FindUnit(SIZE_UNITS, Upper(s)), floating);
    assert ("-" + Decimal(n))[1..] == Decimal(n);
  }

  /** The units a size is written in, and how many bytes each is, in the order they are tried. */
  const WRITTEN: seq<SizeUnit> :=
    [SizeUnit("TB", 1_000_000_000_000), SizeUnit("TiB", 1_099_511_627_776), SizeUnit("GB", 1_000_000_000),
     SizeUnit("GiB", 1_073_741_824), SizeUnit("MB", 1_000_000), SizeUnit("MiB", 1_048_576),
     SizeUnit("KB", 1000), SizeUnit("KiB", 1024), SizeUnit("B", 1)]

  function InTurn(pairs: seq<Pair>): seq<SizeUnit> {
    if pairs == [] then [SizeUnit("B", 1)] else [pairs[0].decimal, pairs[0].binary] + InTurn(pairs[1..])
  }

  lemma WrittenInTurn()
    ensures InTurn(UNIT_PAIRS) == WRITTEN
  {
    var p := UNIT_PAIRS;
    assert p[1..][1..] == p[2..] && p[2..][1..] == p[3..] && p[3..][1..] == [];
    assert InTurn(p[3..]) == [p[3].decimal, p[3].binary, SizeUnit("B", 1)];
    assert InTurn(p[2..]) == [p[2].decimal, p[2].binary] + InTurn(p[3..]);
    assert InTurn(p[1..]) == [p[1].decimal, p[1].binary] + InTurn(p[2..]);
    assert InTurn(p) == [p[0].decimal, p[0].binary] + InTurn(p[1..]);
  }

  /** The first of some units that divides a size, and is what it is written in. */
  predicate WrittenIn(units: seq<SizeUnit>, s: nat, text: string, j: int) {
    && 0 <= j < |units| && units[j].scale > 0 && s % units[j].scale == 0
    && text == Decimal(s / units[j].scale) + units[j].suffix
    && forall i :: 0 <= i < j ==> units[i].scale > 0 && s % units[i].scale != 0
  }

  lemma AfterTwo(d: SizeUnit, b: SizeUnit, more: seq<SizeUnit>, s: nat, text: string, j: nat)
    requires d.scale > 0 && b.scale > 0 && s % d.scale != 0 && s % b.scale != 0 && WrittenIn(more, s, text, j)
    ensures WrittenIn([d, b] + more, s, text, j + 2)
  {
    var all := [d, b] + more;
    assert all[j + 2] == more[j];
    forall i | 0 <= i < j + 2 ensures all[i].scale > 0 && s % all[i].scale != 0 {
      if i >= 2 { assert all[i] == more[i - 2]; }
    }
  }

  lemma NoLess(s: nat, scale: nat)
    requires s > 0 && scale > 0 && s % scale == 0
    ensures s >= scale
  {}

  lemma {:induction false} FirstDivides(pairs: seq<Pair>, s: nat)
    returns (j: nat)
    requires s > 0 && forall i :: 0 <= i < |pairs| ==> pairs[i].decimal.scale > 0 && pairs[i].binary.scale > 0
    ensures WrittenIn(InTurn(pairs), s, ExactFrom(pairs, s), j)
    decreases |pairs|
  {
    if pairs == [] {
      return 0;
    }
    var d, b := pairs[0].decimal, pairs[0].binary;
    if s % d.scale == 0 {
      NoLess(s, d.scale);
      return 0;
    }
    if s % b.scale == 0 {
      NoLess(s, b.scale);
      return 1;
    }
    j := FirstDivides(pairs[1..], s);
    AfterTwo(d, b, InTurn(pairs[1..]), s, ExactFrom(pairs[1..], s), j);
    j := j + 2;
  }

  /** A size is written in the first of those that divides it. */
  lemma SizesAreWrittenWhole(s: nat)
    returns (j: nat)
    requires s > 0
    ensures WrittenIn(WRITTEN, s, Exact(s), j)
  {
    WrittenInTurn();
    j := FirstDivides(UNIT_PAIRS, s);
  }
}
