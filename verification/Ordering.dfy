/** Text in byte order, and sorted duplicate-free lists of it. */
module Ordering {

  predicate Before(a: string, b: string) {
    b != [] && (a == [] || a[0] < b[0] || (a[0] == b[0] && Before(a[1..], b[1..])))
  }

  lemma {:induction a} Irreflexive(a: string)
    ensures !Before(a, a)
  {}

  lemma Trichotomy(a: string, b: string)
    ensures a == b || Before(a, b) || Before(b, a)
  {
    if a != [] && b != [] && a[0] == b[0] {
      Trichotomy(a[1..], b[1..]);
      assert a == [a[0]] + a[1..] && b == [b[0]] + b[1..];
    }
  }

  lemma Transitive(a: string, b: string, c: string)
    requires Before(a, b) && Before(b, c)
    ensures Before(a, c)
  {}

  ghost predicate Ascending(s: seq<string>) {
    forall i, j :: 0 <= i < j < |s| ==> Before(s[i], s[j])
  }

  /** Inserts into sorted text, where slices.Sort would leave it. */
  function Insert(s: seq<string>, x: string): (r: seq<string>)
    requires Ascending(s) && x !in s
    ensures Ascending(r)
    ensures forall y :: y in r <==> y in s || y == x
  {
    if s == [] then [x]
    else if Before(x, s[0]) then
      assert forall i :: 0 < i < |s| ==> Before(x, s[i]) by {
        forall i | 0 < i < |s| ensures Before(x, s[i]) { Transitive(x, s[0], s[i]); }
      }
      [x] + s
    else
      Trichotomy(x, s[0]);
      assert s == [s[0]] + s[1..];
      var rest := Insert(s[1..], x);
      assert forall y :: y in s[1..] ==> Before(s[0], y);
      assert forall i :: 0 <= i < |rest| ==> rest[i] in rest;
      [s[0]] + rest
  }

  /** A sorted duplicate-free list is determined by what it holds. */
  lemma {:induction false} AscendingIsUnique(s: seq<string>, t: seq<string>)
    requires Ascending(s) && Ascending(t)
    requires forall x :: x in s <==> x in t
    ensures s == t
  {
    assert (s != [] ==> s[0] in t) && (t != [] ==> t[0] in s);
    if s != [] {
      if s[0] != t[0] {
        var i :| 0 <= i < |t| && t[i] == s[0];
        var j :| 0 <= j < |s| && s[j] == t[0];
        Transitive(s[0], t[0], s[0]);
        Irreflexive(s[0]);
      }
      forall x | x in s[1..] ensures x in t[1..] { Irreflexive(x); assert x in s; }
      forall x | x in t[1..] ensures x in s[1..] { Irreflexive(x); assert x in t; }
      AscendingIsUnique(s[1..], t[1..]);
      assert s == [s[0]] + s[1..] && t == [t[0]] + t[1..];
    }
  }
}
