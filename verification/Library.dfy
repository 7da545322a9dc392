/** The rows the store keeps, as the backfill reads them. */
module Library {
  import opened Basics

  datatype Held =
    | Complete | Capturing | AwaitingFinalize | AwaitingMetadata | AwaitingFile
    | Failed | Trashed | Missing | Unrecognised

  /** HoldsBytes: a file stands behind a recording in this state. */
  predicate HoldsBytes(state: Held) {
    state == Complete || state == Capturing || state == AwaitingFinalize
    || state == AwaitingMetadata || state == AwaitingFile
  }

  /** A silenced stretch, from the start of the stored copy. */
  datatype Mute = Mute(offset: Duration, length: Duration)

  datatype Broadcast = Broadcast(id: int, startedAt: Instant, endedAt: Option<Instant>, vodStartedAt: Option<Instant>,
                                 muted: seq<Mute>, url: string)

  /** Where a recording's file is: in the incoming directory under a capture's stem, which is a
      prefix and the second it starts in, or wherever the library filed it. A recording released from
      the trash has neither file nor row; Gone keeps its place, where no listing sees it. */
  datatype Path = Incoming(prefix: string, second: int, ext: string) | Shelved(name: string) | Gone

  datatype Recording = Recording(id: nat, broadcast: Option<int>, path: Path, state: Held, live: bool,
                                 startedAt: Instant, endedAt: Option<Instant>, media: Duration)

  /** The row of a recording that has not been released. */
  predicate There(rows: seq<Recording>, row: nat) { row < |rows| && !rows[row].path.Gone? }

  // ----- what a query lists -----

  /** Into a sorted list, after whatever has the same key. */
  function InsertBy<T>(s: seq<T>, x: T, key: T -> int): seq<T> {
    if s == [] || key(s[|s| - 1]) <= key(x) then s + [x] else InsertBy(s[..|s| - 1], x, key) + [s[|s| - 1]]
  }

  /** ORDER BY. */
  function SortBy<T>(s: seq<T>, key: T -> int): seq<T> {
    if s == [] then [] else InsertBy(SortBy(s[..|s| - 1], key), s[|s| - 1], key)
  }

  ghost predicate SortedBy<T>(s: seq<T>, key: T -> int) {
    forall i, j :: 0 <= i < j < |s| ==> key(s[i]) <= key(s[j])
  }

  lemma {:induction false} InsertIsPermutation<T>(s: seq<T>, x: T, key: T -> int)
    ensures multiset(InsertBy(s, x, key)) == multiset(s) + multiset{x}
    decreases |s|
  {
    if s != [] && key(s[|s| - 1]) > key(x) {
      InsertIsPermutation(s[..|s| - 1], x, key);
      assert s == s[..|s| - 1] + [s[|s| - 1]];
    }
  }

  lemma {:induction false} InsertKeepsOrder<T>(s: seq<T>, x: T, key: T -> int)
    requires SortedBy(s, key)
    ensures SortedBy(InsertBy(s, x, key), key)
    ensures forall i :: 0 <= i < |InsertBy(s, x, key)| ==>
      InsertBy(s, x, key)[i] == x || InsertBy(s, x, key)[i] in s
    decreases |s|
  {
    if s != [] && key(s[|s| - 1]) > key(x) {
      InsertKeepsOrder(s[..|s| - 1], x, key);
    }
  }

  lemma {:induction false} SortIsPermutation<T>(s: seq<T>, key: T -> int)
    ensures SortedBy(SortBy(s, key), key) && multiset(SortBy(s, key)) == multiset(s)
    decreases |s|
  {
    if s != [] {
      SortIsPermutation(s[..|s| - 1], key);
      assert s == s[..|s| - 1] + [s[|s| - 1]];
      InsertKeepsOrder(SortBy(s[..|s| - 1], key), s[|s| - 1], key);
      InsertIsPermutation(SortBy(s[..|s| - 1], key), s[|s| - 1], key);
    }
  }
}
