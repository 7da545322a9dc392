/** Schema migration raced by any number of processes over one SQLite database.

    A process reads user_version on a pooled connection, then decides again inside a transaction
    that reads, builds and commits. Each of those is its own step, so processes interleave
    anywhere. A transaction commits only if nothing else committed since it read the version,
    which is what SQLite's write lock gives it; it may fail or crash before any step. */
module Migrate {
  import opened Basics

  /** What a transaction applies: the initial schema stands as version 1. */
  const INIT: int := 1

  datatype Database = Database(version: int, applied: seq<int>)

  /** The versions a build knows, sorted, each at least 2 and none twice. */
  predicate Registered(migrations: seq<int>) {
    && (forall i :: 0 <= i < |migrations| ==> migrations[i] >= 2)
    && (forall i, j :: 0 <= i < j < |migrations| ==> migrations[i] < migrations[j])
  }

  function InsertSorted(migrations: seq<int>, v: int): (r: seq<int>)
    ensures multiset(r) == multiset(migrations) + multiset{v}
    ensures forall x :: x in r <==> x in migrations || x == v
  {
    if migrations == [] || v < migrations[0] then [v] + migrations
    else
      assert migrations == [migrations[0]] + migrations[1..];
      [migrations[0]] + InsertSorted(migrations[1..], v)
  }

  lemma PrependInOrder(x: int, r: seq<int>)
    requires Registered(r) && x >= 2 && forall y :: y in r ==> x < y
    ensures Registered([x] + r)
  {
    forall i | 0 <= i < |r| ensures x < r[i] { assert r[i] in r; }
  }

  lemma {:induction false} InsertedInOrder(migrations: seq<int>, v: int)
    requires Registered(migrations) && v >= 2 && v !in migrations
    ensures Registered(InsertSorted(migrations, v))
  {
    if migrations != [] && migrations[0] <= v {
      InsertedInOrder(migrations[1..], v);
      assert migrations[0] in migrations && forall x :: x in migrations[1..] ==> migrations[0] < x;
      PrependInOrder(migrations[0], InsertSorted(migrations[1..], v));
    }
  }

  /** The registry a build fills before it runs. */
  class SqlRegistry {
    const currentVersion: int
    var migrations: seq<int>

    constructor (currentVersion: int)
      ensures this.currentVersion == currentVersion && migrations == [] && Registered(migrations)
    {
      this.currentVersion := currentVersion;
      migrations := [];
    }

    /** Register: refuses the initial schema's version and a version already there, and otherwise
        appends and sorts, leaving exactly the versions there were and this one, in order. */
    method Register(version: int) returns (panicked: bool)
      requires Registered(migrations)
      modifies `migrations
      ensures Registered(migrations)
      ensures panicked <==> version < 2 || version in old(migrations)
      ensures panicked ==> migrations == old(migrations)
      ensures !panicked ==> multiset(migrations) == multiset(old(migrations)) + multiset{version}
    {
      if version < 2 {
        return true;
      }
      for i := 0 to |migrations|
        invariant version !in migrations[..i]
      {
        if migrations[i] == version {
          return true;
        }
      }
      assert migrations[..|migrations|] == migrations;
      InsertedInOrder(migrations, version);
      migrations := InsertSorted(migrations, version);
      return false;
    }
  }

  /** What a database at a version must have had applied, in order. */
  function Expected(migrations: seq<int>, version: int): seq<int> {
    if version < 1 then [] else [INIT] + UpTo(migrations, version)
  }

  function UpTo(migrations: seq<int>, version: int): seq<int> {
    if migrations == [] || migrations[0] > version then []
    else [migrations[0]] + UpTo(migrations[1..], version)
  }

  /** requireKnownVersion. */
  predicate Known(migrations: seq<int>, currentVersion: int, version: int) {
    version <= currentVersion || exists i :: 0 <= i < |migrations| && version <= migrations[i]
  }

  /** Where a process stands. `version` is its own variable, `read` what its open transaction saw,
      and `seen` how much had been applied when it read. */
  datatype Process =
    | Starting
    | PooledRead(version: int)                          // user_version read outside any transaction
    | InitTx(read: int, seen: nat)                      // runInit, past its re-read
    | BuiltInit(seen: nat)                              // Init and the pragma done, not committed
    | AfterInit(version: int)                           // requireKnownVersion to come
    | Walking(version: int, next: nat)                  // the loop over migrations
    | MigrationTx(version: int, next: nat, read: int, seen: nat)
    | Upgraded(next: nat, seen: nat)                    // Upgrade and the pragma done, not committed
    | Succeeded
    | Failed

  datatype World = World(db: Database, processes: map<nat, Process>)

  datatype Action =
    | Spawn(id: nat)
    | ReadPooled(id: nat)
    | Decide(id: nat)          // the checks before and the choice of a path
    | BeginInit(id: nat)       // begin and re-read
    | BuildInit(id: nat)
    | CommitInit(id: nat)
    | CheckAfterInit(id: nat)
    | BeginMigration(id: nat)
    | RunUpgrade(id: nat)
    | CommitMigration(id: nat)
    | Fail(id: nat)            // an error, a refused lock, a rollback, or a crash

  predicate Is(w: World, id: nat, expected: Process -> bool) {
    id in w.processes && expected(w.processes[id])
  }

  predicate Enabled(migrations: seq<int>, w: World, a: Action) {
    match a
    case Spawn(id) => id !in w.processes
    case ReadPooled(id) => Is(w, id, (p: Process) => p.Starting?)
    case Decide(id) => Is(w, id, (p: Process) => p.PooledRead? && p.version != 0)
    case BeginInit(id) => Is(w, id, (p: Process) => p.PooledRead? && p.version == 0)
    case BuildInit(id) => Is(w, id, (p: Process) => p.InitTx?)
    case CommitInit(id) => Is(w, id, (p: Process) => p.BuiltInit? && p.seen == |w.db.applied|)
    case CheckAfterInit(id) => Is(w, id, (p: Process) => p.AfterInit?)
    case BeginMigration(id) => Is(w, id, (p: Process) => p.Walking?)
    case RunUpgrade(id) => Is(w, id, (p: Process) => p.MigrationTx?)
    case CommitMigration(id) =>
      Is(w, id, (p: Process) => p.Upgraded? && p.next < |migrations| && p.seen == |w.db.applied|)
    case Fail(id) => Is(w, id, (p: Process) => !p.Succeeded? && !p.Failed?)
  }

  function With(w: World, id: nat, p: Process): World {
    w.(processes := w.processes[id := p])
  }

  function Apply(migrations: seq<int>, currentVersion: int, w: World, a: Action): World
    requires Enabled(migrations, w, a)
  {
    match a
    case Spawn(id) => With(w, id, Starting)
    case ReadPooled(id) => With(w, id, PooledRead(w.db.version))
    case Decide(id) =>
      var version := w.processes[id].version;
      With(w, id, if Known(migrations, currentVersion, version) && version >= 0 then Walking(version, 0) else Failed)
    case BeginInit(id) =>
      With(w, id, if !Known(migrations, currentVersion, 0) then Failed
                  else if w.db.version != 0 then AfterInit(w.db.version)
                  else InitTx(w.db.version, |w.db.applied|))
    case BuildInit(id) => With(w, id, BuiltInit(w.processes[id].seen))
    case CommitInit(id) => With(w, id, AfterInit(1)).(db := Database(1, w.db.applied + [INIT]))
    case CheckAfterInit(id) =>
      var version := w.processes[id].version;
      With(w, id, if Known(migrations, currentVersion, version) then Walking(version, 0) else Failed)
    case BeginMigration(id) =>
      var p := w.processes[id];
      With(w, id,
        if p.next >= |migrations| then Succeeded
        else if p.version >= migrations[p.next] then Walking(p.version, p.next + 1)
        else if w.db.version >= migrations[p.next] then Walking(w.db.version, p.next + 1)
        else MigrationTx(p.version, p.next, w.db.version, |w.db.applied|))
    case RunUpgrade(id) => With(w, id, Upgraded(w.processes[id].next, w.processes[id].seen))
    case CommitMigration(id) =>
      var next := w.processes[id].next;
      With(w, id, Walking(migrations[next], next + 1)).(
        db := Database(migrations[next], w.db.applied + [migrations[next]]))
    case Fail(id) => With(w, id, Failed)
  }

  /** A run over a database that was new, or already upgraded by this schema's own history. */
  ghost predicate Run(migrations: seq<int>, currentVersion: int, worlds: seq<World>, actions: seq<Action>) {
    && Registered(migrations)
    && |worlds| == |actions| + 1
    && worlds[0].processes == map[]
    && worlds[0].db.applied == Expected(migrations, worlds[0].db.version)
    && forall i :: 0 <= i < |actions| ==>
         Enabled(migrations, worlds[i], actions[i])
         && worlds[i + 1] == Apply(migrations, currentVersion, worlds[i], actions[i])
  }

  // ----- what every step keeps -----

  /** A process has left nothing behind it undone, and its transaction's reading was true when taken. */
  predicate Sound(migrations: seq<int>, db: Database, p: Process) {
    match p
    case InitTx(read, seen) => seen <= |db.applied| && (seen == |db.applied| ==> db.version == 0)
    case BuiltInit(seen) => seen <= |db.applied| && (seen == |db.applied| ==> db.version == 0)
    case PooledRead(version) => version <= db.version
    case AfterInit(version) => 1 <= version <= db.version
    case Walking(version, next) => version <= db.version && db.version >= 1 && Behind(migrations, next, db.version)
    case MigrationTx(_, next, read, seen) =>
      && db.version >= 1 && next < |migrations| && Behind(migrations, next, db.version)
      && seen <= |db.applied| && (seen == |db.applied| ==> db.version < migrations[next])
    case Upgraded(next, seen) =>
      && db.version >= 1 && next < |migrations| && Behind(migrations, next, db.version)
      && seen <= |db.applied| && (seen == |db.applied| ==> db.version < migrations[next])
    case Succeeded => db.version >= 1 && Behind(migrations, |migrations|, db.version)
    case _ => true
  }

  /** Every migration before `next` is at or below a version. */
  predicate Behind(migrations: seq<int>, next: nat, version: int) {
    forall i :: 0 <= i < next && i < |migrations| ==> migrations[i] <= version
  }

  ghost predicate Inv(migrations: seq<int>, w: World) {
    && w.db.applied == Expected(migrations, w.db.version)
    && forall id :: id in w.processes ==> Sound(migrations, w.db, w.processes[id])
  }

  lemma {:induction false} NextInOrder(migrations: seq<int>, next: nat, version: int)
    requires Registered(migrations) && next < |migrations|
    requires Behind(migrations, next, version) && version < migrations[next]
    ensures UpTo(migrations, migrations[next]) == UpTo(migrations, version) + [migrations[next]]
  {
    if next == 0 {
      assert UpTo(migrations[1..], migrations[0]) == [] by {
        if |migrations| > 1 { assert migrations[1..][0] == migrations[1]; }
      }
    } else {
      NextInOrder(migrations[1..], next - 1, version);
    }
  }

  lemma NothingAtOne(migrations: seq<int>)
    requires Registered(migrations)
    ensures UpTo(migrations, 1) == []
  {}

  lemma DatabaseMovesOn(migrations: seq<int>, currentVersion: int, w: World, a: Action)
    requires Registered(migrations) && Inv(migrations, w) && Enabled(migrations, w, a)
    ensures var db := Apply(migrations, currentVersion, w, a).db;
      && db.applied == Expected(migrations, db.version)
      && w.db.version <= db.version && w.db.applied <= db.applied
      && (db == w.db || |w.db.applied| < |db.applied|)
  {
    match a
    case CommitInit(id) =>
      assert Sound(migrations, w.db, w.processes[id]);
      NothingAtOne(migrations);
    case CommitMigration(id) =>
      assert Sound(migrations, w.db, w.processes[id]);
      NextInOrder(migrations, w.processes[id].next, w.db.version);
    case _ =>
  }

  lemma OthersStaySound(migrations: seq<int>, db: Database, db': Database, p: Process)
    requires Sound(migrations, db, p) && db.version <= db'.version
    requires db' == db || |db.applied| < |db'.applied|
    ensures Sound(migrations, db', p)
  {}

  lemma ActorStaysSound(migrations: seq<int>, currentVersion: int, w: World, a: Action)
    requires Registered(migrations) && Inv(migrations, w) && Enabled(migrations, w, a)
    ensures var w' := Apply(migrations, currentVersion, w, a);
      a.id in w'.processes && Sound(migrations, w'.db, w'.processes[a.id])
  {
    if a.id in w.processes {
      assert Sound(migrations, w.db, w.processes[a.id]);
    }
  }

  lemma StepKeepsLog(migrations: seq<int>, currentVersion: int, w: World, a: Action)
    requires Registered(migrations) && Inv(migrations, w) && Enabled(migrations, w, a)
    ensures Inv(migrations, Apply(migrations, currentVersion, w, a))
    ensures w.db.version <= Apply(migrations, currentVersion, w, a).db.version
    ensures w.db.applied <= Apply(migrations, currentVersion, w, a).db.applied
  {
    var w' := Apply(migrations, currentVersion, w, a);
    DatabaseMovesOn(migrations, currentVersion, w, a);
    ActorStaysSound(migrations, currentVersion, w, a);
    forall id | id in w'.processes
      ensures Sound(migrations, w'.db, w'.processes[id])
    {
      if id != a.id {
        OthersStaySound(migrations, w.db, w'.db, w.processes[id]);
      }
    }
  }

  lemma {:induction false} RunsKeepTheLog(migrations: seq<int>, currentVersion: int,
                                          worlds: seq<World>, actions: seq<Action>, n: nat)
    requires Run(migrations, currentVersion, worlds, actions) && n < |worlds|
    ensures Inv(migrations, worlds[n])
  {
    if n > 0 {
      RunsKeepTheLog(migrations, currentVersion, worlds, actions, n - 1);
      StepKeepsLog(migrations, currentVersion, worlds[n - 1], actions[n - 1]);
    }
  }

  // ----- what that gives -----

  lemma {:induction false} UpToIsTheFilter(migrations: seq<int>, version: int)
    requires Registered(migrations)
    ensures Registered(UpTo(migrations, version))
    ensures forall v :: v in UpTo(migrations, version) <==> v in migrations && v <= version
  {
    if migrations != [] && migrations[0] <= version {
      UpToIsTheFilter(migrations[1..], version);
      var rest := UpTo(migrations[1..], version);
      assert migrations == [migrations[0]] + migrations[1..];
      assert forall i :: 0 <= i < |rest| ==> rest[i] in rest;
    }
  }

  /** Each applied at most once and ascending: Init first, then exactly the migrations at or below
      the version in force, whatever raced, failed or crashed. */
  lemma AppliedOnceInOrder(migrations: seq<int>, currentVersion: int,
                           worlds: seq<World>, actions: seq<Action>, n: nat)
    requires Run(migrations, currentVersion, worlds, actions) && n < |worlds|
    ensures var db := worlds[n].db;
      && (forall i, j :: 0 <= i < j < |db.applied| ==> db.applied[i] < db.applied[j])
      && (forall v :: v in db.applied <==>
            db.version >= 1 && (v == INIT || (v in migrations && v <= db.version)))
  {
    RunsKeepTheLog(migrations, currentVersion, worlds, actions, n);
    var db := worlds[n].db;
    UpToIsTheFilter(migrations, db.version);
    var rest := UpTo(migrations, db.version);
    assert forall i :: 0 <= i < |rest| ==> rest[i] in rest;
  }

  /** The schema only ever grows: what was applied is never applied again, undone or reordered. */
  lemma {:induction false} LogOnlyGrows(migrations: seq<int>, currentVersion: int,
                                        worlds: seq<World>, actions: seq<Action>, m: nat, n: nat)
    requires Run(migrations, currentVersion, worlds, actions) && m <= n < |worlds|
    ensures worlds[m].db.applied <= worlds[n].db.applied && worlds[m].db.version <= worlds[n].db.version
    decreases n - m
  {
    if m < n {
      LogOnlyGrows(migrations, currentVersion, worlds, actions, m, n - 1);
      RunsKeepTheLog(migrations, currentVersion, worlds, actions, n - 1);
      StepKeepsLog(migrations, currentVersion, worlds[n - 1], actions[n - 1]);
    }
  }

  /** A process that succeeded hands back a database with Init and every migration applied, and it
      stays so ever after. */
  lemma SuccessMeansUpToDate(migrations: seq<int>, currentVersion: int,
                             worlds: seq<World>, actions: seq<Action>, n: nat, id: nat)
    requires Run(migrations, currentVersion, worlds, actions) && n < |worlds|
    requires id in worlds[n].processes && worlds[n].processes[id].Succeeded?
    ensures INIT in worlds[n].db.applied && forall v :: v in migrations ==> v in worlds[n].db.applied
  {
    RunsKeepTheLog(migrations, currentVersion, worlds, actions, n);
    AppliedOnceInOrder(migrations, currentVersion, worlds, actions, n);
    assert Sound(migrations, worlds[n].db, worlds[n].processes[id]);
  }

  /** A negative or unknown version is never written to: every process that finds one fails. */
  lemma {:induction false} ForeignDatabasesAreLeftAlone(migrations: seq<int>, currentVersion: int,
                                                        worlds: seq<World>, actions: seq<Action>, n: nat)
    requires Run(migrations, currentVersion, worlds, actions) && n < |worlds|
    requires worlds[0].db.version < 0 || !Known(migrations, currentVersion, worlds[0].db.version)
    ensures worlds[n].db == worlds[0].db
    ensures forall id :: id in worlds[n].processes ==>
      var p := worlds[n].processes[id];
      p.Starting? || p.Failed? || p == PooledRead(worlds[0].db.version)
  {
    if n > 0 {
      ForeignDatabasesAreLeftAlone(migrations, currentVersion, worlds, actions, n - 1);
    }
  }

  // ----- one process's own code -----

  /** No transaction fails, and this build knows the version it finds, and that of the initial schema
      where there is none. */
  predicate Unhindered(migrations: seq<int>, currentVersion: int, version: int, fails: nat -> bool) {
    && 0 <= version && Known(migrations, currentVersion, version)
    && (version == 0 ==> Known(migrations, currentVersion, 1))
    && forall i :: 0 <= i <= |migrations| ==> !fails(i)
  }

  /** The database one process holds open, while others commit to it between its transactions. */
  class Connection {
    var version: int
    var applied: seq<int>

    ghost predicate InStep(migrations: seq<int>)
      reads this
    {
      Registered(migrations) && applied == Expected(migrations, version)
    }

    /** Any number of other processes' transactions land. */
    method OthersCommit(migrations: seq<int>)
      requires InStep(migrations)
      modifies this
      ensures InStep(migrations) && old(version) <= version && old(applied) <= applied
      ensures version == old(version) || version == 1 || version in migrations
    {
      var others: int := *;
      NothingAtOne(migrations);
      for i := 0 to Max(others, 0)
        invariant InStep(migrations) && old(version) <= version && old(applied) <= applied
        invariant version == old(version) || version == 1 || version in migrations
      {
        var next: int := *;
        if version == 0 {
          version, applied := 1, applied + [INIT];
        } else if version > 0 && 0 <= next < |migrations| && Behind(migrations, next, version)
                  && version < migrations[next] {
          NextInOrder(migrations, next, version);
          version, applied := migrations[next], applied + [migrations[next]];
        }
      }
    }

    ghost function Now(): Database
      reads this
    {
      Database(version, applied)
    }

    /** runInit. Its transaction finds what others have committed by then; it may fail at any point,
        and then leaves that as it found it. */
    method RunInit(migrations: seq<int>, fails: bool) returns (result: Result<int, string>, ghost found: Database)
      requires InStep(migrations) && version >= 0
      modifies this
      ensures InStep(migrations) && old(version) <= found.version && old(applied) <= found.applied
      ensures (result.Err? <==> fails) && (result.Err? ==> Now() == found)
      ensures version == old(version) || version == 1 || version in migrations
      ensures result.Ok? ==> result.value == version >= 1
      ensures result.Ok? ==> Now() == if found.version == 0 then Database(1, found.applied + [INIT]) else found
    {
      OthersCommit(migrations);
      found := Now();
      if fails {
        return Err("the transaction failed"), found;
      }
      if version != 0 {
        return Ok(version), found;
      }
      NothingAtOne(migrations);
      version, applied := 1, applied + [INIT];
      return Ok(1), found;
    }

    /** applyMigration, whose transaction likewise changes nothing where it fails. */
    method ApplyMigration(migrations: seq<int>, next: nat, fails: bool)
      returns (result: Result<int, string>, ghost found: Database)
      requires InStep(migrations) && next < |migrations| && version >= 1 && Behind(migrations, next, version)
      modifies this
      ensures InStep(migrations) && old(version) <= found.version && old(applied) <= found.applied
      ensures (result.Err? <==> fails) && (result.Err? ==> Now() == found)
      ensures version == old(version) || version == 1 || version in migrations
      ensures result.Ok? ==> migrations[next] <= result.value == version
      ensures result.Ok? ==> Now() == (if found.version < migrations[next]
                then Database(migrations[next], found.applied + [migrations[next]]) else found)
    {
      OthersCommit(migrations);
      found := Now();
      if fails {
        return Err("the transaction failed"), found;
      }
      if version >= migrations[next] {
        return Ok(version), found;
      }
      NextInOrder(migrations, next, version);
      version, applied := migrations[next], applied + [migrations[next]];
      return Ok(migrations[next]), found;
    }

    /** Run: whatever else commits and wherever it fails, what has been applied is the initial schema
        and the migrations up to the version in force, and a run that succeeds has them all. It succeeds
        where no transaction fails, unless the version it finds, or the initial schema's own, is not one
        this build knows. */
    method Run(migrations: seq<int>, currentVersion: int, fails: nat -> bool) returns (ok: bool)
      requires InStep(migrations)
      modifies this
      ensures InStep(migrations) && old(version) <= version && old(applied) <= applied
      ensures ok ==> version >= 1 && Behind(migrations, |migrations|, version)
      ensures ok ==> 0 <= old(version) && Known(migrations, currentVersion, old(version))
      ensures Unhindered(migrations, currentVersion, old(version), fails) ==> ok
    {
      var current := version;
      if !KnownTo(migrations, currentVersion, current) || current < 0 {
        return false;
      }
      OthersCommit(migrations);
      if current == 0 {
        var init, _ := RunInit(migrations, fails(0));
        if init.Err? || !KnownTo(migrations, currentVersion, init.value) {
          return false;
        }
        current := init.value;
      }
      for i := 0 to |migrations|
        invariant InStep(migrations) && old(version) <= version && old(applied) <= applied
        invariant 1 <= current <= version && Behind(migrations, i, current)
      {
        if current < migrations[i] {
          var step, _ := ApplyMigration(migrations, i, fails(i + 1));
          if step.Err? {
            return false;
          }
          current := step.value;
        }
      }
      return true;
    }
  }

  /** requireKnownVersion's own test: the highest of the two, scanned. */
  function KnownTo(migrations: seq<int>, currentVersion: int, version: int): (known: bool)
    ensures known == Known(migrations, currentVersion, version)
  {
    if migrations == [] then version <= currentVersion
    else
      assert migrations == [migrations[0]] + migrations[1..];
      KnownTo(migrations[1..], Max(currentVersion, migrations[0]), version)
  }
}
