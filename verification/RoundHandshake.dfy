/** The handshake between one recovery round and any number of captures.

    The loop looks for captures, makes a round context, installs its cancel, looks again, and only
    then runs the round. A watcher registers its recording, reads whichever cancel is installed,
    calls it, and only then captures. sessionsMu and roundMu are never held together, so each
    Action is one critical section or one call, and any interleaving of them is a run. */
module RoundHandshake {
  import opened Basics

  type WatcherId = nat
  type RoundId = nat
  type Ticket = nat   // the order in which captures registered

  /** Where one watcher stands inside capture. */
  datatype Watcher =
    | Registered(ticket: Ticket)                          // recorded in the capturing set
    | Fetched(ticket: Ticket, cancel: Option<RoundId>)    // has read roundCancel, not yet called it
    | Noted(ticket: Ticket)                               // noteCapturing has returned
    | Capturing(ticket: Ticket)                           // the engine is running
    | Stopped(ticket: Ticket)                             // the engine returned, not yet forgotten

  /** Where the recovery goroutine stands. */
  datatype Loop =
    | Waiting
    | Clear                                        // the hold check saw no capture
    | Opened(round: RoundId)                       // the context exists
    | Installed(round: RoundId)                    // its cancel can be found
    | Yielding(round: RoundId, ticket: Ticket)     // the second check saw a capture
    | Running(round: RoundId)
    | Returned(round: RoundId)
    | Uninstalled(round: RoundId)

  datatype Cause = Deadline | Shutdown | YieldedTo(ticket: Ticket) | Over

  datatype World = World(
    loop: Loop,
    watchers: map<WatcherId, Watcher>,     // absent while it captures nothing
    capturing: map<WatcherId, Ticket>,     // the capturing set: one recording per capture
    installed: Option<RoundId>,            // roundCancel
    done: map<RoundId, Cause>,             // the contexts that are cancelled, and why
    rounds: nat,
    tickets: nat,
    lookedAt: nat)                         // how many captures had registered at the hold check

  datatype Action =
    | Register(who: WatcherId)
    | Fetch(who: WatcherId)
    | Call(who: WatcherId)
    | BeginCapture(who: WatcherId)
    | EndCapture(who: WatcherId)
    | Forget(who: WatcherId)
    | Look
    | GiveUp                       // nothing to run after all
    | Open
    | Install
    | LookAgain(seen: Option<WatcherId>)   // a capture in the set, if it holds any
    | Yield
    | Finish
    | Uninstall
    | Close
    | Expire                       // the round's deadline
    | ShutDown

  const INITIAL := World(Waiting, map[], map[], None, map[], 0, 0, 0)

  predicate At(w: World, who: WatcherId, expected: Watcher -> bool) {
    who in w.watchers && expected(w.watchers[who])
  }

  /** The round whose context exists and is not yet closed. */
  function Current(loop: Loop): Option<RoundId> {
    match loop
    case Waiting => None
    case Clear => None
    case Opened(r) => Some(r)
    case Installed(r) => Some(r)
    case Yielding(r, _) => Some(r)
    case Running(r) => Some(r)
    case Returned(r) => Some(r)
    case Uninstalled(r) => Some(r)
  }

  predicate Enabled(w: World, a: Action) {
    match a
    case Register(who) => who !in w.watchers
    case Fetch(who) => At(w, who, (x: Watcher) => x.Registered?)
    case Call(who) => At(w, who, (x: Watcher) => x.Fetched?)
    case BeginCapture(who) => At(w, who, (x: Watcher) => x.Noted?)
    case EndCapture(who) => At(w, who, (x: Watcher) => x.Capturing?)
    case Forget(who) => At(w, who, (x: Watcher) => x.Stopped? || x.Noted?)
    case Look => w.loop.Waiting? && w.capturing == map[]
    case GiveUp => w.loop.Clear?
    case Open => w.loop.Clear?
    case Install => w.loop.Opened?
    case LookAgain(seen) =>
      w.loop.Installed? && if seen.Some? then seen.value in w.capturing else w.capturing == map[]
    case Yield => w.loop.Yielding?
    case Finish => w.loop.Running?
    case Uninstall => w.loop.Returned?
    case Close => w.loop.Uninstalled?
    case Expire => Current(w.loop).Some?
    case ShutDown => true
  }

  /** Cancelling a context keeps the first cause. */
  function Cancelled(w: World, round: RoundId, cause: Cause): World {
    if round in w.done then w else w.(done := w.done[round := cause])
  }

  function Moved(w: World, who: WatcherId, to: Watcher): World {
    w.(watchers := w.watchers[who := to])
  }

  function Apply(w: World, a: Action): World
    requires Enabled(w, a)
  {
    match a
    case Register(who) =>
      w.(watchers := w.watchers[who := Registered(w.tickets)],
         capturing := w.capturing[who := w.tickets], tickets := w.tickets + 1)
    case Fetch(who) => Moved(w, who, Fetched(w.watchers[who].ticket, w.installed))
    case Call(who) =>
      var x := w.watchers[who];
      var called := if x.cancel.Some? then Cancelled(w, x.cancel.value, YieldedTo(x.ticket)) else w;
      Moved(called, who, Noted(x.ticket))
    case BeginCapture(who) => Moved(w, who, Capturing(w.watchers[who].ticket))
    case EndCapture(who) => Moved(w, who, Stopped(w.watchers[who].ticket))
    case Forget(who) => w.(watchers := w.watchers - {who}, capturing := w.capturing - {who})
    case Look => w.(loop := Clear, lookedAt := w.tickets)
    case GiveUp => w.(loop := Waiting)
    case Open => w.(loop := Opened(w.rounds), rounds := w.rounds + 1)
    case Install => w.(loop := Installed(w.loop.round), installed := Some(w.loop.round))
    case LookAgain(seen) =>
      w.(loop := if seen.Some? then Yielding(w.loop.round, w.capturing[seen.value]) else Running(w.loop.round))
    case Yield =>
      Cancelled(w, w.loop.round, YieldedTo(w.loop.ticket)).(loop := Running(w.loop.round))
    case Finish => w.(loop := Returned(w.loop.round))
    case Uninstall => w.(loop := Uninstalled(w.loop.round), installed := None)
    case Close => Cancelled(w, w.loop.round, Over).(loop := Waiting)
    case Expire => Cancelled(w, Current(w.loop).value, Deadline)
    case ShutDown =>
      if Current(w.loop).Some? then Cancelled(w, Current(w.loop).value, Shutdown) else w
  }

  ghost predicate Run(worlds: seq<World>, actions: seq<Action>) {
    && |worlds| == |actions| + 1
    && worlds[0] == INITIAL
    && forall i :: 0 <= i < |actions| ==>
         Enabled(worlds[i], actions[i]) && worlds[i + 1] == Apply(worlds[i], actions[i])
  }

  // ----- what every step keeps -----

  /** The capturing set names exactly the watchers inside capture, and their tickets are distinct. */
  predicate SetIsExact(w: World) {
    && w.capturing.Keys == w.watchers.Keys
    && (forall who :: who in w.watchers ==>
          w.watchers[who].ticket == w.capturing[who] && w.capturing[who] < w.tickets)
    && (forall a, b :: a in w.capturing && b in w.capturing && a != b ==> w.capturing[a] != w.capturing[b])
    && w.lookedAt <= w.tickets
  }

  /** Rounds are used in order, contexts are cancelled only once made, and every context but the
      current one is cancelled already, so a stale cancel of one can stop nothing. */
  predicate ContextsInOrder(w: World) {
    && (forall r :: r in w.done ==> r < w.rounds)
    && (forall r :: 0 <= r < w.rounds && Current(w.loop) != Some(r) ==> r in w.done)
    && (Current(w.loop).Some? ==> Current(w.loop).value + 1 == w.rounds)
    && w.installed == (if w.loop.Opened? || w.loop.Uninstalled? then None else Current(w.loop))
    && (forall who :: who in w.watchers && w.watchers[who].Fetched? && w.watchers[who].cancel.Some? ==>
          w.watchers[who].cancel.value < w.rounds)
  }

  /** A capture that can still call this round's cancel, and has not yet. */
  predicate AboutToCancel(x: Watcher, round: RoundId) {
    x.Registered? || x == Fetched(x.ticket, Some(round))
  }

  /** A round past its second look and not cancelled: whoever is capturing is about to cancel it. */
  predicate Yields(w: World) {
    w.loop.Running? && w.loop.round !in w.done ==>
      forall who :: who in w.watchers ==> AboutToCancel(w.watchers[who], w.loop.round)
  }

  /** Only a capture that registered after the hold check makes a round stand aside. */
  predicate YieldsToNewcomers(w: World) {
    Current(w.loop).Some? || w.loop.Clear? ==>
      && (forall who :: who in w.watchers ==> w.lookedAt <= w.watchers[who].ticket)
      && (w.loop.Yielding? ==> w.lookedAt <= w.loop.ticket)
      && (forall r :: Current(w.loop) == Some(r) && r in w.done && w.done[r].YieldedTo? ==>
            w.lookedAt <= w.done[r].ticket)
  }

  ghost predicate Inv(w: World) {
    SetIsExact(w) && ContextsInOrder(w) && Yields(w) && YieldsToNewcomers(w)
  }

  /** A step of a watcher's own thread. */
  predicate OfWatcher(a: Action) {
    a.Register? || a.Fetch? || a.Call? || a.BeginCapture? || a.EndCapture? || a.Forget?
  }

  lemma LoopLeavesCapturesAlone(w: World, a: Action)
    requires Enabled(w, a) && !OfWatcher(a)
    ensures var w' := Apply(w, a); w'.watchers == w.watchers && w'.capturing == w.capturing && w'.tickets == w.tickets
    ensures Apply(w, a).lookedAt == if a.Look? then w.tickets else w.lookedAt
  {}

  lemma ForgettingKeepsSet(w: World, who: WatcherId)
    requires SetIsExact(w) && Enabled(w, Forget(who))
    ensures SetIsExact(Apply(w, Forget(who)))
  {
    var w' := Apply(w, Forget(who));
    assert w'.watchers.Keys == w.watchers.Keys - {who};
    assert w'.capturing.Keys == w.capturing.Keys - {who};
  }

  lemma RegisteringKeepsSet(w: World, who: WatcherId)
    requires SetIsExact(w) && Enabled(w, Register(who))
    ensures SetIsExact(Apply(w, Register(who)))
  {
    var w' := Apply(w, Register(who));
    assert w'.watchers.Keys == w.watchers.Keys + {who};
    assert w'.capturing.Keys == w.capturing.Keys + {who};
  }

  lemma WatcherKeepsSet(w: World, a: Action)
    requires SetIsExact(w) && Enabled(w, a) && OfWatcher(a)
    ensures SetIsExact(Apply(w, a))
  {
    if a.Forget? {
      ForgettingKeepsSet(w, a.who);
    } else if a.Register? {
      RegisteringKeepsSet(w, a.who);
    } else {
      assert Apply(w, a).watchers.Keys == w.watchers.Keys;
    }
  }

  lemma StepKeepsSet(w: World, a: Action)
    requires SetIsExact(w) && Enabled(w, a)
    ensures SetIsExact(Apply(w, a))
  {
    if OfWatcher(a) {
      WatcherKeepsSet(w, a);
    } else {
      LoopLeavesCapturesAlone(w, a);
    }
  }

  lemma WatcherKeepsContexts(w: World, a: Action)
    requires ContextsInOrder(w) && Enabled(w, a) && OfWatcher(a)
    ensures ContextsInOrder(Apply(w, a))
  {}

  lemma LoopKeepsContexts(w: World, a: Action)
    requires ContextsInOrder(w) && Enabled(w, a) && !OfWatcher(a)
    ensures ContextsInOrder(Apply(w, a))
  {}

  lemma StepKeepsContexts(w: World, a: Action)
    requires ContextsInOrder(w) && Enabled(w, a)
    ensures ContextsInOrder(Apply(w, a))
  {
    if OfWatcher(a) {
      WatcherKeepsContexts(w, a);
    } else {
      LoopKeepsContexts(w, a);
    }
  }

  lemma StepYields(w: World, a: Action)
    requires Inv(w) && Enabled(w, a)
    ensures Yields(Apply(w, a))
  {
    if a.LookAgain? && a.seen.None? {
      assert w.watchers.Keys == {};
    }
  }

  lemma WatcherYieldsToNewcomers(w: World, a: Action)
    requires Inv(w) && Enabled(w, a) && OfWatcher(a)
    ensures YieldsToNewcomers(Apply(w, a))
  {}

  lemma LoopYieldsToNewcomers(w: World, a: Action)
    requires Inv(w) && Enabled(w, a) && !OfWatcher(a)
    ensures YieldsToNewcomers(Apply(w, a))
  {
    if a.Look? {
      assert w.watchers.Keys == {};
    }
  }

  lemma StepYieldsToNewcomers(w: World, a: Action)
    requires Inv(w) && Enabled(w, a)
    ensures YieldsToNewcomers(Apply(w, a))
  {
    if OfWatcher(a) {
      WatcherYieldsToNewcomers(w, a);
    } else {
      LoopYieldsToNewcomers(w, a);
    }
  }

  lemma {:induction false} RunsKeepTheHandshake(worlds: seq<World>, actions: seq<Action>, n: nat)
    requires Run(worlds, actions) && n < |worlds|
    ensures Inv(worlds[n])
  {
    if n > 0 {
      RunsKeepTheHandshake(worlds, actions, n - 1);
      var w, a := worlds[n - 1], actions[n - 1];
      StepKeepsSet(w, a);
      StepKeepsContexts(w, a);
      StepYields(w, a);
      StepYieldsToNewcomers(w, a);
    }
  }

  // ----- what that gives -----

  /** For any number of watchers and any interleaving: while a round runs, a capture that has
      returned from noteCapturing and is not yet forgotten means the round's context is cancelled,
      whichever cancel that watcher happened to read. */
  lemma NoUncancelledRoundBesideACapture(worlds: seq<World>, actions: seq<Action>, n: nat, who: WatcherId)
    requires Run(worlds, actions) && n < |worlds|
    requires worlds[n].loop.Running? && who in worlds[n].watchers
    requires !worlds[n].watchers[who].Registered? && !worlds[n].watchers[who].Fetched?
    ensures worlds[n].loop.round in worlds[n].done
  {
    RunsKeepTheHandshake(worlds, actions, n);
  }

  /** A capture still on its way through noteCapturing is at most two of its own steps from having
      cancelled the round that is running. */
  lemma TwoStepsFromCancelled(worlds: seq<World>, actions: seq<Action>, n: nat, who: WatcherId)
    requires Run(worlds, actions) && n < |worlds|
    requires worlds[n].loop.Running? && worlds[n].loop.round !in worlds[n].done && who in worlds[n].watchers
    ensures var w := worlds[n];
      if w.watchers[who].Fetched? then Enabled(w, Call(who)) && w.loop.round in Apply(w, Call(who)).done
      else Enabled(w, Fetch(who)) && Enabled(Apply(w, Fetch(who)), Call(who)) &&
           w.loop.round in Apply(Apply(w, Fetch(who)), Call(who)).done
  {
    RunsKeepTheHandshake(worlds, actions, n);
  }

  /** No capture stops a round it has no business stopping: a round in flight that stood aside did
      so for a capture that registered after the round's own hold check, never through a cancel
      left over from an earlier round. */
  lemma RoundsYieldOnlyToNewCaptures(worlds: seq<World>, actions: seq<Action>, n: nat)
    requires Run(worlds, actions) && n < |worlds|
    ensures var w := worlds[n];
      Current(w.loop).Some? && Current(w.loop).value in w.done && w.done[Current(w.loop).value].YieldedTo? ==>
        w.lookedAt <= w.done[Current(w.loop).value].ticket
  {
    RunsKeepTheHandshake(worlds, actions, n);
  }
}
