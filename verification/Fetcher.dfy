/** A fetch as the program runs it, against a row the store changes in place. */
module Fetcher {
  import opened Basics
  import opened Claims

  /** One broadcast's row, with the statements that change it. */
  class ClaimStore {
    var row: Option<Row>

    constructor (row: Option<Row>)
      ensures this.row == row
    {
      this.row := row;
    }

    method ClaimFetch(who: int, at: Instant, lease: Duration) returns (claimed: bool)
      modifies this
      ensures claimed == Claimable(old(row), at, lease)
      ensures claimed <==>
                || old(row).None?
                || (var r := old(row).value;
                    && r.state != Terminal && r.state != Done
                    && (r.claim.None? || r.claim.value.at + lease <= at)
                    && (r.next.None? || r.next.value <= at))
      ensures row == if claimed then Some(Taken(old(row), who, at)) else old(row)
    {
      if row.None? {
        row := Some(Row(Claimed, 1, None, Some(Claim(at, who))));
        return true;
      }
      var r := row.value;
      if r.state == Terminal || r.state == Done || (r.claim.Some? && r.claim.value.at > at - lease)
         || (r.next.Some? && r.next.value > at) {
        return false;
      }
      row := Some(Row(Claimed, r.attempts + 1, r.next, Some(Claim(at, who))));
      return true;
    }

    /** Found is what ErrNotFound denies: the statement touched a row. */
    method ReleaseFetch(state: FetchState) returns (found: bool)
      requires row.Some?
      modifies this
      ensures row == Some(Released(old(row).value, state)) && found == (old(row).value.state != Terminal)
    {
      if row.value.state == Terminal {
        return false;
      }
      row := Some(row.value.(state := state, claim := None));
      return true;
    }

    method RecordFetchFailure(retry: Option<Instant>) returns (found: bool)
      requires row.Some?
      modifies this
      ensures row == Some(Failed(old(row).value, retry)) && found == (old(row).value.state != Terminal)
    {
      if row.value.state == Terminal {
        return false;
      }
      row := Some(row.value.(state := if retry.None? then Terminal else Pending, next := retry, claim := None));
      return true;
    }

    method AbandonFetch(who: int) returns (found: bool)
      requires row.Some?
      modifies this
      ensures row == Some(Abandoned(old(row).value, who)) && found == HeldBy(old(row).value, who)
      ensures var r := old(row).value;
        && (found <==> r.state == Claimed && r.claim.Some? && r.claim.value.who == who)
        && row == Some(if found then Row(Pending, Max(r.attempts - 1, 0), r.next, None) else r)
    {
      var r := row.value;
      if r.state != Claimed || r.claim.None? || r.claim.value.who != who {
        return false;
      }
      row := Some(r.(state := Pending, attempts := Max(r.attempts - 1, 0), claim := None));
      return true;
    }

    method RefuseFetch()
      modifies this
      ensures row == Some(Declined(old(row)))
    {
      row := Some(Row(Terminal, if row.Some? then row.value.attempts else 0, None, None));
    }
  }

  datatype Answer = NoAddress | NoRoom | NotClaimed | Ended(outcome: Outcome)

  class Fetcher {
    const claims: ClaimStore
    const session: int
    const lease: Duration
    const backoff: Duration

    constructor (claims: ClaimStore, session: int, lease: Duration, backoff: Duration)
      ensures this.claims == claims && this.session == session && this.lease == lease && this.backoff == backoff
    {
      this.claims, this.session, this.lease, this.backoff := claims, session, lease, backoff;
    }

    /** chargeFailure. */
    method ChargeFailure(now: Instant, counted: bool, terminal: bool) returns (outcome: Outcome)
      requires claims.row.Some? && backoff <= MAX_DURATION
      modifies claims
      ensures claims.row.Some?
      ensures (claims.row.value, outcome) == Charge(old(claims.row).value, backoff, now, counted, terminal)
      ensures var r, row := old(claims.row).value, claims.row.value;
        if r.state == Terminal then row == r && outcome == Superseded
        else if terminal then row == Row(Terminal, r.attempts, None, None) && outcome == GaveUp
        else
          var n := if counted then Max(r.attempts, 1) else 1;
          row == Row(Pending, r.attempts, Some(now + NthWait(backoff, n)), None) && outcome == Charged
    {
      var attempts := if counted then claims.row.value.attempts else 0;
      var delay := RetryDelay(backoff, attempts);
      var retry := Some(now + delay);
      if terminal {
        retry := None;
      }
      var found := claims.RecordFetchFailure(retry);
      if !found {
        return Superseded;
      }
      return if retry.None? then GaveUp else Charged;
    }

    /** run. */
    method Work(now: Instant, w: World) returns (outcome: Outcome)
      requires claims.row.Some? && backoff <= MAX_DURATION
      modifies claims
      ensures claims.row.Some? && (claims.row.value, outcome) == Run(old(claims.row).value, backoff, now, w)
    {
      if w.declined {
        claims.RefuseFetch();
      }
      if w.captured.None? {
        outcome := ChargeFailure(now, w.counted, false);
        return;
      }
      if w.captured.value {
        var found := claims.ReleaseFetch(Done);
        return if found then AlreadyCaptured else Superseded;
      }
      if w.download.Refused? || w.download == Broken {
        if w.stopped {
          return Stopped;
        }
        outcome := ChargeFailure(now, w.counted, w.download.Refused? && w.download.terminal);
        return;
      }
      if w.download == Elsewhere {
        outcome := ChargeFailure(now, w.counted, false);
        return;
      }
      if w.creation == Duplicate {
        return Fetched;
      }
      if w.creation == Uncreated {
        outcome := ChargeFailure(now, w.counted, false);
        return;
      }
      if !w.silence {
        outcome := ChargeFailure(now, w.counted, false);
        return;
      }
      if !w.finalizes {
        outcome := ChargeFailure(now, w.counted, false);
        return;
      }
      return Fetched;
    }

    /** Fetch: a claim is taken only where there is an address and room, and never outlives the call. */
    method Fetch(addressed: bool, room: bool, now: Instant, w: World) returns (answer: Answer)
      requires backoff <= MAX_DURATION
      modifies claims
      ensures answer.Ended? <==> addressed && room && Claimable(old(claims.row), now, lease)
      ensures !answer.Ended? ==> claims.row == old(claims.row)
      ensures answer.Ended? ==>
        && claims.row == Some(AfterFetch(old(claims.row), session, backoff, now, w))
        && Ends(old(claims.row), backoff, now, w, claims.row.value)
        && Reports(answer.outcome, w)
    {
      if !addressed {
        return NoAddress;
      }
      if !room {
        return NoRoom;
      }
      var claimed := claims.ClaimFetch(session, now, lease);
      if !claimed {
        return NotClaimed;
      }
      EveryClaimEnds(old(claims.row), session, backoff, now, lease, w);
      RunReports(Taken(old(claims.row), session, now), backoff, now, w);
      var outcome := Work(now, w);
      if outcome != Fetched {
        if w.cancelled || outcome == Stopped {
          var _ := claims.AbandonFetch(session);
        }
        return Ended(outcome);
      }
      var _ := claims.ReleaseFetch(Done);
      return Ended(Fetched);
    }
  }
}
