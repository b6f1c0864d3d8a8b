// The session clock of backend/core/auth.py: idle timeout, absolute lifetime, and the last-seen
// stamp that is refreshed at most once every five minutes. Times are microseconds.
module Sessions {
  import opened Options

  const TOUCH := 300_000_000

  datatype Limits = Limits(idle: int, absolute: int)

  datatype Row = Row(user: int, createdAt: int, expiresAt: int, lastSeen: int)

  function Created(l: Limits, user: int, now: int): Row {
    Row(user, now, now + l.absolute, now)
  }

  predicate Ended(l: Limits, r: Row, now: int) {
    r.expiresAt <= now || r.lastSeen + l.idle <= now
  }

  // One look at a session: (what is stored afterwards, whether the visitor is signed in).
  // `userOk`: the user exists and is active; `writes`: the housekeeping write succeeds.
  function Resolved(l: Limits, row: Option<Row>, now: int, userOk: bool, writes: bool): (Option<Row>, bool) {
    if row.None? then (None, false)
    else if Ended(l, row.value, now) || !userOk then (if writes then None else row, false)
    else if now - row.value.lastSeen >= TOUCH && writes then (Some(row.value.(lastSeen := now)), true)
    else (row, true)
  }

  class SessionStore {
    const limits: Limits
    var rows: map<string, Row>

    constructor (limits: Limits)
      ensures this.limits == limits && rows == map[]
    {
      this.limits := limits;
      rows := map[];
    }

    ghost function Stored(token: string): Option<Row>
      reads this
    {
      if token in rows then Some(rows[token]) else None
    }

    // Also drops every session past its absolute lifetime.
    method CreateSession(user: int, token: string, now: int)
      modifies this
      ensures rows ==
        (map t | t in old(rows) && old(rows)[t].expiresAt > now :: old(rows)[t])[token := Created(limits, user, now)]
    {
      rows := map t | t in rows && rows[t].expiresAt > now :: rows[t];
      rows := rows[token := Row(user, now, now + limits.absolute, now)];
    }

    method ResolveSession(token: string, now: int, userOk: bool, writes: bool) returns (signedIn: bool)
      modifies this
      ensures (Stored(token), signedIn) == Resolved(limits, old(Stored(token)), now, userOk, writes)
      ensures forall t :: t != token ==> Stored(t) == old(Stored(t))
    {
      if token !in rows {
        return false;
      }
      var row := rows[token];
      if row.expiresAt <= now || row.lastSeen + limits.idle <= now || !userOk {
        if writes {
          rows := rows - {token};
        }
        return false;
      }
      if now - row.lastSeen >= TOUCH && writes {
        rows := rows[token := row.(lastSeen := now)];
      }
      signedIn := true;
    }
  }

  // What a look leaves stored, if its write goes through: nothing of a session that is not honoured;
  // the present as last-seen stamp of one that is, when the stamp is five minutes old; else the row.
  lemma StoredIff(l: Limits, row: Row, now: int, userOk: bool, writes: bool)
    ensures var (stored, ok) := Resolved(l, Some(row), now, userOk, writes);
      && (ok <==> userOk && now < row.expiresAt && now < row.lastSeen + l.idle)
      && (stored == None <==> writes && !ok)
      && (stored == Some(row) || stored == None || (writes && stored == Some(row.(lastSeen := now))))
      && (ok && writes && now - row.lastSeen >= 300_000_000 ==> stored == Some(row.(lastSeen := now)))
      && (now - row.lastSeen < 300_000_000 || !writes ==> stored == Some(row) || stored == None)
      && Resolved(l, None, now, userOk, writes) == (None, false)
  {
  }

  // ---- runs ----

  datatype Visit = Visit(now: int, userOk: bool, writes: bool)

  function EndClock(start: int, visits: seq<Visit>): int {
    if visits == [] then start else visits[|visits| - 1].now
  }

  // Visits at nondecreasing times, none before `start`.
  predicate Clocked(start: int, visits: seq<Visit>)
    decreases |visits|
  {
    visits == [] ||
    var n := |visits| - 1;
    Clocked(start, visits[..n]) && EndClock(start, visits[..n]) <= visits[n].now
  }

  // What is stored after a run of visits, and when the session was last found valid (its
  // creation counts).
  datatype History = History(row: Option<Row>, lastValid: int)

  function Play(l: Limits, r: Row, visits: seq<Visit>): History
    decreases |visits|
  {
    if visits == [] then History(Some(r), r.createdAt)
    else
      var n := |visits| - 1;
      var h := Play(l, r, visits[..n]);
      var (row, ok) := Resolved(l, h.row, visits[n].now, visits[n].userOk, visits[n].writes);
      History(row, if ok then visits[n].now else h.lastValid)
  }

  predicate SignedInFrom(l: Limits, row: Option<Row>, v: Visit) {
    Resolved(l, row, v.now, v.userOk, v.writes).1
  }

  predicate SignedIn(l: Limits, r: Row, visits: seq<Visit>, v: Visit) {
    SignedInFrom(l, Play(l, r, visits).row, v)
  }

  lemma {:induction false} StampLagsVisits(l: Limits, user: int, start: int, visits: seq<Visit>)
    requires Clocked(start, visits)
    ensures var h := Play(l, Created(l, user, start), visits);
      && h.lastValid <= EndClock(start, visits)
      && (h.row.Some? ==>
        && h.row.value.expiresAt == start + l.absolute
        && h.row.value.lastSeen <= h.lastValid
        && ((forall i :: 0 <= i < |visits| ==> visits[i].writes) ==> h.lastValid < h.row.value.lastSeen + TOUCH))
    decreases |visits|
  {
    if visits != [] {
      StampLagsVisits(l, user, start, visits[..|visits| - 1]);
    }
  }

  // No visitor is signed in past the absolute lifetime, or after an idle timeout without a
  // valid visit -- whether or not the housekeeping writes succeed.
  lemma SessionEndsOnTime(l: Limits, user: int, start: int, visits: seq<Visit>, v: Visit)
    requires Clocked(start, visits)
    requires var r := Created(l, user, start); SignedIn(l, r, visits, v)
    ensures v.userOk && v.now < start + l.absolute
    ensures v.now - Play(l, Created(l, user, start), visits).lastValid < l.idle
  {
    StampLagsVisits(l, user, start, visits);
  }

  // Every visit of a run found the visitor signed in, and every write went through.
  predicate AlwaysValid(l: Limits, r: Row, visits: seq<Visit>)
    decreases |visits|
  {
    visits == [] ||
    var n := |visits| - 1;
    AlwaysValid(l, r, visits[..n]) && SignedIn(l, r, visits[..n], visits[n]) && visits[n].writes
  }

  lemma {:induction false} KeptWhileValid(l: Limits, r: Row, visits: seq<Visit>)
    requires AlwaysValid(l, r, visits)
    ensures Play(l, r, visits).row.Some?
    ensures forall i :: 0 <= i < |visits| ==> visits[i].writes
    decreases |visits|
  {
    if visits != [] {
      KeptWhileValid(l, r, visits[..|visits| - 1]);
    }
  }

  // And none is turned away early: with the writes going through, a session in continuous use
  // is honoured until TOUCH short of the idle timeout, which is how accurate the stamp is.
  lemma SessionHonouredInTime(l: Limits, user: int, start: int, visits: seq<Visit>, v: Visit)
    requires Clocked(start, visits + [v]) && v.userOk
    requires AlwaysValid(l, Created(l, user, start), visits)
    requires v.now < start + l.absolute
    requires v.now - Play(l, Created(l, user, start), visits).lastValid + TOUCH <= l.idle
    ensures SignedIn(l, Created(l, user, start), visits, v)
  {
    assert (visits + [v])[..|visits|] == visits;
    KeptWhileValid(l, Created(l, user, start), visits);
    StampLagsVisits(l, user, start, visits);
  }

  // A session that has run out stays out, even when it could not be deleted.
  lemma {:induction false} EndedStaysEnded(l: Limits, row: Option<Row>, start: int, visits: seq<Visit>)
    requires row.Some? ==> Ended(l, row.value, start)
    requires Clocked(start, visits)
    ensures NeverSignedIn(l, row, visits)
    ensures RowAfter(l, row, visits).None? || RowAfter(l, row, visits) == row
    ensures start <= EndClock(start, visits)
    decreases |visits|
  {
    if visits != [] {
      EndedStaysEnded(l, row, start, visits[..|visits| - 1]);
    }
  }

  predicate NeverSignedIn(l: Limits, row: Option<Row>, visits: seq<Visit>)
    decreases |visits|
  {
    visits == [] ||
    var n := |visits| - 1;
    NeverSignedIn(l, row, visits[..n]) && !SignedInFrom(l, RowAfter(l, row, visits[..n]), visits[n])
  }

  function RowAfter(l: Limits, row: Option<Row>, visits: seq<Visit>): Option<Row>
    decreases |visits|
  {
    if visits == [] then row
    else
      var v := visits[|visits| - 1];
      Resolved(l, RowAfter(l, row, visits[..|visits| - 1]), v.now, v.userOk, v.writes).0
  }
}
