// Who is signed in, and what a refused login is told: the answer of authenticate in
// backend/core/auth.py, stated from the tables it finds, without its order of branches.
module LoginOutcome {
  import opened Options
  import opened LoginThrottle

  // Times in order, as a window keeps them.
  ghost predicate Ordered(times: seq<int>) {
    forall i, j :: 0 <= i < j < |times| ==> times[i] <= times[j]
  }

  // How many failures lie within the last `window`.
  function Recent(failures: seq<int>, window: int, now: int): (n: nat)
    ensures n <= |failures|
  {
    if failures == [] then 0 else Recent(failures[1..], window, now) + (if now - failures[0] < window then 1 else 0)
  }

  lemma {:induction false} AllRecent(failures: seq<int>, window: int, now: int)
    requires forall i :: 0 <= i < |failures| ==> now - failures[i] < window
    ensures Recent(failures, window, now) == |failures|
    decreases |failures|
  {
    if failures != [] {
      AllRecent(failures[1..], window, now);
    }
  }

  // What is left of an ordered window are the recent failures, the oldest of them first.
  lemma {:induction false} LeftAreRecent(c: Settings, failures: seq<int>, now: int)
    requires Ordered(failures)
    ensures var left := Unexpired(c, failures, now);
      && |left| == Recent(failures, c.window, now) <= |failures|
      && left == failures[|failures| - |left|..]
    decreases |failures|
  {
    if failures != [] && now - failures[0] >= c.window {
      LeftAreRecent(c, failures[1..], now);
    } else {
      AllRecent(failures, c.window, now);
    }
  }

  // The recent failures of the attempt's source, oldest first.
  function RecentOf(c: Settings, s: State, t: Attempt): seq<int> {
    var failures := SourceFailures(s.sources, t.source);
    failures[|failures| - Recent(failures, c.window, t.now)..]
  }

  // The source has its fill of them.
  predicate SourceFull(c: Settings, s: State, t: Attempt) {
    |RecentOf(c, s, t)| >= c.sourceMaxFailures
  }

  predicate HasAccount(s: State, t: Attempt) {
    t.name != "" && t.name in s.accounts
  }

  // The end of the lock on the name typed: the account's, or the one kept for a name without one.
  function LockOf(s: State, t: Attempt): Option<int> {
    if HasAccount(s, t) then s.accounts[t.name].lockedUntil
    else if t.name in s.names then s.names[t.name].lockedUntil
    else None
  }

  predicate NameLocked(s: State, t: Attempt) {
    LockOf(s, t).Some? && t.now < LockOf(s, t).value
  }

  // The wrong passwords counted against the name so far; a lock that has run out starts afresh.
  function CountOf(s: State, t: Attempt): int {
    if HasAccount(s, t) then s.accounts[t.name].failedLogins
    else if t.name !in s.names || s.names[t.name].lockedUntil.Some? then 0
    else s.names[t.name].count
  }

  // No name is counted while a lock of its own is on record, as the counter leaves it.
  ghost predicate LocksStartAfresh(s: State) {
    forall n :: n in s.names && s.names[n].lockedUntil.Some? ==> s.names[n].count == 0
  }

  // The only login that succeeds: the right password of an active account that is not locked.
  predicate MaySignIn(s: State, t: Attempt) {
    HasAccount(s, t) && s.accounts[t.name].active && !NameLocked(s, t) && t.correct
  }

  // A failure that is counted: a wrong password of an active account, or any for a name without one.
  predicate Counts(s: State, t: Attempt) {
    !NameLocked(s, t) && (HasAccount(s, t) ==> s.accounts[t.name].active && !t.correct)
  }

  // A source that has its fill is refused, whoever asks, and told to wait for its oldest recent
  // failure to run out; nothing but its window changes.
  lemma FullSourceIsRefused(c: Settings, s: State, t: Attempt)
    requires c.Valid() && Ordered(SourceFailures(s.sources, t.source)) && SourceFull(c, s, t)
    ensures var (s', out) := Authenticate(c, s, t);
      && out == Rejected(429, LoginBlocked, Some(RetryAfter(RecentOf(c, s, t)[0] + c.window, t.now)))
      && s'.names == s.names && s'.accounts == s.accounts
  {
    LeftAreRecent(c, SourceFailures(s.sources, t.source), t.now);
  }

  // From any other source a login succeeds exactly for the right password of an active account that
  // is not locked.
  lemma SignedInIff(c: Settings, s: State, t: Attempt)
    requires c.maxFailures >= 1 && c.lockout > 0 && c.sourceMaxFailures >= 1 && c.window > 0
    requires Ordered(SourceFailures(s.sources, t.source))
    ensures Authenticate(c, s, t).1.Success? <==> !SourceFull(c, s, t) && MaySignIn(s, t)
  {
    LeftAreRecent(c, SourceFailures(s.sources, t.source), t.now);
  }

  // And a success clears that account's count and lock, and nothing else; nothing is recorded
  // against its source.
  lemma SuccessClears(c: Settings, s: State, t: Attempt)
    requires c.Valid() && Ordered(SourceFailures(s.sources, t.source)) && Authenticate(c, s, t).1.Success?
    ensures t.name in s.accounts
    ensures Authenticate(c, s, t).0.accounts == s.accounts[t.name := Account(true, 0, None)]
    ensures Authenticate(c, s, t).0.names == s.names
  {
    SignedInIff(c, s, t);
  }

  lemma SuccessRecordsNothing(c: Settings, s: State, t: Attempt)
    requires c.Valid() && Ordered(SourceFailures(s.sources, t.source)) && Authenticate(c, s, t).1.Success?
    ensures SourceFailures(Authenticate(c, s, t).0.sources, t.source) == RecentOf(c, s, t)
  {
    LeftAreRecent(c, SourceFailures(s.sources, t.source), t.now);
    CheckedIsUnexpired(c, s.sources, t.source, t.now);
  }

  lemma CheckedIsUnexpired(c: Settings, sources: Sources, source: string, now: int)
    ensures SourceFailures(SourceChecked(c, sources, source, now), source)
         == Unexpired(c, SourceFailures(sources, source), now)
  {
  }

  // What a refused login is told, when it is not for its source: 429 and the end of the lock exactly
  // while the name is locked, else 401; and `lockout` exactly for the counted failure that reaches
  // the limit.
  lemma RefusalIff(c: Settings, s: State, t: Attempt)
    requires c.Valid() && LocksStartAfresh(s) && Ordered(SourceFailures(s.sources, t.source))
    requires !SourceFull(c, s, t) && !MaySignIn(s, t)
    ensures var out := Authenticate(c, s, t).1;
      if NameLocked(s, t) then out == Rejected(429, LoginBlocked, Some(RetryAfter(LockOf(s, t).value, t.now)))
      else out == Rejected(401, if Counts(s, t) && CountOf(s, t) + 1 >= c.maxFailures then Lockout else LoginFail, None)
  {
    LeftAreRecent(c, SourceFailures(s.sources, t.source), t.now);
  }

  // Every such refusal is recorded against its source, the newest there.
  lemma RefusalRecords(c: Settings, s: State, t: Attempt)
    requires c.Valid() && Ordered(SourceFailures(s.sources, t.source))
    requires !SourceFull(c, s, t) && !MaySignIn(s, t)
    ensures var s' := Authenticate(c, s, t).0;
      && t.source in s'.sources && s'.sources[t.source] != []
      && s'.sources[t.source][|s'.sources[t.source]| - 1] == t.now
  {
    LeftAreRecent(c, SourceFailures(s.sources, t.source), t.now);
    RecordedIsLast(SourceChecked(c, s.sources, t.source, t.now), t.source, t.now);
  }

  lemma RecordedIsLast(sources: Sources, source: string, now: int)
    ensures var after := SourceRecorded(sources, source, now);
      source in after && after[source] != [] && after[source][|after[source]| - 1] == now
  {
  }

  // None of them touches another account, and one that is not counted no counter at all; a counted
  // one is counted where the name's count is kept.
  lemma RefusalTouches(c: Settings, s: State, t: Attempt)
    requires c.Valid() && Ordered(SourceFailures(s.sources, t.source))
    requires !SourceFull(c, s, t) && !MaySignIn(s, t)
    ensures var s' := Authenticate(c, s, t).0;
      && (forall n :: n in s.accounts && n != t.name ==> n in s'.accounts && s'.accounts[n] == s.accounts[n])
      && (!Counts(s, t) ==> s'.accounts == s.accounts && s'.names == s.names)
      && (HasAccount(s, t) ==> s'.names == s.names)
      && (!HasAccount(s, t) ==> s'.accounts == s.accounts)
  {
    LeftAreRecent(c, SourceFailures(s.sources, t.source), t.now);
  }

  // ---- in every reachable state ----

  // The tables as every run of logins leaves them: windows in order and none of their entries
  // ahead of the clock, locks that start afresh, and no more than 5000 keys in either table.
  ghost predicate Kept(s: State, clock: int) {
    && WindowsKept(s.sources, clock)
    && LocksStartAfresh(s) && |s.names| <= 5000
  }

  ghost predicate UpTo(times: seq<int>, clock: int) {
    forall i :: 0 <= i < |times| ==> times[i] <= clock
  }

  lemma AddKey<V>(m: map<string, V>, k: string, v: V)
    ensures |m[k := v]| <= |m| + 1
    ensures k in m ==> |m[k := v]| == |m|
  {
    if k in m {
      assert m[k := v].Keys == m.Keys;
    } else {
      assert m[k := v].Keys == m.Keys + {k};
    }
    assert |m[k := v].Keys| == |m[k := v]| && |m.Keys| == |m|;
  }

  ghost predicate WindowsKept(sources: Sources, clock: int) {
    && |sources| <= 5000
    && forall src :: src in sources ==> Ordered(sources[src]) && UpTo(sources[src], clock)
  }

  lemma CheckedKept(c: Settings, sources: Sources, source: string, clock: int, now: int)
    requires WindowsKept(sources, clock) && clock <= now
    ensures WindowsKept(SourceChecked(c, sources, source, now), now)
  {
    if source in sources {
      LeftAreRecent(c, sources[source], now);
      AddKey(sources, source, Unexpired(c, sources[source], now));
    }
  }

  lemma RecordedKept(sources: Sources, source: string, now: int)
    requires WindowsKept(sources, now)
    ensures WindowsKept(SourceRecorded(sources, source, now), now)
  {
    AddKey(sources, source, SourceFailures(sources, source) + [now]);
    AddKey(map[], source, [now]);
  }

  lemma NamesKept5000(c: Settings, names: Names, name: string, now: int)
    requires |names| <= 5000 && forall n :: n in names && names[n].lockedUntil.Some? ==> names[n].count == 0
    requires !Locked(NameCounter(names, name).lockedUntil, now)
    ensures var after := NameRecorded(c, names, name, now).0;
      |after| <= 5000 && forall n :: n in after && after[n].lockedUntil.Some? ==> after[n].count == 0
  {
    AddKey(names, name, CountNext(c, NameCounter(names, name), now).0);
    AddKey(map[], name, CountNext(c, NameCount(0, None), now).0);
  }

  lemma LoginKeeps(c: Settings, s: State, t: Attempt, clock: int)
    requires c.Valid() && Kept(s, clock) && clock <= t.now
    ensures Kept(Authenticate(c, s, t).0, t.now)
  {
    CheckedKept(c, s.sources, t.source, clock, t.now);
    RecordedKept(SourceChecked(c, s.sources, t.source, t.now), t.source, t.now);
    if !HasAccount(s, t) && !Locked(NameCounter(s.names, t.name).lockedUntil, t.now) {
      NamesKept5000(c, s.names, t.name, t.now);
    }
  }

  // So the premises above hold in every state a run of logins can reach, from empty tables on.
  lemma {:induction false} EveryRunKeeps(c: Settings, accounts: Accounts, attempts: seq<Attempt>, clock: int)
    requires c.Valid() && Clocked(clock, attempts)
    ensures Kept(After(c, State(map[], map[], accounts), attempts), EndClock(clock, attempts))
    decreases |attempts|
  {
    if attempts != [] {
      var n := |attempts| - 1;
      EveryRunKeeps(c, accounts, attempts[..n], clock);
      var before := After(c, State(map[], map[], accounts), attempts[..n]);
      LoginKeeps(c, before, attempts[n], EndClock(clock, attempts[..n]));
    }
  }
}
