// Login throttling of backend/core/auth.py: a sliding window per source, a lockout counter per
// account kept in the database, and the same counter in memory for names without an account.
// Times are microseconds.
module LoginThrottle {
  import opened Options

  const SECOND := 1_000_000
  const MAX_TRACKED_KEYS := 5000

  datatype Settings = Settings(maxFailures: int, lockout: int, sourceMaxFailures: int, window: int) {
    // The limits are positive: a limit of zero is not a configuration the code supports (an
    // emptied window would be indexed).
    predicate Valid() {
      maxFailures >= 1 && lockout > 0 && sourceMaxFailures >= 1 && window > 0
    }
  }

  datatype Account = Account(active: bool, failedLogins: int, lockedUntil: Option<int>)

  datatype NameCount = NameCount(count: int, lockedUntil: Option<int>)

  type Sources = map<string, seq<int>>
  type Names = map<string, NameCount>
  type Accounts = map<string, Account>

  datatype State = State(sources: Sources, names: Names, accounts: Accounts)

  // A login attempt as authenticate sees it: the normalized name, the source, the clock, and
  // whether the password is the right one for the account of that name.
  datatype Attempt = Attempt(name: string, source: string, now: int, correct: bool)

  datatype Event = LoginBlocked | Lockout | LoginFail

  datatype Outcome = Success | Rejected(status: int, event: Event, retryAfter: Option<int>)

  function RetryAfter(until: int, now: int): int {
    if (until - now) / SECOND > 1 then (until - now) / SECOND else 1
  }

  // The window after dropping what has expired from its front.
  function Unexpired(c: Settings, failures: seq<int>, now: int): seq<int> {
    if failures != [] && now - failures[0] >= c.window then Unexpired(c, failures[1..], now) else failures
  }

  function SourceFailures(sources: Sources, source: string): seq<int> {
    if source in sources then sources[source] else []
  }

  function SourceChecked(c: Settings, sources: Sources, source: string, now: int): Sources {
    if SourceFailures(sources, source) == [] then sources
    else sources[source := Unexpired(c, sources[source], now)]
  }

  function SourceRetry(c: Settings, sources: Sources, source: string, now: int): Option<int>
    requires c.Valid()
  {
    var failures := Unexpired(c, SourceFailures(sources, source), now);
    if |failures| < c.sourceMaxFailures then None else Some(RetryAfter(failures[0] + c.window, now))
  }

  function SourceRecorded(sources: Sources, source: string, now: int): Sources {
    var room := if |sources| >= MAX_TRACKED_KEYS && source !in sources then map[] else sources;
    room[source := SourceFailures(room, source) + [now]]
  }

  function NameCounter(names: Names, name: string): NameCount {
    if name in names then names[name] else NameCount(0, None)
  }

  predicate Locked(until: Option<int>, now: int) {
    until.Some? && until.value > now
  }

  // The in-memory counter: (the new count, whether this failure reached the threshold).
  function CountNext(c: Settings, entry: NameCount, now: int): (NameCount, bool) {
    var current := if entry.lockedUntil.Some? && entry.lockedUntil.value <= now then NameCount(0, None) else entry;
    var count := current.count + 1;
    if count >= c.maxFailures then (NameCount(0, Some(now + c.lockout)), true)
    else (NameCount(count, current.lockedUntil), false)
  }

  function NameRecorded(c: Settings, names: Names, name: string, now: int): (Names, bool) {
    var room := if |names| >= MAX_TRACKED_KEYS && name !in names then map[] else names;
    var (next, locked) := CountNext(c, NameCounter(room, name), now);
    (room[name := next], locked)
  }

  // The database counter.
  function AccountRecorded(c: Settings, a: Account, now: int): (Account, bool) {
    var failed := a.failedLogins + 1;
    if failed >= c.maxFailures then (a.(failedLogins := 0, lockedUntil := Some(now + c.lockout)), true)
    else (a.(failedLogins := failed), false)
  }

  // What is decided about the name, once its source is not blocked.
  datatype Verdict = Verdict(names: Names, accounts: Accounts, outcome: Outcome)

  function Judged(c: Settings, names: Names, accounts: Accounts, t: Attempt): Verdict {
    if t.name == "" || t.name !in accounts then
      var counter := NameCounter(names, t.name);
      if Locked(counter.lockedUntil, t.now) then
        Verdict(names, accounts, Rejected(429, LoginBlocked, Some(RetryAfter(counter.lockedUntil.value, t.now))))
      else
        var (names', locked) := NameRecorded(c, names, t.name, t.now);
        Verdict(names', accounts, Rejected(401, if locked then Lockout else LoginFail, None))
    else
      var a := accounts[t.name];
      if Locked(a.lockedUntil, t.now) then
        Verdict(names, accounts, Rejected(429, LoginBlocked, Some(RetryAfter(a.lockedUntil.value, t.now))))
      else if !a.active then
        Verdict(names, accounts, Rejected(401, LoginFail, None))
      else if t.correct then
        Verdict(names, accounts[t.name := a.(failedLogins := 0, lockedUntil := None)], Success)
      else
        var (a', locked) := AccountRecorded(c, a, t.now);
        Verdict(names, accounts[t.name := a'], Rejected(401, if locked then Lockout else LoginFail, None))
  }

  function Authenticate(c: Settings, s: State, t: Attempt): (State, Outcome)
    requires c.Valid()
  {
    Refereed(c, s, t, Judged(c, s.names, s.accounts, t))
  }

  // The source's window has the first word; a verdict that stands is recorded against it.
  function Refereed(c: Settings, s: State, t: Attempt, v: Verdict): (State, Outcome)
    requires c.Valid()
  {
    var checked := SourceChecked(c, s.sources, t.source, t.now);
    var retry := SourceRetry(c, s.sources, t.source, t.now);
    if retry.Some? then (s.(sources := checked), Rejected(429, LoginBlocked, retry))
    else
      var sources := if v.outcome.Success? then checked else SourceRecorded(checked, t.source, t.now);
      (State(sources, v.names, v.accounts), v.outcome)
  }

  class LoginService {
    const settings: Settings
    var sources: Sources
    var names: Names
    var accounts: Accounts

    ghost function Abs(): State
      reads this
    {
      State(sources, names, accounts)
    }

    constructor (settings: Settings, accounts: Accounts)
      ensures this.settings == settings && Abs() == State(map[], map[], accounts)
    {
      this.settings := settings;
      this.sources, this.names, this.accounts := map[], map[], accounts;
    }

    method SourceRetryAfter(source: string, now: int) returns (retry: Option<int>)
      requires settings.Valid()
      modifies `sources
      ensures sources == SourceChecked(settings, old(sources), source, now)
      ensures retry == SourceRetry(settings, old(sources), source, now)
    {
      if source !in sources || sources[source] == [] {
        return None;
      }
      var failures := sources[source];
      while failures != [] && now - failures[0] >= settings.window
        invariant Unexpired(settings, failures, now) == Unexpired(settings, sources[source], now)
        decreases |failures|
      {
        failures := failures[1..];
      }
      sources := sources[source := failures];
      if |failures| < settings.sourceMaxFailures {
        return None;
      }
      retry := Some(RetryAfter(failures[0] + settings.window, now));
    }

    method RecordSourceFailure(source: string, now: int)
      modifies `sources
      ensures sources == SourceRecorded(old(sources), source, now)
    {
      if |sources| >= MAX_TRACKED_KEYS && source !in sources {
        sources := map[];
      }
      var failures := if source in sources then sources[source] else [];
      sources := sources[source := failures + [now]];
    }

    method NameRetryAfter(name: string, now: int) returns (retry: Option<int>)
      ensures var counter := NameCounter(names, name);
        retry == if Locked(counter.lockedUntil, now) then Some(RetryAfter(counter.lockedUntil.value, now)) else None
    {
      if name in names {
        var until := names[name].lockedUntil;
        if until.Some? && until.value > now {
          return Some(RetryAfter(until.value, now));
        }
      }
      retry := None;
    }

    method RecordNameFailure(name: string, now: int) returns (locked: bool)
      modifies `names
      ensures (names, locked) == NameRecorded(settings, old(names), name, now)
    {
      if |names| >= MAX_TRACKED_KEYS && name !in names {
        names := map[];
      }
      var entry := if name in names then names[name] else NameCount(0, None);
      var count, lockedUntil := entry.count, entry.lockedUntil;
      if lockedUntil.Some? && lockedUntil.value <= now {
        count, lockedUntil := 0, None;
      }
      count := count + 1;
      if count >= settings.maxFailures {
        names := names[name := NameCount(0, Some(now + settings.lockout))];
        return true;
      }
      names := names[name := NameCount(count, lockedUntil)];
      locked := false;
    }

    method Login(t: Attempt) returns (outcome: Outcome)
      requires settings.Valid()
      modifies this
      ensures (Abs(), outcome) == Authenticate(settings, old(Abs()), t)
    {
      var retry := SourceRetryAfter(t.source, t.now);
      if retry.Some? {
        return Rejected(429, LoginBlocked, retry);
      }
      if t.name == "" || t.name !in accounts {
        retry := NameRetryAfter(t.name, t.now);
        if retry.Some? {
          RecordSourceFailure(t.source, t.now);
          return Rejected(429, LoginBlocked, retry);
        }
        RecordSourceFailure(t.source, t.now);
        var locked := RecordNameFailure(t.name, t.now);
        return Rejected(401, if locked then Lockout else LoginFail, None);
      }
      var user := accounts[t.name];
      if user.lockedUntil.Some? && user.lockedUntil.value > t.now {
        RecordSourceFailure(t.source, t.now);
        return Rejected(429, LoginBlocked, Some(RetryAfter(user.lockedUntil.value, t.now)));
      }
      if !user.active {
        RecordSourceFailure(t.source, t.now);
        return Rejected(401, LoginFail, None);
      }
      if t.correct {
        accounts := accounts[t.name := user.(failedLogins := 0, lockedUntil := None)];
        return Success;
      }
      RecordSourceFailure(t.source, t.now);
      user := user.(failedLogins := user.failedLogins + 1);
      var locked := user.failedLogins >= settings.maxFailures;
      if locked {
        user := user.(failedLogins := 0, lockedUntil := Some(t.now + settings.lockout));
      }
      accounts := accounts[t.name := user];
      outcome := Rejected(401, if locked then Lockout else LoginFail, None);
    }
  }

  // ---- runs ----

  function EndClock(clock: int, attempts: seq<Attempt>): int {
    if attempts == [] then clock else attempts[|attempts| - 1].now
  }

  // The clock never runs backwards.
  predicate Clocked(clock: int, attempts: seq<Attempt>)
    decreases |attempts|
  {
    attempts == [] ||
    var n := |attempts| - 1;
    Clocked(clock, attempts[..n]) && EndClock(clock, attempts[..n]) <= attempts[n].now
  }

  function After(c: Settings, s: State, attempts: seq<Attempt>): State
    requires c.Valid()
    decreases |attempts|
  {
    if attempts == [] then s
    else Authenticate(c, After(c, s, attempts[..|attempts| - 1]), attempts[|attempts| - 1]).0
  }

  // What the callers see, in order.
  function Outcomes(c: Settings, s: State, attempts: seq<Attempt>): (outs: seq<Outcome>)
    requires c.Valid()
    ensures |outs| == |attempts|
    decreases |attempts|
  {
    if attempts == [] then []
    else
      var n := |attempts| - 1;
      Outcomes(c, s, attempts[..n]) + [Authenticate(c, After(c, s, attempts[..n]), attempts[n]).1]
  }

  // No attempt carries the right password of `name`.
  predicate AllWrong(attempts: seq<Attempt>, name: string) {
    forall i :: 0 <= i < |attempts| && attempts[i].name == name ==> !attempts[i].correct
  }

  // ---- the two lockout counters ----

  // The memory counter of a name nobody has, and the database counter of an account.
  ghost predicate SameCounter(n: NameCount, a: Account, clock: int) {
    && n.count == a.failedLogins
    && (n.lockedUntil == a.lockedUntil || (n.lockedUntil.None? && a.lockedUntil.value <= clock))
    && (n.lockedUntil.Some? ==> n.count == 0)
  }

  // Two sets of tables alike except that `name` has no account in one and an active account,
  // and so no counter in memory, in the other.
  ghost predicate AlikeTables(names: Names, names': Names, accounts: Accounts, accounts': Accounts,
                              name: string, clock: int) {
    && name != "" && name !in accounts && name in accounts'
    && names' == names - {name}
    && accounts' == accounts[name := accounts'[name]]
    && accounts'[name].active
    && SameCounter(NameCounter(names, name), accounts'[name], clock)
  }

  ghost predicate Alike(without: State, with: State, name: string, clock: int) {
    && without.sources == with.sources
    && AlikeTables(without.names, with.names, without.accounts, with.accounts, name, clock)
  }

  // The name table is not cleared by the next attempt, or by any attempt of a run.
  ghost predicate RoomForName(s: State, t: Attempt) {
    |s.names| < MAX_TRACKED_KEYS || t.name in s.names
  }

  ghost predicate NamesKept(c: Settings, s: State, attempts: seq<Attempt>)
    requires c.Valid()
    decreases |attempts|
  {
    attempts == [] ||
    var n := |attempts| - 1;
    NamesKept(c, s, attempts[..n]) && RoomForName(After(c, s, attempts[..n]), attempts[n])
  }

  lemma AlikeStep(c: Settings, without: State, with: State, name: string, clock: int, t: Attempt)
    requires c.Valid() && Alike(without, with, name, clock) && clock <= t.now
    requires t.name == name ==> !t.correct
    requires RoomForName(without, t)
    ensures Authenticate(c, without, t).1 == Authenticate(c, with, t).1
    ensures Alike(Authenticate(c, without, t).0, Authenticate(c, with, t).0, name, t.now)
  {
    CounterStep(c, NameCounter(without.names, name), with.accounts[name], clock, t.now);
    JudgedAlike(c, without.names, with.names, without.accounts, with.accounts, name, t);
    RefereedAlike(c, without, with, name, t,
                  Judged(c, without.names, without.accounts, t), Judged(c, with.names, with.accounts, t));
  }

  lemma RefereedAlike(c: Settings, without: State, with: State, name: string, t: Attempt, v: Verdict, v': Verdict)
    requires c.Valid() && Alike(without, with, name, t.now) && v.outcome == v'.outcome
    requires AlikeTables(v.names, v'.names, v.accounts, v'.accounts, name, t.now)
    ensures Refereed(c, without, t, v).1 == Refereed(c, with, t, v').1
    ensures Alike(Refereed(c, without, t, v).0, Refereed(c, with, t, v').0, name, t.now)
  {
  }

  lemma JudgedAlike(c: Settings, names: Names, names': Names, accounts: Accounts, accounts': Accounts,
                    name: string, t: Attempt)
    requires AlikeTables(names, names', accounts, accounts', name, t.now)
    requires t.name == name ==> !t.correct
    requires |names| < MAX_TRACKED_KEYS || t.name in names
    ensures var v, v' := Judged(c, names, accounts, t), Judged(c, names', accounts', t);
      v.outcome == v'.outcome && AlikeTables(v.names, v'.names, v.accounts, v'.accounts, name, t.now)
  {
    if t.name == name {
      OwnNameAlike(c, names, names', accounts, accounts', name, t);
    } else if t.name == "" || t.name !in accounts {
      OtherNameAlike(c, names, names', accounts, accounts', name, t);
    } else {
      OtherAccountAlike(c, names, names', accounts, accounts', name, t);
    }
  }

  // What one failure does to the two counters.
  lemma CounterStep(c: Settings, n: NameCount, a: Account, clock: int, now: int)
    requires SameCounter(n, a, clock) && clock <= now
    ensures SameCounter(n, a, now)
    ensures Locked(n.lockedUntil, now) == Locked(a.lockedUntil, now)
    ensures Locked(n.lockedUntil, now) ==> n.lockedUntil == a.lockedUntil
    ensures !Locked(n.lockedUntil, now) ==>
      var (n', locked), (a', locked') := CountNext(c, n, now), AccountRecorded(c, a, now);
      locked == locked' && SameCounter(n', a', now)
  {
  }

  lemma UpdateCommutes<V>(m: map<string, V>, k: string, v: V, name: string)
    ensures k != name ==> m[k := v] - {name} == (m - {name})[k := v]
    ensures k == name ==> m[k := v] - {name} == m - {name}
  {
  }

  lemma OwnNameAlike(c: Settings, names: Names, names': Names, accounts: Accounts, accounts': Accounts,
                    name: string, t: Attempt)
    requires AlikeTables(names, names', accounts, accounts', name, t.now)
    requires |names| < MAX_TRACKED_KEYS || t.name in names
    requires t.name == name && !t.correct
    ensures var v, v' := Judged(c, names, accounts, t), Judged(c, names', accounts', t);
      v.outcome == v'.outcome && AlikeTables(v.names, v'.names, v.accounts, v'.accounts, name, t.now)
  {
    var n, a := NameCounter(names, name), accounts'[name];
    CounterStep(c, n, a, t.now, t.now);
    UpdateCommutes(names, name, CountNext(c, n, t.now).0, name);
    assert accounts'[name := AccountRecorded(c, a, t.now).0] == accounts[name := AccountRecorded(c, a, t.now).0];
  }

  lemma OtherNameAlike(c: Settings, names: Names, names': Names, accounts: Accounts, accounts': Accounts,
                    name: string, t: Attempt)
    requires AlikeTables(names, names', accounts, accounts', name, t.now)
    requires |names| < MAX_TRACKED_KEYS || t.name in names
    requires t.name != name && (t.name == "" || t.name !in accounts)
    ensures var v, v' := Judged(c, names, accounts, t), Judged(c, names', accounts', t);
      v.outcome == v'.outcome && AlikeTables(v.names, v'.names, v.accounts, v'.accounts, name, t.now)
  {
    RemovalShrinks(names, name);
    UpdateCommutes(names, t.name, CountNext(c, NameCounter(names, t.name), t.now).0, name);
  }

  lemma OtherAccountAlike(c: Settings, names: Names, names': Names, accounts: Accounts, accounts': Accounts,
                    name: string, t: Attempt)
    requires AlikeTables(names, names', accounts, accounts', name, t.now)
    requires |names| < MAX_TRACKED_KEYS || t.name in names
    requires t.name != name && t.name != "" && t.name in accounts
    ensures var v, v' := Judged(c, names, accounts, t), Judged(c, names', accounts', t);
      v.outcome == v'.outcome && AlikeTables(v.names, v'.names, v.accounts, v'.accounts, name, t.now)
  {
    var a, own := accounts[t.name], accounts'[name];
    assert accounts'[t.name] == a;
    UpdatesCommute(accounts, name, own, t.name, a.(failedLogins := 0, lockedUntil := None));
    UpdatesCommute(accounts, name, own, t.name, AccountRecorded(c, a, t.now).0);
  }

  lemma UpdatesCommute<V>(m: map<string, V>, j: string, v: V, k: string, w: V)
    requires j != k
    ensures m[j := v][k := w] == m[k := w][j := v]
  {
  }

  lemma RemovalShrinks(m: Names, k: string)
    ensures |m - {k}| <= |m|
  {
    assert (m - {k}).Keys <= m.Keys;
    assert |(m - {k}).Keys| <= |m.Keys| by { SubsetSize((m - {k}).Keys, m.Keys); }
  }

  lemma SubsetSize(a: set<string>, b: set<string>)
    requires a <= b
    ensures |a| <= |b|
  {
    assert b == a + (b - a);
  }

  // Fed the same wrong passwords at the same times, from any sources and with any other logins
  // in between, a name with no account and an active account answer alike at every step: the
  // same status, the same event, the same retry-after, through lock, expiry and relock.
  lemma {:induction false} CountersBisimilar(c: Settings, without: State, with: State, name: string,
                                             clock: int, attempts: seq<Attempt>)
    requires c.Valid() && Alike(without, with, name, clock)
    requires Clocked(clock, attempts) && AllWrong(attempts, name) && NamesKept(c, without, attempts)
    ensures Outcomes(c, without, attempts) == Outcomes(c, with, attempts)
    ensures Alike(After(c, without, attempts), After(c, with, attempts), name, EndClock(clock, attempts))
    decreases |attempts|
  {
    if attempts != [] {
      var n := |attempts| - 1;
      CountersBisimilar(c, without, with, name, clock, attempts[..n]);
      AlikeStep(c, After(c, without, attempts[..n]), After(c, with, attempts[..n]), name,
                EndClock(clock, attempts[..n]), attempts[n]);
    }
  }

  // ---- the sliding window per source ----

  // Whether an attempt is recorded against a source: it is that source's, it is not blocked, and
  // it fails.
  predicate Records(c: Settings, s: State, t: Attempt, source: string)
    requires c.Valid()
  {
    && t.source == source
    && SourceRetry(c, s.sources, source, t.now).None?
    && !Authenticate(c, s, t).1.Success?
  }

  // The times at which a run recorded a failure against a source.
  function Recorded(c: Settings, s: State, attempts: seq<Attempt>, source: string): seq<int>
    requires c.Valid()
    decreases |attempts|
  {
    if attempts == [] then []
    else
      var n := |attempts| - 1;
      Recorded(c, s, attempts[..n], source) +
        (if Records(c, After(c, s, attempts[..n]), attempts[n], source) then [attempts[n].now] else [])
  }

  // The source table is not cleared by the next attempt, or by any attempt of a run.
  ghost predicate RoomForSource(s: State, t: Attempt) {
    |s.sources| < MAX_TRACKED_KEYS || t.source in s.sources
  }

  ghost predicate SourcesKept(c: Settings, s: State, attempts: seq<Attempt>)
    requires c.Valid()
    decreases |attempts|
  {
    attempts == [] ||
    var n := |attempts| - 1;
    SourcesKept(c, s, attempts[..n]) && RoomForSource(After(c, s, attempts[..n]), attempts[n])
  }

  // At most `max` of the times lie in any window [a, a + length).
  ghost predicate AtMostPerWindow(times: seq<int>, max: int, length: int) {
    && (forall i, j :: 0 <= i < j < |times| ==> times[i] <= times[j])
    && forall i, j :: 0 <= i < |times| && 0 <= j < |times| && i + max <= j ==> times[j] - times[i] >= length
  }

  // The deque is the recorded times from index k on, and everything before k has expired.
  ghost predicate Window(c: Settings, deque: seq<int>, times: seq<int>, now: int) {
    var k := |times| - |deque|;
    && 0 <= k && deque == times[k..]
    && (forall i :: 0 <= i < k ==> now - times[i] >= c.window)
    && (forall i :: 0 <= i < |times| ==> times[i] <= now)
    && AtMostPerWindow(times, c.sourceMaxFailures, c.window)
  }

  lemma {:induction false} UnexpiredWindow(c: Settings, deque: seq<int>, times: seq<int>, clock: int, now: int)
    requires Window(c, deque, times, clock) && clock <= now
    ensures Window(c, Unexpired(c, deque, now), times, now)
    ensures AllUnexpired(c, Unexpired(c, deque, now), now)
    decreases |deque|
  {
    WindowLater(c, deque, times, clock, now);
    if deque != [] && now - deque[0] >= c.window {
      WindowDrops(c, deque, times, now);
      UnexpiredWindow(c, deque[1..], times, now, now);
    } else {
      FirstUnexpired(c, deque, times, now);
    }
  }

  ghost predicate AllUnexpired(c: Settings, deque: seq<int>, now: int) {
    forall i :: 0 <= i < |deque| ==> now - deque[i] < c.window
  }

  lemma DequeIndex(deque: seq<int>, times: seq<int>, k: nat, i: nat)
    requires k <= |times| && deque == times[k..] && i < |deque|
    ensures deque[i] == times[k + i]
  {
  }

  // The times are in order, so when the first has not expired none has.
  lemma FirstUnexpired(c: Settings, deque: seq<int>, times: seq<int>, now: int)
    requires Window(c, deque, times, now) && (deque == [] || now - deque[0] < c.window)
    ensures AllUnexpired(c, deque, now)
  {
    var k := |times| - |deque|;
    forall i | 0 <= i < |deque|
      ensures now - deque[i] < c.window
    {
      DequeIndex(deque, times, k, 0);
      DequeIndex(deque, times, k, i);
    }
  }

  lemma WindowDrops(c: Settings, deque: seq<int>, times: seq<int>, now: int)
    requires Window(c, deque, times, now) && deque != [] && now - deque[0] >= c.window
    ensures Window(c, deque[1..], times, now)
  {
    var k := |times| - |deque|;
    DequeIndex(deque, times, k, 0);
    assert times[k..][1..] == times[k + 1..];
  }

  lemma WindowRecords(c: Settings, deque: seq<int>, times: seq<int>, now: int)
    requires c.Valid() && Window(c, deque, times, now) && |deque| < c.sourceMaxFailures
    ensures Window(c, deque + [now], times + [now], now)
  {
  }

  // What one attempt does to a source's deque.
  lemma DequeStep(c: Settings, s: State, t: Attempt, source: string)
    requires c.Valid() && RoomForSource(s, t)
    ensures var deque, deque' := SourceFailures(s.sources, source),
                                 SourceFailures(Authenticate(c, s, t).0.sources, source);
      && (t.source != source ==> deque' == deque)
      && (t.source == source ==>
            deque' == Unexpired(c, deque, t.now) + (if Records(c, s, t, source) then [t.now] else []))
      && (Records(c, s, t, source) ==> |Unexpired(c, deque, t.now)| < c.sourceMaxFailures)
  {
    DequeChecked(c, s.sources, t, source);
  }

  lemma WindowStep(c: Settings, s: State, t: Attempt, source: string, times: seq<int>, clock: int)
    requires c.Valid() && RoomForSource(s, t) && clock <= t.now
    requires Window(c, SourceFailures(s.sources, source), times, clock)
    ensures Window(c, SourceFailures(Authenticate(c, s, t).0.sources, source),
                   times + (if Records(c, s, t, source) then [t.now] else []), t.now)
  {
    var deque := SourceFailures(s.sources, source);
    DequeStep(c, s, t, source);
    WindowLater(c, deque, times, clock, t.now);
    assert times + [] == times;
    if t.source == source {
      UnexpiredWindow(c, deque, times, clock, t.now);
      var left := Unexpired(c, deque, t.now);
      assert left + [] == left;
      if Records(c, s, t, source) {
        WindowRecords(c, left, times, t.now);
      }
    }
  }

  lemma DequeChecked(c: Settings, sources: Sources, t: Attempt, source: string)
    requires c.Valid() && (|sources| < MAX_TRACKED_KEYS || t.source in sources)
    ensures var checked := SourceChecked(c, sources, t.source, t.now);
      var left := if t.source != source then SourceFailures(sources, source)
                  else Unexpired(c, SourceFailures(sources, source), t.now);
      && SourceFailures(checked, source) == left
      && SourceFailures(SourceRecorded(checked, t.source, t.now), source)
         == if t.source != source then left else left + [t.now]
  {
    if SourceFailures(sources, t.source) != [] {
      assert sources.Keys + {t.source} == sources.Keys;
      assert |SourceChecked(c, sources, t.source, t.now).Keys| == |sources.Keys|;
    }
  }

  // Over any run in which the table is not cleared, a source records at most sourceMaxFailures
  // failures in any window, and its deque is the recorded failures with expired ones dropped
  // from the front.
  lemma {:induction false} SourceWindow(c: Settings, s: State, attempts: seq<Attempt>, source: string, clock: int)
    requires c.Valid() && SourceFailures(s.sources, source) == []
    requires Clocked(clock, attempts) && SourcesKept(c, s, attempts)
    ensures Window(c, SourceFailures(After(c, s, attempts).sources, source), Recorded(c, s, attempts, source),
                   EndClock(clock, attempts))
    decreases |attempts|
  {
    if attempts != [] {
      var n := |attempts| - 1;
      SourceWindow(c, s, attempts[..n], source, clock);
      WindowStep(c, After(c, s, attempts[..n]), attempts[n], source, Recorded(c, s, attempts[..n], source),
                 EndClock(clock, attempts[..n]));
    }
  }

  // In particular, at most sourceMaxFailures failures are recorded in any window.
  lemma SourceRateBounded(c: Settings, s: State, attempts: seq<Attempt>, source: string, clock: int)
    requires c.Valid() && SourceFailures(s.sources, source) == []
    requires Clocked(clock, attempts) && SourcesKept(c, s, attempts)
    ensures AtMostPerWindow(Recorded(c, s, attempts, source), c.sourceMaxFailures, c.window)
  {
    SourceWindow(c, s, attempts, source, clock);
  }

  lemma WindowLater(c: Settings, deque: seq<int>, times: seq<int>, clock: int, now: int)
    requires Window(c, deque, times, clock) && clock <= now
    ensures Window(c, deque, times, now)
  {
  }

  // The recorded times from some index on, split exactly where they expire.
  ghost predicate ExactlyUnexpired(c: Settings, left: seq<int>, times: seq<int>, now: int) {
    var k := |times| - |left|;
    && 0 <= k && left == times[k..]
    && forall i :: 0 <= i < |times| ==> (i < k <==> now - times[i] >= c.window)
  }

  // A check leaves exactly the failures that have not expired.
  lemma CheckLeavesUnexpired(c: Settings, s: State, attempts: seq<Attempt>, source: string, clock: int, now: int)
    requires c.Valid() && SourceFailures(s.sources, source) == []
    requires Clocked(clock, attempts) && SourcesKept(c, s, attempts) && EndClock(clock, attempts) <= now
    ensures ExactlyUnexpired(c, SourceFailures(SourceChecked(c, After(c, s, attempts).sources, source, now), source),
                             Recorded(c, s, attempts, source), now)
  {
    SourceWindow(c, s, attempts, source, clock);
    var deque := SourceFailures(After(c, s, attempts).sources, source);
    UnexpiredExactly(c, deque, Recorded(c, s, attempts, source), EndClock(clock, attempts), now);
  }

  lemma UnexpiredExactly(c: Settings, deque: seq<int>, times: seq<int>, clock: int, now: int)
    requires Window(c, deque, times, clock) && clock <= now
    ensures ExactlyUnexpired(c, Unexpired(c, deque, now), times, now)
  {
    UnexpiredWindow(c, deque, times, clock, now);
    var left := Unexpired(c, deque, now);
    var k := |times| - |left|;
    assert forall i :: k <= i < |times| ==> times[i] == left[i - k];
  }

  ghost predicate BlockedByLast(c: Settings, sources: Sources, source: string, times: seq<int>, now: int)
    requires c.Valid()
  {
    var first := |times| - c.sourceMaxFailures;
    SourceRetry(c, sources, source, now)
    == if first >= 0 && now - times[first] < c.window then Some(RetryAfter(times[first] + c.window, now)) else None
  }

  // A source is blocked exactly while its last sourceMaxFailures recorded failures all lie within
  // the window, and is told to wait for the first of those to expire.
  lemma SourceBlockedIff(c: Settings, s: State, attempts: seq<Attempt>, source: string, clock: int, now: int)
    requires c.Valid() && SourceFailures(s.sources, source) == []
    requires Clocked(clock, attempts) && SourcesKept(c, s, attempts) && EndClock(clock, attempts) <= now
    ensures BlockedByLast(c, After(c, s, attempts).sources, source, Recorded(c, s, attempts, source), now)
  {
    SourceWindow(c, s, attempts, source, clock);
    RetryIff(c, After(c, s, attempts).sources, source, Recorded(c, s, attempts, source),
             EndClock(clock, attempts), now);
  }

  lemma RetryIff(c: Settings, sources: Sources, source: string, times: seq<int>, clock: int, now: int)
    requires c.Valid() && Window(c, SourceFailures(sources, source), times, clock) && clock <= now
    ensures BlockedByLast(c, sources, source, times, now)
  {
    BlockedIff(c, SourceFailures(sources, source), times, clock, now);
  }

  lemma BlockedIff(c: Settings, deque: seq<int>, times: seq<int>, clock: int, now: int)
    requires c.Valid() && Window(c, deque, times, clock) && clock <= now
    ensures var left := Unexpired(c, deque, now); var first := |times| - c.sourceMaxFailures;
      && |left| <= c.sourceMaxFailures
      && (|left| == c.sourceMaxFailures <==> first >= 0 && now - times[first] < c.window)
      && (|left| == c.sourceMaxFailures ==> left[0] == times[first])
  {
    UnexpiredExactly(c, deque, times, clock, now);
    UnexpiredWindow(c, deque, times, clock, now);
    var left := Unexpired(c, deque, now);
    assert left != [] ==> left[0] == times[|times| - |left|] && left[|left| - 1] == times[|times| - 1];
  }

  // ---- password checks per account ----

  // Whether an attempt gets as far as checking the password of an account.
  predicate ChecksPassword(c: Settings, s: State, t: Attempt)
    requires c.Valid()
  {
    && SourceRetry(c, s.sources, t.source, t.now).None?
    && t.name != "" && t.name in s.accounts
    && !Locked(s.accounts[t.name].lockedUntil, t.now)
    && s.accounts[t.name].active
  }

  function Checks(c: Settings, s: State, attempts: seq<Attempt>, name: string): seq<int>
    requires c.Valid()
    decreases |attempts|
  {
    if attempts == [] then []
    else
      var n := |attempts| - 1;
      Checks(c, s, attempts[..n], name) +
        (if attempts[n].name == name && ChecksPassword(c, After(c, s, attempts[..n]), attempts[n])
         then [attempts[n].now] else [])
  }

  // The counter is the number of checks since the last lock, and the lock was set by the check
  // before those.
  ghost predicate CounterTracks(c: Settings, a: Account, checks: seq<int>, now: int) {
    && 0 <= a.failedLogins < c.maxFailures
    && (|checks| > a.failedLogins ==> a.lockedUntil == Some(checks[|checks| - a.failedLogins - 1] + c.lockout))
    && (forall i :: 0 <= i < |checks| ==> checks[i] <= now)
    && AtMostPerWindow(checks, c.maxFailures, c.lockout)
  }

  lemma CounterTracksCheck(c: Settings, a: Account, checks: seq<int>, clock: int, now: int)
    requires c.Valid() && CounterTracks(c, a, checks, clock) && clock <= now && !Locked(a.lockedUntil, now)
    ensures CounterTracks(c, AccountRecorded(c, a, now).0, checks + [now], now)
  {
    var n := |checks|;
    if n >= c.maxFailures {
      assert checks[n - c.maxFailures] <= checks[n - a.failedLogins - 1];
    }
  }

  // What an attempt does to an account, when it does not carry its right password.
  lemma AccountStep(c: Settings, s: State, t: Attempt, name: string)
    requires c.Valid() && name != "" && name in s.accounts && (t.name == name ==> !t.correct)
    ensures var s' := Authenticate(c, s, t).0;
      && name in s'.accounts
      && s'.accounts[name] == if t.name == name && ChecksPassword(c, s, t)
                              then AccountRecorded(c, s.accounts[name], t.now).0 else s.accounts[name]
  {
  }

  // With no success in between, an account undergoes at most maxFailures password checks in any
  // interval [a, a + lockout), from however many sources they come.
  lemma {:induction false} ChecksBounded(c: Settings, s: State, attempts: seq<Attempt>, name: string, clock: int)
    requires c.Valid() && name != "" && name in s.accounts
    requires 0 <= s.accounts[name].failedLogins < c.maxFailures
    requires Clocked(clock, attempts) && AllWrong(attempts, name)
    ensures AtMostPerWindow(Checks(c, s, attempts, name), c.maxFailures, c.lockout)
    ensures name in After(c, s, attempts).accounts
    ensures CounterTracks(c, After(c, s, attempts).accounts[name], Checks(c, s, attempts, name),
                          EndClock(clock, attempts))
    decreases |attempts|
  {
    if attempts != [] {
      var n := |attempts| - 1;
      ChecksBounded(c, s, attempts[..n], name, clock);
      ChecksStep(c, After(c, s, attempts[..n]), attempts[n], name, Checks(c, s, attempts[..n], name),
                 EndClock(clock, attempts[..n]));
    }
  }

  lemma ChecksStep(c: Settings, s: State, t: Attempt, name: string, checks: seq<int>, clock: int)
    requires c.Valid() && name != "" && name in s.accounts && (t.name == name ==> !t.correct) && clock <= t.now
    requires CounterTracks(c, s.accounts[name], checks, clock)
    ensures name in Authenticate(c, s, t).0.accounts
    ensures CounterTracks(c, Authenticate(c, s, t).0.accounts[name],
                          checks + (if t.name == name && ChecksPassword(c, s, t) then [t.now] else []), t.now)
  {
    AccountStep(c, s, t, name);
    CounterTracksStep(c, s.accounts[name], checks, clock, t.now, t.name == name && ChecksPassword(c, s, t));
  }

  lemma CounterTracksStep(c: Settings, a: Account, checks: seq<int>, clock: int, now: int, checked: bool)
    requires c.Valid() && CounterTracks(c, a, checks, clock) && clock <= now
    requires checked ==> !Locked(a.lockedUntil, now)
    ensures CounterTracks(c, if checked then AccountRecorded(c, a, now).0 else a,
                          checks + (if checked then [now] else []), now)
  {
    if checked {
      CounterTracksCheck(c, a, checks, clock, now);
    } else {
      assert checks + [] == checks;
    }
  }

  // And the lock is not early: from a clean count, wrong passwords are only counted until the
  // maxFailures-th, which locks for the lockout from then on.
  lemma {:induction false} CountsUpToLock(c: Settings, s: State, attempts: seq<Attempt>, name: string)
    requires c.Valid() && name != "" && name in s.accounts && s.accounts[name].failedLogins == 0
    requires AllWrong(attempts, name) && |Checks(c, s, attempts, name)| <= c.maxFailures
    ensures name in After(c, s, attempts).accounts
    ensures After(c, s, attempts).accounts[name] == Counted(c, s.accounts[name], Checks(c, s, attempts, name))
    decreases |attempts|
  {
    if attempts != [] {
      var n := |attempts| - 1;
      CountsUpToLock(c, s, attempts[..n], name);
      CountStep(c, After(c, s, attempts[..n]), attempts[n], name, s.accounts[name], Checks(c, s, attempts[..n], name));
    }
  }

  function Counted(c: Settings, a: Account, checks: seq<int>): Account {
    if checks == [] || |checks| < c.maxFailures then a.(failedLogins := |checks|)
    else a.(failedLogins := 0, lockedUntil := Some(checks[|checks| - 1] + c.lockout))
  }

  lemma CountStep(c: Settings, s: State, t: Attempt, name: string, a: Account, checks: seq<int>)
    requires c.Valid() && name != "" && name in s.accounts && (t.name == name ==> !t.correct)
    requires s.accounts[name] == Counted(c, a, checks)
    requires var more := if t.name == name && ChecksPassword(c, s, t) then [t.now] else [];
      |checks + more| <= c.maxFailures
    ensures var more := if t.name == name && ChecksPassword(c, s, t) then [t.now] else [];
      name in Authenticate(c, s, t).0.accounts && Authenticate(c, s, t).0.accounts[name] == Counted(c, a, checks + more)
  {
    AccountStep(c, s, t, name);
    if t.name == name && ChecksPassword(c, s, t) {
      assert AccountRecorded(c, s.accounts[name], t.now).0 == Counted(c, a, checks + [t.now]);
    } else {
      assert checks + [] == checks;
    }
  }

  // A source of its own for each guess.
  function Source(n: nat): string {
    seq(n, _ => 's')
  }

  function Guess(name: string, n: nat, now: int): Attempt {
    Attempt(name, Source(n), now, false)
  }

  // The first n wrong guesses, all at instant 0.
  function Guesses(name: string, n: nat): seq<Attempt> {
    if n == 0 then [] else Guesses(name, n - 1) + [Guess(name, n - 1, 0)]
  }

  function Zeros(n: nat): seq<int> {
    seq(n, _ => 0)
  }

  function OneAccount(name: string): State {
    State(map[], map[], map[name := Account(true, 0, None)])
  }

  // After n wrong guesses: they are counted, and the sources to come are unused.
  ghost predicate Guessing(c: Settings, s: State, name: string, n: nat) {
    && name in s.accounts && s.accounts[name] == Counted(c, Account(true, 0, None), Zeros(n))
    && forall m: nat :: n <= m ==> SourceFailures(s.sources, Source(m)) == []
  }

  lemma OtherSourceUnused(c: Settings, s: State, t: Attempt, source: string)
    requires c.Valid() && t.source != source && SourceFailures(s.sources, source) == []
    ensures SourceFailures(Authenticate(c, s, t).0.sources, source) == []
  {
  }

  // A guess from a new source is checked when the account is not locked.
  lemma GuessIsChecked(c: Settings, s: State, name: string, n: nat, now: int)
    requires c.Valid() && name != "" && n <= c.maxFailures && (n == c.maxFailures ==> now >= c.lockout)
    requires Guessing(c, s, name, n)
    ensures ChecksPassword(c, s, Guess(name, n, now))
  {
  }

  lemma GuessIsCounted(c: Settings, s: State, name: string, n: nat)
    requires c.Valid() && name != "" && n < c.maxFailures && Guessing(c, s, name, n)
    ensures Guessing(c, Authenticate(c, s, Guess(name, n, 0)).0, name, n + 1)
  {
    GuessIsChecked(c, s, name, n, 0);
    AccountStep(c, s, Guess(name, n, 0), name);
    assert Zeros(n + 1) == Zeros(n) + [0];
    forall m: nat | n + 1 <= m
      ensures SourceFailures(Authenticate(c, s, Guess(name, n, 0)).0.sources, Source(m)) == []
    {
      assert |Source(n)| != |Source(m)|;
      OtherSourceUnused(c, s, Guess(name, n, 0), Source(m));
    }
  }

  lemma CheckAppends(c: Settings, s: State, attempts: seq<Attempt>, t: Attempt)
    requires c.Valid() && ChecksPassword(c, After(c, s, attempts), t)
    ensures Checks(c, s, attempts + [t], t.name) == Checks(c, s, attempts, t.name) + [t.now]
    ensures After(c, s, attempts + [t]) == Authenticate(c, After(c, s, attempts), t).0
  {
    assert (attempts + [t])[..|attempts|] == attempts;
  }

  ghost predicate GuessRun(c: Settings, attempts: seq<Attempt>, name: string, n: nat)
    requires c.Valid()
  {
    && Guessing(c, After(c, OneAccount(name), attempts), name, n)
    && Checks(c, OneAccount(name), attempts, name) == Zeros(n)
  }

  lemma GuessExtends(c: Settings, attempts: seq<Attempt>, name: string, n: nat)
    requires c.Valid() && name != "" && n < c.maxFailures && GuessRun(c, attempts, name, n)
    ensures GuessRun(c, attempts + [Guess(name, n, 0)], name, n + 1)
  {
    GuessIsChecked(c, After(c, OneAccount(name), attempts), name, n, 0);
    GuessIsCounted(c, After(c, OneAccount(name), attempts), name, n);
    CheckAppends(c, OneAccount(name), attempts, Guess(name, n, 0));
    assert Zeros(n + 1) == Zeros(n) + [0];
  }

  lemma NoGuess(c: Settings, name: string)
    requires c.Valid()
    ensures GuessRun(c, [], name, 0)
  {
    assert Checks(c, OneAccount(name), [], name) == Zeros(0);
  }

  lemma {:induction false} GuessesRun(c: Settings, name: string, n: nat)
    requires c.Valid() && name != "" && n <= c.maxFailures
    ensures GuessRun(c, Guesses(name, n), name, n)
    decreases n
  {
    if n == 0 {
      NoGuess(c, name);
    } else {
      GuessesRun(c, name, n - 1);
      GuessExtends(c, Guesses(name, n - 1), name, n - 1);
    }
  }

  // The interval is half open for a reason, whatever the limits: an account locked by its last
  // allowed check at 0 is checked once more at the very instant the lock ends.
  lemma ClosedIntervalHoldsOneMore(c: Settings, name: string)
    requires c.Valid() && name != ""
    ensures Checks(c, OneAccount(name), Guesses(name, c.maxFailures) + [Guess(name, c.maxFailures, c.lockout)], name)
         == Zeros(c.maxFailures) + [c.lockout]
  {
    var n := c.maxFailures;
    GuessesRun(c, name, n);
    GuessIsChecked(c, After(c, OneAccount(name), Guesses(name, n)), name, n, c.lockout);
    CheckAppends(c, OneAccount(name), Guesses(name, n), Guess(name, n, c.lockout));
  }

  // At most `max` of the times lie in any closed interval of length d.
  ghost predicate AtMostPerClosed(times: seq<int>, max: int, d: int) {
    forall i, j :: 0 <= i < |times| && 0 <= j < |times| && i + max <= j ==> times[j] - times[i] > d
  }

  // A run of logins without the right password of a known account.
  ghost predicate WrongRun(c: Settings, s: State, attempts: seq<Attempt>, name: string, clock: int) {
    && name in s.accounts && 0 <= s.accounts[name].failedLogins < c.maxFailures
    && Clocked(clock, attempts) && AllWrong(attempts, name)
  }

  // The lockout is what decides: no closed interval of length d ever holds more than maxFailures
  // checks of an account exactly when d is shorter than the lockout.
  lemma ClosedIntervalIff(c: Settings, name: string, d: int)
    requires c.Valid() && name != ""
    ensures (forall s, attempts, clock :: WrongRun(c, s, attempts, name, clock) ==>
               AtMostPerClosed(Checks(c, s, attempts, name), c.maxFailures, d))
       <==> d < c.lockout
  {
    if d < c.lockout {
      forall s, attempts, clock | WrongRun(c, s, attempts, name, clock)
        ensures AtMostPerClosed(Checks(c, s, attempts, name), c.maxFailures, d)
      {
        ChecksBounded(c, s, attempts, name, clock);
      }
    } else {
      LongIntervalHoldsMore(c, name, d);
    }
  }

  lemma LongIntervalHoldsMore(c: Settings, name: string, d: int)
    requires c.Valid() && name != "" && d >= c.lockout
    ensures exists s, attempts, clock ::
      WrongRun(c, s, attempts, name, clock) && !AtMostPerClosed(Checks(c, s, attempts, name), c.maxFailures, d)
  {
    var n := c.maxFailures;
    var attempts := Guesses(name, n) + [Guess(name, n, c.lockout)];
    GuessesAtZero(name, n);
    assert attempts[..|attempts| - 1] == Guesses(name, n);
    assert WrongRun(c, OneAccount(name), attempts, name, 0);
    ClosedIntervalHoldsOneMore(c, name);
    OneTooMany(Zeros(n), n, c.lockout, d);
  }

  lemma OneTooMany(zeros: seq<int>, n: nat, last: int, d: int)
    requires zeros == Zeros(n) && n >= 1 && last <= d
    ensures !AtMostPerClosed(zeros + [last], n, d)
  {
    var times := zeros + [last];
    assert times[n] - times[0] <= d;
  }

  lemma {:induction false} GuessesAtZero(name: string, n: nat)
    ensures Clocked(0, Guesses(name, n)) && EndClock(0, Guesses(name, n)) == 0 && AllWrong(Guesses(name, n), name)
    decreases n
  {
    if n > 0 {
      GuessesAtZero(name, n - 1);
      var earlier := Guesses(name, n - 1);
      assert (earlier + [Guess(name, n - 1, 0)])[..|earlier|] == earlier;
    }
  }

  // What a 429 tells the caller to wait is cut down to whole seconds: it is never more than is
  // needed (but for a second at least), and coming back when told finds the lock gone exactly when
  // the remaining time was whole seconds or no more than one.
  lemma RetryAfterReachesUnlock(until: int, now: int)
    requires until > now
    ensures var wait := RetryAfter(until, now) * SECOND;
      && wait >= SECOND
      && until - now - SECOND < wait <= (if until - now > SECOND then until - now else SECOND)
      && (!Locked(Some(until), now + wait) <==> until - now <= SECOND || (until - now) % SECOND == 0)
  {
  }
}
