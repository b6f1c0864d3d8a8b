// The 401/403 circuit breaker and the bounded 429 retry of backend/clients/fmp_client.py.
//
// The breaker keeps a failure count and the end of its pause. Its state is characterised by
// the log of answers alone (StateFromLog), and the bound on requests follows for every run.
module AuthBreaker {
  import opened Options

  const MAX_RETRIES := 2

  datatype Config = Config(threshold: int, cooldown: real)

  datatype State = State(failures: nat, openUntil: Option<real>)

  const CLOSED := State(0, None)

  predicate IsAuthFailure(status: int) { status == 401 || status == 403 }

  // A success, or a 402 (the key was accepted, the plan was not).
  predicate Resets(status: int) { !IsAuthFailure(status) && (status < 400 || status == 402) }

  predicate IsOpen(s: State, now: real) {
    s.openUntil.Some? && now < s.openUntil.value
  }

  function Noted(c: Config, s: State, status: int, now: real): State {
    if IsAuthFailure(status) then
      var failures := s.failures + 1;
      State(failures, if c.threshold > 0 && failures >= c.threshold then Some(now + c.cooldown) else s.openUntil)
    else if Resets(status) then
      CLOSED
    else
      s
  }

  // One attempt of a request: when it checks the breaker, whether the local limiter lets it
  // through, when it is sent after its waits, and the reply the network would give.
  datatype Reply = Status(code: int, at: real) | TransportError
  datatype Attempt = Attempt(at: real, admitted: bool, sentAt: real, reply: Reply)

  datatype SendResult = Response(status: int) | CircuitOpen | LocalRateLimit | Transport

  datatype Sent = Sent(state: State, result: SendResult, requests: nat)

  // What a request does from its i-th attempt on.
  function SendFrom(c: Config, s: State, attempts: seq<Attempt>, i: nat): Sent
    requires |attempts| == MAX_RETRIES + 1 && i < |attempts|
    decreases |attempts| - i
  {
    var a := attempts[i];
    if IsOpen(s, a.at) then Sent(s, CircuitOpen, 0)
    else if !a.admitted then Sent(s, LocalRateLimit, 0)
    else if a.reply.TransportError? then Sent(s, Transport, 1)
    else
      var s' := Noted(c, s, a.reply.code, a.reply.at);
      if a.reply.code == 429 && i < MAX_RETRIES then
        var rest := SendFrom(c, s', attempts, i + 1);
        rest.(requests := rest.requests + 1)
      else
        Sent(s', Response(a.reply.code), 1)
  }

  // One answer, by its number: 401 and 403 count, and pause requests from the threshold on; a
  // status below 400 or a 402 clears both fields; anything else changes nothing.
  lemma NotedByStatus(c: Config, s: State, status: int, now: real)
    ensures var s' := Noted(c, s, status, now);
      && (s'.failures == s.failures + 1 <==> status in {401, 403})
      && (status in {401, 403} ==>
            s'.openUntil == if 0 < c.threshold <= s.failures + 1 then Some(now + c.cooldown) else s.openUntil)
      && (status < 400 || status == 402 ==> s' == State(0, None))
      && (status >= 400 && status !in {401, 402, 403} ==> s' == s)
  {
  }

  class Client {
    const config: Config
    var authFailures: nat
    var breakerOpenUntil: Option<real>
    var requestCount: nat

    ghost function Abs(): State
      reads this
    {
      State(authFailures, breakerOpenUntil)
    }

    constructor (config: Config)
      ensures this.config == config && Abs() == CLOSED && requestCount == 0
    {
      this.config := config;
      authFailures, breakerOpenUntil, requestCount := 0, None, 0;
    }

    method ResetAuthBreaker()
      modifies `authFailures, `breakerOpenUntil
      ensures Abs() == CLOSED
    {
      authFailures, breakerOpenUntil := 0, None;
    }

    method NoteStatus(status: int, now: real)
      modifies `authFailures, `breakerOpenUntil
      ensures Abs() == Noted(config, old(Abs()), status, now)
    {
      if status == 401 || status == 403 {
        authFailures := authFailures + 1;
        if config.threshold > 0 && authFailures >= config.threshold {
          breakerOpenUntil := Some(now + config.cooldown);
        }
      } else if status < 400 || status == 402 {
        if authFailures != 0 || breakerOpenUntil.Some? {
          ResetAuthBreaker();
        }
      }
    }

    method Send(attempts: seq<Attempt>) returns (result: SendResult)
      requires |attempts| == MAX_RETRIES + 1
      modifies this
      ensures var sent := SendFrom(config, old(Abs()), attempts, 0);
        && Abs() == sent.state && result == sent.result
        && requestCount == old(requestCount) + sent.requests
    {
      ghost var before := Abs();
      for i := 0 to MAX_RETRIES + 1
        invariant i <= MAX_RETRIES
        invariant var all, rest := SendFrom(config, before, attempts, 0), SendFrom(config, Abs(), attempts, i);
          && all.state == rest.state && all.result == rest.result
          && all.requests + old(requestCount) == rest.requests + requestCount
      {
        var a := attempts[i];
        if breakerOpenUntil.Some? && a.at < breakerOpenUntil.value {
          return CircuitOpen;
        }
        if !a.admitted {
          return LocalRateLimit;
        }
        requestCount := requestCount + 1;
        if a.reply.TransportError? {
          return Transport;
        }
        NoteStatus(a.reply.code, a.reply.at);
        if !(a.reply.code == 429 && i < MAX_RETRIES) {
          return Response(a.reply.code);
        }
      }
      assert false;
    }
  }

  // ---- runs ----

  // One try in a sequential run: it checks the breaker at `at`, waits its turn in the limiter and
  // the pacer, is sent at `sentAt`, and the answer arrives at `answered` (no status: a transport
  // error, or the local limiter refused it).
  datatype Try = Try(at: real, sentAt: real, status: Option<int>, answered: real)

  // An answer that the key is refused, and one that shows it is accepted, by number.
  predicate Refuses(t: Try) { t.status == Some(401) || t.status == Some(403) }

  predicate Clears(t: Try) { t.status.Some? && (t.status.value < 400 || t.status.value == 402) }

  // Each try is made after the one before was answered, and answered after it was made.
  predicate Sequential(tries: seq<Try>)
    decreases |tries|
  {
    tries == [] ||
    var n := |tries| - 1;
    && Sequential(tries[..n])
    && tries[n].at <= tries[n].sentAt <= tries[n].answered
    && (n > 0 ==> tries[n - 1].answered <= tries[n].at)
  }

  // The state after a run, and the tries the breaker let through, oldest first.
  datatype Log = Log(state: State, sent: seq<Try>)

  function NotedTry(c: Config, s: State, t: Try): State {
    if t.status.Some? then Noted(c, s, t.status.value, t.answered) else s
  }

  function Play(c: Config, tries: seq<Try>): Log
    decreases |tries|
  {
    if tries == [] then Log(CLOSED, [])
    else
      var n := |tries| - 1;
      var before := Play(c, tries[..n]);
      if IsOpen(before.state, tries[n].at) then before
      else Log(NotedTry(c, before.state, tries[n]), before.sent + [tries[n]])
  }

  // The auth failures since the last answer that proved the key works.
  function AuthRun(sent: seq<Try>): (run: seq<Try>)
    decreases |sent|
  {
    if sent == [] then []
    else
      var n := |sent| - 1;
      if Clears(sent[n]) then []
      else if Refuses(sent[n]) then AuthRun(sent[..n]) + [sent[n]]
      else AuthRun(sent[..n])
  }

  // What the log alone says the breaker's state must be.
  function StateFromLog(c: Config, sent: seq<Try>): State {
    StateFromRun(c, AuthRun(sent))
  }

  function StateFromRun(c: Config, run: seq<Try>): State {
    State(|run|, if c.threshold > 0 && |run| >= c.threshold then Some(run[|run| - 1].answered + c.cooldown) else None)
  }

  // The two fields never drift from the log: the breaker is open at `now` exactly when the
  // current run of auth failures has reached the threshold and its last one is less than
  // `cooldown` old.
  lemma {:induction false} StateMatchesLog(c: Config, tries: seq<Try>)
    ensures Play(c, tries).state == StateFromLog(c, Play(c, tries).sent)
    decreases |tries|
  {
    if tries != [] {
      var n := |tries| - 1;
      StateMatchesLog(c, tries[..n]);
      var before := Play(c, tries[..n]);
      assert (before.sent + [tries[n]])[..|before.sent|] == before.sent;
    }
  }

  // After a run, one more try is sent; or it is held back.
  ghost predicate GoesOut(c: Config, tries: seq<Try>, t: Try) {
    Play(c, tries + [t]).sent == Play(c, tries).sent + [t]
  }

  lemma GoesOutUnlessOpen(c: Config, tries: seq<Try>, t: Try)
    ensures GoesOut(c, tries, t) <==> !IsOpen(Play(c, tries).state, t.at)
  {
    assert (tries + [t])[..|tries|] == tries;
    assert |Play(c, tries).sent + [t]| != |Play(c, tries).sent|;
  }

  // A try goes out exactly when the current run of refusals is short of the threshold, or its last
  // one is at least a cooldown old: the pause ends by itself, with a trial.
  lemma SentIff(c: Config, tries: seq<Try>, t: Try)
    ensures var run := AuthRun(Play(c, tries).sent); var n := |run|;
      GoesOut(c, tries, t) <==> c.threshold <= 0 || n < c.threshold || t.at >= run[n - 1].answered + c.cooldown
  {
    StateMatchesLog(c, tries);
    GoesOutUnlessOpen(c, tries, t);
  }

  function AuthSends(sent: seq<Try>): (fs: seq<Try>)
    decreases |sent|
  {
    if sent == [] then []
    else
      var n := |sent| - 1;
      AuthSends(sent[..n]) + (if Refuses(sent[n]) then [sent[n]] else [])
  }

  predicate NeverCleared(tries: seq<Try>)
    decreases |tries|
  {
    tries == [] || (NeverCleared(tries[..|tries| - 1]) && !Clears(tries[|tries| - 1]))
  }

  ghost predicate AnsweredBy(fs: seq<Try>, now: real) {
    forall i :: 0 <= i < |fs| ==> fs[i].answered <= now
  }

  lemma AppendSend(sent: seq<Try>, t: Try)
    ensures AuthSends(sent + [t]) == if Refuses(t) then AuthSends(sent) + [t] else AuthSends(sent)
    ensures !Clears(t) ==> AuthRun(sent + [t]) == if Refuses(t) then AuthRun(sent) + [t] else AuthRun(sent)
  {
    assert (sent + [t])[..|sent|] == sent;
    assert AuthSends(sent) + [] == AuthSends(sent);
  }

  // With nothing to reset it, the current run is every auth failure let through so far, each
  // answered before anything that comes after the run.
  lemma {:induction false} RunIsAllAuthSends(c: Config, tries: seq<Try>, now: real)
    requires NeverCleared(tries) && Sequential(tries) && (tries != [] ==> tries[|tries| - 1].answered <= now)
    ensures AuthRun(Play(c, tries).sent) == AuthSends(Play(c, tries).sent)
    ensures AnsweredBy(AuthSends(Play(c, tries).sent), now)
    decreases |tries|
  {
    if tries != [] {
      var n := |tries| - 1;
      RunIsAllAuthSends(c, tries[..n], now);
      AppendSend(Play(c, tries[..n]).sent, tries[n]);
    }
  }

  // From the threshold-th failure on, refused keys are tried at most once per cooldown.
  ghost predicate SpacedOnceTripped(c: Config, fs: seq<Try>) {
    && (forall i :: 0 <= i < |fs| ==> fs[i].sentAt <= fs[i].answered)
    && forall i :: 0 < i < |fs| ==>
      && fs[i - 1].sentAt <= fs[i].sentAt
      && (i >= c.threshold ==> fs[i].sentAt >= fs[i - 1].sentAt + c.cooldown)
  }

  lemma SpacedExtends(c: Config, fs: seq<Try>, t: Try)
    requires c.threshold > 0 && SpacedOnceTripped(c, fs) && !IsOpen(StateFromRun(c, fs), t.at)
    requires t.at <= t.sentAt <= t.answered && AnsweredBy(fs, t.at)
    ensures SpacedOnceTripped(c, fs + [t])
  {
  }

  lemma {:induction false} FailuresSpaced(c: Config, tries: seq<Try>)
    requires c.threshold > 0 && Sequential(tries) && NeverCleared(tries)
    ensures SpacedOnceTripped(c, AuthSends(Play(c, tries).sent))
    decreases |tries|
  {
    if tries != [] {
      var n := |tries| - 1;
      FailuresSpaced(c, tries[..n]);
      StateMatchesLog(c, tries[..n]);
      RunIsAllAuthSends(c, tries[..n], tries[n].at);
      var sent := Play(c, tries[..n]).sent;
      AppendSend(sent, tries[n]);
      if !IsOpen(StateFromRun(c, AuthSends(sent)), tries[n].at) {
        SpacedExtends(c, AuthSends(sent), tries[n]);
      }
    }
  }

  lemma NonPositiveProduct(x: real, y: real)
    requires x <= 0.0 <= y
    ensures x * y <= 0.0
  {
  }

  lemma {:induction false} SpacingAddsUp(c: Config, fs: seq<Try>, i: nat, j: nat)
    requires c.threshold > 0 && c.cooldown >= 0.0 && SpacedOnceTripped(c, fs) && i <= j < |fs|
    ensures fs[i].sentAt <= fs[j].sentAt
    ensures (j - i + 1 - c.threshold) as real * c.cooldown <= fs[j].sentAt - fs[i].sentAt
    decreases j - i
  {
    if i == j {
      NonPositiveProduct((1 - c.threshold) as real, c.cooldown);
    } else {
      SpacingAddsUp(c, fs, i, j - 1);
      var k := (j - i - c.threshold) as real;
      if j >= c.threshold {
        assert (k + 1.0) * c.cooldown == k * c.cooldown + c.cooldown;
      } else {
        NonPositiveProduct(k + 1.0, c.cooldown);
      }
    }
  }

  // How many refused calls a span of time may hold.
  function CallsAllowed(c: Config, span: real): int
    requires c.cooldown > 0.0
  {
    c.threshold + (span / c.cooldown).Floor
  }

  lemma FloorBound(c: Config, calls: int, span: real)
    requires c.cooldown > 0.0 && (calls - c.threshold) as real * c.cooldown <= span
    ensures calls <= CallsAllowed(c, span)
  {
    var k, q := (calls - c.threshold) as real, span / c.cooldown;
    assert q * c.cooldown == span;
    assert (k - q) * c.cooldown <= 0.0;
    assert k <= q;
  }

  lemma BoundFromSpacing(c: Config, fs: seq<Try>, i: nat, j: nat)
    requires c.threshold > 0 && c.cooldown > 0.0 && SpacedOnceTripped(c, fs) && i <= j < |fs|
    ensures j - i + 1 <= CallsAllowed(c, fs[j].sentAt - fs[i].sentAt)
  {
    SpacingAddsUp(c, fs, i, j);
    FloorBound(c, j - i + 1, fs[j].sentAt - fs[i].sentAt);
  }

  ghost predicate WithinAllowance(c: Config, fs: seq<Try>)
    requires c.cooldown > 0.0
  {
    forall i, j :: 0 <= i <= j < |fs| ==> j - i + 1 <= CallsAllowed(c, fs[j].sentAt - fs[i].sentAt)
  }

  lemma AllWithinAllowance(c: Config, fs: seq<Try>)
    requires c.threshold > 0 && c.cooldown > 0.0 && SpacedOnceTripped(c, fs)
    ensures WithinAllowance(c, fs)
  {
    forall i, j | 0 <= i <= j < |fs|
      ensures j - i + 1 <= CallsAllowed(c, fs[j].sentAt - fs[i].sentAt)
    {
      BoundFromSpacing(c, fs, i, j);
    }
  }

  // While no answer proves the key works, the requests answered 401/403 and sent within a duration D
  // number at most threshold + floor(D / cooldown), whatever else is answered in between.
  lemma AuthFailureBound(c: Config, tries: seq<Try>)
    requires c.threshold > 0 && c.cooldown > 0.0 && Sequential(tries) && NeverCleared(tries)
    ensures WithinAllowance(c, AuthSends(Play(c, tries).sent))
  {
    FailuresSpaced(c, tries);
    AllWithinAllowance(c, AuthSends(Play(c, tries).sent));
  }

  // When every answer is 401 or 403 the bound covers every request let through.
  lemma {:induction false} AllRefusedAllCounted(c: Config, tries: seq<Try>)
    requires forall i :: 0 <= i < |tries| ==> Refuses(tries[i])
    ensures AuthSends(Play(c, tries).sent) == Play(c, tries).sent
    decreases |tries|
  {
    if tries != [] {
      var n := |tries| - 1;
      AllRefusedAllCounted(c, tries[..n]);
      var sent := Play(c, tries[..n]).sent;
      assert (sent + [tries[n]])[..|sent|] == sent;
    }
  }

  // ---- the 429 retry ----

  predicate AnsweredWith(a: Attempt, status: int) {
    a.reply.Status? && a.reply.code == status
  }

  // Every call made passed the breaker and the limiter, and all but the last were answered 429.
  ghost predicate CallsMade(s: State, attempts: seq<Attempt>, n: nat) {
    && n <= |attempts|
    && (forall i :: 0 <= i < n ==> attempts[i].admitted && !IsOpen(s, attempts[i].at))
    && (forall i :: 0 <= i < n - 1 ==> AnsweredWith(attempts[i], 429))
  }

  // Why the request ends after n calls: each result has its one reason.
  predicate EndsWith(s: State, attempts: seq<Attempt>, n: nat, result: SendResult) {
    match result
    case CircuitOpen => n < |attempts| && IsOpen(s, attempts[n].at)
    case LocalRateLimit => n < |attempts| && !IsOpen(s, attempts[n].at) && !attempts[n].admitted
    case Transport => 0 < n <= |attempts| && attempts[n - 1].reply.TransportError?
    case Response(status) => 0 < n <= |attempts| && AnsweredWith(attempts[n - 1], status) && (status == 429 ==> n == 3)
  }

  // A request costs at most three calls, and ends for exactly one of four reasons. Its last answer
  // is what the caller sees and all that is noted; a 429 is handed back only when all three
  // attempts were answered 429.
  lemma SendOutcome(c: Config, s: State, attempts: seq<Attempt>)
    requires |attempts| == 3
    ensures var sent := SendFrom(c, s, attempts, 0);
      && CallsMade(s, attempts, sent.requests) && EndsWith(s, attempts, sent.requests, sent.result)
      && (!sent.result.Response? ==> sent.state == s && (sent.requests > 1 ==> AnsweredWith(attempts[0], 429)))
      && (sent.result.Response? ==>
            sent.state == Noted(c, s, sent.result.status, attempts[sent.requests - 1].reply.at))
      && (IsOpen(s, attempts[0].at) ==> sent == Sent(s, CircuitOpen, 0))
  {
    assert SendFrom(c, s, attempts, 1) == SendFrom(c, s, attempts, 1);
    assert SendFrom(c, s, attempts, 2) == SendFrom(c, s, attempts, 2);
  }

  // ---- a request is part of a run ----

  // The try an attempt makes; one that meets a transport error has no status.
  function TryOf(a: Attempt): Try {
    if a.reply.Status? then Try(a.at, a.sentAt, Some(a.reply.code), a.reply.at) else Try(a.at, a.sentAt, None, a.sentAt)
  }

  function TriesOf(attempts: seq<Attempt>, from: nat, n: nat): (tries: seq<Try>)
    requires from + n <= |attempts|
    ensures |tries| == n
    decreases n
  {
    if n == 0 then [] else [TryOf(attempts[from])] + TriesOf(attempts, from + 1, n - 1)
  }

  lemma PlayAppends(c: Config, tries: seq<Try>, t: Try)
    requires !IsOpen(Play(c, tries).state, t.at)
    ensures Play(c, tries + [t]) == Log(NotedTry(c, Play(c, tries).state, t), Play(c, tries).sent + [t])
  {
    assert (tries + [t])[..|tries|] == tries;
  }

  lemma Regroup<T>(a: seq<T>, t: T, b: seq<T>)
    ensures a + [t] + b == a + ([t] + b)
  {
  }

  // What a request leaves behind, and what it sends, is what the run makes of its calls.
  ghost predicate SendsAsRun(c: Config, tries: seq<Try>, attempts: seq<Attempt>, i: nat)
    requires |attempts| == MAX_RETRIES + 1 && i < |attempts|
  {
    var sent := SendFrom(c, Play(c, tries).state, attempts, i);
    && i + sent.requests <= |attempts|
    && var more := TriesOf(attempts, i, sent.requests);
       Play(c, tries + more) == Log(sent.state, Play(c, tries).sent + more)
  }

  lemma StoppedSends(c: Config, tries: seq<Try>, attempts: seq<Attempt>, i: nat)
    requires |attempts| == MAX_RETRIES + 1 && i < |attempts|
    requires IsOpen(Play(c, tries).state, attempts[i].at) || !attempts[i].admitted
    ensures SendsAsRun(c, tries, attempts, i)
  {
    assert tries + [] == tries && Play(c, tries).sent + [] == Play(c, tries).sent;
  }

  predicate Retried(a: Attempt, i: nat) {
    a.reply.Status? && a.reply.code == 429 && i < MAX_RETRIES
  }

  lemma LastSends(c: Config, tries: seq<Try>, attempts: seq<Attempt>, i: nat)
    requires |attempts| == MAX_RETRIES + 1 && i < |attempts|
    requires !IsOpen(Play(c, tries).state, attempts[i].at) && attempts[i].admitted && !Retried(attempts[i], i)
    ensures SendsAsRun(c, tries, attempts, i)
  {
    PlayAppends(c, tries, TryOf(attempts[i]));
    assert TriesOf(attempts, i, 1) == [TryOf(attempts[i])];
  }

  lemma RetriedSends(c: Config, tries: seq<Try>, attempts: seq<Attempt>, i: nat)
    requires |attempts| == MAX_RETRIES + 1 && i + 1 < |attempts|
    requires !IsOpen(Play(c, tries).state, attempts[i].at) && attempts[i].admitted && Retried(attempts[i], i)
    requires SendsAsRun(c, tries + [TryOf(attempts[i])], attempts, i + 1)
    ensures SendsAsRun(c, tries, attempts, i)
  {
    var t := TryOf(attempts[i]);
    PlayAppends(c, tries, t);
    var n := SendFrom(c, Play(c, tries + [t]).state, attempts, i + 1).requests;
    Regroup(tries, t, TriesOf(attempts, i + 1, n));
    Regroup(Play(c, tries).sent, t, TriesOf(attempts, i + 1, n));
  }

  // A request's calls are tries like any others, so every bound on runs of tries is one on runs of
  // requests, retries included.
  lemma {:induction false} SendIsRun(c: Config, tries: seq<Try>, attempts: seq<Attempt>, i: nat)
    requires |attempts| == MAX_RETRIES + 1 && i < |attempts|
    ensures SendsAsRun(c, tries, attempts, i)
    decreases |attempts| - i
  {
    if IsOpen(Play(c, tries).state, attempts[i].at) || !attempts[i].admitted {
      StoppedSends(c, tries, attempts, i);
    } else if Retried(attempts[i], i) {
      SendIsRun(c, tries + [TryOf(attempts[i])], attempts, i + 1);
      RetriedSends(c, tries, attempts, i);
    } else {
      LastSends(c, tries, attempts, i);
    }
  }
}
