// The request-body limit of backend/core/body_limit.py as a protocol between the server, the
// middleware and the app: chunks arrive, the app sends messages, in any interleaving.
module BodyLimit {
  // What the server hands to the middleware, and the middleware to the app.
  datatype Inbound = Chunk(size: nat) | Disconnect

  // What the app sends, and what reaches the client.
  datatype Outbound = Start(status: int) | Body(text: string)

  const REJECTION := [Start(413), Body("Request body too large.")]

  // The middleware's three variables.
  datatype State = State(received: nat, refused: bool, responseStarted: bool)

  const FRESH := State(0, false, false)

  // One message arriving for the app: the new state, what the app is handed, what the client is
  // sent. (One receive call is outstanding at a time, as the server interface has it.)
  function Receive(limit: int, s: State, m: Inbound): (State, Inbound, seq<Outbound>) {
    if s.refused then (s, Disconnect, [])
    else if m.Chunk? then
      var received := s.received + m.size;
      if received > limit && !s.responseStarted then (s.(received := received, refused := true), Disconnect, REJECTION)
      else (s.(received := received), m, [])
    else (s, m, [])
  }

  // One message from the app: the new state, and what the client is sent.
  function Send(s: State, m: Outbound): (State, seq<Outbound>) {
    if s.refused then (s, []) else (s.(responseStarted := s.responseStarted || m.Start?), [m])
  }

  class Exchange {
    const limit: int
    var received: nat
    var refused: bool
    var responseStarted: bool

    constructor (limit: int)
      ensures this.limit == limit && Abs() == FRESH
    {
      this.limit := limit;
      received, refused, responseStarted := 0, false, false;
    }

    ghost function Abs(): State
      reads this
    {
      State(received, refused, responseStarted)
    }

    method CountingReceive(message: Inbound) returns (toApp: Inbound, toClient: seq<Outbound>)
      modifies this
      ensures (Abs(), toApp, toClient) == Receive(limit, old(Abs()), message)
    {
      if refused {
        return Disconnect, [];
      }
      if message.Chunk? {
        received := received + message.size;
        if received > limit && !responseStarted {
          refused := true;
          return Disconnect, REJECTION;
        }
      }
      return message, [];
    }

    method GuardedSend(message: Outbound) returns (toClient: seq<Outbound>)
      modifies this
      ensures (Abs(), toClient) == Send(old(Abs()), message)
    {
      if refused {
        return [];
      }
      if message.Start? {
        responseStarted := true;
      }
      toClient := [message];
    }
  }

  // ---- runs ----

  datatype Event = Arrives(inbound: Inbound) | Says(outbound: Outbound)

  // Everything that passes in a run, oldest first: what arrived and what the app was handed, what
  // the app said and what the client was sent, and the bytes handed before the app's response.
  datatype Trace = Trace(state: State, arrived: seq<Inbound>, handed: seq<Inbound>, said: seq<Outbound>,
                         sent: seq<Outbound>, early: nat)

  function Size(m: Inbound): nat {
    if m.Chunk? then m.size else 0
  }

  function Total(messages: seq<Inbound>): nat {
    if messages == [] then 0 else Total(messages[..|messages| - 1]) + Size(messages[|messages| - 1])
  }

  predicate Started(messages: seq<Outbound>) {
    messages != [] && (messages[|messages| - 1].Start? || Started(messages[..|messages| - 1]))
  }

  function Passed(limit: int, t: Trace, e: Event): Trace {
    match e
    case Arrives(m) =>
      var (s, toApp, toClient) := Receive(limit, t.state, m);
      Trace(s, t.arrived + [m], t.handed + [toApp], t.said, t.sent + toClient,
            if Started(t.said) then t.early else t.early + Size(toApp))
    case Says(m) =>
      var (s, toClient) := Send(t.state, m);
      Trace(s, t.arrived, t.handed, t.said + [m], t.sent + toClient, t.early)
  }

  function Play(limit: int, events: seq<Event>): Trace
    decreases |events|
  {
    if events == [] then Trace(FRESH, [], [], [], [], 0)
    else Passed(limit, Play(limit, events[..|events| - 1]), events[|events| - 1])
  }

  lemma TotalExtends(messages: seq<Inbound>, m: Inbound)
    ensures Total(messages + [m]) == Total(messages) + Size(m)
  {
    assert (messages + [m])[..|messages|] == messages;
  }

  lemma StartedExtends(messages: seq<Outbound>, m: Outbound)
    ensures Started(messages + [m]) <==> Started(messages) || m.Start?
  {
    assert (messages + [m])[..|messages|] == messages;
  }

  // What holds while nothing has been refused: everything passes through unchanged.
  ghost predicate Transparent(limit: int, t: Trace) {
    && t.handed == t.arrived && t.sent == t.said
    && t.state.received == Total(t.arrived)
    && (t.state.responseStarted <==> Started(t.said))
    && (!Started(t.said) ==> t.early == Total(t.arrived) <= limit)
  }

  // The answer to a body that is too large.
  ghost predicate TooLarge(messages: seq<Outbound>) {
    messages == [Start(413), Body("Request body too large.")]
  }

  // The app is handed what arrives up to the message that exceeds the limit, and from there on is
  // only told that the client has gone.
  ghost predicate CutAt(limit: int, t: Trace, n: nat) {
    && n < |t.arrived| == |t.handed|
    && Total(t.arrived[..n]) <= limit < Total(t.arrived[..n]) + Size(t.arrived[n])
    && t.handed[..n] == t.arrived[..n]
    && forall j :: n <= j < |t.handed| ==> t.handed[j] == Disconnect
  }

  // What holds after a refusal: the app's words up to some point, none of them a response start,
  // then the 413 and nothing more; and the body that arrived really was too large.
  ghost predicate Rejected(limit: int, t: Trace) {
    && Total(t.arrived) > limit
    && (exists n :: CutAt(limit, t, n))
    && exists k :: RejectedAt(t, k)
  }

  ghost predicate RejectedAt(t: Trace, k: nat) {
    k <= |t.said| && k <= |t.sent| && !Started(t.said[..k]) && t.sent[..k] == t.said[..k] && TooLarge(t.sent[k..])
  }

  ghost predicate Sound(limit: int, t: Trace) {
    t.early <= limit && if t.state.refused then Rejected(limit, t) else Transparent(limit, t)
  }

  lemma {:induction false} EveryRun(limit: int, events: seq<Event>)
    requires limit > 0
    ensures Sound(limit, Play(limit, events))
    decreases |events|
  {
    if events != [] {
      var t := Play(limit, events[..|events| - 1]);
      EveryRun(limit, events[..|events| - 1]);
      match events[|events| - 1]
      case Arrives(m) => ArrivalKeeps(limit, t, m);
      case Says(m) => SayingKeeps(limit, t, m);
    }
  }

  lemma ArrivalKeeps(limit: int, t: Trace, m: Inbound)
    requires Sound(limit, t)
    ensures Sound(limit, Passed(limit, t, Arrives(m)))
  {
    TotalExtends(t.arrived, m);
    if t.state.refused {
      ArrivalAfterRefusal(limit, t, m);
    } else if Passed(limit, t, Arrives(m)).state.refused {
      ArrivalRefused(limit, t, m);
    } else {
      assert Passed(limit, t, Arrives(m)).sent == t.sent;
    }
  }

  lemma ArrivalAfterRefusal(limit: int, t: Trace, m: Inbound)
    requires t.state.refused && Rejected(limit, t)
    ensures Rejected(limit, Passed(limit, t, Arrives(m)))
  {
    TotalExtends(t.arrived, m);
    var after := Passed(limit, t, Arrives(m));
    var n: nat :| CutAt(limit, t, n);
    StillCut(limit, t, after, m, n);
    var k: nat :| RejectedAt(t, k);
    assert after.said == t.said && after.sent == t.sent;
    assert RejectedAt(after, k);
  }

  lemma StillCut(limit: int, t: Trace, after: Trace, m: Inbound, n: nat)
    requires CutAt(limit, t, n) && after.arrived == t.arrived + [m] && after.handed == t.handed + [Disconnect]
    ensures CutAt(limit, after, n)
  {
    assert after.arrived[..n] == t.arrived[..n] && after.handed[..n] == t.handed[..n];
  }

  lemma ArrivalRefused(limit: int, t: Trace, m: Inbound)
    requires !t.state.refused && Transparent(limit, t) && Passed(limit, t, Arrives(m)).state.refused
    ensures Rejected(limit, Passed(limit, t, Arrives(m)))
  {
    TotalExtends(t.arrived, m);
    var after := Passed(limit, t, Arrives(m));
    var n, k := |t.arrived|, |t.said|;
    assert after.arrived[..n] == t.arrived && after.handed[..n] == t.arrived;
    assert CutAt(limit, after, n);
    assert after.sent[..k] == t.said && after.sent[k..] == REJECTION && t.said[..k] == t.said;
    assert RejectedAt(after, k);
  }

  lemma SayingKeeps(limit: int, t: Trace, m: Outbound)
    requires Sound(limit, t)
    ensures Sound(limit, Passed(limit, t, Says(m)))
  {
    StartedExtends(t.said, m);
    var after := Passed(limit, t, Says(m));
    if t.state.refused {
      var n: nat :| CutAt(limit, t, n);
      assert CutAt(limit, after, n);
      var k: nat :| RejectedAt(t, k);
      assert after.said[..k] == t.said[..k] && after.sent == t.sent;
      assert RejectedAt(after, k);
    }
  }

  // The app is handed at most `limit` body bytes before its response starts, whatever is declared
  // and however the steps interleave.
  lemma AppSeesAtMostLimit(limit: int, events: seq<Event>)
    requires limit > 0
    ensures Play(limit, events).early <= limit
  {
    EveryRun(limit, events);
  }

  // The client gets one response: the app's own, or the 413 with no response start before it.
  lemma OneResponse(limit: int, events: seq<Event>)
    requires limit > 0
    ensures var t := Play(limit, events);
      t.sent == t.said || exists k :: RejectedAt(t, k)
  {
    EveryRun(limit, events);
  }

  // After n events, more than `limit` bytes have arrived and the app has not begun its response.
  ghost predicate OverBeforeStart(limit: int, events: seq<Event>, n: nat)
    requires n <= |events|
  {
    var t := Play(limit, events[..n]);
    Total(t.arrived) > limit && !Started(t.said)
  }

  lemma RefusedStep(limit: int, events: seq<Event>)
    requires limit > 0 && events != []
    ensures Play(limit, events).state.refused
       <==> Play(limit, events[..|events| - 1]).state.refused || OverBeforeStart(limit, events, |events|)
  {
    var t := Play(limit, events[..|events| - 1]);
    EveryRun(limit, events[..|events| - 1]);
    assert events[..|events|] == events;
    match events[|events| - 1]
    case Arrives(m) => TotalExtends(t.arrived, m);
    case Says(m) => StartedExtends(t.said, m);
  }

  // A request is refused exactly when at some point more than `limit` bytes have arrived and the
  // app's response has not started; every other request passes through unchanged both ways.
  lemma {:induction false} RefusedIff(limit: int, events: seq<Event>)
    requires limit > 0
    ensures Play(limit, events).state.refused <==> exists n :: 0 <= n <= |events| && OverBeforeStart(limit, events, n)
    ensures !Play(limit, events).state.refused ==>
      Play(limit, events).handed == Play(limit, events).arrived && Play(limit, events).sent == Play(limit, events).said
    decreases |events|
  {
    EveryRun(limit, events);
    if events == [] {
      assert !OverBeforeStart(limit, events, 0);
    } else {
      var earlier := events[..|events| - 1];
      RefusedIff(limit, earlier);
      RefusedStep(limit, events);
      forall n | 0 <= n <= |earlier|
        ensures OverBeforeStart(limit, earlier, n) <==> OverBeforeStart(limit, events, n)
      {
        assert earlier[..n] == events[..n];
      }
    }
  }

  // So a request within the limit is never touched.
  lemma WithinLimitUntouched(limit: int, events: seq<Event>)
    requires limit > 0 && Total(Play(limit, events).arrived) <= limit
    ensures var t := Play(limit, events); !t.state.refused && t.handed == t.arrived && t.sent == t.said
  {
    EveryRun(limit, events);
  }
}
