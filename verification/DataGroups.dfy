// The persistent gate in front of the FMP client: the data-group and request-variant state of
// backend/core/data_groups.py and the steps of backend/clients/fmp_client.py that drive it.
module DataGroups {
  import opened Options
  import AuthBreaker

  const FAILING_AFTER_CONSECUTIVE := 3
  const VARIANT_GROUPS := {"fundamentals"}
  const TIERS := ["Starter", "Premium", "Ultimate"]

  // ---- request variants ----

  type Params = map<string, string>

  // The parameters that can decide plan access.
  function VariantParams(params: Params): Params {
    map k | k in {"period", "limit"} && k in params :: params[k]
  }

  function Query(v: Params): string {
    if "limit" in v && "period" in v then "?limit=" + v["limit"] + "&period=" + v["period"]
    else if "limit" in v then "?limit=" + v["limit"]
    else if "period" in v then "?period=" + v["period"]
    else ""
  }

  function VariantKey(endpoint: string, params: Params): string {
    endpoint + Query(VariantParams(params))
  }

  function UpperChar(c: char): char {
    if 'a' <= c <= 'z' then ((c as int) - 32) as char else c
  }

  function Upper(s: string): string {
    seq(|s|, i requires 0 <= i < |s| => UpperChar(s[i]))
  }

  // The symbol a refused request is replayed with.
  function CanarySymbol(endpoint: string): string {
    if endpoint == "/etf/info" then "SPY" else "AAPL"
  }

  function Symbol(params: Params): Option<string> {
    if "symbol" in params && params["symbol"] != "" then Some(params["symbol"]) else None
  }

  function Swapped(params: Params, key: string, canary: string): Option<Params>
    requires key in params
  {
    if Upper(params[key]) == canary then None else Some(params[key := canary])
  }

  // The same request with the symbol swapped for the canary's, or None when there is nothing to
  // swap and the failing call is its own canary.
  function CanaryParams(params: Params, endpoint: string): Option<Params> {
    var canary := CanarySymbol(endpoint);
    if "symbol" in params then Swapped(params, "symbol", canary)
    else if "symbols" in params then Swapped(params, "symbols", canary)
    else if "query" in params then Swapped(params, "query", canary)
    else None
  }

  // ---- state ----

  datatype Status = Ok | Failing | PlanRestricted

  datatype GroupState = GroupState(enabled: bool, requiredTier: string, status: Status, restrictedSince: Option<int>,
                                   failures: nat)

  // A restricted variant, with the minimal replay that may clear it.
  datatype Variant = Variant(endpoint: string, params: Params, since: int)

  type VariantId = (string, string)

  datatype Db = Db(masterOn: bool, plan: string, groups: map<string, GroupState>, variants: map<VariantId, Variant>)

  function TierRank(tier: string): nat {
    if tier == TIERS[0] then 0 else if tier == TIERS[1] then 1 else if tier == TIERS[2] then 2 else 3
  }

  datatype Reason = Live | MasterOff | UserOff | AbovePlan | RestrictedByPlan

  function EffectiveState(db: Db, group: string): Reason {
    if group !in db.groups then UserOff
    else
      var g := db.groups[group];
      if !db.masterOn then MasterOff
      else if !g.enabled then UserOff
      else if TierRank(g.requiredTier) > TierRank(db.plan) then AbovePlan
      else if g.status == PlanRestricted then RestrictedByPlan
      else Live
  }

  function Restricted(g: GroupState, now: int): GroupState {
    g.(status := PlanRestricted, restrictedSince := if g.restrictedSince.Some? then g.restrictedSince else Some(now))
  }

  function Cleared(g: GroupState): GroupState {
    if g.status == PlanRestricted then g.(status := Ok, restrictedSince := None, failures := 0) else g
  }

  // `due`: the throttle on success writes has run out.
  function Succeeded(g: GroupState, due: bool): GroupState {
    if g.failures == 0 && g.status != Failing && !due then g
    else g.(failures := 0, status := if g.status == Failing then Ok else g.status)
  }

  function Failed(g: GroupState): GroupState {
    var failures := g.failures + 1;
    g.(failures := failures,
       status := if g.status == Ok && failures >= FAILING_AFTER_CONSECUTIVE then Failing else g.status)
  }

  // The user's edit of a group; what is not given stays.
  function Edited(g: GroupState, enabled: Option<bool>, tier: Option<string>): GroupState {
    g.(enabled := if enabled.Some? then enabled.value else g.enabled,
       requiredTier := if tier.Some? then tier.value else g.requiredTier)
  }

  function WithGroup(db: Db, group: string, g: GroupState): Db {
    db.(groups := db.groups[group := g])
  }

  // ---- answers and steps ----

  // What sending a request comes to, and the calls it took: stopped by the client's own breaker
  // or limiter, a transport error, or an answer (usable: a success whose body is data).
  datatype Answer = Held(calls: nat) | Transport(calls: nat) | Answered(status: int, usable: bool, calls: nat)

  // The same, from the client's retry loop.
  function AnswerOf(sent: AuthBreaker.Sent, usable: bool): Answer {
    match sent.result
    case Response(status) => Answered(status, usable, sent.requests)
    case Transport => Transport(sent.requests)
    case CircuitOpen => Held(sent.requests)
    case LocalRateLimit => Held(sent.requests)
  }

  // One request may be called three times; one that is stopped was called at most twice.
  predicate Sendable(a: Answer) {
    if a.Held? then a.calls <= AuthBreaker.MAX_RETRIES else 1 <= a.calls <= AuthBreaker.MAX_RETRIES + 1
  }

  lemma SendsAreSendable(c: AuthBreaker.Config, s: AuthBreaker.State, attempts: seq<AuthBreaker.Attempt>, usable: bool)
    requires |attempts| == AuthBreaker.MAX_RETRIES + 1
    ensures Sendable(AnswerOf(AuthBreaker.SendFrom(c, s, attempts, 0), usable))
  {
    assert AuthBreaker.SendFrom(c, s, attempts, 1) == AuthBreaker.SendFrom(c, s, attempts, 1);
    assert AuthBreaker.SendFrom(c, s, attempts, 2) == AuthBreaker.SendFrom(c, s, attempts, 2);
  }

  function Calls(params: Params, n: nat): (sent: seq<Params>)
    ensures |sent| == n && forall k :: 0 <= k < n ==> sent[k] == params
  {
    if n == 0 then [] else Calls(params, n - 1) + [params]
  }

  predicate Is402(a: Answer) { a.Answered? && a.status == 402 }

  predicate Good(a: Answer) { a.Answered? && a.status < 400 && a.usable }

  datatype Request = Request(group: string, endpoint: string, params: Params)

  datatype Result = Body | GroupOff | VariantUnavailable | Raised

  // The state afterwards, what the caller gets, and the parameters of every call made.
  datatype Step = Step(db: Db, result: Result, sent: seq<Params>)

  function VariantIdOf(r: Request): VariantId {
    (r.group, VariantKey(r.endpoint, r.params))
  }

  function Replay(r: Request): Params {
    VariantParams(r.params)["symbol" := CanarySymbol(r.endpoint)]
  }

  // A request that asks for the canary itself, or for no symbol at all, is its own canary.
  predicate OwnVariantCanary(r: Request) {
    Symbol(r.params).None? || Upper(Symbol(r.params).value) == CanarySymbol(r.endpoint)
  }

  function MarkedVariant(db: Db, r: Request, now: int): Db {
    if VariantIdOf(r) in db.variants then db
    else db.(variants := db.variants[VariantIdOf(r) := Variant(r.endpoint, Replay(r), now)])
  }

  // What follows a 402: the calls of the canary, and what they confirm.
  function VariantRefused(db: Db, r: Request, canary: Answer, now: int): Step {
    var confirmed := OwnVariantCanary(r) || Is402(canary);
    Step(if confirmed then MarkedVariant(db, r, now) else db, Raised,
         if OwnVariantCanary(r) then [] else Calls(Replay(r), canary.calls))
  }

  function PlanRefused(db: Db, r: Request, canary: Answer, now: int): Step
    requires r.group in db.groups
  {
    var swapped := CanaryParams(r.params, r.endpoint);
    var confirmed := swapped.None? || Is402(canary);
    Step(if confirmed then WithGroup(db, r.group, Restricted(db.groups[r.group], now)) else db, Raised,
         if swapped.None? then [] else Calls(swapped.value, canary.calls))
  }

  // What an answer does, once the gate has let the request through.
  function Taken(db: Db, r: Request, answer: Answer, canary: Answer, due: bool, now: int): Step
    requires r.group in db.groups
  {
    var g := db.groups[r.group];
    match answer
    case Held(_) => Step(db, Raised, [])
    case Transport(_) => Step(WithGroup(db, r.group, Failed(g)), Raised, [])
    case Answered(status, usable, _) =>
      if status < 400 then
        if usable then Step(WithGroup(db, r.group, Succeeded(g, due)), Body, [])
        else Step(WithGroup(db, r.group, Failed(g)), Raised, [])
      else if status == 401 || status == 403 || status == 429 then Step(db, Raised, [])
      else if status == 402 then
        if r.group in VARIANT_GROUPS then VariantRefused(db, r, canary, now) else PlanRefused(db, r, canary, now)
      else Step(WithGroup(db, r.group, Failed(g)), Raised, [])
  }

  // The gate lets the request through: its group is live and its variant is not restricted.
  predicate Passes(db: Db, r: Request) {
    EffectiveState(db, r.group) == Live && !(r.group in VARIANT_GROUPS && VariantIdOf(r) in db.variants)
  }

  function Get(db: Db, r: Request, answer: Answer, canary: Answer, due: bool, now: int): Step {
    if EffectiveState(db, r.group) != Live then Step(db, GroupOff, [])
    else if !Passes(db, r) then Step(db, VariantUnavailable, [])
    else
      var s := Taken(db, r, answer, canary, due, now);
      s.(sent := Calls(r.params, answer.calls) + s.sent)
  }

  // Re-probing a restricted group with its own canary request.
  function ProbedGroup(db: Db, group: string, answer: Answer, now: int): Db {
    if group !in db.groups then db
    else if Good(answer) then WithGroup(db, group, Cleared(db.groups[group]))
    else if Is402(answer) then WithGroup(db, group, Restricted(db.groups[group], now))
    else db
  }

  // Re-probing a restricted variant with its own replay. (A repeated refusal only stamps the row.)
  function ProbedVariant(db: Db, id: VariantId, answer: Answer): Db {
    if id in db.variants && Good(answer) then db.(variants := db.variants - {id}) else db
  }

  class Gate {
    var masterOn: bool
    var plan: string
    var groups: map<string, GroupState>
    var variants: map<VariantId, Variant>

    ghost function Abs(): Db
      reads this
    {
      Db(masterOn, plan, groups, variants)
    }

    constructor (plan: string, groups: map<string, GroupState>)
      ensures Abs() == Db(true, plan, groups, map[])
    {
      this.masterOn, this.plan, this.groups, this.variants := true, plan, groups, map[];
    }

    method MarkRestricted(group: string, now: int)
      requires group in groups
      modifies `groups
      ensures groups == old(groups)[group := Restricted(old(groups)[group], now)]
    {
      var g := groups[group];
      var since := if g.restrictedSince.Some? then g.restrictedSince else Some(now);
      groups := groups[group := g.(status := PlanRestricted, restrictedSince := since)];
    }

    method ClearRestricted(group: string)
      requires group in groups
      modifies `groups
      ensures groups == old(groups)[group := Cleared(old(groups)[group])]
    {
      var g := groups[group];
      if g.status == PlanRestricted {
        groups := groups[group := g.(status := Ok, restrictedSince := None, failures := 0)];
      } else {
        assert groups == groups[group := g];
      }
    }

    method MarkVariantRestricted(r: Request, now: int) returns (created: bool)
      modifies `variants
      ensures Abs() == MarkedVariant(old(Abs()), r, now)
      ensures created <==> VariantIdOf(r) !in old(variants)
    {
      if VariantIdOf(r) in variants {
        return false;
      }
      variants := variants[VariantIdOf(r) := Variant(r.endpoint, Replay(r), now)];
      created := true;
    }

    method ClearVariant(id: VariantId) returns (existed: bool)
      modifies `variants
      ensures existed <==> id in old(variants)
      ensures variants == old(variants) - {id}
    {
      existed := id in variants;
      variants := variants - {id};
    }

    method RecordSuccess(group: string, due: bool)
      requires group in groups
      modifies `groups
      ensures groups == old(groups)[group := Succeeded(old(groups)[group], due)]
    {
      var g := groups[group];
      if !(g.failures != 0 || g.status == Failing) && !due {
        assert groups == groups[group := g];
        return;
      }
      g := g.(failures := 0);
      if g.status == Failing {
        g := g.(status := Ok);
      }
      groups := groups[group := g];
    }

    method RecordFailure(group: string)
      requires group in groups
      modifies `groups
      ensures groups == old(groups)[group := Failed(old(groups)[group])]
    {
      var g := groups[group];
      g := g.(failures := g.failures + 1);
      if g.status == Ok && g.failures >= FAILING_AFTER_CONSECUTIVE {
        g := g.(status := Failing);
      }
      groups := groups[group := g];
    }

    method HandleVariantRestriction(r: Request, canary: Answer, now: int) returns (sent: seq<Params>)
      modifies `variants
      ensures var s := VariantRefused(old(Abs()), r, canary, now); Abs() == s.db && sent == s.sent
    {
      var confirmed := true;
      sent := [];
      if !OwnVariantCanary(r) {
        confirmed := Is402(canary);
        sent := Calls(Replay(r), canary.calls);
      }
      if confirmed {
        var _ := MarkVariantRestricted(r, now);
      }
    }

    method HandlePlanRestriction(r: Request, canary: Answer, now: int) returns (sent: seq<Params>)
      requires r.group in groups
      modifies `groups
      ensures var s := PlanRefused(old(Abs()), r, canary, now); Abs() == s.db && sent == s.sent
    {
      var swapped := CanaryParams(r.params, r.endpoint);
      var confirmed := true;
      sent := [];
      if swapped.Some? {
        confirmed := Is402(canary);
        sent := Calls(swapped.value, canary.calls);
      }
      if confirmed {
        MarkRestricted(r.group, now);
      }
    }

    method Fetch(r: Request, answer: Answer, canary: Answer, due: bool, now: int)
      returns (result: Result, sent: seq<Params>)
      modifies this
      ensures var s := Get(old(Abs()), r, answer, canary, due, now);
        Abs() == s.db && result == s.result && sent == s.sent
    {
      if EffectiveState(Db(masterOn, plan, groups, variants), r.group) != Live {
        return GroupOff, [];
      }
      if r.group in VARIANT_GROUPS && VariantIdOf(r) in variants {
        return VariantUnavailable, [];
      }
      result, sent := Raised, Calls(r.params, answer.calls);
      var more := [];
      if answer.Transport? {
        RecordFailure(r.group);
      } else if answer.Answered? && answer.status < 400 {
        if answer.usable {
          RecordSuccess(r.group, due);
          result := Body;
        } else {
          RecordFailure(r.group);
        }
      } else if answer.Answered? && answer.status == 402 {
        if r.group in VARIANT_GROUPS {
          more := HandleVariantRestriction(r, canary, now);
        } else {
          more := HandlePlanRestriction(r, canary, now);
        }
      } else if answer.Answered? && answer.status !in {401, 403, 429} {
        RecordFailure(r.group);
      }
      sent := sent + more;
    }

    // A plan or a tier outside the list is refused.
    method SetFmpPlan(plan: string) returns (ok: bool)
      modifies `plan
      ensures ok <==> plan in TIERS
      ensures this.plan == if ok then plan else old(this.plan)
    {
      ok := plan in TIERS;
      if ok {
        this.plan := plan;
      }
    }

    method UpdateGroup(group: string, enabled: Option<bool>, tier: Option<string>) returns (ok: bool)
      modifies `groups
      ensures ok <==> group in old(groups) && (tier.Some? ==> tier.value in TIERS)
      ensures groups == if ok then old(groups)[group := Edited(old(groups)[group], enabled, tier)] else old(groups)
    {
      ok := group in groups && (tier.None? || tier.value in TIERS);
      if ok {
        var g := groups[group];
        if enabled.Some? {
          g := g.(enabled := enabled.value);
        }
        if tier.Some? {
          g := g.(requiredTier := tier.value);
        }
        groups := groups[group := g];
      }
    }

    method ProbeGroup(group: string, answer: Answer, now: int)
      modifies this
      ensures Abs() == ProbedGroup(old(Abs()), group, answer, now)
    {
      if group in groups {
        if Good(answer) {
          ClearRestricted(group);
        } else if Is402(answer) {
          MarkRestricted(group, now);
        }
      }
    }

    method ProbeVariant(id: VariantId, answer: Answer)
      modifies this
      ensures Abs() == ProbedVariant(old(Abs()), id, answer)
    {
      if id in variants && Good(answer) {
        var _ := ClearVariant(id);
      }
    }
  }

  // ---- the gate ----

  // The tiers a plan includes: every tier up to its own. A plan the list does not know includes
  // whatever is asked for, so a tier the list does not know needs such a plan.
  predicate Includes(plan: string, tier: string) {
    plan !in TIERS || exists i, j :: 0 <= i <= j < |TIERS| && TIERS[i] == tier && TIERS[j] == plan
  }

  // A group is live exactly when nothing holds it back: it exists, both switches are on, the plan
  // includes its tier, and no restriction is recorded.
  lemma LiveIff(db: Db, group: string)
    ensures EffectiveState(db, group) == Live
       <==> && group in db.groups && db.masterOn && db.groups[group].enabled
            && db.groups[group].status != PlanRestricted
            && Includes(db.plan, db.groups[group].requiredTier)
  {
    if group in db.groups {
      var tier, plan := db.groups[group].requiredTier, db.plan;
      assert |TIERS| == 3;
      if TierRank(tier) <= TierRank(plan) < 3 {
        assert TIERS[TierRank(tier)] == tier && TIERS[TierRank(plan)] == plan;
      }
    }
  }

  // ---- variant keys ----

  lemma ReplayHasSameParams(r: Request)
    ensures VariantParams(Replay(r)) == VariantParams(r.params)
  {
  }

  // A variant's stored replay is a request of that very variant.
  lemma ReplayKeepsKey(r: Request)
    ensures VariantKey(r.endpoint, Replay(r)) == VariantKey(r.endpoint, r.params)
  {
    ReplayHasSameParams(r);
  }

  // Values as they occur in requests: no '&' in a period or a limit; no '?' in an endpoint.
  predicate Plain(endpoint: string, params: Params) {
    && '?' !in endpoint
    && forall k :: k in VariantParams(params) ==> '&' !in params[k]
  }

  lemma SplitAtFirst(a: string, x: string, b: string, y: string, c: char)
    requires c !in a && c !in b
    requires a + x == b + y
    requires (x == "" || x[0] == c) && (y == "" || y[0] == c)
    ensures a == b && x == y
  {
    var s := a + x;
    assert forall i :: 0 <= i < |a| ==> s[i] == a[i] && s[i] != c;
    assert forall i :: 0 <= i < |b| ==> s[i] == (b + y)[i] == b[i] && s[i] != c;
    assert x != "" ==> s[|a|] == c;
    assert y != "" ==> s[|b|] == (b + y)[|b|] == c;
    assert |a| == |b|;
    assert a == s[..|a|] && b == (b + y)[..|b|];
    assert x == s[|a|..] && y == (b + y)[|b|..];
  }

  function Tail(period: Option<string>): string {
    if period.Some? then "&period=" + period.value else ""
  }

  function Find(v: Params, k: string): Option<string> {
    if k in v then Some(v[k]) else None
  }

  lemma QueryShape(v: Params)
    ensures "limit" in v ==> Query(v) == "?limit=" + (v["limit"] + Tail(Find(v, "period")))
    ensures "limit" !in v && "period" in v ==> Query(v) == "?period=" + v["period"]
    ensures "limit" !in v && "period" !in v ==> Query(v) == ""
    ensures Query(v) == "" || Query(v)[0] == '?'
    ensures "limit" in v <==> |Query(v)| > 1 && Query(v)[1] == 'l'
  {
    if "limit" in v && "period" in v {
      var l, p := v["limit"], v["period"];
      assert "?limit=" + l + "&period=" + p == "?limit=" + (l + ("&period=" + p));
    } else if "limit" in v {
      assert v["limit"] + "" == v["limit"];
    }
  }

  lemma SameSuffix(prefix: string, x: string, y: string)
    requires prefix + x == prefix + y
    ensures x == y
  {
    assert x == (prefix + x)[|prefix|..] == (prefix + y)[|prefix|..] == y;
  }

  lemma QueryInjective(v: Params, w: Params)
    requires v.Keys <= {"period", "limit"} && w.Keys <= {"period", "limit"}
    requires forall k :: k in v ==> '&' !in v[k]
    requires forall k :: k in w ==> '&' !in w[k]
    requires Query(v) == Query(w)
    ensures Find(v, "limit") == Find(w, "limit") && Find(v, "period") == Find(w, "period")
  {
    QueryShape(v);
    QueryShape(w);
    if "limit" in v && "limit" in w {
      SameSuffix("?limit=", v["limit"] + Tail(Find(v, "period")), w["limit"] + Tail(Find(w, "period")));
      SplitAtFirst(v["limit"], Tail(Find(v, "period")), w["limit"], Tail(Find(w, "period")), '&');
      if "period" in v && "period" in w {
        SameSuffix("&period=", v["period"], w["period"]);
      }
    } else if "period" in v && "period" in w {
      SameSuffix("?period=", v["period"], w["period"]);
    }
  }

  // Keys tell variants apart: two requests have the same key exactly when they ask the same
  // endpoint for the same period and limit, so no restriction leaks onto another variant.
  lemma KeyInjective(e: string, p: Params, f: string, q: Params)
    requires Plain(e, p) && Plain(f, q)
    ensures VariantKey(e, p) == VariantKey(f, q) <==> e == f && VariantParams(p) == VariantParams(q)
  {
    if VariantKey(e, p) == VariantKey(f, q) {
      var v, w := VariantParams(p), VariantParams(q);
      QueryShape(v);
      QueryShape(w);
      SplitAtFirst(e, Query(v), f, Query(w), '?');
      QueryInjective(v, w);
      SameFinds(v, w);
    }
  }

  lemma SameFinds(v: Params, w: Params)
    requires v.Keys <= {"period", "limit"} && w.Keys <= {"period", "limit"}
    requires Find(v, "limit") == Find(w, "limit") && Find(v, "period") == Find(w, "period")
    ensures v == w
  {
    assert forall k :: k in v ==> k in w && v[k] == w[k];
    assert forall k :: k in w ==> k in v;
  }

  // ---- runs ----

  // A request; a re-probe of a group or of a variant (as the weekly job and a plan edit make them);
  // the user dropping a variant's restriction without a probe; or the user's own settings.
  datatype Event =
    | Fetched(r: Request, answer: Answer, canary: Answer, due: bool, now: int)
    | Reprobed(group: string, answer: Answer, now: int)
    | ReprobedVariant(id: VariantId, answer: Answer)
    | VariantCleared(id: VariantId)
    | MasterSet(on: bool)
    | PlanSet(plan: string)
    | GroupEdited(group: string, enabled: Option<bool>, tier: Option<string>)

  // Only restricted groups are re-probed, and only while the master switch is on.
  predicate Reprobes(db: Db, group: string) {
    db.masterOn && group in db.groups && db.groups[group].status == PlanRestricted
  }

  function Applied(db: Db, e: Event): Db {
    match e
    case Fetched(r, answer, canary, due, now) => Get(db, r, answer, canary, due, now).db
    case Reprobed(group, answer, now) => if Reprobes(db, group) then ProbedGroup(db, group, answer, now) else db
    case ReprobedVariant(id, answer) =>
      if db.masterOn && EffectiveState(db, id.0) == Live then ProbedVariant(db, id, answer) else db
    case VariantCleared(id) => db.(variants := db.variants - {id})
    case MasterSet(on) => db.(masterOn := on)
    case PlanSet(plan) => if plan in TIERS then db.(plan := plan) else db
    case GroupEdited(group, enabled, tier) =>
      if group in db.groups && (tier.Some? ==> tier.value in TIERS) then
        WithGroup(db, group, Edited(db.groups[group], enabled, tier))
      else db
  }

  function After(db: Db, events: seq<Event>): Db
    decreases |events|
  {
    if events == [] then db else Applied(After(db, events[..|events| - 1]), events[|events| - 1])
  }

  // A restriction is dated exactly while it lasts, and otherwise a group is failing exactly while
  // its failure count stands at three or more.
  ghost predicate Consistent(g: GroupState) {
    && (g.restrictedSince.Some? <==> g.status == PlanRestricted)
    && (g.status != PlanRestricted ==> (g.status == Failing <==> g.failures >= FAILING_AFTER_CONSECUTIVE))
  }

  // Every stored variant belongs to a variant group and sits under the key of its own replay.
  ghost predicate KeyedByReplay(id: VariantId, v: Variant) {
    id.0 in VARIANT_GROUPS && VariantKey(v.endpoint, v.params) == id.1
  }

  ghost predicate Sound(db: Db) {
    && db.plan in TIERS
    && (forall g :: g in db.groups ==> Consistent(db.groups[g]))
    && (forall g :: g in db.groups && g in VARIANT_GROUPS ==> db.groups[g].status != PlanRestricted)
    && (forall id :: id in db.variants ==> KeyedByReplay(id, db.variants[id]))
  }

  lemma StatusSteps(g: GroupState, due: bool, now: int)
    requires Consistent(g)
    ensures Consistent(Restricted(g, now)) && Consistent(Cleared(g))
    ensures Consistent(Succeeded(g, due)) && Consistent(Failed(g))
    ensures g.status != PlanRestricted ==>
      Succeeded(g, due).status != PlanRestricted && Failed(g).status != PlanRestricted
  {
  }

  lemma GroupStepSound(db: Db, group: string, g: GroupState)
    requires Sound(db) && Consistent(g) && (group in VARIANT_GROUPS ==> g.status != PlanRestricted)
    ensures Sound(WithGroup(db, group, g))
  {
  }

  lemma MarkedVariantSound(db: Db, r: Request, now: int)
    requires Sound(db) && r.group in VARIANT_GROUPS
    ensures Sound(MarkedVariant(db, r, now))
  {
    ReplayKeepsKey(r);
  }

  // All that a request can do to the state.
  lemma GetOutcomes(db: Db, r: Request, answer: Answer, canary: Answer, due: bool, now: int)
    ensures var after := Get(db, r, answer, canary, due, now).db;
      || after == db
      || (r.group in db.groups && after == WithGroup(db, r.group, Failed(db.groups[r.group])))
      || (r.group in db.groups && after == WithGroup(db, r.group, Succeeded(db.groups[r.group], due)))
      || (r.group in VARIANT_GROUPS && after == MarkedVariant(db, r, now))
      || (r.group in db.groups && r.group !in VARIANT_GROUPS
          && after == WithGroup(db, r.group, Restricted(db.groups[r.group], now)))
  {
  }

  lemma GetIsSound(db: Db, r: Request, answer: Answer, canary: Answer, due: bool, now: int)
    requires Sound(db)
    ensures Sound(Get(db, r, answer, canary, due, now).db)
  {
    GetOutcomes(db, r, answer, canary, due, now);
    if r.group in db.groups {
      var g := db.groups[r.group];
      StatusSteps(g, due, now);
      GroupStepSound(db, r.group, Failed(g));
      GroupStepSound(db, r.group, Succeeded(g, due));
      if r.group !in VARIANT_GROUPS {
        GroupStepSound(db, r.group, Restricted(g, now));
      }
    }
    if r.group in VARIANT_GROUPS {
      MarkedVariantSound(db, r, now);
    }
  }

  // Over every run from a sound state -- a new one, say -- the state stays sound. In particular a
  // variant group never becomes plan-restricted as a whole, and the plan is always a known one.
  lemma {:induction false} RunIsSound(db: Db, events: seq<Event>)
    requires Sound(db)
    ensures Sound(After(db, events))
    decreases |events|
  {
    if events != [] {
      var n := |events| - 1;
      RunIsSound(db, events[..n]);
      var before := After(db, events[..n]);
      match events[n]
      case Fetched(r, answer, canary, due, now) => GetIsSound(before, r, answer, canary, due, now);
      case Reprobed(group, answer, now) =>
        if group in before.groups {
          StatusSteps(before.groups[group], true, now);
        }
      case ReprobedVariant(id, answer) =>
      case VariantCleared(id) =>
      case MasterSet(on) =>
      case PlanSet(plan) =>
      case GroupEdited(group, enabled, tier) =>
    }
  }

  // So a group that asks for an unknown tier is never live, whatever plan is chosen.
  lemma UnknownTierNeverLive(db: Db, events: seq<Event>, group: string)
    requires Sound(db)
    ensures var after := After(db, events);
      group in after.groups && after.groups[group].requiredTier !in TIERS ==> EffectiveState(after, group) != Live
  {
    RunIsSound(db, events);
    LiveIff(After(db, events), group);
  }

  // An answer with data.
  predicate Brings(answer: Answer) {
    answer.Answered? && answer.status < 400 && answer.usable
  }

  // ---- the failure count against the log ----

  datatype Mark = Failure | Recovery

  // What an event leaves in the log of a group: a failure, if a request of it went out and came to
  // a transport error, a body that is no data, or a status that is neither a key, plan or rate
  // problem; a recovery, if one brought data or a probe cleared its restriction; else nothing.
  function MarkOf(db: Db, e: Event, group: string): Option<Mark> {
    match e
    case Fetched(r, answer, _, _, _) =>
      if r.group != group || !Passes(db, r) || answer.Held? then None
      else if answer.Transport? then Some(Failure)
      else if answer.status < 400 then Some(if answer.usable then Recovery else Failure)
      else if answer.status in {401, 402, 403, 429} then None
      else Some(Failure)
    case Reprobed(g, answer, _) => if g == group && Reprobes(db, g) && Brings(answer) then Some(Recovery) else None
    case _ => None
  }

  function Marks(db: Db, events: seq<Event>, group: string): seq<Mark>
    decreases |events|
  {
    if events == [] then []
    else
      var n := |events| - 1;
      var mark := MarkOf(After(db, events[..n]), events[n], group);
      Marks(db, events[..n], group) + (if mark.Some? then [mark.value] else [])
  }

  function FailuresAtEnd(marks: seq<Mark>): nat
    decreases |marks|
  {
    if marks == [] || marks[|marks| - 1].Recovery? then 0 else FailuresAtEnd(marks[..|marks| - 1]) + 1
  }

  lemma MarkStep(db: Db, e: Event, group: string)
    requires group in db.groups
    ensures group in Applied(db, e).groups
    ensures var mark, g, g' := MarkOf(db, e, group), db.groups[group], Applied(db, e).groups[group];
      g'.failures == if mark == Some(Failure) then g.failures + 1 else if mark == Some(Recovery) then 0 else g.failures
  {
  }

  lemma FailuresAppend(marks: seq<Mark>, m: Mark)
    ensures FailuresAtEnd(marks + [m]) == if m.Failure? then FailuresAtEnd(marks) + 1 else 0
  {
    assert (marks + [m])[..|marks|] == marks;
  }

  // The stored count is the number of failures at the end of the log: nothing else counts, and
  // nothing but a recovery resets it.
  lemma {:induction false} CountMatchesLog(db: Db, events: seq<Event>, group: string)
    requires group in db.groups && db.groups[group].failures == 0
    ensures group in After(db, events).groups
    ensures After(db, events).groups[group].failures == FailuresAtEnd(Marks(db, events, group))
    decreases |events|
  {
    if events != [] {
      var n := |events| - 1;
      CountMatchesLog(db, events[..n], group);
      var before := After(db, events[..n]);
      MarkStep(before, events[n], group);
      var marks, mark := Marks(db, events[..n], group), MarkOf(before, events[n], group);
      if mark.Some? {
        FailuresAppend(marks, mark.value);
      } else {
        assert marks + [] == marks;
      }
    }
  }

  predicate EndsInThreeFailures(m: seq<Mark>) {
    var n := |m|;
    n >= 3 && m[n - 1] == m[n - 2] == m[n - 3] == Failure
  }

  lemma {:induction false} AtMostAll(m: seq<Mark>)
    ensures FailuresAtEnd(m) <= |m|
    decreases |m|
  {
    if m != [] {
      AtMostAll(m[..|m| - 1]);
    }
  }

  lemma LastThree(m: seq<Mark>)
    ensures FailuresAtEnd(m) >= 3 <==> EndsInThreeFailures(m)
  {
    var n := |m|;
    if n < 3 {
      AtMostAll(m);
    } else {
      var one := m[..n - 3] + [m[n - 3]];
      var two := one + [m[n - 2]];
      assert m == two + [m[n - 1]];
      FailuresAppend(m[..n - 3], m[n - 3]);
      FailuresAppend(one, m[n - 2]);
      FailuresAppend(two, m[n - 1]);
    }
  }

  lemma CountDecides(db: Db, group: string)
    requires Sound(db) && group in db.groups && db.groups[group].status != PlanRestricted
    ensures db.groups[group].status == Failing <==> db.groups[group].failures >= 3
  {
    assert Consistent(db.groups[group]);
  }

  // A group that is not restricted is failing exactly when the last three entries of its log are
  // failures, whatever rate limits and key problems fall between them.
  lemma FailingIff(db: Db, events: seq<Event>, group: string)
    requires Sound(db) && group in db.groups && db.groups[group].failures == 0
    ensures group in After(db, events).groups
    ensures After(db, events).groups[group].status != PlanRestricted ==>
      (After(db, events).groups[group].status == Failing <==> EndsInThreeFailures(Marks(db, events, group)))
  {
    RunIsSound(db, events);
    CountMatchesLog(db, events, group);
    LastThree(Marks(db, events, group));
    if After(db, events).groups[group].status != PlanRestricted {
      CountDecides(After(db, events), group);
    }
  }

  // ---- what restricts and what clears ----

  // The one kind of answer that restricts: a 402, repeated for the canary unless the request was
  // its own canary.
  predicate Confirmed402(own: bool, answer: Answer, canary: Answer) {
    && answer.Answered? && answer.status == 402
    && (own || (canary.Answered? && canary.status == 402))
  }

  // A variant becomes restricted by, and only by, a live request of that variant whose 402 the
  // canary confirms; it stops being restricted only by a good answer to its own replay, or when
  // the user drops the restriction.
  lemma VariantChangesIff(db: Db, e: Event, id: VariantId)
    ensures id !in db.variants && id in Applied(db, e).variants <==>
      && id !in db.variants
      && e.Fetched? && VariantIdOf(e.r) == id && id.0 in VARIANT_GROUPS && EffectiveState(db, id.0) == Live
      && Confirmed402(OwnVariantCanary(e.r), e.answer, e.canary)
    ensures id in db.variants && id !in Applied(db, e).variants <==>
      && id in db.variants
      && (|| e == VariantCleared(id)
          || (e.ReprobedVariant? && e.id == id && db.masterOn && EffectiveState(db, id.0) == Live && Brings(e.answer)))
  {
  }

  // A request restricts a group exactly so, and never clears one.
  lemma FetchRestrictsIff(db: Db, r: Request, answer: Answer, canary: Answer, due: bool, now: int, g: string)
    requires g in db.groups
    ensures var after := Get(db, r, answer, canary, due, now).db.groups;
      && g in after
      && (db.groups[g].status != PlanRestricted ==>
            (after[g].status == PlanRestricted <==>
              && r.group == g && g !in VARIANT_GROUPS && EffectiveState(db, g) == Live
              && Confirmed402(CanaryParams(r.params, r.endpoint).None?, answer, canary)))
      && (db.groups[g].status == PlanRestricted ==> after[g].status == PlanRestricted)
  {
  }

  // The same for a whole group outside the variant groups.
  lemma GroupChangesIff(db: Db, e: Event, g: string)
    requires g in db.groups
    ensures g in Applied(db, e).groups
    ensures db.groups[g].status != PlanRestricted ==>
      (Applied(db, e).groups[g].status == PlanRestricted <==>
        && e.Fetched? && e.r.group == g && g !in VARIANT_GROUPS && EffectiveState(db, g) == Live
        && Confirmed402(CanaryParams(e.r.params, e.r.endpoint).None?, e.answer, e.canary))
    ensures db.groups[g].status == PlanRestricted ==>
      (Applied(db, e).groups[g].status != PlanRestricted <==>
        e.Reprobed? && e.group == g && db.masterOn && Brings(e.answer))
  {
    if e.Fetched? {
      FetchRestrictsIff(db, e.r, e.answer, e.canary, e.due, e.now, g);
    }
  }

  predicate SameVariant(a: Request, b: Request) {
    a.group == b.group && a.endpoint == b.endpoint && VariantParams(a.params) == VariantParams(b.params)
  }

  // A restricted variant is answered without any request, and no other request notices: in a live
  // group, with keys that tell variants apart, marking one variant leaves the answer to a request
  // of any other, the calls made for it and what it stores as they would have been.
  lemma RestrictionIsPerVariant(db: Db, r: Request, other: Request, now: int,
                                answer: Answer, canary: Answer, due: bool, later: int)
    requires r.group in VARIANT_GROUPS && EffectiveState(db, r.group) == Live
    requires Plain(r.endpoint, r.params) && Plain(other.endpoint, other.params)
    ensures var marked := MarkedVariant(db, r, now);
      && Get(marked, r, answer, canary, due, later) == Step(marked, VariantUnavailable, [])
      && (!SameVariant(other, r) ==>
            var alone := Get(db, other, answer, canary, due, later);
            var beside := Get(marked, other, answer, canary, due, later);
            beside.result == alone.result && beside.sent == alone.sent && beside.db == MarkedVariant(alone.db, r, now))
  {
    KeyInjective(r.endpoint, r.params, other.endpoint, other.params);
    if VariantIdOf(other) != VariantIdOf(r) {
      MarkCommutes(db, r, other, now, answer, canary, due, later);
    }
  }

  lemma MarkCommutes(db: Db, r: Request, other: Request, now: int,
                     answer: Answer, canary: Answer, due: bool, later: int)
    requires VariantIdOf(other) != VariantIdOf(r)
    ensures var marked := MarkedVariant(db, r, now);
      var alone := Get(db, other, answer, canary, due, later);
      var beside := Get(marked, other, answer, canary, due, later);
      beside.result == alone.result && beside.sent == alone.sent && beside.db == MarkedVariant(alone.db, r, now)
  {
    GateBlind(db, r, other, now);
    if Passes(db, other) {
      TakenCommutes(db, r, other, now, answer, canary, due, later);
    }
  }

  lemma GateBlind(db: Db, r: Request, other: Request, now: int)
    requires VariantIdOf(other) != VariantIdOf(r)
    ensures var marked := MarkedVariant(db, r, now);
      && EffectiveState(marked, other.group) == EffectiveState(db, other.group)
      && (Passes(marked, other) <==> Passes(db, other))
  {
  }

  lemma TakenCommutes(db: Db, r: Request, other: Request, now: int,
                      answer: Answer, canary: Answer, due: bool, later: int)
    requires VariantIdOf(other) != VariantIdOf(r) && other.group in db.groups
    ensures var marked := MarkedVariant(db, r, now);
      var alone := Taken(db, other, answer, canary, due, later);
      var beside := Taken(marked, other, answer, canary, due, later);
      beside.result == alone.result && beside.sent == alone.sent && beside.db == MarkedVariant(alone.db, r, now)
  {
    var g := db.groups[other.group];
    if answer.Answered? && answer.status == 402 {
      if other.group in VARIANT_GROUPS {
        MarksCommute(db, r, other, now, later);
      } else {
        GroupCommutes(db, r, now, other.group, Restricted(g, later));
      }
    } else {
      GroupCommutes(db, r, now, other.group, Failed(g));
      GroupCommutes(db, r, now, other.group, Succeeded(g, due));
    }
  }

  lemma GroupCommutes(db: Db, r: Request, now: int, group: string, g: GroupState)
    ensures WithGroup(MarkedVariant(db, r, now), group, g) == MarkedVariant(WithGroup(db, group, g), r, now)
  {
  }

  lemma MarksCommute(db: Db, r: Request, other: Request, now: int, later: int)
    requires VariantIdOf(other) != VariantIdOf(r)
    ensures MarkedVariant(MarkedVariant(db, r, now), other, later)
         == MarkedVariant(MarkedVariant(db, other, later), r, now)
  {
    var v, w := Variant(r.endpoint, Replay(r), now), Variant(other.endpoint, Replay(other), later);
    assert db.variants[VariantIdOf(r) := v][VariantIdOf(other) := w]
        == db.variants[VariantIdOf(other) := w][VariantIdOf(r) := v];
  }

  // What goes out: nothing for a gated request, else the calls of the request itself, and after a
  // 402 those of the same variant for the canary symbol.
  lemma RequestsSent(db: Db, r: Request, answer: Answer, canary: Answer, due: bool, now: int)
    ensures var s := Get(db, r, answer, canary, due, now);
      && (!Passes(db, r) ==> s.sent == [] && s.db == db)
      && (Passes(db, r) ==>
            && answer.calls <= |s.sent| <= answer.calls + canary.calls
            && (forall k :: 0 <= k < answer.calls ==> s.sent[k] == r.params)
            && (|s.sent| > answer.calls ==> Is402(answer) && |s.sent| == answer.calls + canary.calls)
            && (forall k :: answer.calls <= k < |s.sent| ==>
                  VariantKey(r.endpoint, s.sent[k]) == VariantKey(r.endpoint, r.params)))
      && (answer.Held? ==> s.db == db)
  {
    ReplayKeepsKey(r);
    if CanaryParams(r.params, r.endpoint).Some? {
      assert VariantParams(CanaryParams(r.params, r.endpoint).value) == VariantParams(r.params);
    }
  }

  // With the client's own retries: one request makes at most six calls, none while the breaker is
  // open, and a request that was stopped leaves the state alone however many calls it had made.
  lemma CallsBounded(db: Db, r: Request, c: AuthBreaker.Config, s: AuthBreaker.State, t: AuthBreaker.State,
                     first: seq<AuthBreaker.Attempt>, second: seq<AuthBreaker.Attempt>,
                     usable: bool, due: bool, now: int)
    requires |first| == |second| == AuthBreaker.MAX_RETRIES + 1
    ensures var answer := AnswerOf(AuthBreaker.SendFrom(c, s, first, 0), usable);
      var canary := AnswerOf(AuthBreaker.SendFrom(c, t, second, 0), true);
      var step := Get(db, r, answer, canary, due, now);
      && |step.sent| <= 2 * (AuthBreaker.MAX_RETRIES + 1)
      && (AuthBreaker.IsOpen(s, first[0].at) ==> step.sent == [] && step.db == db)
      && (answer.Held? ==> |step.sent| <= AuthBreaker.MAX_RETRIES && step.db == db)
  {
    var answer := AnswerOf(AuthBreaker.SendFrom(c, s, first, 0), usable);
    var canary := AnswerOf(AuthBreaker.SendFrom(c, t, second, 0), true);
    SendsAreSendable(c, s, first, usable);
    SendsAreSendable(c, t, second, true);
    RequestsSent(db, r, answer, canary, due, now);
    AuthBreaker.SendOutcome(c, s, first);
  }
}
