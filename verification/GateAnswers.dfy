// What the gate of DataGroups answers, sends and stores, said in the terms of the requests and
// answers alone: by status number, by parameter name and by spelling.
module GateAnswers {
  import opened Options
  import opened DataGroups
  import AuthBreaker

  // ---- what the caller gets ----

  // The three plans, each with all that the one before it has.
  predicate Covers(plan: string, tier: string) {
    || plan !in {"Starter", "Premium", "Ultimate"}
    || tier == "Starter" || tier == plan || (tier == "Premium" && plan == "Ultimate")
  }

  lemma CoversIff(plan: string, tier: string)
    ensures Includes(plan, tier) <==> Covers(plan, tier)
  {
    assert |TIERS| == 3 && TIERS[0] == "Starter" && TIERS[1] == "Premium" && TIERS[2] == "Ultimate";
    assert Covers(plan, tier) && plan in TIERS && tier == plan ==> Includes(plan, tier);
  }

  lemma OnIff(db: Db, group: string)
    ensures EffectiveState(db, group) == Live <==> On(db, group)
  {
    LiveIff(db, group);
    if group in db.groups {
      CoversIff(db.plan, db.groups[group].requiredTier);
    }
  }

  // Nothing holds the group back.
  predicate On(db: Db, group: string) {
    && group in db.groups && db.masterOn && db.groups[group].enabled
    && Covers(db.plan, db.groups[group].requiredTier)
    && db.groups[group].status != PlanRestricted
  }

  // The request's variant is restricted.
  predicate VariantHeld(db: Db, r: Request) {
    r.group == "fundamentals" && (r.group, VariantKey(r.endpoint, r.params)) in db.variants
  }

  // Why a group is off: the first of these that applies.
  lemma ReasonIff(db: Db, group: string)
    ensures EffectiveState(db, group) == MasterOff <==> group in db.groups && !db.masterOn
    ensures EffectiveState(db, group) == UserOff
       <==> group !in db.groups || (db.masterOn && !db.groups[group].enabled)
    ensures EffectiveState(db, group) == AbovePlan
       <==> && group in db.groups && db.masterOn && db.groups[group].enabled
            && !Covers(db.plan, db.groups[group].requiredTier)
    ensures EffectiveState(db, group) == RestrictedByPlan
       <==> && group in db.groups && db.masterOn && db.groups[group].enabled
            && Covers(db.plan, db.groups[group].requiredTier) && db.groups[group].status == PlanRestricted
  {
    LiveIff(db, group);
    if group in db.groups {
      var g := db.groups[group];
      LiveIff(db.(masterOn := true, groups := db.groups[group := g.(enabled := true, status := Ok)]), group);
      CoversIff(db.plan, g.requiredTier);
    }
  }

  // Data comes back exactly when nothing holds the request back and the answer is a success whose
  // body is data; a group that is off and a restricted variant have results of their own; and
  // every other answer is raised.
  lemma ResultIff(db: Db, r: Request, answer: Answer, canary: Answer, due: bool, now: int)
    ensures var result := Get(db, r, answer, canary, due, now).result;
      && (result == GroupOff <==> !On(db, r.group))
      && (result == VariantUnavailable <==> On(db, r.group) && VariantHeld(db, r))
      && (result == Body <==> && On(db, r.group) && !VariantHeld(db, r)
                              && answer.Answered? && answer.status < 400 && answer.usable)
  {
    OnIff(db, r.group);
  }

  // ---- names ----

  lemma VariantParamsAre(params: Params)
    ensures forall k :: k in VariantParams(params) <==> k in params && (k == "period" || k == "limit")
    ensures forall k :: k in VariantParams(params) ==> VariantParams(params)[k] == params[k]
  {
  }

  // A variant's key is its endpoint, then the limit, then the period.
  lemma KeyFormat(endpoint: string, params: Params)
    ensures var key := VariantKey(endpoint, params);
      if "limit" in params && "period" in params then
        key == endpoint + "?limit=" + params["limit"] + "&period=" + params["period"]
      else if "limit" in params then key == endpoint + "?limit=" + params["limit"]
      else if "period" in params then key == endpoint + "?period=" + params["period"]
      else key == endpoint
  {
    VariantParamsAre(params);
    if "limit" in params && "period" in params {
      var l, p := params["limit"], params["period"];
      Regroup(endpoint, "?limit=", l);
      Regroup(endpoint, "?limit=" + l, "&period=");
      Regroup(endpoint, "?limit=" + l + "&period=", p);
    } else if "limit" in params {
      Regroup(endpoint, "?limit=", params["limit"]);
    } else if "period" in params {
      Regroup(endpoint, "?period=", params["period"]);
    }
  }

  lemma Regroup(a: string, b: string, c: string)
    ensures a + (b + c) == a + b + c
  {
  }

  // ---- canaries ----

  predicate SmallLetter(c: char) {
    'a' <= c <= 'z'
  }

  // s is t, but for small letters where t has capitals.
  predicate SpelledAs(s: string, t: string) {
    && |s| == |t|
    && forall i :: 0 <= i < |s| ==>
         if SmallLetter(s[i]) then s[i] as int == t[i] as int + 32 else s[i] == t[i]
  }

  lemma UpperIff(s: string, t: string)
    ensures Upper(s) == t <==> SpelledAs(s, t)
  {
    if SpelledAs(s, t) {
      assert forall i :: 0 <= i < |s| ==> Upper(s)[i] == t[i];
    }
  }

  lemma CanarySymbols(endpoint: string)
    ensures CanarySymbol("/etf/info") == "SPY"
    ensures endpoint != "/etf/info" ==> CanarySymbol(endpoint) == "AAPL"
  {
  }

  // A request of a variant is its own canary when it names no symbol, or the canary's, in any case.
  lemma OwnCanaryIff(r: Request)
    ensures OwnVariantCanary(r) <==>
      || "symbol" !in r.params || r.params["symbol"] == ""
      || SpelledAs(r.params["symbol"], CanarySymbol(r.endpoint))
  {
    if "symbol" in r.params {
      UpperIff(r.params["symbol"], CanarySymbol(r.endpoint));
    }
  }

  // The parameter that names what a request is about, if any.
  function Subject(params: Params): Option<string> {
    if "symbol" in params then Some("symbol")
    else if "symbols" in params then Some("symbols")
    else if "query" in params then Some("query")
    else None
  }

  // A request outside the variant groups is its own canary when it is about nothing, or about the
  // canary; else its canary is the same request about that.
  lemma GroupCanaryIs(params: Params, endpoint: string)
    ensures var k, canary := Subject(params), CanarySymbol(endpoint);
      && (CanaryParams(params, endpoint).None? <==> k.None? || SpelledAs(params[k.value], canary))
      && (CanaryParams(params, endpoint).Some? ==> CanaryParams(params, endpoint).value == params[k.value := canary])
  {
    var k := Subject(params);
    if k.Some? {
      UpperIff(params[k.value], CanarySymbol(endpoint));
    }
  }

  // The canary request of a 402, if the request was not its own: the bare variant for the canary
  // symbol, or the whole request with its subject swapped.
  function CanaryRequest(r: Request): Option<Params> {
    if r.group == "fundamentals" then
      if OwnVariantCanary(r) then None else Some(VariantParams(r.params)["symbol" := CanarySymbol(r.endpoint)])
    else CanaryParams(r.params, r.endpoint)
  }

  // The canary is called exactly after a 402 of a request that is not its own canary.
  lemma CanaryCalledIff(db: Db, r: Request, answer: Answer, canary: Answer, due: bool, now: int)
    requires On(db, r.group) && !VariantHeld(db, r)
    ensures var sent := Get(db, r, answer, canary, due, now).sent;
      && |sent| == answer.calls + (if Says(answer, 402) && CanaryRequest(r).Some? then canary.calls else 0)
      && (forall k :: 0 <= k < answer.calls ==> sent[k] == r.params)
      && (forall k :: answer.calls <= k < |sent| ==> CanaryRequest(r) == Some(sent[k]))
  {
    OnIff(db, r.group);
  }

  predicate Says(answer: Answer, status: int) {
    answer.Answered? && answer.status == status
  }

  // ---- what is stored ----

  // A new restriction of a variant stores the replay that may clear it, and when it began; nothing
  // changes a stored one but its removal.
  lemma VariantStored(db: Db, e: Event, id: VariantId)
    requires id in Applied(db, e).variants
    ensures id in db.variants ==> Applied(db, e).variants[id] == db.variants[id]
    ensures id !in db.variants ==>
      e.Fetched?
      && Applied(db, e).variants[id]
         == Variant(e.r.endpoint, VariantParams(e.r.params)["symbol" := CanarySymbol(e.r.endpoint)], e.now)
  {
  }

  // A restriction of a group is dated by the answer that brought it, and keeps that date.
  lemma RestrictionDated(db: Db, e: Event, g: string)
    requires Sound(db) && g in db.groups && g in Applied(db, e).groups
    requires Applied(db, e).groups[g].status == PlanRestricted
    ensures db.groups[g].status == PlanRestricted ==>
      Applied(db, e).groups[g].restrictedSince == db.groups[g].restrictedSince
    ensures db.groups[g].status != PlanRestricted ==>
      e.Fetched? && Applied(db, e).groups[g].restrictedSince == Some(e.now)
  {
    if e.Fetched? {
      FetchDates(db, e.r, e.answer, e.canary, e.due, e.now, g);
    }
  }

  lemma FetchDates(db: Db, r: Request, answer: Answer, canary: Answer, due: bool, now: int, g: string)
    requires Sound(db) && g in db.groups && g in Get(db, r, answer, canary, due, now).db.groups
    requires Get(db, r, answer, canary, due, now).db.groups[g].status == PlanRestricted
    ensures Get(db, r, answer, canary, due, now).db.groups[g].restrictedSince
         == if db.groups[g].status == PlanRestricted then db.groups[g].restrictedSince else Some(now)
  {
  }

  // The events that may touch a group.
  predicate Concerns(e: Event, g: string) {
    match e
    case Fetched(r, _, _, _, _) => r.group == g
    case Reprobed(group, _, _) => group == g
    case GroupEdited(group, _, _) => group == g
    case _ => false
  }

  // Each event keeps to its own: other groups stay as they are, switches and tiers change only by
  // the user's edits, and no group comes or goes.
  lemma EventsKeepToTheirOwn(db: Db, e: Event, g: string)
    ensures Applied(db, e).groups.Keys == db.groups.Keys
    ensures g in db.groups && !Concerns(e, g) ==> Applied(db, e).groups[g] == db.groups[g]
    ensures g in db.groups && !e.GroupEdited? ==>
      && Applied(db, e).groups[g].enabled == db.groups[g].enabled
      && Applied(db, e).groups[g].requiredTier == db.groups[g].requiredTier
  {
  }

  // The master switch and the plan are the user's alone; a plan off the list is not taken.
  lemma SwitchesAre(db: Db, e: Event)
    ensures Applied(db, e).masterOn == if e.MasterSet? then e.on else db.masterOn
    ensures Applied(db, e).plan
         == if e.PlanSet? && e.plan in {"Starter", "Premium", "Ultimate"} then e.plan else db.plan
  {
  }

  // An edit gives exactly what it names, and one with an unknown tier gives nothing.
  lemma EditIs(db: Db, g: string, enabled: Option<bool>, tier: Option<string>)
    requires g in db.groups
    ensures var before, after := db.groups[g], Applied(db, GroupEdited(g, enabled, tier)).groups[g];
      if tier.Some? && tier.value !in {"Starter", "Premium", "Ultimate"} then after == before
      else
        && (enabled.Some? ==> after.enabled == enabled.value) && (enabled.None? ==> after.enabled == before.enabled)
        && (tier.Some? ==> after.requiredTier == tier.value)
        && (tier.None? ==> after.requiredTier == before.requiredTier)
        && after.status == before.status && after.failures == before.failures
        && after.restrictedSince == before.restrictedSince
  {
  }

  // With the client's retry loop composed in: what the loop's own protection stops leaves the state
  // alone, and a transport error counts as a failure.
  lemma StoppedOrFailed(db: Db, r: Request, sent: AuthBreaker.Sent, usable: bool, canary: Answer, due: bool, now: int)
    requires On(db, r.group) && !VariantHeld(db, r)
    ensures var after := Get(db, r, AnswerOf(sent, usable), canary, due, now).db;
      && (sent.result.CircuitOpen? || sent.result.LocalRateLimit? ==> after == db)
      && (sent.result.Transport? ==>
            r.group in after.groups && after.groups[r.group].failures == db.groups[r.group].failures + 1)
  {
    OnIff(db, r.group);
  }
}
