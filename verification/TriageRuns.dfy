/**
 Budget safety over whole runs of triage. The environment is a ledger of counters: each evaluation that
 is not skipped reserves one action and one full artifact, a completed action frees its active slot,
 and reservations age out of an endpoint's window.
 */
module TriageRuns {
  import opened Triage

  datatype AlertUse = AlertUse(actions: nat, bytes: nat)

  datatype EndpointUse = EndpointUse(windowActions: nat, windowBytes: nat, active: nat)

  datatype Ledger = Ledger(alerts: map<string, AlertUse>, endpoints: map<string, EndpointUse>, activeGlobal: nat)

  const EMPTY := Ledger(map[], map[], 0)

  function AlertOf(l: Ledger, alert: string): AlertUse {
    if alert in l.alerts then l.alerts[alert] else AlertUse(0, 0)
  }

  function EndpointOf(l: Ledger, endpoint: string): EndpointUse {
    if endpoint in l.endpoints then l.endpoints[endpoint] else EndpointUse(0, 0, 0)
  }

  function UsageOf(l: Ledger, alert: string, endpoint: string): Usage {
    var a, e := AlertOf(l, alert), EndpointOf(l, endpoint);
    Usage(a.actions, a.bytes, e.windowActions, e.windowBytes, e.active, l.activeGlobal)
  }

  function Reserve(l: Ledger, alert: string, endpoint: string): Ledger {
    var a, e := AlertOf(l, alert), EndpointOf(l, endpoint);
    Ledger(l.alerts[alert := AlertUse(a.actions + 1, a.bytes + RESERVATION)],
           l.endpoints[endpoint := EndpointUse(e.windowActions + 1, e.windowBytes + RESERVATION, e.active + 1)],
           l.activeGlobal + 1)
  }

  datatype Event =
    | Ask(policy: Policy, alert: string, asked: string, request: Request, capability: Capability)
    | Complete(finished: string)
    | Age(endpoint: string, actions: nat)

  predicate Granted(l: Ledger, ev: Event)
    requires ev.Ask?
  {
    Evaluate(ev.policy, ev.request, ev.capability, UsageOf(l, ev.alert, ev.asked)).decision != Skip
  }

  /** Only an active action completes, and only reservations in the window age out of it. */
  predicate Possible(l: Ledger, ev: Event) {
    match ev
    case Ask(policy, _, _, _, _) => PolicyAccepted(policy)
    case Complete(e) => EndpointOf(l, e).active > 0
    case Age(e, n) => n <= EndpointOf(l, e).windowActions
  }

  function Monus(x: nat, y: nat): nat {
    if y <= x then x - y else 0
  }

  function Step(l: Ledger, ev: Event): Ledger {
    match ev
    case Ask(_, alert, endpoint, _, _) => if Granted(l, ev) then Reserve(l, alert, endpoint) else l
    case Complete(endpoint) =>
      var e := EndpointOf(l, endpoint);
      l.(endpoints := l.endpoints[endpoint := e.(active := Monus(e.active, 1))], activeGlobal := Monus(l.activeGlobal, 1))
    case Age(endpoint, n) =>
      var e := EndpointOf(l, endpoint);
      l.(endpoints := l.endpoints[endpoint := e.(windowActions := Monus(e.windowActions, n),
                                                 windowBytes := Monus(e.windowBytes, n * RESERVATION))])
  }

  predicate Run(l: Ledger, evs: seq<Event>)
    decreases |evs|
  {
    evs == [] || (Possible(l, evs[0]) && Run(Step(l, evs[0]), evs[1..]))
  }

  function Execute(l: Ledger, evs: seq<Event>): Ledger
    decreases |evs|
  {
    if evs == [] then l else Execute(Step(l, evs[0]), evs[1..])
  }

  // ---- the invariant ----

  ghost function SumActive(m: map<string, EndpointUse>): nat {
    if m == map[] then 0
    else
      var k :| k in m;
      m[k].active + SumActive(m - {k})
  }

  lemma {:induction false} SumWithout(m: map<string, EndpointUse>, k: string)
    requires k in m
    ensures SumActive(m) == m[k].active + SumActive(m - {k})
    decreases |m|
  {
    var j :| j in m && SumActive(m) == m[j].active + SumActive(m - {j});
    if j != k {
      SumWithout(m - {j}, k);
      SumWithout(m - {k}, j);
      assert m - {j} - {k} == m - {k} - {j};
    }
  }

  lemma SumUpdated(m: map<string, EndpointUse>, k: string, e: EndpointUse)
    ensures SumActive(m[k := e]) == SumActive(m) - (if k in m then m[k].active else 0) + e.active
  {
    SumWithout(m[k := e], k);
    if k in m {
      SumWithout(m, k);
      assert m[k := e] - {k} == m - {k};
    } else {
      assert m[k := e] - {k} == m;
    }
  }

  /** Bytes follow actions, every counter is within the ceiling, and the global count is the sum of the endpoints'. */
  ghost predicate Sound(l: Ledger, ceiling: Budget) {
    && (forall a :: a in l.alerts ==>
         && l.alerts[a].bytes == l.alerts[a].actions * 1048576
         && l.alerts[a].actions <= ceiling.maxActionsPerAlert && l.alerts[a].bytes <= ceiling.maxBytesPerAlert)
    && (forall e :: e in l.endpoints ==>
         && l.endpoints[e].windowBytes == l.endpoints[e].windowActions * 1048576
         && l.endpoints[e].windowActions <= ceiling.maxActionsPerWindow
         && l.endpoints[e].windowBytes <= ceiling.maxBytesPerWindow
         && l.endpoints[e].active <= ceiling.maxActivePerEndpoint)
    && SumActive(l.endpoints) == l.activeGlobal <= 128
  }

  lemma ReservationStaysSound(l: Ledger, alert: string, endpoint: string, budget: Budget, ceiling: Budget)
    requires Sound(l, ceiling) && BudgetAtMost(budget, ceiling)
    requires ReservationFits(budget, UsageOf(l, alert, endpoint))
    ensures Sound(Reserve(l, alert, endpoint), ceiling)
  {
    SumUpdated(l.endpoints, endpoint, Reserve(l, alert, endpoint).endpoints[endpoint]);
  }

  lemma CompletionStaysSound(l: Ledger, endpoint: string, ceiling: Budget)
    requires Sound(l, ceiling) && EndpointOf(l, endpoint).active > 0
    ensures l.activeGlobal > 0
    ensures Sound(Step(l, Complete(endpoint)), ceiling)
  {
    SumWithout(l.endpoints, endpoint);
    SumUpdated(l.endpoints, endpoint, Step(l, Complete(endpoint)).endpoints[endpoint]);
  }

  lemma AgeingStaysSound(l: Ledger, endpoint: string, n: nat, ceiling: Budget)
    requires Sound(l, ceiling) && n <= EndpointOf(l, endpoint).windowActions
    ensures Sound(Step(l, Age(endpoint, n)), ceiling)
  {
    SumUpdated(l.endpoints, endpoint, Step(l, Age(endpoint, n)).endpoints[endpoint]);
  }

  lemma StepStaysSound(l: Ledger, ev: Event, ceiling: Budget)
    requires Sound(l, ceiling) && Possible(l, ev)
    requires ev.Ask? ==> BudgetAtMost(ev.policy.budget, ceiling)
    ensures Sound(Step(l, ev), ceiling)
  {
    match ev
    case Ask(policy, alert, endpoint, request, capability) =>
      EvaluateExactly(policy, request, capability, UsageOf(l, alert, endpoint));
      if Granted(l, ev) {
        ReservationStaysSound(l, alert, endpoint, policy.budget, ceiling);
      }
    case Complete(endpoint) => CompletionStaysSound(l, endpoint, ceiling);
    case Age(endpoint, n) => AgeingStaysSound(l, endpoint, n, ceiling);
  }

  lemma {:induction false} RunStaysSound(l: Ledger, evs: seq<Event>, ceiling: Budget)
    requires Sound(l, ceiling) && Run(l, evs)
    requires forall ev :: ev in evs && ev.Ask? ==> BudgetAtMost(ev.policy.budget, ceiling)
    ensures Sound(Execute(l, evs), ceiling)
    decreases |evs|
  {
    if evs != [] {
      assert evs[0] in evs;
      StepStaysSound(l, evs[0], ceiling);
      RunStaysSound(Step(l, evs[0]), evs[1..], ceiling);
    }
  }

  /** The largest budget the schema admits. */
  const LARGEST := Budget(1048576, 3, 3145728, 86400, 64, 67108864, 8, 900)

  /**
   From an empty ledger, no interleaving of alerts, endpoints and accepted policies exceeds the largest
   admissible limits; under one policy, or policies within a common budget, none exceeds that budget.
   */
  lemma EveryRunWithinLimits(evs: seq<Event>, ceiling: Budget)
    requires Run(EMPTY, evs)
    requires ceiling == LARGEST || forall ev :: ev in evs && ev.Ask? ==> BudgetAtMost(ev.policy.budget, ceiling)
    ensures Sound(Execute(EMPTY, evs), ceiling)
  {
    AskedPoliciesAccepted(EMPTY, evs);
    RunStaysSound(EMPTY, evs, ceiling);
  }

  lemma {:induction false} AskedPoliciesAccepted(l: Ledger, evs: seq<Event>)
    requires Run(l, evs)
    ensures forall ev :: ev in evs && ev.Ask? ==> PolicyAccepted(ev.policy)
    decreases |evs|
  {
    if evs != [] {
      AskedPoliciesAccepted(Step(l, evs[0]), evs[1..]);
      assert forall ev :: ev in evs ==> ev == evs[0] || ev in evs[1..];
    }
  }

  // ---- the counters against the history of the run ----

  function ForAlert(alert: string): Event -> bool {
    (ev: Event) => ev.Ask? && ev.alert == alert
  }

  function Always(): Event -> bool {
    (ev: Event) => true
  }

  function AtEndpoint(endpoint: string): Event -> bool {
    (ev: Event) => (ev.Ask? && ev.asked == endpoint) || (ev.Complete? && ev.finished == endpoint)
  }

  /** How many of the run's evaluations that satisfy counted were granted. */
  function Grants(l: Ledger, evs: seq<Event>, counted: Event -> bool): nat
    decreases |evs|
  {
    if evs == [] then 0
    else
      (if evs[0].Ask? && counted(evs[0]) && Granted(l, evs[0]) then 1 else 0)
      + Grants(Step(l, evs[0]), evs[1..], counted)
  }

  function Completions(evs: seq<Event>, counted: Event -> bool): nat {
    if evs == [] then 0
    else (if evs[0].Complete? && counted(evs[0]) then 1 else 0) + Completions(evs[1..], counted)
  }

  /** Conservation: an alert's count is the number of its grants, and active actions are grants not yet completed. */
  lemma {:induction false} CountersAreHistory(l: Ledger, evs: seq<Event>, alert: string, ceiling: Budget)
    requires Sound(l, ceiling) && Run(l, evs)
    requires forall ev :: ev in evs && ev.Ask? ==> BudgetAtMost(ev.policy.budget, ceiling)
    ensures AlertOf(Execute(l, evs), alert).actions
         == AlertOf(l, alert).actions + Grants(l, evs, ForAlert(alert))
    ensures Execute(l, evs).activeGlobal + Completions(evs, Always()) == l.activeGlobal + Grants(l, evs, Always())
    decreases |evs|
  {
    if evs != [] {
      assert evs[0] in evs;
      StepStaysSound(l, evs[0], ceiling);
      CountersAreHistory(Step(l, evs[0]), evs[1..], alert, ceiling);
      if evs[0].Complete? {
        CompletionStaysSound(l, evs[0].finished, ceiling);
      }
    }
  }

  /** How many reservations have left the endpoint's window. */
  function Aged(evs: seq<Event>, endpoint: string): nat {
    if evs == [] then 0
    else (if evs[0].Age? && evs[0].endpoint == endpoint then evs[0].actions else 0) + Aged(evs[1..], endpoint)
  }

  /**
   Conservation at each endpoint, in every possible run from any ledger: its active actions are its grants
   not yet completed, and its window holds its grants not yet aged; completing an action frees no window.
   */
  lemma {:induction false} EndpointCountersAreHistory(l: Ledger, evs: seq<Event>, endpoint: string)
    requires Run(l, evs)
    ensures EndpointOf(Execute(l, evs), endpoint).active + Completions(evs, AtEndpoint(endpoint))
         == EndpointOf(l, endpoint).active + Grants(l, evs, AtEndpoint(endpoint))
    ensures EndpointOf(Execute(l, evs), endpoint).windowActions + Aged(evs, endpoint)
         == EndpointOf(l, endpoint).windowActions + Grants(l, evs, AtEndpoint(endpoint))
    decreases |evs|
  {
    if evs != [] {
      EndpointCountersAreHistory(Step(l, evs[0]), evs[1..], endpoint);
    }
  }
}
