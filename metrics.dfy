/** The module-level accumulators of `src/metrics.js` and the functions that
    update and flush them. The network send is recorded in `sent`; the time and
    the random jitter of each send are parameters (`Stamp`). */
module Metrics {
  import opened MetricPayload

  type UserId = int

  /** The sum of the values of a map (the per-method request counts). */
  ghost function SumValues(m: map<string, nat>): nat
    decreases |m|
  {
    if m == map[] then 0
    else
      var k :| k in m;
      m[k] + SumValues(m - {k})
  }

  /** Any key can be taken out first. */
  lemma {:induction false} SumValuesRemove(m: map<string, nat>, k: string)
    requires k in m
    ensures SumValues(m) == m[k] + SumValues(m - {k})
    decreases |m|
  {
    var x :| x in m && SumValues(m) == m[x] + SumValues(m - {x});
    if x != k {
      SumValuesRemove(m - {x}, k);
      SumValuesRemove(m - {k}, x);
      assert m - {x} - {k} == m - {k} - {x};
    }
  }

  /** Setting one count changes the sum by exactly the change of that count. */
  lemma SumValuesUpdate(m: map<string, nat>, k: string, v: nat)
    ensures SumValues(m[k := v]) == SumValues(m) - (if k in m then m[k] else 0) + v
  {
    SumValuesRemove(m[k := v], k);
    if k in m {
      SumValuesRemove(m, k);
      assert m[k := v] - {k} == m - {k};
    } else {
      assert m[k := v] - {k} == m;
    }
  }

  /** `requestMetrics.methods` as declared. */
  const InitialMethods: map<string, nat> := map["GET" := 0, "POST" := 0, "PUT" := 0, "DELETE" := 0]

  lemma InitialMethodsSum()
    ensures SumValues(InitialMethods) == 0
  {
    var empty: map<string, nat> := map[];
    SumValuesUpdate(empty, "GET", 0);
    SumValuesUpdate(empty["GET" := 0], "POST", 0);
    SumValuesUpdate(empty["GET" := 0]["POST" := 0], "PUT", 0);
    SumValuesUpdate(empty["GET" := 0]["POST" := 0]["PUT" := 0], "DELETE", 0);
    assert InitialMethods == empty["GET" := 0]["POST" := 0]["PUT" := 0]["DELETE" := 0];
  }

  /** `(methods[m] || 0)`: a method seen for the first time counts from 0. */
  function CountOf(methods: map<string, nat>, m: string): nat {
    if m in methods then methods[m] else 0
  }

  class Registry {
    // authMetrics
    var successfulLogins: nat
    var failedLogins: nat
    // requestMetrics
    var totalRequests: nat
    var methods: map<string, nat>
    // pizza sales
    var pizzasSold: nat
    var creationFailures: nat
    var revenue: real
    // the Set of logged-in user ids
    var activeUsers: set<UserId>
    /** `requests` and `latency` are declared with `let` but nothing assigns them. */
    const requests: nat := 0
    const latency: real := 0.0
    /** Every payload handed to the network, in order. */
    var sent: seq<Payload>

    /** Neither request counter is ever reset, so the total stays the sum of
        the per-method counts. */
    ghost predicate Valid()
      reads this
    {
      totalRequests == SumValues(methods)
    }

    /** The state when the module is loaded. */
    constructor ()
      ensures Valid()
      ensures successfulLogins == 0 && failedLogins == 0
      ensures totalRequests == 0 && methods == InitialMethods
      ensures pizzasSold == 0 && creationFailures == 0 && revenue == 0.0
      ensures activeUsers == {} && sent == []
    {
      successfulLogins, failedLogins := 0, 0;
      totalRequests, methods := 0, InitialMethods;
      pizzasSold, creationFailures, revenue := 0, 0, 0.0;
      activeUsers := {};
      sent := [];
      InitialMethodsSum();
    }

    /** `sendMetricToGrafana`: the payload is built and posted; a failed post
        is only logged, so the send is the appended payload. */
    method SendMetric(name: string, value: real, kind: string, unit: string, st: Stamp)
      requires ValidStamp(st)
      modifies this`sent
      ensures sent == old(sent) + [BuildPayload(name, value, kind, unit, st)]
    {
      sent := sent + [BuildPayload(name, value, kind, unit, st)];
    }

    /** `sendActiveUsersMetric`: the gauge is the number of active users. */
    method SendActiveUsersMetric(st: Stamp)
      requires ValidStamp(st)
      modifies this`sent
      ensures sent == old(sent) + [BuildPayload("active_users", |activeUsers| as real, "gauge", "count", st)]
    {
      SendMetric("active_users", |activeUsers| as real, "gauge", "count", st);
    }

    method TrackUserLogin(id: UserId, st: Stamp)
      requires Valid() && ValidStamp(st)
      modifies this`activeUsers, this`sent
      ensures Valid()
      ensures activeUsers == old(activeUsers) + {id}
      ensures sent == old(sent) + [BuildPayload("active_users", |activeUsers| as real, "gauge", "count", st)]
    {
      activeUsers := activeUsers + {id};
      SendActiveUsersMetric(st);
    }

    method TrackUserLogout(id: UserId, st: Stamp)
      requires Valid() && ValidStamp(st)
      modifies this`activeUsers, this`sent
      ensures Valid()
      ensures activeUsers == old(activeUsers) - {id}
      ensures sent == old(sent) + [BuildPayload("active_users", |activeUsers| as real, "gauge", "count", st)]
    {
      activeUsers := activeUsers - {id};
      SendActiveUsersMetric(st);
    }

    method TrackSuccessfulLogin()
      requires Valid()
      modifies this`successfulLogins
      ensures Valid()
      ensures successfulLogins == old(successfulLogins) + 1 && failedLogins == old(failedLogins)
    {
      successfulLogins := successfulLogins + 1;
    }

    method TrackFailedLogin()
      requires Valid()
      modifies this`failedLogins
      ensures Valid()
      ensures failedLogins == old(failedLogins) + 1 && successfulLogins == old(successfulLogins)
    {
      failedLogins := failedLogins + 1;
    }

    /** Reports both auth counters as sums, then zeroes them. */
    method SendAuthMetrics(st1: Stamp, st2: Stamp)
      requires Valid() && ValidStamp(st1) && ValidStamp(st2)
      modifies this`successfulLogins, this`failedLogins, this`sent
      ensures Valid()
      ensures sent == old(sent) + [
        BuildPayload("auth_successful_attempts", old(successfulLogins) as real, "sum", "1", st1),
        BuildPayload("auth_failed_attempts", old(failedLogins) as real, "sum", "1", st2)]
      ensures successfulLogins == 0 && failedLogins == 0
    {
      SendMetric("auth_successful_attempts", successfulLogins as real, "sum", "1", st1);
      SendMetric("auth_failed_attempts", failedLogins as real, "sum", "1", st2);
      successfulLogins := 0;
      failedLogins := 0;
    }

    /** The synchronous part of `requestTracker`: count the request in the
        total and under its HTTP method. */
    method TrackRequest(httpMethod: string)
      requires Valid()
      modifies this`totalRequests, this`methods
      ensures Valid()
      ensures totalRequests == old(totalRequests) + 1
      ensures methods == old(methods)[httpMethod := CountOf(old(methods), httpMethod) + 1]
    {
      SumValuesUpdate(methods, httpMethod, CountOf(methods, httpMethod) + 1);
      totalRequests := totalRequests + 1;
      methods := methods[httpMethod := CountOf(methods, httpMethod) + 1];
    }

    /** The `finish` handler `requestTracker` registers: it reports the
        duration and the counters as they are when the response finishes. */
    method RequestFinished(httpMethod: string, durationMs: real, st1: Stamp, st2: Stamp, st3: Stamp)
      requires httpMethod in methods
      requires ValidStamp(st1) && ValidStamp(st2) && ValidStamp(st3)
      modifies this`sent
      ensures sent == old(sent) + [
        BuildPayload("request_time_" + httpMethod, durationMs, "sum", "ms", st1),
        BuildPayload("requests_" + httpMethod, methods[httpMethod] as real, "sum", "1", st2),
        BuildPayload("requests_total", totalRequests as real, "sum", "1", st3)]
    {
      SendMetric("request_time_" + httpMethod, durationMs, "sum", "ms", st1);
      SendMetric("requests_" + httpMethod, methods[httpMethod] as real, "sum", "1", st2);
      SendMetric("requests_total", totalRequests as real, "sum", "1", st3);
    }

    /** `requestTracker` for a request whose response finishes before the next
        request is counted: the reported counters include this request. */
    method HandleRequest(httpMethod: string, durationMs: real, st1: Stamp, st2: Stamp, st3: Stamp)
      requires Valid() && ValidStamp(st1) && ValidStamp(st2) && ValidStamp(st3)
      modifies this`totalRequests, this`methods, this`sent
      ensures Valid()
      ensures totalRequests == old(totalRequests) + 1
      ensures methods == old(methods)[httpMethod := CountOf(old(methods), httpMethod) + 1]
      ensures sent == old(sent) + [
        BuildPayload("request_time_" + httpMethod, durationMs, "sum", "ms", st1),
        BuildPayload("requests_" + httpMethod, (CountOf(old(methods), httpMethod) + 1) as real, "sum", "1", st2),
        BuildPayload("requests_total", (old(totalRequests) + 1) as real, "sum", "1", st3)]
    {
      TrackRequest(httpMethod);
      RequestFinished(httpMethod, durationMs, st1, st2, st3);
    }

    method TrackPizzaSale(amount: real)
      requires Valid()
      modifies this`pizzasSold, this`revenue
      ensures Valid()
      ensures pizzasSold == old(pizzasSold) + 1 && revenue == old(revenue) + amount
    {
      pizzasSold := pizzasSold + 1;
      revenue := revenue + amount;
    }

    method TrackCreationFailure()
      requires Valid()
      modifies this`creationFailures
      ensures Valid()
      ensures creationFailures == old(creationFailures) + 1
    {
      creationFailures := creationFailures + 1;
    }

    /** Reports the three sales counters as sums, then zeroes them. */
    method SendPizzaMetrics(st1: Stamp, st2: Stamp, st3: Stamp)
      requires Valid() && ValidStamp(st1) && ValidStamp(st2) && ValidStamp(st3)
      modifies this`pizzasSold, this`creationFailures, this`revenue, this`sent
      ensures Valid()
      ensures sent == old(sent) + [
        BuildPayload("pizzas_sold_per_minute", old(pizzasSold) as real, "sum", "1", st1),
        BuildPayload("pizza_creation_failures_per_minute", old(creationFailures) as real, "sum", "1", st2),
        BuildPayload("revenue_per_minute", old(revenue), "sum", "currency", st3)]
      ensures pizzasSold == 0 && creationFailures == 0 && revenue == 0.0
    {
      SendMetric("pizzas_sold_per_minute", pizzasSold as real, "sum", "1", st1);
      SendMetric("pizza_creation_failures_per_minute", creationFailures as real, "sum", "1", st2);
      SendMetric("revenue_per_minute", revenue, "sum", "currency", st3);
      pizzasSold := 0;
      creationFailures := 0;
      revenue := 0.0;
    }

    /** One tick of `sendMetricsPeriodically`, with the host's CPU and memory
        percentages as parameters. Nothing is reset. */
    method SendPeriodicMetrics(cpu: real, memory: real, st1: Stamp, st2: Stamp, st3: Stamp, st4: Stamp, st5: Stamp)
      requires ValidStamp(st1) && ValidStamp(st2) && ValidStamp(st3) && ValidStamp(st4) && ValidStamp(st5)
      modifies this`sent
      ensures sent == old(sent) + [
        BuildPayload("cpu", cpu, "gauge", "%", st1),
        BuildPayload("memory", memory, "gauge", "%", st2),
        BuildPayload("requests", 0.0, "sum", "1", st3),
        BuildPayload("latency", 0.0, "sum", "ms", st4),
        BuildPayload("active_users", |activeUsers| as real, "gauge", "count", st5)]
    {
      SendMetric("cpu", cpu, "gauge", "%", st1);
      SendMetric("memory", memory, "gauge", "%", st2);
      SendMetric("requests", requests as real, "sum", "1", st3);
      SendMetric("latency", latency, "sum", "ms", st4);
      SendActiveUsersMetric(st5);
    }
  }

  /** How many times `m` occurs in `ms`. */
  function Occurrences(ms: seq<string>, m: string): (n: nat)
    ensures n <= |ms|
  {
    if ms == [] then 0
    else Occurrences(ms[..|ms| - 1], m) + (if ms[|ms| - 1] == m then 1 else 0)
  }

  /** The sum of the sale amounts. */
  function Total(amounts: seq<real>): real {
    if amounts == [] then 0.0 else Total(amounts[..|amounts| - 1]) + amounts[|amounts| - 1]
  }

  /** `requestTracker` called once per element of `ms`, in order. */
  method TrackAll(reg: Registry, ms: seq<string>)
    requires reg.Valid()
    modifies reg`totalRequests, reg`methods
    ensures reg.Valid()
    ensures reg.totalRequests == old(reg.totalRequests) + |ms|
    ensures forall m :: CountOf(reg.methods, m) == CountOf(old(reg.methods), m) + Occurrences(ms, m)
    ensures old(reg.methods).Keys <= reg.methods.Keys
  {
    var i := 0;
    while i < |ms|
      invariant 0 <= i <= |ms|
      invariant reg.Valid()
      invariant reg.totalRequests == old(reg.totalRequests) + i
      invariant forall m :: CountOf(reg.methods, m) == CountOf(old(reg.methods), m) + Occurrences(ms[..i], m)
      invariant old(reg.methods).Keys <= reg.methods.Keys
    {
      assert ms[..i + 1][..i] == ms[..i];
      reg.TrackRequest(ms[i]);
      i := i + 1;
    }
    assert ms[..i] == ms;
  }

  /** From a fresh registry, each HTTP method's counter is the number of
      requests made with it, and the total is the number of requests. */
  method CountRequests(ms: seq<string>) returns (total: nat, counts: map<string, nat>)
    ensures total == |ms|
    ensures forall m :: CountOf(counts, m) == Occurrences(ms, m)
    ensures total == SumValues(counts)
    ensures forall m :: m in InitialMethods ==> m in counts
  {
    var reg: Registry := new Registry();
    TrackAll(reg, ms);
    total, counts := reg.totalRequests, reg.methods;
  }

  /** Auth attempts reported by one flush are not reported again by the next. */
  method FlushAuthTwice(successes: nat, failures: nat, st1: Stamp, st2: Stamp, st3: Stamp, st4: Stamp)
    returns (first: seq<Payload>, second: seq<Payload>)
    requires ValidStamp(st1) && ValidStamp(st2) && ValidStamp(st3) && ValidStamp(st4)
    ensures first == [
      BuildPayload("auth_successful_attempts", successes as real, "sum", "1", st1),
      BuildPayload("auth_failed_attempts", failures as real, "sum", "1", st2)]
    ensures second == [
      BuildPayload("auth_successful_attempts", 0.0, "sum", "1", st3),
      BuildPayload("auth_failed_attempts", 0.0, "sum", "1", st4)]
  {
    var reg: Registry := new Registry();
    var i := 0;
    while i < successes
      invariant 0 <= i <= successes
      invariant reg.Valid() && reg.successfulLogins == i && reg.failedLogins == 0 && reg.sent == []
      modifies reg`successfulLogins
    {
      reg.TrackSuccessfulLogin();
      i := i + 1;
    }
    i := 0;
    while i < failures
      invariant 0 <= i <= failures
      invariant reg.Valid() && reg.successfulLogins == successes && reg.failedLogins == i && reg.sent == []
      modifies reg`failedLogins
    {
      reg.TrackFailedLogin();
      i := i + 1;
    }
    reg.SendAuthMetrics(st1, st2);
    first := reg.sent;
    reg.SendAuthMetrics(st3, st4);
    second := reg.sent[2..];
  }

  /** Sales reported by one flush are the sales since the previous one, and
      the next flush starts again from zero. */
  method FlushPizzaTwice(amounts: seq<real>, failures: nat, st1: Stamp, st2: Stamp, st3: Stamp, st4: Stamp, st5: Stamp, st6: Stamp)
    returns (first: seq<Payload>, second: seq<Payload>)
    requires ValidStamp(st1) && ValidStamp(st2) && ValidStamp(st3)
    requires ValidStamp(st4) && ValidStamp(st5) && ValidStamp(st6)
    ensures first == [
      BuildPayload("pizzas_sold_per_minute", |amounts| as real, "sum", "1", st1),
      BuildPayload("pizza_creation_failures_per_minute", failures as real, "sum", "1", st2),
      BuildPayload("revenue_per_minute", Total(amounts), "sum", "currency", st3)]
    ensures second == [
      BuildPayload("pizzas_sold_per_minute", 0.0, "sum", "1", st4),
      BuildPayload("pizza_creation_failures_per_minute", 0.0, "sum", "1", st5),
      BuildPayload("revenue_per_minute", 0.0, "sum", "currency", st6)]
  {
    var reg: Registry := new Registry();
    var i := 0;
    while i < |amounts|
      invariant 0 <= i <= |amounts|
      invariant reg.Valid() && reg.pizzasSold == i && reg.revenue == Total(amounts[..i])
      invariant reg.creationFailures == 0 && reg.sent == []
      modifies reg`pizzasSold, reg`revenue
    {
      assert amounts[..i + 1][..i] == amounts[..i];
      reg.TrackPizzaSale(amounts[i]);
      i := i + 1;
    }
    assert amounts[..i] == amounts;
    i := 0;
    while i < failures
      invariant 0 <= i <= failures
      invariant reg.Valid() && reg.pizzasSold == |amounts| && reg.revenue == Total(amounts)
      invariant reg.creationFailures == i && reg.sent == []
      modifies reg`creationFailures
    {
      reg.TrackCreationFailure();
      i := i + 1;
    }
    reg.SendPizzaMetrics(st1, st2, st3);
    first := reg.sent;
    reg.SendPizzaMetrics(st4, st5, st6);
    second := reg.sent[3..];
  }

  /** The active-users gauge counts users, not logins, and a logout undoes a login. */
  method LoginTwiceThenLogout(id: UserId, st1: Stamp, st2: Stamp, st3: Stamp)
    returns (reports: seq<Payload>)
    requires ValidStamp(st1) && ValidStamp(st2) && ValidStamp(st3)
    ensures reports == [
      BuildPayload("active_users", 1.0, "gauge", "count", st1),
      BuildPayload("active_users", 1.0, "gauge", "count", st2),
      BuildPayload("active_users", 0.0, "gauge", "count", st3)]
  {
    var reg: Registry := new Registry();
    reg.TrackUserLogin(id, st1);
    reg.TrackUserLogin(id, st2);
    reg.TrackUserLogout(id, st3);
    reports := reg.sent;
  }
}
