/** The service health check: four component checks, the overall status
    derived from them, and the record stored after each check. The
    environment (whether the language-model key is set, whether the
    database answers, and whether some step raises) is an input. */
module Health {
  import opened Wrappers
  import AiSummary

  datatype Status = Healthy | Degraded | Unhealthy

  function Rank(s: Status): nat {
    match s
    case Healthy => 0
    case Degraded => 1
    case Unhealthy => 2
  }

  function Label(s: Status): string {
    match s
    case Healthy => "healthy"
    case Degraded => "degraded"
    case Unhealthy => "unhealthy"
  }

  /** `unhealthy` if any status is, else `degraded` if any is, else
      `healthy`: the rule for the overall status and for the external
      dependencies alike. */
  function Worst(statuses: seq<Status>): (r: Status)
    ensures r == Unhealthy <==> Unhealthy in statuses
    ensures r == Degraded <==> Unhealthy !in statuses && Degraded in statuses
    ensures r == Healthy <==> forall k :: 0 <= k < |statuses| ==> statuses[k] == Healthy
  {
    if Unhealthy in statuses then
      assert exists k :: 0 <= k < |statuses| && statuses[k] == Unhealthy;
      Unhealthy
    else if Degraded in statuses then
      assert exists k :: 0 <= k < |statuses| && statuses[k] == Degraded;
      Degraded
    else
      assert forall k :: 0 <= k < |statuses| ==> statuses[k] != Unhealthy && statuses[k] != Degraded;
      Healthy
  }

  /** The worst status is the one of largest rank: an upper bound of every
      status in the list, and reached by one of them unless the list is empty. */
  lemma WorstIsMaximum(statuses: seq<Status>)
    ensures forall k :: 0 <= k < |statuses| ==> Rank(statuses[k]) <= Rank(Worst(statuses))
    ensures statuses != [] ==> Worst(statuses) in statuses
  {
    if statuses != [] && Worst(statuses) == Healthy {
      assert statuses[0] == Healthy;
    }
    forall k | 0 <= k < |statuses|
      ensures Rank(statuses[k]) <= Rank(Worst(statuses))
    {
      assert statuses[k] in statuses;
    }
  }

  /** The order of the components does not matter, and worst-of composes:
      the worst of a joined list is the worst of the two worsts. */
  lemma WorstComposes(a: seq<Status>, b: seq<Status>)
    ensures multiset(a) == multiset(b) ==> Worst(a) == Worst(b)
    ensures Worst(a + b) == Worst([Worst(a), Worst(b)])
  {
    if multiset(a) == multiset(b) {
      assert forall s :: s in a <==> s in multiset(a);
      assert forall s :: s in b <==> s in multiset(b);
    }
    assert forall s :: s in a + b <==> s in a || s in b;
    WorstIsMaximum(a);
    WorstIsMaximum(b);
    if Worst(a) == Healthy && Worst(b) == Healthy {
      assert forall k :: 0 <= k < |a + b| ==> (a + b)[k] in a || (a + b)[k] in b;
    }
  }

  // ----- The four components -----

  datatype Component = Api | Database | AiService | External

  /** `if not openai_key`: an unset or empty key. */
  predicate KeySet(key: Option<string>) {
    key.Some? && key.value != []
  }

  /** The database check: both probe queries answer, or the component is unhealthy. */
  function DatabaseStatus(reachable: bool): Status {
    if reachable then Healthy else Unhealthy
  }

  datatype AiCheck = AiCheck(status: Status, aiAvailable: bool)

  function AiServiceCheck(key: Option<string>): (r: AiCheck)
    ensures r.status == Degraded <==> !KeySet(key)
    ensures r.status == Healthy <==> KeySet(key)
    ensures r.aiAvailable <==> r.status == Healthy
  {
    if !KeySet(key) then AiCheck(Degraded, false) else AiCheck(Healthy, true)
  }

  /** The external dependencies: the language-model API (degraded without
      a key), the database and the file storage (always healthy). */
  function Dependencies(key: Option<string>): (r: seq<(string, Status)>)
    ensures |r| == 3
    ensures r[0].0 == "openai_api" && (r[0].1 == Degraded <==> !KeySet(key))
    ensures r[1].1 == Healthy && r[2].1 == Healthy
  {
    [("openai_api", if KeySet(key) then Healthy else Degraded), ("database", Healthy), ("file_storage", Healthy)]
  }

  function ExternalStatus(key: Option<string>): (r: Status)
    ensures r != Unhealthy
    ensures r == Degraded <==> !KeySet(key)
  {
    var deps := Dependencies(key);
    Worst([deps[0].1, deps[1].1, deps[2].1])
  }

  /** A component status as the check would report it. */
  function ComponentStatus(c: Component, key: Option<string>, reachable: bool): Status {
    match c
    case Api => Healthy
    case Database => DatabaseStatus(reachable)
    case AiService => AiServiceCheck(key).status
    case External => ExternalStatus(key)
  }

  const Order: seq<Component> := [Api, Database, AiService, External]

  // ----- The full check -----

  /** `raisesAfter` is `Some(k)` when an exception escapes after the first
      `k` components were recorded (`k` = 4: after all of them, for instance
      while logging). */
  datatype Environment = Environment(key: Option<string>, reachable: bool, raisesAfter: Option<nat>)

  datatype Report = Report(overall: Status, components: seq<(Component, Status)>, failed: bool)

  function Recorded(env: Environment, k: nat): (r: seq<(Component, Status)>)
    requires k <= |Order|
    ensures |r| == k
    ensures forall i :: 0 <= i < k ==> r[i] == (Order[i], ComponentStatus(Order[i], env.key, env.reachable))
  {
    seq(k, i requires 0 <= i < k => (Order[i], ComponentStatus(Order[i], env.key, env.reachable)))
  }

  function Statuses(cs: seq<(Component, Status)>): (r: seq<Status>)
    ensures |r| == |cs| && forall i :: 0 <= i < |cs| ==> r[i] == cs[i].1
  {
    seq(|cs|, i requires 0 <= i < |cs| => cs[i].1)
  }

  /** The overall status starts `healthy`; without an exception it is the
      worst of the four components, and an exception forces `unhealthy`. */
  function HealthCheck(env: Environment): (r: Report)
    ensures env.raisesAfter.None? ==> |r.components| == 4 && r.overall == Worst(Statuses(r.components)) && !r.failed
    ensures env.raisesAfter.Some? ==> r.overall == Unhealthy && r.failed
    ensures env.raisesAfter.Some? ==> |r.components| == (if env.raisesAfter.value < 4 then env.raisesAfter.value else 4)
    ensures forall i :: 0 <= i < |r.components| ==>
      r.components[i] == (Order[i], ComponentStatus(Order[i], env.key, env.reachable))
  {
    match env.raisesAfter
    case None =>
      var cs := Recorded(env, 4);
      Report(Worst(Statuses(cs)), cs, false)
    case Some(k) =>
      Report(Unhealthy, Recorded(env, if k < 4 then k else 4), true)
  }

  /** The outcome of an uneventful check: unhealthy exactly when the
      database does not answer, else degraded exactly when the key is unset. */
  lemma OverallTable(key: Option<string>, reachable: bool)
    ensures var r := HealthCheck(Environment(key, reachable, None));
      && (r.overall == Unhealthy <==> !reachable)
      && (r.overall == Degraded <==> reachable && !KeySet(key))
      && (r.overall == Healthy <==> reachable && KeySet(key))
  {
    var r := HealthCheck(Environment(key, reachable, None));
    var ss := Statuses(r.components);
    assert ss == [Healthy, DatabaseStatus(reachable), AiServiceCheck(key).status, ExternalStatus(key)];
  }

  // ----- The stored record -----

  datatype StoredStatus = Known(status: Status) | Unknown

  function StoredLabel(s: StoredStatus): string {
    match s
    case Known(st) => Label(st)
    case Unknown => "unknown"
  }

  /** `components.get(name, {}).get("status", "unknown")`. */
  function Lookup(cs: seq<(Component, Status)>, c: Component): (r: StoredStatus)
    ensures r.Unknown? <==> forall i :: 0 <= i < |cs| ==> cs[i].0 != c
    ensures r.Known? ==> exists i :: 0 <= i < |cs| && cs[i] == (c, r.status)
  {
    if cs == [] then Unknown
    else if cs[0].0 == c then Known(cs[0].1)
    else
      var rest := Lookup(cs[1..], c);
      assert forall i :: 1 <= i < |cs| ==> cs[i] == cs[1..][i - 1];
      rest
  }

  datatype StoredCheck = StoredCheck(api: StoredStatus, db: StoredStatus, ai: StoredStatus, error: Option<string>)

  function Store(r: Report, error: Option<string>): (s: StoredCheck)
    ensures s.api == Lookup(r.components, Api)
    ensures s.db == Lookup(r.components, Database)
    ensures s.ai == Lookup(r.components, AiService)
    ensures s.error == error
  {
    StoredCheck(Lookup(r.components, Api), Lookup(r.components, Database), Lookup(r.components, AiService), error)
  }

  /** A check that raised before reaching a component stores `unknown` for
      it, and every component it did reach is stored with its status. */
  lemma StoredStatuses(env: Environment, message: string)
    requires env.raisesAfter.Some?
    ensures var s := Store(HealthCheck(env), Some(message));
      && (s.api.Unknown? <==> env.raisesAfter.value == 0)
      && (s.db.Unknown? <==> env.raisesAfter.value <= 1)
      && (s.ai.Unknown? <==> env.raisesAfter.value <= 2)
      && (s.db.Known? ==> s.db.status == DatabaseStatus(env.reachable))
  {
    var cs := HealthCheck(env).components;
    if |cs| >= 1 { assert cs[0].0 == Api; }
    if |cs| >= 2 { assert cs[1] == (Database, DatabaseStatus(env.reachable)); }
    if |cs| >= 3 { assert cs[2].0 == AiService; }
    assert forall i :: 0 <= i < |cs| ==> cs[i].0 == Order[i];
  }

  /** The health check and the summary service read the key differently:
      the template's placeholder key passes as configured here, while the
      summary service creates no client for it and always falls back. The
      converse holds: a key the summary service accepts passes here. */
  lemma PlaceholderKeyDisagreement(key: Option<string>)
    requires key == Some("your_openai_api_key_here")
    ensures AiServiceCheck(key).status == Healthy && AiServiceCheck(key).aiAvailable
    ensures !AiSummary.ClientConfigured(key)
    ensures forall k :: AiSummary.ClientConfigured(k) ==> AiServiceCheck(k).status == Healthy
  {
  }
}
