/** Configuring metric groups on all targets, of src/astl_telemetry.cpp, and the clean-configure protocol under
    it, of src/impl/orchestrator/orchestrator.cpp: configurations of earlier sessions are cleared once, before
    the first target is configured. */
module CleanConfigure {
  import opened Common
  import opened GroupExpansion
  import AggregateStart

  type State = AggregateStart.State

  const UNCONFIGURED: State := AggregateStart.Unconfigured
  const CONFIGURED: State := AggregateStart.Configured

  /** What the collectors, the metric manager and the file system answer, `None` for success: to the two steps
      of a reset, and for each target to the check of its metrics, to the configuration of its collector, and
      to the steps that complete it. */
  datatype Answers = Answers(
    clearCollectors: Option<Status>,
    clearArtifacts: Option<Status>,
    check: Target -> Option<Status>,
    configure: Target -> Option<Status>,
    complete: Target -> Option<Status>)

  /** The states of the targets, the metrics they are configured with, whether the next configuration finds the
      reset already done, and how often configurations were cleared. */
  datatype Session = Session(
    states: map<Target, State>,
    configured: map<Target, seq<Metric>>,
    resetPending: bool,
    resets: nat)

  predicate Collecting(s: State) {
    s.Starting? || s.Started? || s.Paused?
  }

  predicate AnyCollecting(states: map<Target, State>) {
    exists t :: t in states && Collecting(states[t])
  }

  predicate OtherConfigured(states: map<Target, State>, target: Target) {
    exists t :: t in states && t != target && states[t] == CONFIGURED
  }

  function Unconfigured(states: map<Target, State>): map<Target, State> {
    map t | t in states :: UNCONFIGURED
  }

  // ----- what the calls do

  function ResetLocked(s: Session, a: Answers): (Session, Option<Status>) {
    if a.clearCollectors.Some? then (s, a.clearCollectors)
    else (Session(Unconfigured(s.states), map[], s.resetPending, s.resets + 1), a.clearArtifacts)
  }

  /** The reset before all targets are configured. */
  function Reset(s: Session, a: Answers): (Session, Option<Status>) {
    if AnyCollecting(s.states) then (s, Some(CollectionAlreadyRunning))
    else
      var (t, status) := ResetLocked(s, a);
      (t.(resetPending := status.None?), status)
  }

  /** The reset before one target is configured: not when it has just been done, and not when another target
      is configured. */
  function ResetForTarget(s: Session, target: Target, a: Answers): (Session, Option<Status>) {
    if s.resetPending then (s.(resetPending := false), None)
    else if AnyCollecting(s.states) then (s, Some(CollectionAlreadyRunning))
    else if OtherConfigured(s.states, target) then (s, None)
    else ResetLocked(s, a)
  }

  function Configure(s: Session, targets: seq<Target>, target: Target, metrics: seq<Metric>, a: Answers)
    : (Session, Option<Status>)
  {
    if target !in targets then (s, Some(InvalidTargetHandle))
    else if a.check(target).Some? then (s, a.check(target))
    else
      var (t, status) := ResetForTarget(s, target, a);
      if status.Some? then (t, status)
      else if a.configure(target).Some? then (t, a.configure(target))
      else if a.complete(target).Some? then
        (t.(states := t.states[target := UNCONFIGURED], configured := t.configured - {target}), a.complete(target))
      else (t.(states := t.states[target := CONFIGURED], configured := t.configured[target := metrics]), None)
  }

  /** Target after target, up to the first error. */
  function ConfigureEach(s: Session, targets: seq<Target>, rs: seq<TargetMetrics>, a: Answers)
    : (Session, Option<Status>)
    decreases |rs|
  {
    if rs == [] then (s, None)
    else
      var (t, status) := Configure(s, targets, rs[0].target, rs[0].metrics, a);
      if status.Some? then (t, status) else ConfigureEach(t, targets, rs[1..], a)
  }

  /** Everything wrong with the request is found before anything changes. */
  function ConfigureAll(s: Session, mm: MetricManager, targets: seq<Target>, requested: seq<Group>, a: Answers)
    : (Session, Option<Status>)
  {
    match Request(mm, targets, requested)
    case Err(e) => (s, Some(e))
    case Ok(rs) =>
      var (t, status) := Reset(s, a);
      if status.Some? then (t, status) else ConfigureEach(t, targets, rs, a)
  }

  class Orchestrator {
    const targets: seq<Target>
    var states: map<Target, State>
    var configured: map<Target, seq<Metric>>
    var resetPending: bool
    var resets: nat

    ghost function Now(): Session
      reads this
    {
      Session(states, configured, resetPending, resets)
    }

    constructor (targets: seq<Target>)
      ensures this.targets == targets && Now() == Fresh(targets)
    {
      this.targets := targets;
      states, configured, resetPending, resets := map t | t in targets :: UNCONFIGURED, map[], false, 0;
    }

    method ResolveMetricGroupHandlesOnTargets(mm: MetricManager, requested: seq<Group>)
      returns (r: Result<seq<TargetMetrics>, Status>)
      ensures r == Request(mm, targets, requested)
    {
      if targets == [] {
        return Err(NoTargetFound);
      }
      var rs := [];
      for i := 0 to |targets|
        invariant Resolved(mm, targets[..i], requested) == Ok(rs)
      {
        assert targets[..i + 1][..i] == targets[..i];
        var metrics := ExpandMetricGroupHandlesForTarget(mm, Some(targets[i]), requested, false);
        if metrics.Err? {
          FirstTargetErrorWins(mm, targets, i + 1, requested);
          return Err(metrics.error);
        }
        if metrics.value != [] {
          rs := rs + [TargetMetrics(targets[i], metrics.value)];
        }
      }
      assert targets[..|targets|] == targets;
      if rs == [] {
        return Err(MetricGroupNotSupportedOnTarget);
      }
      return Ok(rs);
    }

    method MarkAllTargetsUnconfigured()
      modifies this`states
      ensures states == Unconfigured(old(states))
    {
      var rest := states.Keys;
      while rest != {}
        invariant states.Keys == old(states.Keys) && rest <= states.Keys
        invariant forall t :: t in states && t !in rest ==> states[t] == UNCONFIGURED
        decreases |rest|
      {
        var t :| t in rest;
        rest := rest - {t};
        states := states[t := UNCONFIGURED];
      }
    }

    method ResetCollectionStateForCleanConfigureLocked(a: Answers) returns (status: Option<Status>)
      modifies this`states, this`configured, this`resets
      ensures (Now(), status) == ResetLocked(old(Now()), a)
    {
      if a.clearCollectors.Some? {
        return a.clearCollectors;
      }
      configured, resets := map[], resets + 1;
      MarkAllTargetsUnconfigured();
      return a.clearArtifacts;
    }

    method ResetCollectionStateForCleanConfigure(a: Answers) returns (status: Option<Status>)
      modifies this
      ensures (Now(), status) == Reset(old(Now()), a)
    {
      var rest := states.Keys;
      while rest != {}
        invariant rest <= states.Keys && Now() == old(Now())
        invariant forall t :: t in states && t !in rest ==> !Collecting(states[t])
        decreases |rest|
      {
        var t :| t in rest;
        rest := rest - {t};
        if Collecting(states[t]) {
          return Some(CollectionAlreadyRunning);
        }
      }
      status := ResetCollectionStateForCleanConfigureLocked(a);
      resetPending := status.None?;
    }

    method ResetOperationIdsForCleanConfigure(target: Target, a: Answers) returns (status: Option<Status>)
      modifies this
      ensures (Now(), status) == ResetForTarget(old(Now()), target, a)
    {
      if resetPending {
        resetPending := false;
        return None;
      }
      var shouldReset := true;
      var rest := states.Keys;
      while rest != {}
        invariant rest <= states.Keys && Now() == old(Now())
        invariant forall t :: t in states && t !in rest ==> !Collecting(states[t])
        invariant shouldReset <==> forall t :: t in states && t !in rest && t != target ==> states[t] != CONFIGURED
        decreases |rest|
      {
        var t :| t in rest;
        rest := rest - {t};
        if Collecting(states[t]) {
          return Some(CollectionAlreadyRunning);
        }
        if states[t] == CONFIGURED && t != target {
          shouldReset := false;
        }
      }
      if !shouldReset {
        return None;
      }
      status := ResetCollectionStateForCleanConfigureLocked(a);
      resetPending := false;
    }

    method ConfigureMetricCollection(target: Target, metrics: seq<Metric>, a: Answers) returns (status: Option<Status>)
      modifies this
      ensures (Now(), status) == Configure(old(Now()), targets, target, metrics, a)
    {
      if target !in targets {
        return Some(InvalidTargetHandle);
      }
      status := a.check(target);
      if status.Some? {
        return;
      }
      status := ResetOperationIdsForCleanConfigure(target, a);
      if status.Some? {
        return;
      }
      status := a.configure(target);
      if status.Some? {
        return;
      }
      status := a.complete(target);
      if status.Some? {
        states, configured := states[target := UNCONFIGURED], configured - {target};
        return;
      }
      states, configured := states[target := CONFIGURED], configured[target := metrics];
    }

    method ConfigureMetricGroupCollectionOnAllTargets(mm: MetricManager, requested: seq<Group>, a: Answers)
      returns (status: Option<Status>)
      modifies this
      ensures (Now(), status) == ConfigureAll(old(Now()), mm, targets, requested, a)
    {
      var resolved := ResolveMetricGroupHandlesOnTargets(mm, requested);
      if resolved.Err? {
        return Some(resolved.error);
      }
      status := ResetCollectionStateForCleanConfigure(a);
      if status.Some? {
        return;
      }
      ghost var clean := Now();
      var rs := resolved.value;
      for i := 0 to |rs|
        invariant status == None
        invariant ConfigureEach(Now(), targets, rs[i..], a) == ConfigureEach(clean, targets, rs, a)
      {
        assert rs[i..][1..] == rs[i + 1..];
        status := ConfigureMetricCollection(rs[i].target, rs[i].metrics, a);
        if status.Some? {
          return;
        }
      }
    }
  }

  // ----- one reset for all targets

  function Configurations(rs: seq<TargetMetrics>): map<Target, seq<Metric>> {
    if rs == [] then map[]
    else Configurations(rs[..|rs| - 1])[rs[|rs| - 1].target := rs[|rs| - 1].metrics]
  }

  /** On success every target has the expansion of the request on it, or none if that is empty. */
  lemma {:induction false} ConfiguredAre(mm: MetricManager, targets: seq<Target>, requested: seq<Group>, t: Target)
    requires Resolved(mm, targets, requested).Ok?
    ensures var c := Configurations(Resolved(mm, targets, requested).value);
            && (t in targets ==> Expansion(mm, Some(t), requested, false).Ok?)
            && (t in c <==> t in targets && Expansion(mm, Some(t), requested, false) != Ok([]))
            && (t in c ==> Expansion(mm, Some(t), requested, false) == Ok(c[t]))
  {
    if targets != [] {
      var n := |targets| - 1;
      ConfiguredAre(mm, targets[..n], requested, t);
      assert targets == targets[..n] + [targets[n]];
      var before := Resolved(mm, targets[..n], requested).value;
      var after := Resolved(mm, targets, requested).value;
      assert after != before ==> after[..|after| - 1] == before;
    }
  }

  function FirstError(target: Target, a: Answers): Option<Status> {
    if a.check(target).Some? then a.check(target)
    else if a.configure(target).Some? then a.configure(target)
    else a.complete(target)
  }

  /** How many targets are configured before the first error. */
  function Configurable(rs: seq<TargetMetrics>, a: Answers): (k: nat)
    ensures k <= |rs|
    ensures forall i :: 0 <= i < k ==> FirstError(rs[i].target, a) == None
    ensures k < |rs| ==> FirstError(rs[k].target, a) != None
  {
    if rs == [] || FirstError(rs[0].target, a).Some? then 0 else 1 + Configurable(rs[1..], a)
  }

  /** The session once the first `k` targets are configured after a reset. */
  function AfterFirst(s: Session, rs: seq<TargetMetrics>, k: nat): Session
    requires k <= |rs|
  {
    var c := Configurations(rs[..k]);
    Session(map t | t in s.states :: if t in c then CONFIGURED else UNCONFIGURED, c, k == 0, s.resets + 1)
  }

  lemma {:induction false} ConfigurationKeys(rs: seq<TargetMetrics>)
    ensures forall t :: t in Configurations(rs) <==> exists i :: 0 <= i < |rs| && rs[i].target == t
  {
    if rs != [] {
      ConfigurationKeys(rs[..|rs| - 1]);
    }
  }

  /** No two of them are for one target, and each is for one of the targets. */
  ghost predicate Apart(rs: seq<TargetMetrics>, targets: seq<Target>) {
    && (forall i, j :: 0 <= i < j < |rs| ==> rs[i].target != rs[j].target)
    && (forall i :: 0 <= i < |rs| ==> rs[i].target in targets)
  }

  lemma {:induction false} ResolvedApart(mm: MetricManager, targets: seq<Target>, requested: seq<Group>)
    requires Distinct(targets) && Resolved(mm, targets, requested).Ok?
    ensures Apart(Resolved(mm, targets, requested).value, targets)
  {
    if targets != [] {
      ResolvedApart(mm, targets[..|targets| - 1], requested);
    }
  }

  /** One more target: it finds the reset done, by the flag if it is the first and by its predecessors if not. */
  lemma OneMoreConfigured(s: Session, targets: seq<Target>, rs: seq<TargetMetrics>, k: nat, a: Answers)
    requires k < |rs| && Apart(rs, targets) && forall t :: t in targets ==> t in s.states
    ensures var target, before := rs[k].target, AfterFirst(s, rs, k);
            Configure(before, targets, target, rs[k].metrics, a)
            == if FirstError(target, a).None? then (AfterFirst(s, rs, k + 1), None)
               else (before.(resetPending := k == 0 && a.check(target).Some?), FirstError(target, a))
  {
    var target, before := rs[k].target, AfterFirst(s, rs, k);
    ResetIsDone(s, targets, rs, k, a);
    NotYetConfigured(s, targets, rs, k);
    if FirstError(target, a).None? {
      NowConfigured(s, rs, k);
    }
  }

  lemma ResetIsDone(s: Session, targets: seq<Target>, rs: seq<TargetMetrics>, k: nat, a: Answers)
    requires k < |rs| && Apart(rs, targets) && forall t :: t in targets ==> t in s.states
    ensures var before := AfterFirst(s, rs, k);
            ResetForTarget(before, rs[k].target, a) == (before.(resetPending := false), None)
  {
    var before := AfterFirst(s, rs, k);
    ConfigurationKeys(rs[..k]);
    if k > 0 {
      assert rs[..k][0].target in before.configured && before.states[rs[0].target] == CONFIGURED;
      assert OtherConfigured(before.states, rs[k].target);
    }
  }

  lemma NotYetConfigured(s: Session, targets: seq<Target>, rs: seq<TargetMetrics>, k: nat)
    requires k < |rs| && Apart(rs, targets) && forall t :: t in targets ==> t in s.states
    ensures var target, before := rs[k].target, AfterFirst(s, rs, k);
            && before.configured - {target} == before.configured
            && before.states[target := UNCONFIGURED] == before.states
  {
    ConfigurationKeys(rs[..k]);
  }

  lemma NowConfigured(s: Session, rs: seq<TargetMetrics>, k: nat)
    requires k < |rs| && rs[k].target in s.states
    ensures var target, before, after := rs[k].target, AfterFirst(s, rs, k), AfterFirst(s, rs, k + 1);
            && after.configured == before.configured[target := rs[k].metrics]
            && after.states == before.states[target := CONFIGURED]
  {
    assert rs[..k + 1][..k] == rs[..k];
  }

  lemma {:induction false} EachConfigured(s: Session, targets: seq<Target>, rs: seq<TargetMetrics>, k: nat, a: Answers)
    requires k <= Configurable(rs, a) && Apart(rs, targets) && forall t :: t in targets ==> t in s.states
    ensures var n := Configurable(rs, a);
            ConfigureEach(AfterFirst(s, rs, k), targets, rs[k..], a)
            == if n == |rs| then (AfterFirst(s, rs, n), None)
               else (AfterFirst(s, rs, n).(resetPending := n == 0 && a.check(rs[n].target).Some?),
                     FirstError(rs[n].target, a))
    decreases |rs| - k
  {
    if k < |rs| {
      OneMoreConfigured(s, targets, rs, k, a);
      assert rs[k..][1..] == rs[k + 1..];
      if k < Configurable(rs, a) {
        EachConfigured(s, targets, rs, k + 1, a);
      }
    }
  }

  /** A wrong request, or one that comes while collecting, changes nothing. Any other one clears the earlier
      configurations exactly once, and then configures the targets it expands on in order, up to the first
      error; no configuration is cleared by the next. */
  lemma ConfiguredOnce(s: Session, mm: MetricManager, targets: seq<Target>, requested: seq<Group>, a: Answers)
    requires Distinct(targets) && forall t :: t in targets ==> t in s.states
    ensures var request, (t, status) := Request(mm, targets, requested), ConfigureAll(s, mm, targets, requested, a);
            if request.Err? then t == s && status == Some(request.error)
            else if AnyCollecting(s.states) then t == s && status == Some(CollectionAlreadyRunning)
            else if a.clearCollectors.Some? then t == s.(resetPending := false) && status == a.clearCollectors
            else if a.clearArtifacts.Some? then
              t == AfterFirst(s, [], 0).(resetPending := false) && status == a.clearArtifacts
            else
              var rs := request.value;
              var n := Configurable(rs, a);
              && t.(resetPending := false) == AfterFirst(s, rs, n).(resetPending := false)
              && status == (if n == |rs| then None else FirstError(rs[n].target, a))
              && (t.resetPending <==> n == 0 && a.check(rs[0].target).Some?)
  {
    var request := Request(mm, targets, requested);
    if request.Ok? && Reset(s, a).1.None? {
      var rs := request.value;
      ResolvedApart(mm, targets, requested);
      assert rs[..0] == [] && rs[0..] == rs;
      assert Reset(s, a).0 == AfterFirst(s, rs, 0);
      EachConfigured(s, targets, rs, 0, a);
    }
  }

  /** One target on its own: it is refused while any target is starting, started or paused; the configurations of
      earlier sessions go, once, exactly when the collectors can be cleared and no other target is configured;
      and it is configured when all its steps succeed, or else unconfigured once its collector was configured. */
  lemma ConfiguredAlone(s: Session, targets: seq<Target>, target: Target, metrics: seq<Metric>, a: Answers)
    requires target in targets && target in s.states && a.check(target) == None && !s.resetPending
    ensures var (t, status) := Configure(s, targets, target, metrics, a);
            if exists u :: u in s.states && s.states[u] in COLLECTING then
              t == s && status == Some(CollectionAlreadyRunning)
            else
              var alone := forall u :: u in s.states && u != target ==> s.states[u] != CONFIGURED;
              var clears := alone && a.clearCollectors == None;
              && t.resets == s.resets + (if clears then 1 else 0) && !t.resetPending
              && (clears ==> forall u :: u in s.states && u != target ==>
                                           t.states[u] == UNCONFIGURED && u !in t.configured)
              && (!clears ==> forall u :: u in s.states && u != target ==> t.states[u] == s.states[u])
              && (status == None <==>
                    (alone ==> a.clearCollectors == None && a.clearArtifacts == None)
                    && a.configure(target) == None && a.complete(target) == None)
              && (status == None ==> t.states[target] == CONFIGURED && target in t.configured
                                     && t.configured[target] == metrics)
              && (status.Some? && status == a.complete(target) && a.configure(target) == None
                    && (alone ==> a.clearCollectors == None && a.clearArtifacts == None) ==>
                    t.states[target] == UNCONFIGURED && target !in t.configured)
  {
    assert forall u :: u in s.states ==> (Collecting(s.states[u]) <==> s.states[u] in COLLECTING);
    if !AnyCollecting(s.states) {
      assert OtherConfigured(s.states, target) <==>
             exists u :: u in s.states && u != target && s.states[u] == CONFIGURED;
    }
  }

  const COLLECTING: set<State> := {AggregateStart.Starting, AggregateStart.Started, AggregateStart.Paused}

  // ----- any run of calls

  /** Only a target that is not unconfigured has metrics, and while the reset is pending none is. */
  ghost predicate Clean(s: Session) {
    && (forall t :: t in s.configured ==> t in s.states && s.states[t] != UNCONFIGURED)
    && (s.resetPending ==> forall t :: t in s.states ==> s.states[t] == UNCONFIGURED)
  }

  /** The calls, and the steps of collecting, which lead from one state other than UNCONFIGURED to another. */
  datatype Call =
    | ResetCall(a: Answers)
    | ConfigureCall(target: Target, metrics: seq<Metric>, a: Answers)
    | ConfigureAllCall(mm: MetricManager, requested: seq<Group>, a: Answers)
    | CollectingStep(target: Target, to: State)

  function Do(s: Session, targets: seq<Target>, call: Call): Session {
    match call
    case ResetCall(a) => Reset(s, a).0
    case ConfigureCall(target, metrics, a) => Configure(s, targets, target, metrics, a).0
    case ConfigureAllCall(mm, requested, a) => ConfigureAll(s, mm, targets, requested, a).0
    case CollectingStep(t, to) =>
      if t in s.states && s.states[t] != UNCONFIGURED && to != UNCONFIGURED then s.(states := s.states[t := to]) else s
  }

  function Fresh(targets: seq<Target>): Session {
    Session(map t | t in targets :: UNCONFIGURED, map[], false, 0)
  }

  function Run(targets: seq<Target>, calls: seq<Call>): Session {
    if calls == [] then Fresh(targets) else Do(Run(targets, calls[..|calls| - 1]), targets, calls[|calls| - 1])
  }

  lemma ConfigureStaysClean(s: Session, targets: seq<Target>, target: Target, metrics: seq<Metric>, a: Answers)
    requires Clean(s)
    ensures Clean(Configure(s, targets, target, metrics, a).0)
  {
  }

  lemma {:induction false} EachStaysClean(s: Session, targets: seq<Target>, rs: seq<TargetMetrics>, a: Answers)
    requires Clean(s)
    ensures Clean(ConfigureEach(s, targets, rs, a).0)
    decreases |rs|
  {
    if rs != [] {
      ConfigureStaysClean(s, targets, rs[0].target, rs[0].metrics, a);
      EachStaysClean(Configure(s, targets, rs[0].target, rs[0].metrics, a).0, targets, rs[1..], a);
    }
  }

  lemma {:induction false} RunStaysClean(targets: seq<Target>, calls: seq<Call>)
    ensures Clean(Run(targets, calls))
  {
    if calls != [] {
      var s, call := Run(targets, calls[..|calls| - 1]), calls[|calls| - 1];
      RunStaysClean(targets, calls[..|calls| - 1]);
      match call
      case ResetCall(a) =>
      case ConfigureCall(target, metrics, a) => ConfigureStaysClean(s, targets, target, metrics, a);
      case ConfigureAllCall(mm, requested, a) =>
        if Request(mm, targets, requested).Ok? {
          EachStaysClean(Reset(s, a).0, targets, Request(mm, targets, requested).value, a);
        }
      case CollectingStep(t, to) =>
    }
  }

  /** Whenever a run leaves the flag behind, the reset it skips would change nothing. */
  lemma SkippedResetIsHarmless(targets: seq<Target>, calls: seq<Call>, target: Target, a: Answers)
    requires Run(targets, calls).resetPending
    ensures var s := Run(targets, calls);
            && ResetForTarget(s, target, a) == (s.(resetPending := false), None)
            && s.states == Unconfigured(s.states) && s.configured == map[]
  {
    RunStaysClean(targets, calls);
  }

  /** Configuring one target, whatever comes of it, leaves every other configured target as it was. */
  lemma OthersStayConfigured(s: Session, targets: seq<Target>, target: Target, metrics: seq<Metric>, a: Answers,
                             other: Target)
    requires other != target && other in s.states && s.states[other] == CONFIGURED
    ensures var t := Configure(s, targets, target, metrics, a).0;
            && other in t.states && t.states[other] == CONFIGURED
            && (other in t.configured <==> other in s.configured)
            && (other in s.configured ==> t.configured[other] == s.configured[other])
  {
    assert OtherConfigured(s.states, target);
  }
}
