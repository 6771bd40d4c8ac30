/** Expansion of metric groups into metric handles, of src/astl_telemetry.cpp. */
module GroupExpansion {
  import opened Common

  type Group = nat
  type Metric = nat
  type Target = nat

  datatype Status =
    | InvalidMetricGroupHandle
    | MetricGroupNotSupportedOnTarget
    | MetricNotSupportedOnTarget
    | NoTargetFound
    | CollectionAlreadyRunning
    | InvalidTargetHandle
    | OtherError(code: int)

  /** What the metric manager answers. */
  datatype MetricManager = MetricManager(
    knownGroups: set<Group>,
    targetGroups: Target -> Result<set<Group>, Status>,
    metricsInGroup: Group -> Result<seq<Metric>, Status>,
    metricOnTarget: (Metric, Target) -> Option<Status>)   // None: the metric is on the target

  // ----- what a group contributes

  /** The metrics of the target, in order; an error other than "not supported" is passed on. */
  function OnTarget(mm: MetricManager, t: Target, metrics: seq<Metric>): Result<seq<Metric>, Status> {
    if metrics == [] then Ok([])
    else
      var n := |metrics| - 1;
      match OnTarget(mm, t, metrics[..n])
      case Err(e) => Err(e)
      case Ok(ms) =>
        match mm.metricOnTarget(metrics[n], t)
        case None => Ok(ms + [metrics[n]])
        case Some(e) => if e == MetricNotSupportedOnTarget then Ok(ms) else Err(e)
  }

  function GroupOnTarget(mm: MetricManager, g: Group, t: Target): Result<seq<Metric>, Status> {
    match mm.metricsInGroup(g)
    case Err(e) => Err(e)
    case Ok(metrics) => OnTarget(mm, t, metrics)
  }

  /** Whether a requested group is to be expanded; `None` stands for the global view. */
  function GroupIsSupported(mm: MetricManager, t: Option<Target>, groups: set<Group>, g: Group, strict: bool)
    : Result<bool, Status>
  {
    if g !in mm.knownGroups then Err(InvalidMetricGroupHandle)
    else if t.None? || g in groups then Ok(true)
    else if strict then Err(MetricGroupNotSupportedOnTarget)
    else Ok(false)
  }

  function MetricsForGroup(mm: MetricManager, t: Option<Target>, g: Group, strict: bool): Result<seq<Metric>, Status> {
    if t.None? then mm.metricsInGroup(g)
    else
      var r := GroupOnTarget(mm, g, t.value);
      if r == Ok([]) && strict then Err(MetricGroupNotSupportedOnTarget) else r
  }

  function Contribution(mm: MetricManager, t: Option<Target>, groups: set<Group>, g: Group, strict: bool)
    : Result<seq<Metric>, Status>
  {
    match GroupIsSupported(mm, t, groups, g, strict)
    case Err(e) => Err(e)
    case Ok(supported) => if supported then MetricsForGroup(mm, t, g, strict) else Ok([])
  }

  /** The contributions of the requested groups, one after the other; the first error wins. */
  function Concatenated(mm: MetricManager, t: Option<Target>, groups: set<Group>, requested: seq<Group>, strict: bool)
    : Result<seq<Metric>, Status>
  {
    if requested == [] then Ok([])
    else
      var n := |requested| - 1;
      match Concatenated(mm, t, groups, requested[..n], strict)
      case Err(e) => Err(e)
      case Ok(ms) =>
        match Contribution(mm, t, groups, requested[n], strict)
        case Err(e) => Err(e)
        case Ok(more) => Ok(ms + more)
  }

  /** Keeps the first occurrence of each element. */
  function FirstOccurrences(s: seq<Metric>): seq<Metric> {
    if s == [] then []
    else
      var n := |s| - 1;
      if s[n] in s[..n] then FirstOccurrences(s[..n]) else FirstOccurrences(s[..n]) + [s[n]]
  }

  function TargetGroups(mm: MetricManager, t: Option<Target>): Result<set<Group>, Status> {
    if t.None? then Ok({}) else mm.targetGroups(t.value)
  }

  /** The expansion of a request. */
  function Expansion(mm: MetricManager, t: Option<Target>, requested: seq<Group>, strict: bool)
    : Result<seq<Metric>, Status>
  {
    match TargetGroups(mm, t)
    case Err(e) => Err(e)
    case Ok(groups) =>
      match Concatenated(mm, t, groups, requested, strict)
      case Err(e) => Err(e)
      case Ok(ms) => Ok(FirstOccurrences(ms))
  }

  // ----- the loops

  method GetMetricHandlesInGroupForTarget(mm: MetricManager, g: Group, t: Target)
    returns (r: Result<seq<Metric>, Status>)
    ensures r == GroupOnTarget(mm, g, t)
  {
    var inGroup := mm.metricsInGroup(g);
    if inGroup.Err? {
      return Err(inGroup.error);
    }
    var metrics := inGroup.value;
    var filtered := [];
    for i := 0 to |metrics|
      invariant OnTarget(mm, t, metrics[..i]) == Ok(filtered)
    {
      assert metrics[..i + 1][..i] == metrics[..i];
      match mm.metricOnTarget(metrics[i], t)
      case None => filtered := filtered + [metrics[i]];
      case Some(e) =>
        if e != MetricNotSupportedOnTarget {
          ErrorsStay(mm, t, metrics, i + 1);
          return Err(e);
        }
    }
    assert metrics[..|metrics|] == metrics;
    return Ok(filtered);
  }

  lemma {:induction false} ErrorsStay(mm: MetricManager, t: Target, metrics: seq<Metric>, i: nat)
    requires i <= |metrics| && OnTarget(mm, t, metrics[..i]).Err?
    ensures OnTarget(mm, t, metrics) == OnTarget(mm, t, metrics[..i])
    decreases |metrics|
  {
    var n := |metrics|;
    if i < n {
      assert metrics[..n - 1][..i] == metrics[..i];
      ErrorsStay(mm, t, metrics[..n - 1], i);
    } else {
      assert metrics[..i] == metrics;
    }
  }

  lemma OneMoreIn(before: seq<Metric>, more: seq<Metric>, i: nat)
    requires i < |more|
    ensures before + more[..i + 1] == before + more[..i] + [more[i]]
  {
  }

  /** What was seen and kept of the handles so far. */
  ghost predicate Kept(all: seq<Metric>, handles: seq<Metric>, seen: set<Metric>) {
    handles == FirstOccurrences(all) && forall m :: m in seen <==> m in all
  }

  lemma OneMoreOccurrence(all: seq<Metric>, handles: seq<Metric>, seen: set<Metric>, m: Metric)
    requires Kept(all, handles, seen)
    ensures if m in seen then Kept(all + [m], handles, seen) else Kept(all + [m], handles + [m], seen + {m})
  {
    assert (all + [m])[..|all|] == all;
  }

  /** Appends what was not seen yet. */
  method AppendUniqueMetricHandles(handles: seq<Metric>, seen: set<Metric>, more: seq<Metric>,
                                   ghost before: seq<Metric>)
    returns (handles': seq<Metric>, seen': set<Metric>)
    requires Kept(before, handles, seen)
    ensures Kept(before + more, handles', seen')
  {
    handles', seen' := handles, seen;
    assert before + [] == before;
    for i := 0 to |more|
      invariant Kept(before + more[..i], handles', seen')
    {
      OneMoreIn(before, more, i);
      OneMoreOccurrence(before + more[..i], handles', seen', more[i]);
      if more[i] !in seen' {
        seen' := seen' + {more[i]};
        handles' := handles' + [more[i]];
      }
    }
    assert more[..|more|] == more;
  }

  method ExpandMetricGroupHandlesForTarget(mm: MetricManager, t: Option<Target>, requested: seq<Group>, strict: bool)
    returns (r: Result<seq<Metric>, Status>)
    ensures r == Expansion(mm, t, requested, strict)
  {
    var groups := TargetGroups(mm, t);
    if groups.Err? {
      return Err(groups.error);
    }
    var handles, seen := [], {};
    ghost var all: seq<Metric> := [];
    for i := 0 to |requested|
      invariant Concatenated(mm, t, groups.value, requested[..i], strict) == Ok(all)
      invariant Kept(all, handles, seen)
    {
      var g := requested[i];
      assert requested[..i + 1][..i] == requested[..i];
      var supported := GroupIsSupported(mm, t, groups.value, g, strict);
      if supported.Err? {
        FirstErrorWins(mm, t, groups.value, requested, i + 1, strict);
        return Err(supported.error);
      }
      if !supported.value {
        assert all + [] == all;
        continue;
      }
      var metrics: Result<seq<Metric>, Status>;
      if t.None? {
        metrics := mm.metricsInGroup(g);
      } else {
        metrics := GetMetricHandlesInGroupForTarget(mm, g, t.value);
        if metrics == Ok([]) && strict {
          metrics := Err(MetricGroupNotSupportedOnTarget);
        }
      }
      if metrics.Err? {
        FirstErrorWins(mm, t, groups.value, requested, i + 1, strict);
        return Err(metrics.error);
      }
      if metrics.value == [] {
        assert all + [] == all;
        continue;
      }
      handles, seen := AppendUniqueMetricHandles(handles, seen, metrics.value, all);
      all := all + metrics.value;
    }
    assert requested[..|requested|] == requested;
    return Ok(handles);
  }

  lemma {:induction false} FirstErrorWins(mm: MetricManager, t: Option<Target>, groups: set<Group>,
                                          requested: seq<Group>, i: nat, strict: bool)
    requires i <= |requested| && Concatenated(mm, t, groups, requested[..i], strict).Err?
    ensures Concatenated(mm, t, groups, requested, strict) == Concatenated(mm, t, groups, requested[..i], strict)
    decreases |requested|
  {
    var n := |requested|;
    if i < n {
      assert requested[..n - 1][..i] == requested[..i];
      FirstErrorWins(mm, t, groups, requested[..n - 1], i, strict);
    } else {
      assert requested[..i] == requested;
    }
  }

  // ----- what an expansion promises

  /** First occurrences: the same elements, each once, each where it first occurred. */
  lemma {:induction false} FirstOccurrencesAre(s: seq<Metric>)
    ensures var r := FirstOccurrences(s);
            && (forall m :: m in r <==> m in s)
            && (forall i, j :: 0 <= i < j < |r| ==> r[i] != r[j])
  {
    if s != [] {
      FirstOccurrencesAre(s[..|s| - 1]);
      assert s == s[..|s| - 1] + [s[|s| - 1]];
    }
  }

  ghost predicate FirstAt(s: seq<Metric>, m: Metric, k: nat) {
    k < |s| && s[k] == m && m !in s[..k]
  }

  lemma {:induction false} FirstOccurrencesInOrder(s: seq<Metric>, i: nat, j: nat, k: nat, l: nat)
    requires i < j < |FirstOccurrences(s)|
    requires FirstAt(s, FirstOccurrences(s)[i], k) && FirstAt(s, FirstOccurrences(s)[j], l)
    ensures k < l
  {
    var n := |s| - 1;
    var r, before := FirstOccurrences(s), FirstOccurrences(s[..n]);
    FirstOccurrencesAre(s[..n]);
    assert r[i] == before[i] && before[i] in s[..n];
    assert s[..n][..k] == s[..k] || k == n;
    if j < |before| {
      assert before[j] in s[..n];
      assert l < n && k < n;
      assert s[..n][..k] == s[..k] && s[..n][..l] == s[..l];
      FirstOccurrencesInOrder(s[..n], i, j, k, l);
    } else {
      assert r[j] == s[n] && s[n] !in s[..n];
      assert l == n && k < n;
    }
  }

  lemma {:induction false} OnTargetAre(mm: MetricManager, t: Target, metrics: seq<Metric>)
    requires OnTarget(mm, t, metrics).Ok?
    ensures forall m :: m in OnTarget(mm, t, metrics).value <==> m in metrics && mm.metricOnTarget(m, t) == None
  {
    if metrics != [] {
      OnTargetAre(mm, t, metrics[..|metrics| - 1]);
      assert metrics == metrics[..|metrics| - 1] + [metrics[|metrics| - 1]];
    }
  }

  /** The metrics a request asks of a target: those of a requested group of the target that it supports. */
  ghost predicate Asked(mm: MetricManager, t: Target, groups: set<Group>, requested: seq<Group>, m: Metric) {
    exists i :: 0 <= i < |requested| && requested[i] in groups && mm.metricsInGroup(requested[i]).Ok?
                && m in mm.metricsInGroup(requested[i]).value && mm.metricOnTarget(m, t) == None
  }

  lemma {:induction false} ConcatenatedAre(mm: MetricManager, t: Target, groups: set<Group>, requested: seq<Group>,
                                           strict: bool, m: Metric)
    requires Concatenated(mm, Some(t), groups, requested, strict).Ok?
    ensures m in Concatenated(mm, Some(t), groups, requested, strict).value <==> Asked(mm, t, groups, requested, m)
  {
    if requested != [] {
      var n := |requested| - 1;
      var g := requested[n];
      ConcatenatedAre(mm, t, groups, requested[..n], strict, m);
      if g in groups {
        OnTargetAre(mm, t, mm.metricsInGroup(g).value);
      }
      assert Asked(mm, t, groups, requested[..n], m) ==> Asked(mm, t, groups, requested, m) by {
        if Asked(mm, t, groups, requested[..n], m) {
          var i :| 0 <= i < n && requested[..n][i] in groups && mm.metricsInGroup(requested[..n][i]).Ok?
                   && m in mm.metricsInGroup(requested[..n][i]).value && mm.metricOnTarget(m, t) == None;
          assert requested[i] == requested[..n][i];
        }
      }
      if Asked(mm, t, groups, requested, m) {
        var i :| 0 <= i < |requested| && requested[i] in groups && mm.metricsInGroup(requested[i]).Ok?
                 && m in mm.metricsInGroup(requested[i]).value && mm.metricOnTarget(m, t) == None;
        assert i < n ==> requested[..n][i] == requested[i];
      }
    }
  }

  /** An expansion lists, without duplicates, exactly the metrics asked of the target; all of them supported. */
  lemma ExpansionAre(mm: MetricManager, t: Target, requested: seq<Group>, strict: bool, m: Metric)
    requires Expansion(mm, Some(t), requested, strict).Ok?
    ensures var r := Expansion(mm, Some(t), requested, strict).value;
            && (m in r <==> Asked(mm, t, mm.targetGroups(t).value, requested, m))
            && (m in r ==> mm.metricOnTarget(m, t) == None)
            && (forall i, j :: 0 <= i < j < |r| ==> r[i] != r[j])
  {
    var groups := mm.targetGroups(t).value;
    ConcatenatedAre(mm, t, groups, requested, strict, m);
    FirstOccurrencesAre(Concatenated(mm, Some(t), groups, requested, strict).value);
  }

  /** Whether the manager knows of each of the metrics if it is on the target. */
  ghost predicate Answers(mm: MetricManager, t: Target, metrics: seq<Metric>) {
    forall m :: m in metrics ==> mm.metricOnTarget(m, t) in {None, Some(MetricNotSupportedOnTarget)}
  }

  /** A group a request may name: a known one, whose metrics can be looked up where they are needed. The strict form
      also wants it to be a group of the target, with a metric on the target. */
  ghost predicate Expandable(mm: MetricManager, t: Option<Target>, groups: set<Group>, g: Group, strict: bool) {
    && g in mm.knownGroups
    && (t.None? || g in groups || !strict)
    && (t.None? || g in groups ==> mm.metricsInGroup(g).Ok?)
    && (t.Some? && g in groups ==>
          var metrics := mm.metricsInGroup(g).value;
          Answers(mm, t.value, metrics)
          && (strict ==> exists m :: m in metrics && mm.metricOnTarget(m, t.value) == None))
  }

  lemma {:induction false} OnTargetAnswers(mm: MetricManager, t: Target, metrics: seq<Metric>)
    ensures OnTarget(mm, t, metrics).Ok? <==> Answers(mm, t, metrics)
  {
    if metrics != [] {
      var n := |metrics| - 1;
      OnTargetAnswers(mm, t, metrics[..n]);
      assert metrics == metrics[..n] + [metrics[n]];
    }
  }

  /** The error of some metric other than "not supported" is passed on. */
  lemma {:induction false} OnTargetRefuses(mm: MetricManager, t: Target, metrics: seq<Metric>)
    requires !Answers(mm, t, metrics)
    ensures exists m :: m in metrics && mm.metricOnTarget(m, t).Some?
              && mm.metricOnTarget(m, t).value != MetricNotSupportedOnTarget
              && OnTarget(mm, t, metrics) == Err(mm.metricOnTarget(m, t).value)
  {
    OnTargetAnswers(mm, t, metrics);
    if metrics != [] {
      var n := |metrics| - 1;
      assert metrics == metrics[..n] + [metrics[n]];
      OnTargetAnswers(mm, t, metrics[..n]);
      if !Answers(mm, t, metrics[..n]) {
        OnTargetRefuses(mm, t, metrics[..n]);
      } else {
        assert metrics[n] in metrics;
      }
    }
  }

  lemma ContributesExactly(mm: MetricManager, t: Option<Target>, groups: set<Group>, g: Group, strict: bool)
    ensures Contribution(mm, t, groups, g, strict).Ok? <==> Expandable(mm, t, groups, g, strict)
  {
    if t.Some? && g in groups && mm.metricsInGroup(g).Ok? {
      var metrics := mm.metricsInGroup(g).value;
      OnTargetAnswers(mm, t.value, metrics);
      if OnTarget(mm, t.value, metrics).Ok? {
        OnTargetAre(mm, t.value, metrics);
        var on := OnTarget(mm, t.value, metrics).value;
        assert on != [] ==> on[0] in on;
      }
    }
  }

  lemma {:induction false} ConcatenatesExactly(mm: MetricManager, t: Option<Target>, groups: set<Group>,
                                               requested: seq<Group>, strict: bool)
    ensures Concatenated(mm, t, groups, requested, strict).Ok? <==>
              forall g :: g in requested ==> Expandable(mm, t, groups, g, strict)
  {
    if requested != [] {
      var n := |requested| - 1;
      ConcatenatesExactly(mm, t, groups, requested[..n], strict);
      ContributesExactly(mm, t, groups, requested[n], strict);
      assert requested == requested[..n] + [requested[n]];
    }
  }

  /** A request is expanded exactly when the groups of its target are known and it names only groups it may name. */
  lemma ExpandsExactly(mm: MetricManager, t: Option<Target>, requested: seq<Group>, strict: bool)
    ensures Expansion(mm, t, requested, strict).Ok? <==>
              && (t.Some? ==> mm.targetGroups(t.value).Ok?)
              && var groups := if t.None? then {} else mm.targetGroups(t.value).value;
                 forall g :: g in requested ==> Expandable(mm, t, groups, g, strict)
  {
    if TargetGroups(mm, t).Ok? {
      ConcatenatesExactly(mm, t, TargetGroups(mm, t).value, requested, strict);
    }
  }

  /** The error a group gives that a request may not name: the group is unknown, is none of the target's, its metrics
      cannot be looked up, one of them cannot, or none of them is on the target. */
  ghost predicate Explains(mm: MetricManager, t: Option<Target>, groups: set<Group>, g: Group, e: Status) {
    if g !in mm.knownGroups then e == InvalidMetricGroupHandle
    else if t.Some? && g !in groups then e == MetricGroupNotSupportedOnTarget
    else
      match mm.metricsInGroup(g)
      case Err(error) => e == error
      case Ok(metrics) =>
        t.Some? &&
        if Answers(mm, t.value, metrics) then
          e == MetricGroupNotSupportedOnTarget && forall m :: m in metrics ==> mm.metricOnTarget(m, t.value).Some?
        else
          e != MetricNotSupportedOnTarget && exists m :: m in metrics && mm.metricOnTarget(m, t.value) == Some(e)
  }

  lemma ContributionRefusal(mm: MetricManager, t: Option<Target>, groups: set<Group>, g: Group, strict: bool)
    requires !Expandable(mm, t, groups, g, strict)
    ensures var r := Contribution(mm, t, groups, g, strict);
            r.Err? && Explains(mm, t, groups, g, r.error)
  {
    ContributesExactly(mm, t, groups, g, strict);
    if t.Some? && g in groups && mm.metricsInGroup(g).Ok? {
      var metrics := mm.metricsInGroup(g).value;
      OnTargetAnswers(mm, t.value, metrics);
      if !Answers(mm, t.value, metrics) {
        OnTargetRefuses(mm, t.value, metrics);
      }
    }
  }

  /** The error of a request is that of the first group it may not name. */
  lemma RefusedBecause(mm: MetricManager, t: Option<Target>, requested: seq<Group>, i: nat, strict: bool)
    requires i < |requested| && TargetGroups(mm, t).Ok?
    requires forall j :: 0 <= j < i ==> Expandable(mm, t, TargetGroups(mm, t).value, requested[j], strict)
    requires !Expandable(mm, t, TargetGroups(mm, t).value, requested[i], strict)
    ensures var r := Expansion(mm, t, requested, strict);
            r.Err? && Explains(mm, t, TargetGroups(mm, t).value, requested[i], r.error)
  {
    var groups := TargetGroups(mm, t).value;
    ConcatenatesExactly(mm, t, groups, requested[..i], strict);
    ContributionRefusal(mm, t, groups, requested[i], strict);
    assert requested[..i + 1][..i] == requested[..i];
    FirstErrorWins(mm, t, groups, requested, i + 1, strict);
  }

  lemma {:induction false} StrictThenLenient(mm: MetricManager, t: Option<Target>, groups: set<Group>,
                                             requested: seq<Group>)
    requires Concatenated(mm, t, groups, requested, true).Ok?
    ensures Concatenated(mm, t, groups, requested, false) == Concatenated(mm, t, groups, requested, true)
  {
    if requested != [] {
      StrictThenLenient(mm, t, groups, requested[..|requested| - 1]);
    }
  }

  /** When the strict form succeeds, the lenient form returns the same list. */
  lemma LenientAgreesWithStrict(mm: MetricManager, t: Option<Target>, requested: seq<Group>)
    requires Expansion(mm, t, requested, true).Ok?
    ensures Expansion(mm, t, requested, false) == Expansion(mm, t, requested, true)
  {
    StrictThenLenient(mm, t, TargetGroups(mm, t).value, requested);
  }

  // ----- configuration on all targets

  datatype TargetMetrics = TargetMetrics(target: Target, metrics: seq<Metric>)

  /** The expansions that are not empty, in target order; the first error wins. */
  function Resolved(mm: MetricManager, targets: seq<Target>, requested: seq<Group>)
    : Result<seq<TargetMetrics>, Status>
  {
    if targets == [] then Ok([])
    else
      var n := |targets| - 1;
      match Resolved(mm, targets[..n], requested)
      case Err(e) => Err(e)
      case Ok(rs) =>
        match Expansion(mm, Some(targets[n]), requested, false)
        case Err(e) => Err(e)
        case Ok(ms) => if ms == [] then Ok(rs) else Ok(rs + [TargetMetrics(targets[n], ms)])
  }

  /** Everything that can be wrong with a request is decided here, from the request and the metric manager. */
  function Request(mm: MetricManager, targets: seq<Target>, requested: seq<Group>): Result<seq<TargetMetrics>, Status> {
    if targets == [] then Err(NoTargetFound)
    else if Resolved(mm, targets, requested) == Ok([]) then Err(MetricGroupNotSupportedOnTarget)
    else Resolved(mm, targets, requested)
  }

  lemma {:induction false} FirstTargetErrorWins(mm: MetricManager, targets: seq<Target>, i: nat, requested: seq<Group>)
    requires i <= |targets| && Resolved(mm, targets[..i], requested).Err?
    ensures Resolved(mm, targets, requested) == Resolved(mm, targets[..i], requested)
    decreases |targets|
  {
    var n := |targets|;
    if i < n {
      assert targets[..n - 1][..i] == targets[..i];
      FirstTargetErrorWins(mm, targets[..n - 1], i, requested);
    } else {
      assert targets[..i] == targets;
    }
  }

  /** A target's expansion is Ok, and holds something if it is to be listed. */
  lemma {:induction false} ResolvesExactly(mm: MetricManager, targets: seq<Target>, requested: seq<Group>)
    ensures Resolved(mm, targets, requested).Ok? <==>
              forall t :: t in targets ==> Expansion(mm, Some(t), requested, false).Ok?
    ensures Resolved(mm, targets, requested) == Ok([]) <==>
              forall t :: t in targets ==> Expansion(mm, Some(t), requested, false) == Ok([])
  {
    if targets != [] {
      var n := |targets| - 1;
      ResolvesExactly(mm, targets[..n], requested);
      assert targets == targets[..n] + [targets[n]];
    }
  }

  /** A request is right when it can be expanded on every target and holds a metric of one. Otherwise the error is
      that of the first target on which it cannot be expanded, or that nothing is to be configured. */
  lemma RequestIs(mm: MetricManager, targets: seq<Target>, requested: seq<Group>)
    ensures Request(mm, targets, requested).Ok? <==>
              && (forall t :: t in targets ==> Expansion(mm, Some(t), requested, false).Ok?)
              && (exists t :: t in targets && Expansion(mm, Some(t), requested, false) != Ok([]))
    ensures targets == [] ==> Request(mm, targets, requested) == Err(NoTargetFound)
    ensures targets != [] && (forall t :: t in targets ==> Expansion(mm, Some(t), requested, false) == Ok([])) ==>
              Request(mm, targets, requested) == Err(MetricGroupNotSupportedOnTarget)
    ensures forall i | 0 <= i < |targets| && Expansion(mm, Some(targets[i]), requested, false).Err?
                       && (forall j :: 0 <= j < i ==> Expansion(mm, Some(targets[j]), requested, false).Ok?) ::
              Request(mm, targets, requested) == Err(Expansion(mm, Some(targets[i]), requested, false).error)
  {
    ResolvesExactly(mm, targets, requested);
    forall i | 0 <= i < |targets| && Expansion(mm, Some(targets[i]), requested, false).Err?
      && (forall j :: 0 <= j < i ==> Expansion(mm, Some(targets[j]), requested, false).Ok?)
      ensures Request(mm, targets, requested) == Err(Expansion(mm, Some(targets[i]), requested, false).error)
    {
      ResolvesExactly(mm, targets[..i], requested);
      assert targets[..i + 1][..i] == targets[..i];
      FirstTargetErrorWins(mm, targets, i + 1, requested);
    }
  }
}
