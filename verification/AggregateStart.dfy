/** Aggregate start of src/astl_telemetry.cpp over the per-target lifecycle of
    src/impl/orchestrator/orchestrator.cpp. */
module AggregateStart {
  import opened Common

  type Target = nat

  datatype State = Unconfigured | Configured | Starting | Started | Paused | Stopped

  datatype Status =
    | Success
    | CollectionNotConfigured
    | CollectionAlreadyRunning
    | InvalidStateTransition
    | InvalidTargetHandle
    | PauseUnsupported
    | NotImplemented
    | OtherError(code: int)

  /** What the collectors answer, target by target: to a start, to the pause that follows a paused start, to
      the stop that undoes a start whose pause failed, and to the two steps of a rollback. */
  datatype Collectors = Collectors(
    start: Target -> Status,
    pause: Target -> Status,
    undo: Target -> Status,
    stop: Target -> Status,
    reset: Target -> Status)

  datatype Event = StartCall(target: Target) | RollbackCall(target: Target)

  // ----- one target

  /** The START row of the lifecycle table. */
  function CheckStart(s: State): Status {
    match s
    case Unconfigured => CollectionNotConfigured
    case Configured => Success
    case Starting => CollectionAlreadyRunning
    case Started => CollectionAlreadyRunning
    case Paused => InvalidStateTransition
    case Stopped => InvalidStateTransition
  }

  function StartStatus(t: Target, paused: bool, c: Collectors): Status {
    if c.start(t) != Success then c.start(t)
    else if !paused || c.pause(t) == Success then Success
    else if c.undo(t) != Success then c.undo(t)
    else if c.pause(t) == NotImplemented then PauseUnsupported
    else c.pause(t)
  }

  /** A paused start that could neither be paused nor undone: its target keeps running. */
  predicate LeftRunning(t: Target, paused: bool, c: Collectors) {
    paused && c.start(t) == Success && c.pause(t) != Success && c.undo(t) != Success
  }

  function Running(paused: bool): State {
    if paused then Paused else Started
  }

  function RollbackStatus(t: Target, c: Collectors): Status {
    if c.stop(t) != Success then c.stop(t) else c.reset(t)
  }

  // ----- all configured targets

  /** How many targets start before the first that fails. */
  function Startable(ts: seq<Target>, paused: bool, c: Collectors): (k: nat)
    ensures k <= |ts|
    ensures forall i :: 0 <= i < k ==> StartStatus(ts[i], paused, c) == Success
    ensures k < |ts| ==> StartStatus(ts[k], paused, c) != Success
  {
    if ts == [] || StartStatus(ts[0], paused, c) != Success then 0 else 1 + Startable(ts[1..], paused, c)
  }

  /** The first error met when `ts` is rolled back from its end. */
  function RollbackError(ts: seq<Target>, c: Collectors): Status {
    if ts == [] then Success
    else
      var last := RollbackStatus(ts[|ts| - 1], c);
      if last != Success then last else RollbackError(ts[..|ts| - 1], c)
  }

  function Starts(ts: seq<Target>): seq<Event> {
    seq(|ts|, i requires 0 <= i < |ts| => StartCall(ts[i]))
  }

  /** Rollbacks in reverse start order. */
  function Rollbacks(ts: seq<Target>): seq<Event> {
    seq(|ts|, i requires 0 <= i < |ts| => RollbackCall(ts[|ts| - 1 - i]))
  }

  predicate IsConfigured(states: map<Target, State>, t: Target) {
    t in states && states[t] == Configured
  }

  function ConfiguredAmong(targets: seq<Target>, states: map<Target, State>): (ts: seq<Target>)
    ensures forall t :: t in ts <==> t in targets && IsConfigured(states, t)
  {
    if targets == [] then []
    else
      var n := |targets| - 1;
      ConfiguredAmong(targets[..n], states) + (if IsConfigured(states, targets[n]) then [targets[n]] else [])
  }

  lemma {:induction false} ConfiguredAreDistinct(targets: seq<Target>, states: map<Target, State>)
    requires Distinct(targets)
    ensures Distinct(ConfiguredAmong(targets, states))
  {
    if targets != [] {
      ConfiguredAreDistinct(targets[..|targets| - 1], states);
    }
  }

  /** The state of `t` once `ts`, a beginning of the configured targets, started. */
  function AfterStarts(was: map<Target, State>, ts: seq<Target>, paused: bool): map<Target, State> {
    map t | t in was :: if t in ts then Running(paused) else was[t]
  }

  /** The states when start `k` of `ts` failed and the earlier ones were rolled back. */
  function AfterFailure(was: map<Target, State>, ts: seq<Target>, k: nat, paused: bool, c: Collectors)
    : map<Target, State>
    requires k < |ts|
  {
    map t | t in was ::
      if t in ts[..k] then (if RollbackStatus(t, c) == Success then Configured else Running(paused))
      else if t == ts[k] && LeftRunning(t, paused, c) then Started
      else was[t]
  }

  /** The states once `ts` is rolled back. */
  function Restored(was: map<Target, State>, ts: seq<Target>, c: Collectors): map<Target, State> {
    map t | t in was :: if t in ts && RollbackStatus(t, c) == Success then Configured else was[t]
  }

  /** The states when the start of `t` failed. */
  function AfterFailedStart(was: map<Target, State>, t: Target, paused: bool, c: Collectors): map<Target, State> {
    was[t := if LeftRunning(t, paused, c) then Started else Configured]
  }

  /** The first rollback error hides the error of the start. */
  function FailureStatus(ts: seq<Target>, k: nat, paused: bool, c: Collectors): Status
    requires k < |ts|
  {
    var e := RollbackError(ts[..k], c);
    if e != Success then e else StartStatus(ts[k], paused, c)
  }

  lemma OneMoreStarted(was: map<Target, State>, ts: seq<Target>, i: nat, paused: bool)
    requires i < |ts| && Distinct(ts) && forall t :: t in ts ==> IsConfigured(was, t)
    ensures ts[i] in ts && IsConfigured(AfterStarts(was, ts[..i], paused), ts[i])
    ensures ts[..i + 1] == ts[..i] + [ts[i]] && Starts(ts[..i + 1]) == Starts(ts[..i]) + [StartCall(ts[i])]
    ensures AfterStarts(was, ts[..i], paused)[ts[i] := Running(paused)] == AfterStarts(was, ts[..i + 1], paused)
  {
    assert ts[i] in ts && ts[i] !in ts[..i] && ts[..i + 1] == ts[..i] + [ts[i]];
  }

  lemma OneMoreCall(journal: seq<Event>, calls: seq<Event>, call: Event)
    ensures journal + calls + [call] == journal + (calls + [call])
  {
  }

  lemma OneMoreRolledBack(was: map<Target, State>, ts: seq<Target>, i: nat, c: Collectors)
    requires i < |ts| && ts[i] in was
    ensures var later := Restored(was, ts[i + 1..], c);
            Restored(was, ts[i..], c)
            == if RollbackStatus(ts[i], c) == Success then later[ts[i] := Configured] else later
    ensures var n := |ts| - i;
            Rollbacks(ts)[..n] == Rollbacks(ts)[..n - 1] + [RollbackCall(ts[i])]
    ensures RollbackError(ts[..i + 1], c)
            == if RollbackStatus(ts[i], c) != Success then RollbackStatus(ts[i], c) else RollbackError(ts[..i], c)
  {
    assert ts[i..] == [ts[i]] + ts[i + 1..];
    assert ts[..i + 1][..i] == ts[..i];
  }

  /** The states a failed start leaves to the rollback, and what the rollback makes of them. */
  lemma RolledBack(was: map<Target, State>, ts: seq<Target>, k: nat, paused: bool, c: Collectors)
    requires k < |ts| && Distinct(ts) && forall t :: t in ts ==> IsConfigured(was, t)
    ensures var mid := AfterFailedStart(AfterStarts(was, ts[..k], paused), ts[k], paused, c);
            && (forall t :: t in ts[..k] ==> t in mid && mid[t] == Running(paused))
            && Restored(mid, ts[..k], c) == AfterFailure(was, ts, k, paused, c)
  {
    assert ts[k] in ts && ts[k] !in ts[..k];
    forall t | t in ts[..k] ensures t in ts {}
  }

  class Orchestrator {
    const targets: seq<Target>
    var states: map<Target, State>
    var journal: seq<Event>

    ghost predicate Valid()
    {
      Distinct(targets)
    }

    constructor (targets: seq<Target>, states: map<Target, State>)
      ensures this.targets == targets && this.states == states && journal == []
    {
      this.targets, this.states, journal := targets, states, [];
    }

    method GetConfiguredTargets() returns (configured: seq<Target>)
      ensures configured == ConfiguredAmong(targets, states)
    {
      configured := [];
      for i := 0 to |targets|
        invariant configured == ConfiguredAmong(targets[..i], states)
      {
        assert targets[..i + 1][..i] == targets[..i];
        if targets[i] in states && states[targets[i]] == Configured {
          configured := configured + [targets[i]];
        }
      }
      assert targets[..|targets|] == targets;
    }

    method StartCollection(target: Target, paused: bool, c: Collectors) returns (status: Status)
      modifies this`states, this`journal
      ensures journal == old(journal) + [StartCall(target)]
      ensures target !in targets || target !in old(states) ==> status == InvalidTargetHandle && states == old(states)
      ensures target in targets && target in old(states) && old(states)[target] != Configured ==>
                status == CheckStart(old(states)[target]) && states == old(states)
      ensures target in targets && IsConfigured(old(states), target) ==>
                && status == StartStatus(target, paused, c)
                && states == (if status == Success then old(states)[target := Running(paused)]
                              else AfterFailedStart(old(states), target, paused, c))
    {
      journal := journal + [StartCall(target)];
      if target !in targets || target !in states {
        return InvalidTargetHandle;
      }
      status := CheckStart(states[target]);
      if status != Success {
        return;
      }
      states := states[target := Starting];
      var startStatus := c.start(target);
      if startStatus != Success {
        states := states[target := Configured];
        return startStatus;
      }
      if !paused {
        states := states[target := Started];
        return Success;
      }
      var pauseStatus := c.pause(target);
      if pauseStatus == Success {
        states := states[target := Paused];
        return Success;
      }
      var undoStatus := c.undo(target);
      states := states[target := if undoStatus == Success then Configured else Started];
      if undoStatus != Success {
        return undoStatus;
      }
      if pauseStatus == NotImplemented {
        return PauseUnsupported;
      }
      return pauseStatus;
    }

    method RollbackStartedCollectionToConfigured(target: Target, c: Collectors) returns (status: Status)
      modifies this`states, this`journal
      ensures journal == old(journal) + [RollbackCall(target)]
      ensures status == RollbackStatus(target, c)
      ensures states == if status == Success then old(states)[target := Configured] else old(states)
    {
      journal := journal + [RollbackCall(target)];
      status := c.stop(target);
      if status != Success {
        return;
      }
      status := c.reset(target);
      if status != Success {
        return;
      }
      states := states[target := Configured];
    }

    /** Rolls back every started target, in reverse order and past failures; reports the first failure. */
    method RollBack(startedTargets: seq<Target>, paused: bool, c: Collectors)
      returns (rollbackStatus: Status)
      requires Distinct(startedTargets) && forall t :: t in startedTargets ==> t in states
      requires forall t :: t in startedTargets ==> states[t] == Running(paused)
      modifies this`states, this`journal
      ensures rollbackStatus == RollbackError(startedTargets, c)
      ensures journal == old(journal) + Rollbacks(startedTargets)
      ensures states == Restored(old(states), startedTargets, c)
    {
      rollbackStatus := Success;
      ghost var states0, journal0 := states, journal;
      var i := |startedTargets|;
      assert startedTargets[..i] == startedTargets && startedTargets[i..] == [];
      while i > 0
        invariant 0 <= i <= |startedTargets|
        invariant RollbackError(startedTargets, c) ==
                  if rollbackStatus != Success then rollbackStatus else RollbackError(startedTargets[..i], c)
        invariant journal == journal0 + Rollbacks(startedTargets)[..|startedTargets| - i]
        invariant states == Restored(states0, startedTargets[i..], c)
      {
        i := i - 1;
        assert startedTargets[i] in startedTargets;
        OneMoreRolledBack(states0, startedTargets, i, c);
        var stopStatus := RollbackStartedCollectionToConfigured(startedTargets[i], c);
        if stopStatus != Success && rollbackStatus == Success {
          rollbackStatus := stopStatus;
        }
      }
    }

    /** The failing branch of the loop: start `k` returned `status`, the starts before it are undone. */
    method FailStart(ts: seq<Target>, k: nat, status: Status, paused: bool, c: Collectors,
                     ghost was: map<Target, State>)
      returns (r: Status)
      requires k < |ts| && Distinct(ts) && forall t :: t in ts ==> IsConfigured(was, t)
      requires status == StartStatus(ts[k], paused, c) && status != Success
      requires states == AfterFailedStart(AfterStarts(was, ts[..k], paused), ts[k], paused, c)
      modifies this`states, this`journal
      ensures r == FailureStatus(ts, k, paused, c)
      ensures states == AfterFailure(was, ts, k, paused, c)
      ensures journal == old(journal) + Rollbacks(ts[..k])
    {
      RolledBack(was, ts, k, paused, c);
      var rollbackStatus := RollBack(ts[..k], paused, c);
      if rollbackStatus != Success {
        return rollbackStatus;
      }
      return status;
    }

    /** The loop of the aggregate start: `ts` are the configured targets. */
    method StartInOrder(ts: seq<Target>, paused: bool, c: Collectors) returns (status: Status)
      requires Distinct(ts) && forall t :: t in ts ==> t in targets && IsConfigured(states, t)
      modifies this`states, this`journal
      ensures Startable(ts, paused, c) == |ts| ==>
                && status == Success
                && states == AfterStarts(old(states), ts, paused)
                && journal == old(journal) + Starts(ts)
      ensures var k := Startable(ts, paused, c);
              k < |ts| ==>
                && status == FailureStatus(ts, k, paused, c)
                && states == AfterFailure(old(states), ts, k, paused, c)
                && journal == old(journal) + Starts(ts[..k + 1]) + Rollbacks(ts[..k])
    {
      ghost var states0, journal0, k := states, journal, Startable(ts, paused, c);
      var startedTargets: seq<Target> := [];
      for i := 0 to |ts|
        invariant startedTargets == ts[..i] && i <= k
        invariant states == AfterStarts(states0, startedTargets, paused)
        invariant journal == journal0 + Starts(startedTargets)
      {
        var target := ts[i];
        OneMoreStarted(states0, ts, i, paused);
        OneMoreCall(journal0, Starts(ts[..i]), StartCall(target));
        status := StartCollection(target, paused, c);
        if status != Success {
          status := FailStart(ts, i, status, paused, c, states0);
          return;
        }
        startedTargets := startedTargets + [target];
      }
      assert ts[..|ts|] == ts;
      return Success;
    }

    method StartConfiguredTargets(paused: bool, c: Collectors) returns (status: Status)
      requires Valid()
      modifies this`states, this`journal
      // nothing to start
      ensures var ts := ConfiguredAmong(targets, old(states));
              ts == [] ==> status == CollectionNotConfigured && states == old(states) && journal == old(journal)
      // every start succeeds
      ensures var ts := ConfiguredAmong(targets, old(states));
              ts != [] && Startable(ts, paused, c) == |ts| ==>
                && status == Success
                && states == AfterStarts(old(states), ts, paused)
                && journal == old(journal) + Starts(ts)
      // start `k` is the first to fail
      ensures var ts := ConfiguredAmong(targets, old(states));
              var k := Startable(ts, paused, c);
              k < |ts| ==>
                && status == FailureStatus(ts, k, paused, c) && status != Success
                && states == AfterFailure(old(states), ts, k, paused, c)
                && journal == old(journal) + Starts(ts[..k + 1]) + Rollbacks(ts[..k])
    {
      var configuredTargets := GetConfiguredTargets();
      if configuredTargets == [] {
        return CollectionNotConfigured;
      }
      ConfiguredAreDistinct(targets, states);
      status := StartInOrder(configuredTargets, paused, c);
    }

    /** Calls the operation on every target and reports the first error. */
    method ApplyToAllTargets(op: Target -> Status) returns (aggregateStatus: Status, called: seq<Target>)
      ensures called == targets
      ensures aggregateStatus == Success <==> forall t :: t in targets ==> op(t) == Success
      ensures aggregateStatus != Success ==>
                exists i :: 0 <= i < |targets| && aggregateStatus == op(targets[i])
                            && forall j :: 0 <= j < i ==> op(targets[j]) == Success
    {
      aggregateStatus, called := Success, [];
      for i := 0 to |targets|
        invariant called == targets[..i]
        invariant aggregateStatus == Success ==> forall j :: 0 <= j < i ==> op(targets[j]) == Success
        invariant aggregateStatus != Success ==>
                    exists j :: 0 <= j < i && aggregateStatus == op(targets[j])
                                && forall l :: 0 <= l < j ==> op(targets[l]) == Success
      {
        var status := op(targets[i]);
        called := called + [targets[i]];
        if status != Success && aggregateStatus == Success {
          aggregateStatus := status;
        }
      }
    }
  }

  /** The aggregate start is a transaction exactly when every rollback succeeds and the failed start did not
      leave its own target running: only then does a failure restore the whole state map. */
  lemma FailureRestoresStates(targets: seq<Target>, was: map<Target, State>, paused: bool, c: Collectors)
    requires Distinct(targets)
    requires Startable(ConfiguredAmong(targets, was), paused, c) < |ConfiguredAmong(targets, was)|
    ensures var ts := ConfiguredAmong(targets, was);
            var k := Startable(ts, paused, c);
            AfterFailure(was, ts, k, paused, c) == was <==>
              (forall i :: 0 <= i < k ==> RollbackStatus(ts[i], c) == Success) && !LeftRunning(ts[k], paused, c)
  {
    var ts := ConfiguredAmong(targets, was);
    var k := Startable(ts, paused, c);
    var now := AfterFailure(was, ts, k, paused, c);
    ConfiguredAreDistinct(targets, was);
    assert ts[k] in ts && ts[k] !in ts[..k];
    if now == was {
      forall i | 0 <= i < k
        ensures RollbackStatus(ts[i], c) == Success
      {
        assert ts[i] in ts[..k] && ts[i] in ts && now[ts[i]] == Configured;
      }
      assert now[ts[k]] == Configured;
    } else if (forall i :: 0 <= i < k ==> RollbackStatus(ts[i], c) == Success) && !LeftRunning(ts[k], paused, c) {
      forall t | t in was
        ensures now[t] == was[t]
      {
        if t in ts[..k] {
          var i :| 0 <= i < k && ts[i] == t;
          assert t in ts;
        }
      }
      assert false;
    }
  }

  /** All rollbacks succeed exactly when no rollback error is reported. */
  lemma {:induction false} NoRollbackError(ts: seq<Target>, c: Collectors)
    ensures RollbackError(ts, c) == Success <==> forall i :: 0 <= i < |ts| ==> RollbackStatus(ts[i], c) == Success
  {
    if ts != [] {
      NoRollbackError(ts[..|ts| - 1], c);
    }
  }

  /** A plain start never leaves its failed target running, so its states are restored unless there is a rollback
      error. The reported status does not tell: a rollback error may be the status that the start itself gives. */
  lemma PlainStartIsTransactional(targets: seq<Target>, was: map<Target, State>, c: Collectors)
    requires Distinct(targets)
    requires Startable(ConfiguredAmong(targets, was), false, c) < |ConfiguredAmong(targets, was)|
    ensures var ts := ConfiguredAmong(targets, was);
            var k := Startable(ts, false, c);
            AfterFailure(was, ts, k, false, c) == was <==> RollbackError(ts[..k], c) == Success
  {
    var ts := ConfiguredAmong(targets, was);
    var k := Startable(ts, false, c);
    FailureRestoresStates(targets, was, false, c);
    NoRollbackError(ts[..k], c);
    assert forall i :: 0 <= i < k ==> ts[..k][i] == ts[i];
  }

  // ----- what the statuses and the states are, case by case

  /** Only a configured target can be started; one that is starting or started is reported as running. */
  lemma OnlyConfiguredStarts(s: State)
    ensures CheckStart(s) == Success <==> s == Configured
    ensures CheckStart(s) == CollectionNotConfigured <==> s == Unconfigured
    ensures CheckStart(s) == CollectionAlreadyRunning <==> s in {Starting, Started}
    ensures CheckStart(s) == InvalidStateTransition <==> s in {Paused, Stopped}
  {
  }

  /** A start succeeds when the collector starts and, if it is to be paused, pauses. A pause that fails is
      reported once the start is undone, as unsupported where it is not implemented; otherwise the undoing is. */
  lemma StartStatuses(t: Target, c: Collectors)
    ensures StartStatus(t, false, c) == c.start(t)
    ensures StartStatus(t, true, c) == Success <==> c.start(t) == Success && c.pause(t) == Success
    ensures c.start(t) != Success ==> StartStatus(t, true, c) == c.start(t)
    ensures c.start(t) == Success && c.pause(t) != Success && c.undo(t) != Success ==>
              StartStatus(t, true, c) == c.undo(t)
    ensures c.start(t) == Success && c.pause(t) == NotImplemented && c.undo(t) == Success ==>
              StartStatus(t, true, c) == PauseUnsupported
    ensures c.start(t) == Success && c.pause(t) !in {Success, NotImplemented} && c.undo(t) == Success ==>
              StartStatus(t, true, c) == c.pause(t)
  {
  }

  /** Started targets are started, or paused if that was asked for; no other target changes. */
  lemma StartedStates(was: map<Target, State>, ts: seq<Target>, paused: bool, t: Target)
    requires t in was
    ensures AfterStarts(was, ts, paused).Keys == was.Keys
    ensures AfterStarts(was, ts, paused)[t] == if t !in ts then was[t] else if paused then Paused else Started
  {
  }

  /** A failure changes no target behind the one that failed; the earlier ones are configured again where stopping
      and resetting them succeeds, and otherwise still started or paused. */
  lemma FailedStates(was: map<Target, State>, ts: seq<Target>, k: nat, paused: bool, c: Collectors, t: Target)
    requires t in was && k < |ts| && Distinct(ts)
    ensures var now := AfterFailure(was, ts, k, paused, c);
            && now.Keys == was.Keys
            && (t !in ts[..k + 1] ==> now[t] == was[t])
            && (t == ts[k] ==>
                  now[t] == if paused && c.start(t) == Success && c.pause(t) != Success && c.undo(t) != Success
                            then Started else was[t])
            && (t in ts[..k] && c.stop(t) == Success && c.reset(t) == Success ==> now[t] == Configured)
            && (t in ts[..k] && (c.stop(t) != Success || c.reset(t) != Success) ==>
                  now[t] == if paused then Paused else Started)
  {
    assert ts[..k + 1] == ts[..k] + [ts[k]];
    assert ts[k] !in ts[..k];
  }

  /** The targets are called in order, the ones to be rolled back in the opposite order, and the reported rollback
      error is the first one met on the way back. */
  lemma CallsAre(ts: seq<Target>, i: nat)
    requires i < |ts|
    ensures Starts(ts)[i] == StartCall(ts[i]) && Rollbacks(ts)[i] == RollbackCall(ts[|ts| - 1 - i])
    ensures |Starts(ts)| == |ts| == |Rollbacks(ts)|
  {
  }

  lemma {:induction false} FirstRollbackError(ts: seq<Target>, c: Collectors, i: nat)
    requires i < |ts| && RollbackStatus(ts[i], c) != Success
    requires forall j :: i < j < |ts| ==> c.stop(ts[j]) == Success && c.reset(ts[j]) == Success
    ensures RollbackError(ts, c) == if c.stop(ts[i]) != Success then c.stop(ts[i]) else c.reset(ts[i])
    decreases |ts|
  {
    var n := |ts| - 1;
    if i < n {
      assert RollbackStatus(ts[n], c) == Success;
      FirstRollbackError(ts[..n], c, i);
    }
  }

  /** The status of a failing start is its own when every earlier target is stopped and reset; otherwise it is that
      of the last earlier target that is not. */
  lemma FailureStatusIs(ts: seq<Target>, k: nat, paused: bool, c: Collectors)
    requires k < |ts|
    ensures (forall i :: 0 <= i < k ==> c.stop(ts[i]) == Success && c.reset(ts[i]) == Success) ==>
              FailureStatus(ts, k, paused, c) == StartStatus(ts[k], paused, c)
    ensures forall i | 0 <= i < k && RollbackStatus(ts[i], c) != Success
                       && (forall j :: i < j < k ==> c.stop(ts[j]) == Success && c.reset(ts[j]) == Success) ::
              FailureStatus(ts, k, paused, c) == if c.stop(ts[i]) != Success then c.stop(ts[i]) else c.reset(ts[i])
  {
    NoRollbackError(ts[..k], c);
    forall i | 0 <= i < k && RollbackStatus(ts[i], c) != Success
      && (forall j :: i < j < k ==> c.stop(ts[j]) == Success && c.reset(ts[j]) == Success)
      ensures FailureStatus(ts, k, paused, c) == if c.stop(ts[i]) != Success then c.stop(ts[i]) else c.reset(ts[i])
    {
      FirstRollbackError(ts[..k], c, i);
    }
  }

  // ----- failing starts that are no transaction

  /** Collectors that start every target but one, answer pauses, undoings and stops alike for all, and reset. */
  function Answering(pauseError: Status, undoError: Status, failing: Target, startError: Status, stopError: Status)
    : Collectors
  {
    Collectors(t => if t == failing then startError else Success, t => pauseError, t => undoError,
               t => stopError, t => Success)
  }

  /** A paused start of one target whose pause and whose undo both fail: the start fails, nothing is rolled
      back, and the target is running. */
  lemma UndoFailureLeavesRunning(t: Target, pauseError: Status, undoError: Status)
    requires pauseError != Success && undoError != Success
    ensures var was, c := map[t := Configured], Answering(pauseError, undoError, t, Success, Success);
            && ConfiguredAmong([t], was) == [t] && Startable([t], true, c) == 0
            && RollbackError([t][..0], c) == Success && FailureStatus([t], 0, true, c) == undoError
            && AfterFailure(was, [t], 0, true, c) == map[t := Started]
  {
    OneConfigured(t, map[t := Configured]);
  }

  lemma OneConfigured(t: Target, was: map<Target, State>)
    requires IsConfigured(was, t)
    ensures ConfiguredAmong([t], was) == [t]
  {
    assert [t][..0] == [];
  }

  /** The status does not tell whether the states were restored: two targets whose second start fails with
      `e` report `e` when the first one is rolled back, and also when its rollback fails with `e`. */
  lemma StatusDoesNotTell(t: Target, u: Target, e: Status)
    requires t != u && e != Success
    ensures var was := map[t := Configured, u := Configured];
            var good, bad := Answering(Success, Success, u, e, Success), Answering(Success, Success, u, e, e);
            && ConfiguredAmong([t, u], was) == [t, u]
            && Startable([t, u], false, good) == Startable([t, u], false, bad) == 1
            && FailureStatus([t, u], 1, false, good) == FailureStatus([t, u], 1, false, bad) == e
            && AfterFailure(was, [t, u], 1, false, good) == was
            && AfterFailure(was, [t, u], 1, false, bad) == map[t := Started, u := Configured]
  {
    var was := map[t := Configured, u := Configured];
    assert [t, u][..1] == [t];
    OneConfigured(t, was);
    assert [t, u][1..] == [u];
    OneRollback(t, Answering(Success, Success, u, e, Success));
    OneRollback(t, Answering(Success, Success, u, e, e));
  }

  lemma OneRollback(t: Target, c: Collectors)
    ensures RollbackError([t], c) == RollbackStatus(t, c)
  {
    assert [t][..0] == [];
  }
}
