/** The launch, run, fail and stop life of the gateway process, one synchronous stretch of code
    per step. */
module GatewayProtocol {
  import opened Options

  datatype RunState = Starting | Running | Failed | Stopped

  datatype Status = Status(state: RunState, degraded: bool, pid: Option<nat>, error: bool)

  /** Where `launch` is: not called, awaiting the ready line, awaiting the stop it triggered
      itself, or settled. */
  datatype LaunchPhase = NotLaunched | AwaitingReady | AwaitingStop | Settled(ok: bool)

  /** Where `stop` is. */
  datatype StopPhase = NotStopped | StopPending | StopDone

  /** The child process: its pid, whether it still runs, whether the exit listener is attached. */
  datatype Child = Child(pid: nat, alive: bool, watched: bool)

  datatype Runtime = Runtime(
    child: Option<Child>,
    stopping: bool,
    launch: LaunchPhase,
    stop: StopPhase,
    status: Status,
    callbacks: nat)

  const CREATED: Runtime :=
    Runtime(None, false, NotLaunched, NotStopped, Status(Starting, false, None, false), 0)

  datatype Action =
    | LaunchThrows         // no binary, or spawning throws
    | Spawn(pid: nat)      // `launch` up to its first await
    | ReadyLine            // the ready announcement resolves
    | ReadyRejects         // exit, error, timeout or an oversized line before readiness
    | ChildExits
    | CallStop
    | StopFinishes         // the child is gone or given up on, the channel is closed
    | LaunchRethrows       // `launch` has awaited its own stop

  /** What may happen: a stop while `launch` awaits the ready line, a stop that finishes before
      that wait is over, a launch after a stop. */
  datatype Policy = Policy(stopDuringLaunch: bool, stopOutrunsLaunch: bool, launchAfterStop: bool)

  const LENIENT := Policy(true, true, true)

  /** A stop does not outrun the launch, and nothing is launched afterwards. */
  const STRICT := Policy(true, false, false)

  function FailLaunch(s: Runtime): Runtime {
    BeginStop(s.(status := s.status.(state := Failed, degraded := true, error := true), launch := AwaitingStop))
  }

  /** `stop()`: the first call starts stopping, later ones share its promise. */
  function BeginStop(s: Runtime): Runtime {
    if s.stop == NotStopped then s.(stopping := true, stop := StopPending) else s
  }

  function Stopping(status: Status): Status {
    status.(state := if status.state == Failed then Failed else Stopped,
            degraded := status.state == Failed,
            pid := None)
  }

  /** Nothing was spawned yet: `launch` was not called, or threw before it had a child. */
  predicate MayLaunch(s: Runtime) {
    s.child.None? && s.launch in {NotLaunched, Settled(false)}
  }

  predicate Enabled(s: Runtime, a: Action, policy: Policy) {
    match a
    case LaunchThrows => MayLaunch(s) && (policy.launchAfterStop || !s.stopping)
    case Spawn(_) => MayLaunch(s) && (policy.launchAfterStop || !s.stopping)
    case ReadyLine => s.launch == AwaitingReady && s.child.Some?
    case ReadyRejects => s.launch == AwaitingReady && s.child.Some?
    case ChildExits => s.child.Some? && s.child.value.alive
    case CallStop => policy.stopDuringLaunch || s.launch != AwaitingReady
    case StopFinishes => s.stop == StopPending && (policy.stopOutrunsLaunch || s.launch != AwaitingReady)
    case LaunchRethrows => s.launch == AwaitingStop && s.stop == StopDone
  }

  function Step(s: Runtime, a: Action): Runtime
    requires Enabled(s, a, LENIENT)
  {
    match a
    case LaunchThrows => s.(launch := Settled(false))
    case Spawn(pid) => s.(child := Some(Child(pid, true, false)), launch := AwaitingReady)
    case ReadyLine =>
      if !s.child.value.alive then FailLaunch(s)
      else
        s.(status := Status(Running, false, Some(s.child.value.pid), false),
           child := Some(s.child.value.(watched := true)),
           launch := Settled(true))
    case ReadyRejects => FailLaunch(s)
    case ChildExits =>
      var gone := s.(child := Some(s.child.value.(alive := false, watched := false)));
      if !s.child.value.watched || s.stopping then gone
      else
        gone.(status := s.status.(state := Failed, degraded := true, pid := None, error := true),
              callbacks := s.callbacks + 1)
    case CallStop => BeginStop(s)
    case StopFinishes => s.(stop := StopDone, status := Stopping(s.status))
    case LaunchRethrows => s.(launch := Settled(false))
  }

  predicate MayBecome(a: RunState, b: RunState) {
    a == b || (a == Starting && b in {Running, Failed, Stopped}) || (a == Running && b in {Failed, Stopped})
  }

  /** What holds in every state. */
  ghost predicate Sound(s: Runtime) {
    && (s.status.degraded <==> s.status.state == Failed)
    && (s.status.pid.Some? ==> s.status.state == Running && s.child.Some? && s.status.pid == Some(s.child.value.pid))
    && s.callbacks <= 1
    && (s.callbacks == 1 ==> s.status.state == Failed)
    // a gateway shown as running has a live process, unless it is being stopped
    && (s.status.state == Running && !s.stopping ==> s.child.Some? && s.child.value.alive)
    // the outcome of `launch` and the status tell the same story
    && (s.launch == Settled(true) ==> s.status.state != Starting)
    // a launch that had a child fails only after it was stopped
    && (s.launch == Settled(false) && s.child.Some? ==> s.stop == StopDone)
    && (s.stop == StopDone ==> s.status.state in {Failed, Stopped})
    && (s.status.error <==> s.status.state == Failed)
  }

  /** What holds of every step: the status only moves forward, `stop` never reports an exit. */
  ghost predicate SoundStep(s: Runtime, t: Runtime) {
    && MayBecome(s.status.state, t.status.state)
    && (s.stopping ==> t.stopping && t.callbacks == s.callbacks)
    && s.callbacks <= t.callbacks <= s.callbacks + 1
    && (t.callbacks > s.callbacks ==> s.status.state == Running && t.status.state == Failed)
  }

  ghost predicate Reachable(s: Runtime, policy: Policy) {
    exists actions :: IsRun(CREATED, actions, policy) && After(CREATED, actions, policy) == s
  }

  ghost predicate IsRun(s: Runtime, actions: seq<Action>, policy: Policy)
    decreases |actions|
  {
    actions == [] || (Enabled(s, actions[0], policy) && IsRun(Step(s, actions[0]), actions[1..], policy))
  }

  ghost function After(s: Runtime, actions: seq<Action>, policy: Policy): Runtime
    requires IsRun(s, actions, policy)
    decreases |actions|
  {
    if actions == [] then s else After(Step(s, actions[0]), actions[1..], policy)
  }

  /** Every reachable state is sound, and so is every step out of one. */
  ghost predicate Disciplined(policy: Policy) {
    && (forall s :: Reachable(s, policy) ==> Sound(s))
    && (forall s, a :: Reachable(s, policy) && Enabled(s, a, policy) ==> SoundStep(s, Step(s, a)))
  }

  /** The inductive invariant of strict runs. */
  ghost predicate Good(s: Runtime) {
    && Sound(s)
    && s.stopping == (s.stop != NotStopped)
    && (s.status.state == Stopped ==> s.stop == StopDone)
    && match s.launch
       case NotLaunched =>
         s.child.None? && s.callbacks == 0 && s.status.state == (if s.stop == StopDone then Stopped else Starting)
       case AwaitingReady =>
         && s.child.Some? && !s.child.value.watched && s.stop != StopDone
         && s.status.state == Starting && s.callbacks == 0
       case AwaitingStop =>
         s.child.Some? && !s.child.value.watched && s.stopping && s.status.state == Failed && s.callbacks == 0
       case Settled(true) =>
         && s.child.Some?
         && (s.child.value.watched ==> s.child.value.alive)
         && (!s.stopping && s.child.value.alive ==> s.status.state == Running && s.child.value.watched)
         && (s.callbacks == 0 ==> s.status.state in {Running, Stopped})
         && (s.callbacks == 1 ==> !s.child.value.watched)
       case Settled(false) =>
         s.callbacks == 0 && (s.child.Some? ==> !s.child.value.watched && s.stopping && s.status.state == Failed)
         && (s.child.None? ==> s.status.state == (if s.stop == StopDone then Stopped else Starting))
  }

  /** A new runtime may be launched, and a launch that throws may be repeated, with the same outcome. */
  lemma ThrowingLaunchMayBeRepeated(s: Runtime, pid: nat, policy: Policy)
    requires s == CREATED || Enabled(s, LaunchThrows, policy)
    ensures Enabled(s, LaunchThrows, policy) && Enabled(s, Spawn(pid), policy)
    ensures
      var again := Step(s, LaunchThrows);
      && again.status == s.status && Step(again, LaunchThrows) == again
      && Enabled(again, LaunchThrows, policy) && Enabled(again, Spawn(pid), policy)
      && Step(again, Spawn(pid)) == Step(s, Spawn(pid))
  {
  }

  lemma StepKeepsGood(s: Runtime, a: Action)
    requires Good(s) && Enabled(s, a, STRICT)
    ensures Good(Step(s, a)) && SoundStep(s, Step(s, a))
  {
  }

  lemma {:induction false} RunKeepsGood(s: Runtime, actions: seq<Action>)
    requires Good(s) && IsRun(s, actions, STRICT)
    ensures Good(After(s, actions, STRICT))
    decreases |actions|
  {
    if actions != [] {
      StepKeepsGood(s, actions[0]);
      RunKeepsGood(Step(s, actions[0]), actions[1..]);
    }
  }

  lemma {:induction false} RunExtends(s: Runtime, actions: seq<Action>, a: Action, policy: Policy)
    requires IsRun(s, actions, policy) && Enabled(After(s, actions, policy), a, policy)
    ensures IsRun(s, actions + [a], policy)
    ensures After(s, actions + [a], policy) == Step(After(s, actions, policy), a)
    decreases |actions|
  {
    if actions == [] {
      assert [] + [a] == [a] && [a][1..] == [];
      assert IsRun(Step(s, a), [], policy);
    } else {
      RunExtends(Step(s, actions[0]), actions[1..], a, policy);
      assert (actions + [a])[1..] == actions[1..] + [a];
    }
  }

  lemma ReachCreated(policy: Policy)
    ensures Reachable(CREATED, policy)
  {
    assert IsRun(CREATED, [], policy) && After(CREATED, [], policy) == CREATED;
  }

  lemma ReachStep(s: Runtime, a: Action, policy: Policy)
    requires Reachable(s, policy) && Enabled(s, a, policy)
    ensures Reachable(Step(s, a), policy)
  {
    var actions :| IsRun(CREATED, actions, policy) && After(CREATED, actions, policy) == s;
    RunExtends(CREATED, actions, a, policy);
  }

  /** A stop that gives up on the child while `launch` still waits: the launch then reports
      failure, and the status moves from stopped to failed. */
  lemma StopDuringLaunchBreaks(policy: Policy)
    requires policy.stopDuringLaunch && policy.stopOutrunsLaunch
    ensures exists s, a :: Reachable(s, policy) && Enabled(s, a, policy)
                           && s.status.state == Stopped && Step(s, a).status.state == Failed
  {
    var spawned := Step(CREATED, Spawn(1));
    var stopping := Step(spawned, CallStop);
    var stopped := Step(stopping, StopFinishes);
    ReachCreated(policy);
    ReachStep(CREATED, Spawn(1), policy);
    ReachStep(spawned, CallStop, policy);
    ReachStep(stopping, StopFinishes, policy);
    assert Enabled(stopped, ReadyRejects, policy) && Step(stopped, ReadyRejects).status.state == Failed;
  }

  /** Launching after a stop: the status leaves `stopped`. */
  lemma LaunchAfterStopBreaks(policy: Policy)
    requires policy.launchAfterStop
    ensures exists s, a :: Reachable(s, policy) && Enabled(s, a, policy)
                           && s.status.state == Stopped && Step(s, a).status.state == Running
  {
    var stopping := Step(CREATED, CallStop);
    var stopped := Step(stopping, StopFinishes);
    var spawned := Step(stopped, Spawn(1));
    ReachCreated(policy);
    ReachStep(CREATED, CallStop, policy);
    ReachStep(stopping, StopFinishes, policy);
    ReachStep(stopped, Spawn(1), policy);
    assert Enabled(spawned, ReadyLine, policy) && Step(spawned, ReadyLine).status.state == Running;
  }

  /** A run that calls no stop while the launch waits has none that could outrun it. */
  lemma {:induction false} RunIsStrict(s: Runtime, actions: seq<Action>, policy: Policy)
    requires !(policy.stopDuringLaunch && policy.stopOutrunsLaunch) && !policy.launchAfterStop
    requires Good(s) && IsRun(s, actions, policy)
    requires policy.stopDuringLaunch || (s.launch == AwaitingReady ==> s.stop == NotStopped)
    ensures IsRun(s, actions, STRICT) && After(s, actions, STRICT) == After(s, actions, policy)
    decreases |actions|
  {
    if actions != [] {
      assert Enabled(s, actions[0], STRICT);
      StepKeepsGood(s, actions[0]);
      RunIsStrict(Step(s, actions[0]), actions[1..], policy);
    }
  }

  lemma ReachedByStrictRuns(s: Runtime, policy: Policy)
    requires !(policy.stopDuringLaunch && policy.stopOutrunsLaunch) && !policy.launchAfterStop
    requires Reachable(s, policy)
    ensures Reachable(s, STRICT) && Good(s)
    ensures policy.stopDuringLaunch || (s.launch == AwaitingReady ==> s.stop == NotStopped)
  {
    var actions :| IsRun(CREATED, actions, policy) && After(CREATED, actions, policy) == s;
    RunIsStrict(CREATED, actions, policy);
    RunKeepsGood(CREATED, actions);
    if !policy.stopDuringLaunch {
      WaitsUnstopped(CREATED, actions, policy);
    }
  }

  lemma {:induction false} WaitsUnstopped(s: Runtime, actions: seq<Action>, policy: Policy)
    requires !policy.stopDuringLaunch && !policy.launchAfterStop
    requires Good(s) && IsRun(s, actions, policy) && IsRun(s, actions, STRICT)
    requires s.launch == AwaitingReady ==> s.stop == NotStopped
    ensures var t := After(s, actions, policy); t.launch == AwaitingReady ==> t.stop == NotStopped
    decreases |actions|
  {
    if actions != [] {
      StepKeepsGood(s, actions[0]);
      WaitsUnstopped(Step(s, actions[0]), actions[1..], policy);
    }
  }

  /** Main result: the status is sound in every run exactly when no stop outruns a launch and
      nothing is launched after a stop. */
  lemma DisciplinedExactlyUnderStrictPolicy(policy: Policy)
    ensures Disciplined(policy)
            <==> !(policy.stopDuringLaunch && policy.stopOutrunsLaunch) && !policy.launchAfterStop
  {
    if policy.stopDuringLaunch && policy.stopOutrunsLaunch {
      StopDuringLaunchBreaks(policy);
      var s, a :| Reachable(s, policy) && Enabled(s, a, policy)
                  && s.status.state == Stopped && Step(s, a).status.state == Failed;
      assert !SoundStep(s, Step(s, a));
    } else if policy.launchAfterStop {
      LaunchAfterStopBreaks(policy);
      var s, a :| Reachable(s, policy) && Enabled(s, a, policy)
                  && s.status.state == Stopped && Step(s, a).status.state == Running;
      assert !SoundStep(s, Step(s, a));
    } else {
      forall s | Reachable(s, policy)
        ensures Sound(s)
      {
        ReachedByStrictRuns(s, policy);
      }
      forall s, a | Reachable(s, policy) && Enabled(s, a, policy)
        ensures SoundStep(s, Step(s, a))
      {
        ReachedByStrictRuns(s, policy);
        StepKeepsGood(s, a);
      }
    }
  }
}

/** The runtime object, and the startup sequence that launches it or falls back. */
module GatewayRuntimes {
  import opened GatewayProtocol
  import opened Options

  datatype HealthState = Disabled | OfRuntime(state: RunState)

  datatype Health = Health(configured: bool, state: HealthState, degraded: bool, affectsReadiness: bool, error: bool)

  function DisabledHealth(): Health {
    Health(false, Disabled, false, false, false)
  }

  function HealthOf(s: Runtime): Health {
    Health(true, OfRuntime(s.status.state), s.status.degraded, true, s.status.error)
  }

  class WsGatewayRuntime {
    var child: Option<Child>
    var stopping: bool
    var launch: LaunchPhase
    var stop: StopPhase
    var status: Status
    var callbacks: nat

    function State(): Runtime
      reads this
    {
      Runtime(child, stopping, launch, stop, status, callbacks)
    }

    constructor ()
      ensures State() == CREATED
    {
      child, stopping, launch, stop, callbacks := None, false, NotLaunched, NotStopped, 0;
      status := Status(Starting, false, None, false);
    }

    function GetStatus(): (health: Health)
      reads this
      ensures health.configured && health.affectsReadiness && health.state == OfRuntime(status.state)
      ensures health.degraded == status.degraded && health.error == status.error
    {
      HealthOf(State())
    }

    method LaunchThrowing()
      requires Enabled(State(), LaunchThrows, LENIENT)
      modifies this
      ensures State() == Step(old(State()), LaunchThrows)
    {
      launch := Settled(false);
    }

    /** A runtime that has a child refuses to launch another. */
    method Launch(pid: nat) returns (refused: bool)
      requires child.None? ==> Enabled(State(), Spawn(pid), LENIENT)
      modifies this
      ensures refused <==> old(child).Some?
      ensures State() == if refused then old(State()) else Step(old(State()), Spawn(pid))
    {
      if child.Some? {
        return true;
      }
      refused := false;
      child := Some(Child(pid, true, false));
      launch := AwaitingReady;
    }

    /** `launch` goes on after the ready announcement. */
    method OnReady()
      requires Enabled(State(), ReadyLine, LENIENT)
      modifies this
      ensures State() == Step(old(State()), ReadyLine)
    {
      if !child.value.alive {
        OnLaunchError();
        return;
      }
      status := Status(Running, false, Some(child.value.pid), false);
      child := Some(child.value.(watched := true));
      launch := Settled(true);
    }

    /** The `catch` of `launch`, up to awaiting its own stop. */
    method OnLaunchError()
      requires Enabled(State(), ReadyRejects, LENIENT)
      modifies this
      ensures State() == Step(old(State()), ReadyRejects)
    {
      status := status.(state := Failed, degraded := true, error := true);
      launch := AwaitingStop;
      Stop();
    }

    method RethrowLaunchError()
      requires Enabled(State(), LaunchRethrows, LENIENT)
      modifies this
      ensures State() == Step(old(State()), LaunchRethrows)
    {
      launch := Settled(false);
    }

    method OnChildExit()
      requires Enabled(State(), ChildExits, LENIENT)
      modifies this
      ensures State() == Step(old(State()), ChildExits)
    {
      var watched := child.value.watched;
      child := Some(child.value.(alive := false, watched := false));
      if !watched || stopping {
        return;
      }
      status := status.(state := Failed, degraded := true, pid := None, error := true);
      callbacks := callbacks + 1;
    }

    method Stop()
      modifies this
      ensures State() == BeginStop(old(State()))
    {
      if stop == NotStopped {
        stopping := true;
        stop := StopPending;
      }
    }

    /** `stopNow` after its last await. */
    method FinishStop()
      requires Enabled(State(), StopFinishes, LENIENT)
      modifies this
      ensures State() == Step(old(State()), StopFinishes)
    {
      stop := StopDone;
      status := status.(state := if status.state == Failed then Failed else Stopped,
                        degraded := status.state == Failed,
                        pid := None);
    }
  }

  // ----- startup -----

  datatype Mode = Gateway | Direct
  datatype Source = Explicit | Default
  datatype Resolution = Resolution(mode: Mode, source: Source)

  /** `resolveWsGatewayMode` on the lower-cased variable, empty when unset. */
  function ResolveMode(raw: string, gatewayAvailable: bool): (r: Resolution)
    ensures r.source == Default <==> raw == ""
    ensures r.mode == Gateway <==> raw in {"1", "enabled"} || (raw == "" && gatewayAvailable)
  {
    if raw in ["1", "enabled"] then Resolution(Gateway, Explicit)
    else if |raw| > 0 then Resolution(Direct, Explicit)
    else Resolution(if gatewayAvailable then Gateway else Direct, Default)
  }

  /** Nobody but the launching code holds the runtime yet, so no stop is called during a launch. */
  const UNSHARED := Policy(false, false, false)

  /** From `s` on the actions happen until the launch settles, and no further. */
  ghost predicate SettlesAtEnd(s: Runtime, actions: seq<Action>)
    decreases |actions|
  {
    if s.launch.Settled? then actions == []
    else actions != [] && Enabled(s, actions[0], UNSHARED) && SettlesAtEnd(Step(s, actions[0]), actions[1..])
  }

  /** From `s` on the actions happen until the stop is done, and no further. */
  ghost predicate StopsAtEnd(s: Runtime, actions: seq<Action>)
    decreases |actions|
  {
    if s.stop == StopDone then actions == []
    else actions != [] && Enabled(s, actions[0], STRICT) && StopsAtEnd(Step(s, actions[0]), actions[1..])
  }

  lemma {:induction false} SettlingIsARun(s: Runtime, actions: seq<Action>)
    requires SettlesAtEnd(s, actions)
    ensures IsRun(s, actions, STRICT) && After(s, actions, STRICT).launch.Settled?
    decreases |actions|
  {
    if actions != [] {
      SettlingIsARun(Step(s, actions[0]), actions[1..]);
    }
  }

  lemma {:induction false} StoppingIsARun(s: Runtime, actions: seq<Action>)
    requires StopsAtEnd(s, actions)
    ensures IsRun(s, actions, STRICT) && After(s, actions, STRICT).stop == StopDone
    decreases |actions|
  {
    if actions != [] {
      StoppingIsARun(Step(s, actions[0]), actions[1..]);
    }
  }

  /** What happens around one launch attempt: whether the private channel can be created, the HTTP
      backend listens on loopback and announces a usable address; the pid if a child is spawned,
      and all that happens until the launch settles. After a failure, the exits while the backend
      closes, and all that happens until the stop is done. After a success, all that happens while
      the server application starts. */
  datatype Environment = Environment(
    channel: bool, backend: bool, address: bool, spawned: Option<nat>,
    launching: seq<Action>, meanwhile: seq<Action>, stopping: seq<Action>, starting: seq<Action>)

  /** The state of the runtime when its launch has settled, or was not reached. */
  ghost function LaunchState(env: Environment): Runtime
    requires LaunchIsPossible(env)
  {
    if !env.backend || !env.address then CREATED
    else
      match env.spawned
      case None => Step(CREATED, LaunchThrows)
      case Some(pid) =>
        SettlingIsARun(Step(CREATED, Spawn(pid)), env.launching);
        After(Step(CREATED, Spawn(pid)), env.launching, STRICT)
  }

  ghost predicate LaunchIsPossible(env: Environment) {
    env.spawned.Some? ==> SettlesAtEnd(Step(CREATED, Spawn(env.spawned.value)), env.launching)
  }

  /** Everything in the environment is something that can happen. */
  ghost predicate Possible(env: Environment) {
    && LaunchIsPossible(env)
    && (forall a :: a in env.meanwhile ==> a == ChildExits)
    && IsRun(LaunchState(env), env.meanwhile, STRICT)
    && (!Serves(env) ==> StopsAtEnd(BeginStop(After(LaunchState(env), env.meanwhile, STRICT)), env.stopping))
    && (Serves(env) ==> IsWatchedRun(LaunchState(env), env.starting))
  }

  /** One step of a launched gateway: `onUnexpectedExit` stops it at once. */
  function Watched(s: Runtime, a: Action): Runtime
    requires Enabled(s, a, STRICT)
  {
    if Step(s, a).callbacks > s.callbacks then BeginStop(Step(s, a)) else Step(s, a)
  }

  ghost predicate IsWatchedRun(s: Runtime, actions: seq<Action>)
    decreases |actions|
  {
    actions == [] || (Enabled(s, actions[0], STRICT) && IsWatchedRun(Watched(s, actions[0]), actions[1..]))
  }

  ghost function AfterWatched(s: Runtime, actions: seq<Action>): Runtime
    requires IsWatchedRun(s, actions)
    decreases |actions|
  {
    if actions == [] then s else AfterWatched(Watched(s, actions[0]), actions[1..])
  }

  lemma {:induction false} CallbacksGrow(s: Runtime, actions: seq<Action>)
    requires IsWatchedRun(s, actions)
    ensures AfterWatched(s, actions).callbacks >= s.callbacks
    decreases |actions|
  {
    if actions != [] {
      CallbacksGrow(Watched(s, actions[0]), actions[1..]);
    }
  }

  /** A launched gateway runs until its child exits unasked or its stop is done. */
  lemma {:induction false} WatchedRunsExactly(s: Runtime, actions: seq<Action>)
    requires Good(s) && s.launch == Settled(true) && IsWatchedRun(s, actions)
    ensures var t := AfterWatched(s, actions);
      && Good(t) && t.launch == Settled(true)
      && (t.status.state == Running <==> t.callbacks == 0 && t.stop != StopDone)
    decreases |actions|
  {
    if actions != [] {
      StepKeepsGood(s, actions[0]);
      if Step(s, actions[0]).callbacks > s.callbacks {
        StepKeepsGood(Step(s, actions[0]), CallStop);
      }
      WatchedRunsExactly(Watched(s, actions[0]), actions[1..]);
    }
  }

  /** The gateway comes up. */
  ghost predicate Serves(env: Environment)
    requires LaunchIsPossible(env)
  {
    env.channel && env.backend && env.address && LaunchState(env).launch == Settled(true)
  }

  lemma LaunchStateIsGood(env: Environment)
    requires LaunchIsPossible(env)
    ensures Good(LaunchState(env))
    ensures LaunchState(env).launch != AwaitingReady
  {
    if env.spawned.Some? {
      var spawned := Step(CREATED, Spawn(env.spawned.value));
      SettlingIsARun(spawned, env.launching);
      RunKeepsGood(spawned, env.launching);
    }
  }

  /** A launch settles well if and only if the ready line is the first thing that happens to the
      child; an exit, an error or a timeout before it, whatever follows, make it fail. */
  lemma ServesExactlyWhenReadyFirst(pid: nat, actions: seq<Action>)
    requires SettlesAtEnd(Step(CREATED, Spawn(pid)), actions)
    ensures IsRun(Step(CREATED, Spawn(pid)), actions, STRICT)
    ensures After(Step(CREATED, Spawn(pid)), actions, STRICT).launch == Settled(true) <==> actions == [ReadyLine]
    ensures actions == [ReadyLine] ==>
      After(Step(CREATED, Spawn(pid)), actions, STRICT)
      == Runtime(Some(Child(pid, true, true)), false, Settled(true), NotStopped, Status(Running, false, Some(pid), false), 0)
  {
    var s := Step(CREATED, Spawn(pid));
    SettlingIsARun(s, actions);
    match actions[0] {
      case ReadyLine =>
        assert SettlesAtEnd(Step(s, ReadyLine), actions[1..]) && actions[1..] == [];
        assert actions == [ReadyLine];
        assert [ReadyLine][1..] == [];
      case ChildExits =>
        FailsWithoutChild(Step(s, ChildExits), actions[1..]);
      case ReadyRejects =>
        FailsOnceFailed(Step(s, ReadyRejects), actions[1..]);
      case _ =>
    }
  }

  lemma {:induction false} FailsOnceFailed(s: Runtime, actions: seq<Action>)
    requires s.launch == AwaitingStop && SettlesAtEnd(s, actions) && IsRun(s, actions, STRICT)
    ensures After(s, actions, STRICT).launch == Settled(false)
    decreases |actions|
  {
    if actions[0] != LaunchRethrows {
      FailsOnceFailed(Step(s, actions[0]), actions[1..]);
    }
  }

  lemma FailsWithoutChild(s: Runtime, actions: seq<Action>)
    requires s.launch == AwaitingReady && s.child.Some? && !s.child.value.alive
    requires SettlesAtEnd(s, actions) && IsRun(s, actions, STRICT)
    ensures After(s, actions, STRICT).launch == Settled(false)
  {
    FailsOnceFailed(Step(s, actions[0]), actions[1..]);
  }

  /** The gateway serves exactly when everything before the child works and the child is ready first. */
  lemma ServesExactly(env: Environment)
    requires LaunchIsPossible(env)
    ensures Serves(env)
            <==> env.channel && env.backend && env.address && env.spawned.Some? && env.launching == [ReadyLine]
    ensures Serves(env) ==> LaunchState(env).status == Status(Running, false, env.spawned, false)
    ensures Serves(env) ==> !LaunchState(env).stopping
    ensures Serves(env) ==> LaunchState(env).child == Some(Child(env.spawned.value, true, true))
  {
    if env.spawned.Some? {
      ServesExactlyWhenReadyFirst(env.spawned.value, env.launching);
    }
  }

  lemma {:induction false} ExitsKeepLaunch(s: Runtime, actions: seq<Action>)
    requires IsRun(s, actions, STRICT) && forall a :: a in actions ==> a == ChildExits
    ensures After(s, actions, STRICT).launch == s.launch
    decreases |actions|
  {
    if actions != [] {
      assert actions[0] in actions && forall a :: a in actions[1..] ==> a in actions;
      ExitsKeepLaunch(Step(s, actions[0]), actions[1..]);
    }
  }

  /** One step of the environment or of the runtime's own continuations. */
  method Perform(r: WsGatewayRuntime, a: Action)
    requires Enabled(r.State(), a, LENIENT)
    modifies r
    ensures r.State() == Step(old(r.State()), a)
  {
    match a {
      case LaunchThrows => r.LaunchThrowing();
      case Spawn(pid) => var _ := r.Launch(pid);
      case ReadyLine => r.OnReady();
      case ReadyRejects => r.OnLaunchError();
      case ChildExits => r.OnChildExit();
      case CallStop => r.Stop();
      case StopFinishes => r.FinishStop();
      case LaunchRethrows => r.RethrowLaunchError();
    }
  }

  method PerformAll(r: WsGatewayRuntime, actions: seq<Action>)
    requires IsRun(r.State(), actions, STRICT)
    modifies r
    ensures r.State() == After(old(r.State()), actions, STRICT)
    decreases |actions|
  {
    if actions != [] {
      Perform(r, actions[0]);
      PerformAll(r, actions[1..]);
    }
  }

  /** The HTTP server of the process. */
  class HttpServer {
    var listening: bool

    constructor ()
      ensures !listening
    {
      listening := false;
    }
  }

  /** The same while the server application starts; an unexpected exit also closes the backend. */
  method PerformWatched(r: WsGatewayRuntime, server: HttpServer, actions: seq<Action>)
    requires IsWatchedRun(r.State(), actions)
    modifies r, server
    ensures r.State() == AfterWatched(old(r.State()), actions)
    ensures server.listening <==> old(server.listening) && r.State().callbacks == old(r.State()).callbacks
    decreases |actions|
  {
    if actions != [] {
      var callbacks := r.callbacks;
      Perform(r, actions[0]);
      if r.callbacks > callbacks {
        server.listening := false;
        r.Stop();
      }
      CallbacksGrow(r.State(), actions[1..]);
      PerformWatched(r, server, actions[1..]);
    }
  }

  datatype App = App(viaGateway: bool, direct: bool)

  /** `launchWsGateway`, whatever happens around it: on any failure the backend is closed and the
      runtime stopped, before the error goes on. */
  method LaunchWsGateway(server: HttpServer, env: Environment) returns (runtime: WsGatewayRuntime?, threw: bool)
    requires !server.listening && Possible(env)
    modifies server
    ensures threw <==> !Serves(env)
    ensures runtime == null <==> !env.channel
    ensures runtime != null ==> fresh(runtime) && Good(runtime.State())
    ensures threw ==> !server.listening
    ensures threw && runtime != null ==> runtime.status.state in {Failed, Stopped} && runtime.stop == StopDone
    ensures !threw ==>
              && server.listening && runtime.State() == LaunchState(env) && runtime.launch == Settled(true)
              && runtime.status == Status(Running, false, env.spawned, false) && !runtime.stopping && runtime.callbacks == 0
  {
    runtime, threw := null, false;
    if !env.channel {
      threw := true;
      return;
    }
    LaunchStateIsGood(env);
    ServesExactly(env);
    var r := new WsGatewayRuntime();
    runtime := r;
    if !env.backend {
      threw := true;
    } else {
      server.listening := true;
      if !env.address {
        threw := true;
      } else if env.spawned.None? {
        r.LaunchThrowing();
        threw := true;
      } else {
        var _ := r.Launch(env.spawned.value);
        SettlingIsARun(r.State(), env.launching);
        PerformAll(r, env.launching);
        threw := r.launch != Settled(true);
      }
    }
    assert r.State() == LaunchState(env);
    if threw {
      PerformAll(r, env.meanwhile);
      RunKeepsGood(LaunchState(env), env.meanwhile);
      ExitsKeepLaunch(LaunchState(env), env.meanwhile);
      server.listening := false;
      StopIsStrict(r.State());
      r.Stop();
      StoppingIsARun(r.State(), env.stopping);
      RunKeepsGood(r.State(), env.stopping);
      PerformAll(r, env.stopping);
      assert Sound(r.State());
    }
  }

  /** Once the launch has settled, or was not reached, stopping is a strict step. */
  lemma StopIsStrict(s: Runtime)
    requires Good(s) && s.launch != AwaitingReady
    ensures Good(BeginStop(s))
  {
    StepKeepsGood(s, CallStop);
  }

  /** Readiness as `/readyz` computes it. */
  predicate Ready(memoryReady: bool, health: Health) {
    memoryReady && (!health.affectsReadiness || health.state == OfRuntime(Running))
  }

  /** The gateway part of `startServer`. A failing launch is fatal when the gateway was asked
      for, and a silent fallback to direct sockets when it was only the default. */
  method StartServer(raw: string, gatewayAvailable: bool, env: Environment)
    returns (app: Option<App>, server: HttpServer, runtime: WsGatewayRuntime?, health: Health)
    requires Possible(env)
    ensures fresh(server)
    ensures
      var resolution := ResolveMode(raw, gatewayAvailable);
      // startup fails exactly when an explicitly requested gateway does not come up
      && (app == None <==> resolution == Resolution(Gateway, Explicit) && !Serves(env))
      // otherwise exactly one of the two ways of serving is chosen
      && (app.Some? ==> app.value.viaGateway == (resolution.mode == Gateway && Serves(env))
                        && app.value.direct == !app.value.viaGateway)
      // an explicit gateway never becomes a direct server
      && (resolution == Resolution(Gateway, Explicit) && app.Some? ==> !app.value.direct)
    ensures app == None ==> !server.listening
    ensures app.Some? && app.value.direct ==>
              server.listening && health.state == Disabled
              && !health.configured && !health.affectsReadiness && !health.degraded
              && (health.error <==> ResolveMode(raw, gatewayAvailable).mode == Gateway)
              && forall memoryReady :: Ready(memoryReady, health) == memoryReady
    // whatever happens while the application starts: ready until the child exits or is stopped
    ensures app.Some? && app.value.viaGateway ==>
              && runtime != null && Good(runtime.State()) && health == runtime.GetStatus()
              && runtime.State() == AfterWatched(LaunchState(env), env.starting)
              && (server.listening <==> runtime.callbacks == 0)
              && forall memoryReady ::
                   Ready(memoryReady, health) == (memoryReady && runtime.callbacks == 0 && runtime.stop != StopDone)
  {
    server := new HttpServer();
    var resolution := ResolveMode(raw, gatewayAvailable);
    app, runtime, health := None, null, DisabledHealth();
    if resolution.mode == Gateway {
      var r, threw := LaunchWsGateway(server, env);
      if threw {
        if resolution.source == Explicit {
          return;
        }
        health := DisabledHealth().(error := true);
      } else {
        runtime := r;
      }
    }
    if runtime != null {
      WatchedRunsExactly(runtime.State(), env.starting);
      PerformWatched(runtime, server, env.starting);
      health := runtime.GetStatus();
      app := Some(App(true, false));
      return;
    }
    server.listening := true;
    app := Some(App(false, true));
  }

  /** While the gateway is up it gates readiness: in every state of a strict run, ready means that
      it runs and memory allows it. */
  lemma ReadyExactlyWhileRunning(actions: seq<Action>, memoryReady: bool)
    requires IsRun(CREATED, actions, STRICT)
    ensures var s := After(CREATED, actions, STRICT);
      && (Ready(memoryReady, HealthOf(s)) <==> memoryReady && s.status.state == Running)
      && (Ready(memoryReady, HealthOf(s)) && !s.stopping ==> s.child.Some? && s.child.value.alive && !s.status.degraded)
  {
    RunKeepsGood(CREATED, actions);
  }

  /** What `/healthz` shows of a gateway, in every state of a strict run: configured and gating
      readiness, with the state it is in, degraded and with an error exactly when it has failed. */
  lemma HealthMeaning(actions: seq<Action>)
    requires IsRun(CREATED, actions, STRICT)
    ensures
      var s := After(CREATED, actions, STRICT);
      var health := HealthOf(s);
      && health.configured && health.affectsReadiness && health.state == OfRuntime(s.status.state)
      && (health.degraded <==> s.status.state == Failed)
      && (health.error <==> s.status.state == Failed)
  {
    RunKeepsGood(CREATED, actions);
  }

  /** A gateway that failed or was stopped is never ready again, whatever happens. */
  lemma {:induction false} NeverReadyAgain(s: Runtime, actions: seq<Action>, memoryReady: bool)
    requires Good(s) && s.status.state in {Failed, Stopped} && IsRun(s, actions, STRICT)
    ensures !Ready(memoryReady, HealthOf(After(s, actions, STRICT)))
    decreases |actions|
  {
    if actions != [] {
      StepKeepsGood(s, actions[0]);
      NeverReadyAgain(Step(s, actions[0]), actions[1..], memoryReady);
    }
  }
}

/** Connections that reach the private channel before the real handler is wired. */
module GatewayChannel {

  datatype Phase = Holding | Wired | Adopted

  /** The channel listener: connections are held, replayed once, and passed on. While both
      listeners are attached an arriving connection goes to each of them. */
  class PrivateChannel<Socket> {
    var phase: Phase
    var held: seq<Socket>
    var delivered: seq<Socket>
    /** Arrivals while holding, while both listeners are attached, and after adoption. */
    ghost var early: seq<Socket>
    ghost var between: seq<Socket>
    ghost var late: seq<Socket>

    ghost predicate Valid()
      reads this
    {
      match phase
      case Holding => held == early && delivered == [] && between == [] && late == []
      case Wired => held == early + between && delivered == between && late == []
      case Adopted => held == [] && delivered == between + (early + between) + late
    }

    ghost function Arrived(): seq<Socket>
      reads this
    {
      early + between + late
    }

    constructor ()
      ensures Valid() && phase == Holding && Arrived() == [] && delivered == []
    {
      phase, held, delivered, early, between, late := Holding, [], [], [], [], [];
    }

    method OnConnection(socket: Socket)
      requires Valid()
      modifies this
      ensures Valid() && phase == old(phase) && Arrived() == old(Arrived()) + [socket]
      ensures between == old(between) + (if phase == Wired then [socket] else [])
    {
      if phase != Adopted {
        held := held + [socket];
      }
      if phase != Holding {
        delivered := delivered + [socket];
      }
      match phase {
        case Holding => early := early + [socket];
        case Wired => between := between + [socket];
        case Adopted => late := late + [socket];
      }
    }

    /** The server application registers its connection handler. */
    method Wire()
      requires Valid() && phase == Holding
      modifies this
      ensures Valid() && phase == Wired && Arrived() == old(Arrived()) && between == []
    {
      phase := Wired;
    }

    /** Replays the held connections to the handler, once. */
    method AdoptHeldConnections()
      requires Valid() && phase == Wired
      modifies this
      ensures Valid() && phase == Adopted && Arrived() == old(Arrived()) && between == old(between)
      ensures held == [] && delivered == old(delivered) + old(held)
    {
      phase := Adopted;
      delivered := delivered + held;
      held := [];
    }

    /** After adoption the handler has seen every connection once and in order, exactly when
        none arrived while both listeners were attached. */
    lemma DeliveredOnceExactlyWithoutOverlap()
      requires Valid() && phase == Adopted
      ensures delivered == Arrived() <==> between == []
    {
      if between == [] {
        assert between + (early + between) + late == early + between + late;
      } else {
        assert |delivered| == |Arrived()| + |between|;
      }
    }
  }
}
