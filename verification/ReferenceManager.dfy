/** The life of one key of the reference manager, as a state machine over JavaScript's
    microtask queue. Jobs of the manager run in FIFO order; user code (calls, disposals,
    holds) may run between any two jobs, and synchronously while listeners are notified. */
module ReferenceProtocol {
  import opened Options
  import opened Sequences

  /** What a creation promise will do when it settles. */
  datatype Reaction = Wake | Sweep

  /** Queued microtasks: the creator resumes after the factory, a waiter resumes after the
      creation promise, the deferred empty `removeRef`, and the caller receives its ref. */
  datatype Job = Create(promise: nat, ok: bool) | Resume(ok: bool) | EmptyRemove | Deliver(ref: nat)

  /** The runtime around one key. `held` maps each undisposed ref to the instance it holds; the
      counters record instances created, all-disposed events, `getReference` calls, refs made in
      answer to them, and calls that failed with the error of their creation. */
  datatype Loop = Loop(
    queue: seq<Job>,
    pending: map<nat, seq<Reaction>>,
    rejected: set<nat>,
    outstanding: set<nat>,
    firing: Option<nat>,
    held: map<nat, Option<nat>>,
    delivered: set<nat>,
    next: nat,
    created: nat,
    allDisposed: nat,
    calls: nat,
    answered: nat,
    failed: nat)

  /** The entries of the three maps at one key, with the runtime around them. */
  datatype KeyState = KeyState(
    inst: Option<nat>,
    refs: Option<seq<nat>>,
    creating: Option<nat>,
    loop: Loop)

  const EMPTY_LOOP: Loop := Loop([], map[], {}, {}, None, map[], {}, 0, 0, 0, 0, 0, 0)
  const INITIAL: KeyState := KeyState(None, None, None, EMPTY_LOOP)

  datatype Action =
    | Call
    | CallIfHasInstance
    | Hold(ref: nat)
    | Dispose(ref: nat)
    | FactorySettles(promise: nat, ok: bool)
    | RunJob
    | ListenersDone

  /** What is allowed: factories that reject, calls by listeners of the creation event, and calls
      between a rejection and the waking of the last caller who waits for it. */
  datatype Policy = Policy(factoriesMayReject: bool, listenersMayCall: bool, callsWhileRejecting: bool)

  /** `promise.then(reaction)`: kept while the promise is pending, queued at once otherwise; a
      sweep only runs on fulfilment. */
  function Then(l: Loop, p: nat, r: Reaction): Loop {
    if p in l.pending then l.(pending := l.pending[p := l.pending[p] + [r]])
    else if r == Wake then l.(queue := l.queue + [Resume(p !in l.rejected)])
    else if p in l.rejected then l
    else l.(queue := l.queue + [EmptyRemove])
  }

  function ReactionJobs(rs: seq<Reaction>, ok: bool): (jobs: seq<Job>)
  {
    if rs == [] then []
    else (if rs[0] == Wake then [Resume(ok)] else if ok then [EmptyRemove] else []) + ReactionJobs(rs[1..], ok)
  }

  function SettlePromise(l: Loop, p: nat, ok: bool): Loop {
    var rs := if p in l.pending then l.pending[p] else [];
    l.(queue := l.queue + ReactionJobs(rs, ok),
       pending := l.pending - {p},
       rejected := if ok then l.rejected else l.rejected + {p})
  }

  /** `createRef`: a new ref on whatever instance is stored, registered under the key. */
  function CreateRef(s: KeyState): KeyState {
    var r := s.loop.next;
    s.(refs := Some((if s.refs.Some? then s.refs.value else []) + [r]),
       loop := s.loop.(held := s.loop.held[r := s.inst], next := r + 1))
  }

  /** `removeRef`: with a ref, or empty. */
  function RemoveRef(s: KeyState, ref: Option<nat>): KeyState {
    if s.refs.None? then s
    else
      var rest := if ref.Some? then Without(s.refs.value, ref.value) else s.refs.value;
      if |rest| == 0 && s.creating.None? then
        s.(refs := None, inst := None, loop := s.loop.(allDisposed := s.loop.allDisposed + 1))
      else s.(refs := Some(rest))
  }

  /** The end of `getReference`, reached with the instance present or after waiting. */
  function Finish(s: KeyState): KeyState {
    var r := s.loop.next;
    var s1 := CreateRef(s);
    var s2 := if s1.creating.None? then s1
              else s1.(creating := None, loop := Then(s1.loop, s1.creating.value, Sweep));
    s2.(loop := s2.loop.(queue := s2.loop.queue + [Deliver(r)], answered := s2.loop.answered + 1))
  }

  /** A factory call under way, guarded by its promise. */
  function WithCreation(s: KeyState): KeyState {
    var p := s.loop.next;
    s.(creating := Some(p),
       loop := s.loop.(pending := s.loop.pending[p := []],
                       outstanding := s.loop.outstanding + {p},
                       next := p + 1))
  }

  /** The start of `getReference`, up to its first await. */
  function Start(s: KeyState): KeyState {
    if s.inst.Some? then Finish(s)
    else
      var s1 := if s.creating.Some? then s else WithCreation(s);
      s1.(loop := Then(s1.loop, s1.creating.value, Wake))
  }

  function Pop(s: KeyState): KeyState
    requires s.loop.queue != []
  {
    s.(loop := s.loop.(queue := s.loop.queue[1..]))
  }

  function Execute(s: KeyState, job: Job): KeyState {
    match job
    case Create(p, true) =>
      s.(inst := Some(s.loop.next),
         loop := s.loop.(next := s.loop.next + 1, created := s.loop.created + 1, firing := Some(p)))
    case Create(p, false) => s.(loop := SettlePromise(s.loop, p, false))
    case Resume(true) => Finish(s)
    case Resume(false) => s.(creating := None, loop := s.loop.(failed := s.loop.failed + 1))
    case EmptyRemove => RemoveRef(s, None)
    case Deliver(r) => s.(loop := s.loop.(delivered := s.loop.delivered + {r}))
  }

  predicate Enabled(s: KeyState, a: Action, policy: Policy) {
    match a
    case Call =>
      && (s.loop.firing.None? || policy.listenersMayCall)
      && (Resume(false) !in s.loop.queue || policy.callsWhileRejecting)
    case CallIfHasInstance => true
    case Hold(r) => r in s.loop.held && r in s.loop.delivered
    case Dispose(r) => r in s.loop.held && r in s.loop.delivered
    case FactorySettles(p, ok) => p in s.loop.outstanding && (ok || policy.factoriesMayReject)
    case RunJob => s.loop.firing.None? && s.loop.queue != []
    case ListenersDone => s.loop.firing.Some?
  }

  const STRICT: Policy := Policy(true, false, false)
  const LENIENT: Policy := Policy(true, true, true)

  function Handed(s: KeyState): KeyState {
    var s1 := CreateRef(s);
    s1.(loop := s1.loop.(delivered := s1.loop.delivered + {s.loop.next}))
  }

  /** A ref given up by its owner. */
  function Released(s: KeyState, r: nat): KeyState {
    s.(loop := s.loop.(held := s.loop.held - {r}, delivered := s.loop.delivered - {r}))
  }

  function Step(s: KeyState, a: Action): KeyState
    requires Enabled(s, a, LENIENT)
  {
    match a
    case Call => Start(s.(loop := s.loop.(calls := s.loop.calls + 1)))
    case CallIfHasInstance => if s.inst.Some? then Handed(s) else s
    case Hold(_) => Handed(s)
    case Dispose(r) =>
      RemoveRef(Released(s, r), Some(r))
    case FactorySettles(p, ok) =>
      s.(loop := s.loop.(outstanding := s.loop.outstanding - {p}, queue := s.loop.queue + [Create(p, ok)]))
    case RunJob => Execute(Pop(s), s.loop.queue[0])
    case ListenersDone => s.(loop := SettlePromise(s.loop, s.loop.firing.value, true).(firing := None))
  }

  /** A run: each action enabled in the state the earlier ones lead to. */
  ghost predicate IsRun(s: KeyState, actions: seq<Action>, policy: Policy)
    decreases |actions|
  {
    actions == [] || (Enabled(s, actions[0], policy) && IsRun(Step(s, actions[0]), actions[1..], policy))
  }

  ghost function After(s: KeyState, actions: seq<Action>, policy: Policy): KeyState
    requires IsRun(s, actions, policy)
    decreases |actions|
  {
    if actions == [] then s else After(Step(s, actions[0]), actions[1..], policy)
  }

  /** A ref that was handed out and that nobody has any more. */
  ghost predicate GivenUp(s: KeyState, r: nat) {
    r < s.loop.next && r !in s.loop.held
  }

  /** Disposing takes one ref away, and leaves every other one what it was. */
  lemma DisposeGivesUp(s: KeyState, r: nat)
    requires Enabled(s, Dispose(r), LENIENT)
    ensures
      var t := Step(s, Dispose(r));
      && r in s.loop.held && r !in t.loop.held && t.loop.next == s.loop.next
      && forall q :: q != r ==>
           && (q in t.loop.held <==> q in s.loop.held) && (q in t.loop.delivered <==> q in s.loop.delivered)
           && (q in s.loop.held ==> t.loop.held[q] == s.loop.held[q])
  {
  }

  /** A disposed ref stays disposed: whatever happens, it can be neither held nor disposed again. */
  lemma {:induction false} GivenUpForGood(s: KeyState, actions: seq<Action>, policy: Policy, r: nat)
    requires GivenUp(s, r) && IsRun(s, actions, policy)
    ensures
      var t := After(s, actions, policy);
      GivenUp(t, r) && !Enabled(t, Hold(r), LENIENT) && !Enabled(t, Dispose(r), LENIENT)
    decreases |actions|
  {
    if actions != [] {
      GivenUpForGood(Step(s, actions[0]), actions[1..], policy, r);
    }
  }

  /** Nothing is being created and nobody waits for a creation. */
  predicate Quiescent(s: KeyState) {
    && s.loop.pending == map[] && s.loop.outstanding == {} && s.loop.firing.None?
    && forall i :: 0 <= i < |s.loop.queue| ==> !s.loop.queue[i].Create? && !s.loop.queue[i].Resume?
  }

  ghost predicate NextJob(s: KeyState, job: Job) {
    s.loop.firing.None? && s.loop.queue != [] && s.loop.queue[0] == job
  }

  function CountResumes(q: seq<Job>): nat {
    if q == [] then 0 else (if q[0].Resume? then 1 else 0) + CountResumes(q[1..])
  }

  /** Callers still waiting: on the creation promise, or about to resume. */
  function Waiters(s: KeyState): nat {
    CountResumes(s.loop.queue)
    + (if s.creating.Some? && s.creating.value in s.loop.pending then |s.loop.pending[s.creating.value]| else 0)
  }

  /** What the manager promises in every state. */
  ghost predicate Safe(s: KeyState) {
    // every undisposed ref holds the instance stored for the key
    && (forall r :: r in s.loop.held ==> s.inst.Some? && s.loop.held[r] == s.inst)
    // at most one creation at a time
    && |s.loop.outstanding| <= 1 && |s.loop.pending| <= 1
    // no waiter resumes to a missing instance
    && (NextJob(s, Resume(true)) ==> s.inst.Some?)
    // the deferred empty removal never drops anything
    && (NextJob(s, EmptyRemove) ==> RemoveRef(s, None) == s)
    // an instance is stored exactly when creations exceed all-disposed events by one
    && s.loop.created == s.loop.allDisposed + (if s.inst.Some? then 1 else 0)
    // at rest, an instance is stored exactly when an undisposed ref exists
    && (Quiescent(s) ==> (s.inst.Some? <==> s.loop.held != map[]))
    // every call has been answered by a ref of its own, has failed, or is still waiting
    && s.loop.calls == s.loop.answered + s.loop.failed + Waiters(s)
  }

  // ----- the inductive invariant -----

  predicate AllWake(rs: seq<Reaction>) {
    forall i :: 0 <= i < |rs| ==> rs[i] == Wake
  }

  ghost predicate RefsAgree(s: KeyState) {
    && (forall r :: r in s.loop.held ==> s.inst.Some? && s.loop.held[r] == s.inst && r < s.loop.next)
    && s.loop.delivered <= s.loop.held.Keys
    && match s.refs
       case None => s.loop.held == map[]
       case Some(rs) => Distinct(rs) && (forall r :: r in rs <==> r in s.loop.held)
  }

  /** Refs on their way to a caller: undisposed, not handed over yet, each queued once. */
  ghost predicate DeliveriesAgree(s: KeyState) {
    && (forall i :: 0 <= i < |s.loop.queue| && s.loop.queue[i].Deliver? ==>
          s.loop.queue[i].ref in s.loop.held && s.loop.queue[i].ref !in s.loop.delivered)
    && (forall i, j :: 0 <= i < j < |s.loop.queue| && s.loop.queue[i].Deliver? && s.loop.queue[j].Deliver? ==>
          s.loop.queue[i].ref != s.loop.queue[j].ref)
  }

  predicate Waiting(s: KeyState) {
    && s.creating.Some?
    && s.loop.pending.Keys == {s.creating.value}
    && AllWake(s.loop.pending[s.creating.value])
    && s.loop.pending[s.creating.value] != []
  }

  predicate Idle(s: KeyState) {
    && s.inst.None? && s.refs.None? && s.creating.None? && s.loop.firing.None?
    && s.loop.pending == map[] && s.loop.outstanding == {} && s.loop.queue == []
  }

  predicate Creating(s: KeyState) {
    && s.inst.None? && s.refs.None? && s.loop.firing.None? && Waiting(s)
    && ((s.loop.outstanding == {s.creating.value} && s.loop.queue == [])
        || (s.loop.outstanding == {} && |s.loop.queue| == 1
            && s.loop.queue[0].Create? && s.loop.queue[0].promise == s.creating.value))
  }

  predicate Firing(s: KeyState) {
    s.inst.Some? && Waiting(s) && s.loop.firing == s.creating && s.loop.outstanding == {} && s.loop.queue == []
  }

  /** The promise has fulfilled; no waiter has run yet. */
  predicate Woken(s: KeyState) {
    && s.inst.Some? && s.creating.Some? && s.loop.firing.None?
    && s.loop.pending == map[] && s.loop.outstanding == {} && s.loop.queue != []
    && forall i :: 0 <= i < |s.loop.queue| ==> s.loop.queue[i] == Resume(true)
  }

  /** The promise has rejected; some waiter has not run yet. */
  predicate Failing(s: KeyState) {
    && s.inst.None? && s.refs.None? && s.loop.firing.None?
    && s.loop.pending == map[] && s.loop.outstanding == {} && s.loop.queue != []
    && forall i :: 0 <= i < |s.loop.queue| ==> s.loop.queue[i] == Resume(false)
  }

  /** The guard is lifted. Whatever is still queued is followed by a delivery, and the ref
      being delivered keeps the instance alive. */
  ghost predicate Live(s: KeyState) {
    && s.inst.Some? && s.creating.None? && s.loop.firing.None? && s.loop.held != map[]
    && s.loop.pending == map[] && s.loop.outstanding == {}
    && (s.loop.queue != [] ==> s.loop.queue[|s.loop.queue| - 1].Deliver?)
    && forall i :: 0 <= i < |s.loop.queue| ==> !s.loop.queue[i].Create? && s.loop.queue[i] != Resume(false)
  }

  /** Promises are older than the next one, and only a failing creation has rejected. */
  ghost predicate PromisesAgree(s: KeyState) {
    && (forall p :: p in s.loop.rejected ==> p < s.loop.next)
    && (s.creating.Some? ==> s.creating.value < s.loop.next)
    && (s.creating.Some? && !Failing(s) ==> s.creating.value !in s.loop.rejected)
  }

  predicate CountsAgree(s: KeyState) {
    && s.loop.created == s.loop.allDisposed + (if s.inst.Some? then 1 else 0)
    && s.loop.calls == s.loop.answered + s.loop.failed + Waiters(s)
  }

  ghost predicate Good(s: KeyState) {
    && RefsAgree(s) && DeliveriesAgree(s)
    && PromisesAgree(s) && CountsAgree(s)
    && (Idle(s) || Creating(s) || Firing(s) || Woken(s) || Failing(s) || Live(s))
  }

  lemma GoodIsSafe(s: KeyState)
    requires Good(s)
    ensures Safe(s)
  {
    if s.loop.pending != map[] {
      assert |s.loop.pending| == |s.loop.pending.Keys|;
    }
    if Live(s) && s.loop.queue != [] {
      var last := s.loop.queue[|s.loop.queue| - 1];
      assert last.ref in s.loop.held;
    }
  }

  lemma {:induction false} WakeJobs(rs: seq<Reaction>, ok: bool)
    requires AllWake(rs)
    ensures |ReactionJobs(rs, ok)| == |rs|
    ensures forall i :: 0 <= i < |rs| ==> ReactionJobs(rs, ok)[i] == Resume(ok)
    ensures CountResumes(ReactionJobs(rs, ok)) == |rs|
  {
    if rs != [] {
      WakeJobs(rs[1..], ok);
      assert ReactionJobs(rs, ok)[1..] == ReactionJobs(rs[1..], ok);
    }
  }

  lemma {:induction false} CountAppend(q: seq<Job>, job: Job)
    ensures CountResumes(q + [job]) == CountResumes(q) + (if job.Resume? then 1 else 0)
  {
    if q != [] {
      CountAppend(q[1..], job);
      assert (q + [job])[1..] == q[1..] + [job];
    }
  }

  lemma CreateRefKeeps(s: KeyState)
    requires RefsAgree(s) && s.inst.Some?
    ensures RefsAgree(CreateRef(s))
    ensures CreateRef(s).loop.held.Keys == s.loop.held.Keys + {s.loop.next}
  {
  }

  /** What `Finish` queues: the sweep if the guard is lifted now, then the delivery. */
  function FinishJobs(s: KeyState): seq<Job> {
    (if s.creating.Some? then [EmptyRemove] else []) + [Deliver(s.loop.next)]
  }

  lemma FinishShape(s: KeyState)
    requires s.loop.pending == map[] && (s.creating.Some? ==> s.creating.value !in s.loop.rejected)
    ensures
      Finish(s) == CreateRef(s).(creating := None,
                                 loop := CreateRef(s).loop.(queue := s.loop.queue + FinishJobs(s),
                                                            answered := s.loop.answered + 1))
  {
    assert s.loop.queue + [EmptyRemove] + [Deliver(s.loop.next)] == s.loop.queue + ([EmptyRemove] + [Deliver(s.loop.next)]);
  }

  lemma FinishCounts(s: KeyState)
    ensures CountResumes(s.loop.queue + FinishJobs(s)) == CountResumes(s.loop.queue)
  {
    CountAppend(s.loop.queue, EmptyRemove);
    CountAppend(s.loop.queue, Deliver(s.loop.next));
    CountAppend(s.loop.queue + [EmptyRemove], Deliver(s.loop.next));
    assert s.loop.queue + [EmptyRemove] + [Deliver(s.loop.next)] == s.loop.queue + ([EmptyRemove] + [Deliver(s.loop.next)]);
    assert [] + [Deliver(s.loop.next)] == [Deliver(s.loop.next)];
  }

  lemma FinishDeliveries(s: KeyState)
    requires RefsAgree(s) && DeliveriesAgree(s) && s.inst.Some?
    ensures DeliveriesAgree(CreateRef(s).(loop := CreateRef(s).loop.(queue := s.loop.queue + FinishJobs(s))))
  {
    var q := s.loop.queue + FinishJobs(s);
    forall i | 0 <= i < |q| && q[i].Deliver?
      ensures (i < |s.loop.queue| && q[i] == s.loop.queue[i]) || (i == |q| - 1 && q[i].ref == s.loop.next)
    {
    }
  }

  lemma FinishJobsOnly(s: KeyState)
    requires forall i :: 0 <= i < |s.loop.queue| ==> !s.loop.queue[i].Create? && s.loop.queue[i] != Resume(false)
    ensures
      var q := s.loop.queue + FinishJobs(s);
      && q[|q| - 1].Deliver? && forall i :: 0 <= i < |q| ==> !q[i].Create? && q[i] != Resume(false)
  {
  }

  lemma FinishAgrees(s: KeyState)
    requires RefsAgree(s) && DeliveriesAgree(s) && s.inst.Some?
    requires s.loop.pending == map[] && (s.creating.Some? ==> s.creating.value !in s.loop.rejected)
    ensures RefsAgree(Finish(s)) && DeliveriesAgree(Finish(s)) && Finish(s).loop.held != map[]
  {
    FinishShape(s);
    CreateRefKeeps(s);
    FinishDeliveries(s);
    assert s.loop.next in CreateRef(s).loop.held;
  }

  lemma FinishCountsAgree(s: KeyState)
    requires s.inst.Some? && s.loop.pending == map[] && (s.creating.Some? ==> s.creating.value !in s.loop.rejected)
    requires s.loop.created == s.loop.allDisposed + 1
    requires s.loop.calls == s.loop.answered + s.loop.failed + 1 + CountResumes(s.loop.queue)
    ensures CountsAgree(Finish(s))
  {
    FinishShape(s);
    FinishCounts(s);
  }

  lemma FinishIsLive(s: KeyState)
    requires s.inst.Some? && s.loop.firing.None? && s.loop.pending == map[] && s.loop.outstanding == {}
    requires s.creating.Some? ==> s.creating.value !in s.loop.rejected
    requires forall p :: p in s.loop.rejected ==> p < s.loop.next
    requires forall i :: 0 <= i < |s.loop.queue| ==> !s.loop.queue[i].Create? && s.loop.queue[i] != Resume(false)
    requires Finish(s).loop.held != map[]
    ensures Live(Finish(s)) && PromisesAgree(Finish(s))
  {
    FinishShape(s);
    FinishJobsOnly(s);
  }

  lemma FinishKeeps(s: KeyState)
    requires RefsAgree(s) && DeliveriesAgree(s)
    requires s.creating.Some? ==> s.creating.value !in s.loop.rejected
    requires forall p :: p in s.loop.rejected ==> p < s.loop.next
    requires s.loop.created == s.loop.allDisposed + 1
    requires s.loop.calls == s.loop.answered + s.loop.failed + 1 + CountResumes(s.loop.queue)
    requires s.inst.Some? && s.loop.firing.None? && s.loop.pending == map[] && s.loop.outstanding == {}
    requires forall i :: 0 <= i < |s.loop.queue| ==> !s.loop.queue[i].Create? && s.loop.queue[i] != Resume(false)
    ensures Good(Finish(s))
  {
    FinishAgrees(s);
    FinishCountsAgree(s);
    FinishIsLive(s);
  }

  /** Disposing the only ref of a live key leaves nothing queued behind it. */
  lemma LastRefHasEmptyQueue(s: KeyState, r: nat)
    requires DeliveriesAgree(s) && Live(s) && r in s.loop.delivered
    requires forall x :: x in s.loop.held ==> x == r
    ensures s.loop.queue == []
  {
    if s.loop.queue != [] {
      assert false;
    }
  }

  lemma DisposeRefs(s: KeyState, r: nat)
    requires RefsAgree(s) && DeliveriesAgree(s) && r in s.loop.delivered
    ensures s.refs.Some?
    ensures RefsAgree(Released(s, r).(refs := Some(Without(s.refs.value, r))))
    ensures DeliveriesAgree(Released(s, r))
    ensures Without(s.refs.value, r) == [] <==> Released(s, r).loop.held == map[]
    ensures Without(s.refs.value, r) == [] ==> forall x :: x in s.loop.held ==> x == r
  {
    WithoutOne(s.refs.value, r);
    var rest := Without(s.refs.value, r);
    if rest != [] {
      assert rest[0] in Released(s, r).loop.held;
    }
  }

  lemma DisposeKeeps(s: KeyState, r: nat)
    requires Good(s) && Enabled(s, Dispose(r), STRICT)
    ensures Good(Step(s, Dispose(r)))
  {
    DisposeRefs(s, r);
    var t := Step(s, Dispose(r));
    if Without(s.refs.value, r) == [] && s.creating.None? {
      LastRefHasEmptyQueue(s, r);
      assert Idle(t);
    } else {
      assert RefsAgree(t) && DeliveriesAgree(t);
    }
  }

  lemma RejectionKeeps(s: KeyState, p: nat)
    requires Good(s) && NextJob(s, Create(p, false))
    ensures Good(Step(s, RunJob))
  {
    var rs, t := s.loop.pending[p], Step(s, RunJob);
    WakeJobs(rs, false);
    assert s.loop.queue[1..] == [];
    assert CountResumes(s.loop.queue) == 0;
    assert t.loop.queue == ReactionJobs(rs, false);
    assert Failing(t);
  }

  lemma CreationKeeps(s: KeyState, p: nat)
    requires Good(s) && NextJob(s, Create(p, true))
    ensures Good(Step(s, RunJob))
  {
    assert s.loop.queue[1..] == [];
    assert Firing(Step(s, RunJob));
  }

  lemma FailureKeeps(s: KeyState)
    requires Good(s) && NextJob(s, Resume(false))
    ensures Good(Step(s, RunJob))
  {
    assert Failing(s);
    var t := Step(s, RunJob);
    assert CountResumes(s.loop.queue) == 1 + CountResumes(t.loop.queue);
    assert Failing(t) || Idle(t);
  }

  lemma SweepKeeps(s: KeyState)
    requires Good(s) && NextJob(s, EmptyRemove)
    ensures Good(Step(s, RunJob))
  {
    assert Live(s) && s.loop.queue[|s.loop.queue| - 1].ref in s.loop.held;
    var t := Step(s, RunJob);
    assert t == Pop(s);
    assert DeliveriesAgree(t) && Live(t);
  }

  lemma DeliveryKeeps(s: KeyState, r: nat)
    requires Good(s) && NextJob(s, Deliver(r))
    ensures Good(Step(s, RunJob))
  {
    var t := Step(s, RunJob);
    assert t.loop.queue == s.loop.queue[1..];
    assert DeliveriesAgree(t) && Live(t);
  }

  lemma RunJobKeeps(s: KeyState)
    requires Good(s) && Enabled(s, RunJob, STRICT)
    ensures Good(Step(s, RunJob))
  {
    match s.loop.queue[0]
    case Create(p, true) => CreationKeeps(s, p);
    case Create(p, false) => RejectionKeeps(s, p);
    case Resume(true) =>
      assert DeliveriesAgree(Pop(s));
      FinishKeeps(Pop(s));
    case Resume(false) => FailureKeeps(s);
    case EmptyRemove => SweepKeeps(s);
    case Deliver(r) => DeliveryKeeps(s, r);
  }

  /** Once the listeners have returned, a stored instance means that no creation is pending. */
  lemma StoredShape(s: KeyState)
    requires Good(s) && s.inst.Some? && s.loop.firing.None?
    ensures s.loop.pending == map[] && s.loop.outstanding == {}
    ensures s.creating.Some? ==> s.creating.value !in s.loop.rejected
    ensures forall i :: 0 <= i < |s.loop.queue| ==> !s.loop.queue[i].Create? && s.loop.queue[i] != Resume(false)
    ensures s.loop.calls == s.loop.answered + s.loop.failed + CountResumes(s.loop.queue)
  {
    assert Woken(s) || Live(s);
  }

  lemma CountingKeepsAgreement(s: KeyState, calls: nat)
    requires RefsAgree(s) && DeliveriesAgree(s)
    ensures RefsAgree(s.(loop := s.loop.(calls := calls))) && DeliveriesAgree(s.(loop := s.loop.(calls := calls)))
  {
  }

  /** A call while an instance is stored. */
  lemma CallFindsInstance(s: KeyState)
    requires Good(s) && s.inst.Some? && s.loop.firing.None?
    ensures Good(Step(s, Call))
  {
    var t := s.(loop := s.loop.(calls := s.loop.calls + 1));
    StoredShape(s);
    CountingKeepsAgreement(s, s.loop.calls + 1);
    assert Step(s, Call) == Finish(t);
    FinishKeeps(t);
  }

  /** A call while a creation is under way. */
  lemma CallJoins(s: KeyState)
    requires Good(s) && Creating(s)
    ensures Good(Step(s, Call))
  {
    var p, t := s.creating.value, Step(s, Call);
    assert t.loop.pending == s.loop.pending[p := s.loop.pending[p] + [Wake]];
    assert Creating(t);
  }

  lemma CallKeeps(s: KeyState)
    requires Good(s) && Enabled(s, Call, STRICT)
    ensures Good(Step(s, Call))
  {
    assert s.loop.queue != [] ==> s.loop.queue[0] in s.loop.queue;
    if s.inst.Some? {
      CallFindsInstance(s);
    } else if s.creating.Some? {
      CallJoins(s);
    } else {
      FirstCall(s.(loop := s.loop.(calls := s.loop.calls + 1)));
    }
  }

  lemma HandedKeeps(s: KeyState)
    requires Good(s) && s.inst.Some?
    ensures Good(Handed(s))
  {
    CreateRefKeeps(s);
    assert s.loop.next in Handed(s).loop.held;
  }

  lemma ListenersDoneKeeps(s: KeyState)
    requires Good(s) && s.loop.firing.Some?
    ensures Good(Step(s, ListenersDone))
  {
    assert Firing(s);
    var rs, t := s.loop.pending[s.loop.firing.value], Step(s, ListenersDone);
    WakeJobs(rs, true);
    assert t.loop.queue == ReactionJobs(rs, true);
    assert t.loop.pending == map[];
    assert Woken(t) && RefsAgree(t) && DeliveriesAgree(t);
  }

  lemma FactorySettlesKeeps(s: KeyState, p: nat, ok: bool)
    requires Good(s) && p in s.loop.outstanding
    ensures Good(Step(s, FactorySettles(p, ok)))
  {
    CountAppend(s.loop.queue, Create(p, ok));
  }

  lemma StepKeepsGood(s: KeyState, a: Action)
    requires Good(s) && Enabled(s, a, STRICT)
    ensures Good(Step(s, a))
  {
    match a
    case Call => CallKeeps(s);
    case CallIfHasInstance =>
      if s.inst.Some? {
        HandedKeeps(s);
      }
    case Hold(r) => HandedKeeps(s);
    case Dispose(r) => DisposeKeeps(s, r);
    case FactorySettles(p, ok) => FactorySettlesKeeps(s, p, ok);
    case RunJob => RunJobKeeps(s);
    case ListenersDone => ListenersDoneKeeps(s);
  }

  lemma {:induction false} RunKeepsGood(s: KeyState, actions: seq<Action>)
    requires Good(s) && IsRun(s, actions, STRICT)
    ensures Good(After(s, actions, STRICT))
    decreases |actions|
  {
    if actions != [] {
      StepKeepsGood(s, actions[0]);
      RunKeepsGood(Step(s, actions[0]), actions[1..]);
    }
  }

  /** States that some run from the empty manager ends in. */
  ghost predicate Reachable(s: KeyState, policy: Policy) {
    exists actions :: IsRun(INITIAL, actions, policy) && After(INITIAL, actions, policy) == s
  }

  ghost predicate AllRunsSafe(policy: Policy) {
    forall s :: Reachable(s, policy) ==> Safe(s)
  }

  lemma {:induction false} RunExtends(s: KeyState, actions: seq<Action>, a: Action, policy: Policy)
    requires IsRun(s, actions, policy) && Enabled(After(s, actions, policy), a, policy)
    ensures IsRun(s, actions + [a], policy)
    ensures After(s, actions + [a], policy) == Step(After(s, actions, policy), a)
    decreases |actions|
  {
    if actions == [] {
      assert [] + [a] == [a] && [a][1..] == [];
      assert IsRun(Step(s, a), [], policy);
    } else {
      RunExtends(Step(s, actions[0]), actions[1..], a, policy);
      assert (actions + [a])[1..] == actions[1..] + [a];
    }
  }

  lemma ReachInitial(policy: Policy)
    ensures Reachable(INITIAL, policy)
  {
    assert IsRun(INITIAL, [], policy) && After(INITIAL, [], policy) == INITIAL;
  }

  lemma ReachStep(s: KeyState, a: Action, t: KeyState, policy: Policy)
    requires Reachable(s, policy) && Enabled(s, a, policy) && Step(s, a) == t
    ensures Reachable(t, policy)
  {
    var actions :| IsRun(INITIAL, actions, policy) && After(INITIAL, actions, policy) == s;
    RunExtends(INITIAL, actions, a, policy);
  }

  lemma FirstCall(s: KeyState)
    requires s.inst.None? && s.creating.None? && s.loop.next !in s.loop.pending
    ensures
      var p := s.loop.next;
      Start(s) == s.(creating := Some(p),
                     loop := s.loop.(pending := s.loop.pending[p := [Wake]],
                                     outstanding := s.loop.outstanding + {p},
                                     next := p + 1))
  {
    var p, none: seq<Reaction> := s.loop.next, [];
    assert none + [Wake] == [Wake];
    assert s.loop.pending[p := none][p := none + [Wake]] == s.loop.pending[p := [Wake]];
  }

  // A listener that calls `getReference`: the states of a run that goes wrong.

  const CALLED := KeyState(None, None, Some(0), Loop([], map[0 := [Wake]], {}, {0}, None, map[], {}, 1, 0, 0, 1, 0, 0))
  const SETTLED := CALLED.(loop := CALLED.loop.(outstanding := {}, queue := [Create(0, true)]))
  const NOTIFYING :=
    KeyState(Some(1), None, Some(0), Loop([], map[0 := [Wake]], {}, {}, Some(0), map[], {}, 2, 1, 0, 1, 0, 0))
  const LISTENER_CALLED :=
    KeyState(Some(1), Some([2]), None,
             Loop([Deliver(2)], map[0 := [Wake, Sweep]], {}, {}, Some(0), map[2 := Some(1)], {}, 3, 1, 0, 2, 1, 0))
  const NOTIFIED :=
    KeyState(Some(1), Some([2]), None,
             Loop([Deliver(2), Resume(true), EmptyRemove], map[], {}, {}, None, map[2 := Some(1)], {}, 3, 1, 0, 2, 1, 0))
  const LISTENER_HAS_REF :=
    NOTIFIED.(loop := NOTIFIED.loop.(queue := [Resume(true), EmptyRemove], delivered := {2}))
  const DROPPED :=
    KeyState(None, None, None, Loop([Resume(true), EmptyRemove], map[], {}, {}, None, map[], {}, 3, 1, 1, 2, 1, 0))

  lemma ReachCalled(policy: Policy)
    ensures Reachable(CALLED, policy)
  {
    FirstCall(INITIAL.(loop := INITIAL.loop.(calls := 1)));
    ReachInitial(policy);
    ReachStep(INITIAL, Call, CALLED, policy);
  }

  lemma ReachNotifying(policy: Policy)
    ensures Reachable(NOTIFYING, policy)
  {
    ReachCalled(policy);
    ReachStep(CALLED, FactorySettles(0, true), SETTLED, policy);
    ReachStep(SETTLED, RunJob, NOTIFYING, policy);
  }

  lemma ListenerCalls()
    ensures Step(NOTIFYING, Call) == LISTENER_CALLED
  {
    var l := NOTIFYING.loop;
    assert [Wake] + [Sweep] == [Wake, Sweep];
    assert l.pending[0 := [Wake] + [Sweep]] == map[0 := [Wake, Sweep]];
    assert l.held[2 := Some(1)] == LISTENER_CALLED.loop.held;
    var none: seq<nat> := [];
    assert none + [2] == [2];
    assert l.queue + [Deliver(2)] == [Deliver(2)];
  }

  lemma ReachNotified(policy: Policy)
    requires policy.listenersMayCall
    ensures Reachable(NOTIFIED, policy)
  {
    ReachNotifying(policy);
    ListenerCalls();
    ReachStep(NOTIFYING, Call, LISTENER_CALLED, policy);
    assert ReactionJobs([Wake, Sweep], true) == [Resume(true), EmptyRemove] by {
      assert [Wake, Sweep][1..] == [Sweep];
    }
    assert LISTENER_CALLED.loop.pending - {0} == map[];
    ReachStep(LISTENER_CALLED, ListenersDone, NOTIFIED, policy);
  }

  /** The listener's ref lifts the guard before the first caller wakes up; disposing it drops
      the instance under that caller. */
  lemma ListenerCallBreaksSafety(policy: Policy)
    requires policy.listenersMayCall
    ensures exists s :: Reachable(s, policy) && NextJob(s, Resume(true)) && s.inst.None?
  {
    ReachNotified(policy);
    ReachStep(NOTIFIED, RunJob, LISTENER_HAS_REF, policy);
    assert LISTENER_HAS_REF.loop.held - {2} == map[];
    ReachStep(LISTENER_HAS_REF, Dispose(2), DROPPED, policy);
    assert NextJob(DROPPED, Resume(true));
  }

  // A factory that rejects: the states of a run that goes wrong.

  const FAILED := CALLED.(loop := CALLED.loop.(outstanding := {}, queue := [Create(0, false)]))
  const REJECTED :=
    KeyState(None, None, Some(0), Loop([Resume(false)], map[], {0}, {}, None, map[], {}, 1, 0, 0, 1, 0, 0))
  const JOINED_LATE := REJECTED.(loop := REJECTED.loop.(queue := [Resume(false), Resume(false)], calls := 2))
  const CLEARED := REJECTED.(creating := None, loop := REJECTED.loop.(calls := 2, failed := 1))
  const RETRIED :=
    KeyState(None, None, Some(1), Loop([Resume(false)], map[1 := [Wake]], {0}, {1}, None, map[], {}, 2, 0, 0, 3, 0, 1))
  const CLEARED_AGAIN := KeyState(None, None, None, RETRIED.loop.(queue := [], failed := 2))
  const CREATED_TWICE :=
    KeyState(None, None, Some(2), Loop([], map[1 := [Wake], 2 := [Wake]], {0}, {1, 2}, None, map[], {}, 3, 0, 0, 4, 0, 2))

  lemma ReachRejected(policy: Policy)
    requires policy.factoriesMayReject
    ensures Reachable(REJECTED, policy)
  {
    ReachCalled(policy);
    ReachStep(CALLED, FactorySettles(0, false), FAILED, policy);
    assert ReactionJobs([Wake], false) == [Resume(false)];
    assert FAILED.loop.pending - {0} == map[];
    ReachStep(FAILED, RunJob, REJECTED, policy);
  }

  lemma ReachRetried(policy: Policy)
    requires policy.factoriesMayReject && policy.callsWhileRejecting
    ensures Reachable(RETRIED, policy)
  {
    ReachRejected(policy);
    ReachStep(REJECTED, Call, JOINED_LATE, policy);
    ReachStep(JOINED_LATE, RunJob, CLEARED, policy);
    FirstCall(CLEARED.(loop := CLEARED.loop.(calls := 3)));
    ReachStep(CLEARED, Call, RETRIED, policy);
  }

  /** Every waiter of a rejected creation clears the guard: one that joined late clears the
      guard of the next creation, and the factory is called twice at a time. */
  lemma RejectionBreaksSafety(policy: Policy)
    requires policy.factoriesMayReject && policy.callsWhileRejecting
    ensures exists s :: Reachable(s, policy) && |s.loop.outstanding| > 1
  {
    ReachRetried(policy);
    ReachStep(RETRIED, RunJob, CLEARED_AGAIN, policy);
    FirstCall(CLEARED_AGAIN.(loop := CLEARED_AGAIN.loop.(calls := 4)));
    ReachStep(CLEARED_AGAIN, Call, CREATED_TWICE, policy);
    assert |CREATED_TWICE.loop.outstanding| == 2;
  }

  /** Nothing has failed, and nothing queued is about to. */
  predicate Unfailed(s: KeyState) {
    && s.loop.rejected == {} && s.loop.failed == 0
    && forall i :: 0 <= i < |s.loop.queue| ==> UnfailedJob(s.loop.queue[i])
  }

  predicate UnfailedJob(job: Job) {
    job != Resume(false) && !(job.Create? && !job.ok)
  }

  lemma {:induction false} UnfailedJobs(rs: seq<Reaction>)
    ensures forall i :: 0 <= i < |ReactionJobs(rs, true)| ==> UnfailedJob(ReactionJobs(rs, true)[i])
  {
    if rs != [] {
      UnfailedJobs(rs[1..]);
    }
  }

  lemma FinishKeepsUnfailed(s: KeyState)
    requires Unfailed(s)
    ensures Unfailed(Finish(s))
  {
  }

  lemma StartKeepsUnfailed(s: KeyState)
    requires Unfailed(s)
    ensures Unfailed(Start(s))
  {
  }

  lemma FulfilmentKeepsUnfailed(s: KeyState, p: nat)
    requires Unfailed(s)
    ensures Unfailed(s.(loop := SettlePromise(s.loop, p, true)))
  {
    UnfailedJobs(if p in s.loop.pending then s.loop.pending[p] else []);
  }

  lemma RunJobKeepsUnfailed(s: KeyState)
    requires Unfailed(s) && s.loop.queue != []
    ensures Unfailed(Execute(Pop(s), s.loop.queue[0]))
  {
    assert UnfailedJob(s.loop.queue[0]);
    assert Unfailed(Pop(s));
    if s.loop.queue[0] == Resume(true) {
      FinishKeepsUnfailed(Pop(s));
    }
  }

  /** As long as factories succeed, nothing fails. */
  lemma StepKeepsUnfailed(s: KeyState, a: Action)
    requires Unfailed(s) && Enabled(s, a, LENIENT) && (a.FactorySettles? ==> a.ok)
    ensures Unfailed(Step(s, a))
  {
    match a
    case Call => StartKeepsUnfailed(s.(loop := s.loop.(calls := s.loop.calls + 1)));
    case RunJob => RunJobKeepsUnfailed(s);
    case ListenersDone =>
      FulfilmentKeepsUnfailed(s, s.loop.firing.value);
    case _ =>
  }

  /** Without rejections nothing has to be avoided while rejecting. */
  lemma {:induction false} RunIsStrict(s: KeyState, actions: seq<Action>, policy: Policy)
    requires !policy.listenersMayCall && !(policy.factoriesMayReject && policy.callsWhileRejecting)
    requires IsRun(s, actions, policy) && (policy.factoriesMayReject || Unfailed(s))
    ensures IsRun(s, actions, STRICT) && After(s, actions, STRICT) == After(s, actions, policy)
    decreases |actions|
  {
    if actions != [] {
      if !policy.factoriesMayReject {
        StepKeepsUnfailed(s, actions[0]);
      }
      RunIsStrict(Step(s, actions[0]), actions[1..], policy);
    }
  }

  /** Main result: the manager is safe in every run exactly when listeners of the creation event
      take refs only from what is already there, and either factories do not reject or nobody
      calls before the waiters of a rejection have woken. */
  lemma SafeExactlyUnderStrictPolicy(policy: Policy)
    ensures AllRunsSafe(policy)
            <==> !policy.listenersMayCall && !(policy.factoriesMayReject && policy.callsWhileRejecting)
  {
    if policy.listenersMayCall {
      ListenerCallBreaksSafety(policy);
    } else if policy.factoriesMayReject && policy.callsWhileRejecting {
      RejectionBreaksSafety(policy);
    } else {
      forall s | Reachable(s, policy)
        ensures Safe(s)
      {
        var actions :| IsRun(INITIAL, actions, policy) && After(INITIAL, actions, policy) == s;
        RunIsStrict(INITIAL, actions, policy);
        RunKeepsGood(INITIAL, actions);
        GoodIsSafe(s);
      }
    }
  }

  // ----- progress: once factories settle, every call is answered -----

  function JobWork(job: Job): nat {
    if job.Create? || job.Resume? then 3 else 1
  }

  function QueueWork(q: seq<Job>): nat {
    if q == [] then 0 else JobWork(q[0]) + QueueWork(q[1..])
  }

  function Work(s: KeyState): nat {
    QueueWork(s.loop.queue)
    + (if s.creating.Some? && s.creating.value in s.loop.pending then 3 * |s.loop.pending[s.creating.value]| else 0)
    + (if s.loop.firing.Some? then 2 else 0) + 4 * |s.loop.outstanding|
  }

  lemma {:induction false} QueueWorkAppend(q: seq<Job>, r: seq<Job>)
    ensures QueueWork(q + r) == QueueWork(q) + QueueWork(r)
  {
    if q == [] {
      assert q + r == r;
    } else {
      QueueWorkAppend(q[1..], r);
      assert (q + r)[1..] == q[1..] + r;
    }
  }

  lemma {:induction false} ResumesWork(q: seq<Job>)
    requires forall i :: 0 <= i < |q| ==> q[i].Resume?
    ensures QueueWork(q) == 3 * |q|
  {
    if q != [] {
      ResumesWork(q[1..]);
    }
  }

  /** What the event loop does next when left alone; `ok` says which factory calls succeed. */
  function NextAction(s: KeyState, ok: nat -> bool): Option<Action> {
    if s.loop.firing.Some? then Some(ListenersDone)
    else if s.loop.queue != [] then Some(RunJob)
    else if s.creating.Some? && s.creating.value in s.loop.outstanding then
      Some(FactorySettles(s.creating.value, ok(s.creating.value)))
    else None
  }

  lemma FinishJobsWork(s: KeyState)
    ensures QueueWork(FinishJobs(s)) <= 2
  {
    var last := [Deliver(s.loop.next)];
    assert last[1..] == [];
    assert QueueWork(last) == 1;
    if s.creating.Some? {
      assert FinishJobs(s)[1..] == last;
    } else {
      assert FinishJobs(s) == last;
    }
  }

  lemma ResumeProgresses(s: KeyState)
    requires Good(s) && NextJob(s, Resume(true))
    ensures Work(Step(s, RunJob)) < Work(s)
  {
    var t := Pop(s);
    assert s.loop.pending == map[];
    FinishShape(t);
    QueueWorkAppend(t.loop.queue, FinishJobs(t));
    assert QueueWork(s.loop.queue) == 3 + QueueWork(t.loop.queue);
    FinishJobsWork(t);
    assert Work(Finish(t)) == QueueWork(t.loop.queue + FinishJobs(t));
  }

  lemma FailureProgresses(s: KeyState)
    requires Good(s) && NextJob(s, Resume(false))
    ensures Work(Step(s, RunJob)) < Work(s)
  {
    assert Failing(s) && Step(s, RunJob).loop.queue == s.loop.queue[1..];
  }

  lemma SweepProgresses(s: KeyState)
    requires Good(s) && NextJob(s, EmptyRemove)
    ensures Work(Step(s, RunJob)) < Work(s)
    ensures Step(s, RunJob).loop.calls == s.loop.calls
  {
    GoodIsSafe(s);
    assert RemoveRef(Pop(s), None).loop.queue == s.loop.queue[1..];
  }

  lemma ListenersDoneProgresses(s: KeyState)
    requires Good(s) && s.loop.firing.Some?
    ensures Work(Step(s, ListenersDone)) < Work(s)
  {
    var rs := s.loop.pending[s.loop.firing.value];
    WakeJobs(rs, true);
    ResumesWork(ReactionJobs(rs, true));
    assert Step(s, ListenersDone).loop.queue == ReactionJobs(rs, true);
  }

  lemma FactoryProgresses(s: KeyState, p: nat, ok: bool)
    requires Good(s) && p in s.loop.outstanding
    ensures Work(Step(s, FactorySettles(p, ok))) < Work(s)
  {
    assert s.loop.queue + [Create(p, ok)] == [Create(p, ok)];
    assert [Create(p, ok)][1..] == [];
    assert s.loop.outstanding - {p} == {};
  }

  lemma CreateProgresses(s: KeyState, p: nat, ok: bool)
    requires Good(s) && NextJob(s, Create(p, ok))
    ensures Work(Step(s, RunJob)) < Work(s)
  {
    assert s.loop.queue[1..] == [];
    if !ok {
      var rs := s.loop.pending[p];
      WakeJobs(rs, false);
      ResumesWork(ReactionJobs(rs, false));
      assert Step(s, RunJob).loop.queue == ReactionJobs(rs, false);
    }
  }

  lemma Progresses(s: KeyState, ok: nat -> bool)
    requires Good(s) && NextAction(s, ok).Some?
    ensures Enabled(s, NextAction(s, ok).value, STRICT)
    ensures Work(Step(s, NextAction(s, ok).value)) < Work(s)
    ensures Step(s, NextAction(s, ok).value).loop.calls == s.loop.calls
  {
    match NextAction(s, ok).value
    case ListenersDone => ListenersDoneProgresses(s);
    case FactorySettles(p, good) => FactoryProgresses(s, p, good);
    case RunJob =>
      match s.loop.queue[0] {
        case Create(p, good) => CreateProgresses(s, p, good);
        case Resume(true) => ResumeProgresses(s);
        case Resume(false) => FailureProgresses(s);
        case EmptyRemove => SweepProgresses(s);
        case Deliver(_) =>
      }
    case _ =>
  }

  /** From every state of a strict run, letting the loop drain leaves no job and no waiter,
      however factories settle: every call has been answered by a ref of its own or has failed,
      and none has failed unless a factory has. */
  lemma {:induction false} EveryCallIsAnswered(s: KeyState, ok: nat -> bool) returns (actions: seq<Action>)
    requires Good(s)
    ensures IsRun(s, actions, STRICT)
    ensures
      var t := After(s, actions, STRICT);
      && t.loop.queue == [] && Quiescent(t)
      && t.loop.calls == s.loop.calls == t.loop.answered + t.loop.failed
      && (Unfailed(s) && (forall p :: ok(p)) ==> t.loop.failed == 0)
    decreases Work(s)
  {
    if NextAction(s, ok).None? {
      actions := [];
    } else {
      var a := NextAction(s, ok).value;
      Progresses(s, ok);
      StepKeepsGood(s, a);
      if Unfailed(s) && forall p :: ok(p) {
        StepKeepsUnfailed(s, a);
      }
      var rest := EveryCallIsAnswered(Step(s, a), ok);
      actions := [a] + rest;
      assert actions[1..] == rest;
    }
  }
}

/** The manager itself: three maps over keys, updated step by step. Each method does to its own
    key exactly what the protocol says, and nothing to any other key. */
module ReferenceManagers {
  import opened Options
  import opened ReferenceProtocol
  import opened Sequences

  class ReferenceManager<K(==, !new)> {
    var instances: map<K, nat>
    var refs: map<K, seq<nat>>
    var creating: map<K, nat>
    var loops: map<K, Loop>

    constructor ()
      ensures forall k :: At(k) == INITIAL
    {
      instances, refs, creating, loops := map[], map[], map[], map[];
    }

    function LoopAt(k: K): Loop
      reads this
    {
      if k in loops then loops[k] else EMPTY_LOOP
    }

    function At(k: K): KeyState
      reads this
    {
      KeyState(Lookup(instances, k), Lookup(refs, k), Lookup(creating, k), LoopAt(k))
    }

    twostate predicate OthersKept(k: K)
      reads this
    {
      forall j :: j != k ==> At(j) == old(At(j))
    }

    /** The part of `getReference` that runs before its first await. */
    method GetReference(key: K)
      modifies this
      ensures At(key) == Step(old(At(key)), Call)
      ensures OthersKept(key)
    {
      var l := LoopAt(key);
      loops := loops[key := l.(calls := l.calls + 1)];
      assert OthersKept(key);
      if key !in instances {
        AwaitCreation(key);
      } else {
        FinishReference(key);
      }
    }

    /** Waits for the creation under way, starting one if there is none. */
    method AwaitCreation(key: K)
      requires key !in instances
      modifies this
      ensures At(key) == Start(old(At(key)))
      ensures OthersKept(key)
    {
      if key !in creating {
        StartCreation(key);
      }
      assert OthersKept(key);
      loops := loops[key := Then(LoopAt(key), creating[key], Wake)];
    }

    /** Calls the factory and remembers the promise of the creation. */
    method StartCreation(key: K)
      requires key !in creating
      modifies this
      ensures key in creating && creating[key] == old(At(key)).loop.next
      ensures At(key) == WithCreation(old(At(key)))
      ensures OthersKept(key)
    {
      var l := LoopAt(key);
      var p := l.next;
      loops := loops[key := l.(pending := l.pending[p := []], outstanding := l.outstanding + {p}, next := p + 1)];
      creating := creating[key := p];
    }

    /** The rest of `getReference`: create the ref, lift the guard, sweep later. */
    method FinishReference(key: K)
      modifies this
      ensures At(key) == Finish(old(At(key)))
      ensures OthersKept(key)
    {
      var ref := CreateRef(key);
      if key in creating {
        var creatingPromise := creating[key];
        creating := creating - {key};
        loops := loops[key := Then(LoopAt(key), creatingPromise, Sweep)];
      }
      var l := LoopAt(key);
      loops := loops[key := l.(queue := l.queue + [Deliver(ref)], answered := l.answered + 1)];
    }

    method GetReferenceIfHasInstance(key: K) returns (ref: Option<nat>)
      modifies this
      ensures At(key) == Step(old(At(key)), CallIfHasInstance)
      ensures ref.Some? <==> old(At(key)).inst.Some?
      ensures ref.Some? ==>
                ref.value in At(key).loop.held && At(key).loop.held[ref.value] == old(At(key)).inst
      ensures OthersKept(key)
    {
      if key in instances {
        var r := CreateRef(key);
        var l := LoopAt(key);
        loops := loops[key := l.(delivered := l.delivered + {r})];
        return Some(r);
      }
      return None;
    }

    /** Whether no owner has this ref, or none has it any more. */
    predicate IsDisposed(key: K, ref: nat)
      reads this
    {
      ref !in LoopAt(key).held || ref !in LoopAt(key).delivered
    }

    /** `Ref.hold`: a further ref on the key of an undisposed one; a disposed one gives none. */
    method HoldRef(key: K, held: nat) returns (ref: Option<nat>)
      modifies this
      ensures ref.Some? <==> held in old(LoopAt(key)).held && held in old(LoopAt(key)).delivered
      ensures At(key) == if ref.Some? then Step(old(At(key)), Hold(held)) else old(At(key))
      ensures ref.Some? ==> ref.value in At(key).loop.held && At(key).loop.held[ref.value] == old(At(key)).inst
      ensures OthersKept(key)
    {
      if IsDisposed(key, held) {
        return None;
      }
      var r := CreateRef(key);
      var l := LoopAt(key);
      loops := loops[key := l.(delivered := l.delivered + {r})];
      return Some(r);
    }

    /** Disposing a disposed ref does nothing. */
    method DisposeRef(key: K, ref: nat)
      modifies this
      ensures At(key)
              == if Enabled(old(At(key)), Dispose(ref), STRICT) then Step(old(At(key)), Dispose(ref)) else old(At(key))
      ensures OthersKept(key)
    {
      if IsDisposed(key, ref) {
        return;
      }
      var l := LoopAt(key);
      loops := loops[key := l.(held := l.held - {ref}, delivered := l.delivered - {ref})];
      RemoveRef(key, Some(ref));
    }

    method CreateRef(key: K) returns (ref: nat)
      modifies this
      ensures At(key) == ReferenceProtocol.CreateRef(old(At(key)))
      ensures ref == old(At(key)).loop.next
      ensures OthersKept(key)
    {
      var l := LoopAt(key);
      ref := l.next;
      loops := loops[key := l.(held := l.held[ref := Lookup(instances, key)], next := ref + 1)];
      AddRef(key, ref);
    }

    method AddRef(key: K, ref: nat)
      modifies this`refs
      ensures refs == old(refs)[key := (if key in old(refs) then old(refs)[key] else []) + [ref]]
    {
      if key !in refs {
        refs := refs[key := []];
      }
      refs := refs[key := refs[key] + [ref]];
    }

    method RemoveRef(key: K, ref: Option<nat>)
      modifies this
      ensures At(key) == ReferenceProtocol.RemoveRef(old(At(key)), ref)
      ensures OthersKept(key)
    {
      if key in refs {
        if ref.Some? {
          refs := refs[key := Without(refs[key], ref.value)];
        }
        if |refs[key]| == 0 {
          if key in creating {
            return;
          }
          refs := refs - {key};
          instances := instances - {key};
          var l := LoopAt(key);
          loops := loops[key := l.(allDisposed := l.allDisposed + 1)];
        }
      }
    }

    method SettleFactory(key: K, promise: nat, ok: bool)
      requires Enabled(At(key), FactorySettles(promise, ok), LENIENT)
      modifies this
      ensures At(key) == Step(old(At(key)), FactorySettles(promise, ok))
      ensures OthersKept(key)
    {
      var l := LoopAt(key);
      loops := loops[key := l.(outstanding := l.outstanding - {promise}, queue := l.queue + [Create(promise, ok)])];
    }

    /** Runs the oldest job of a key. */
    method RunNextJob(key: K)
      requires Enabled(At(key), RunJob, STRICT)
      modifies this
      ensures At(key) == Step(old(At(key)), RunJob)
      ensures OthersKept(key)
    {
      var l := LoopAt(key);
      var job := l.queue[0];
      l := l.(queue := l.queue[1..]);
      loops := loops[key := l];
      match job {
        case Create(p, true) =>
          instances := instances[key := l.next];
          loops := loops[key := l.(next := l.next + 1, created := l.created + 1, firing := Some(p))];
        case Create(p, false) =>
          loops := loops[key := SettlePromise(l, p, false)];
        case Resume(true) =>
          FinishReference(key);
        case Resume(false) =>
          creating := creating - {key};
          loops := loops[key := l.(failed := l.failed + 1)];
        case EmptyRemove =>
          RemoveRef(key, None);
        case Deliver(r) =>
          loops := loops[key := l.(delivered := l.delivered + {r})];
      }
    }

    /** Listeners of the creation event have returned, so the creation promise fulfils. */
    method FinishListeners(key: K)
      requires Enabled(At(key), ListenersDone, STRICT)
      modifies this
      ensures At(key) == Step(old(At(key)), ListenersDone)
      ensures OthersKept(key)
    {
      var l := LoopAt(key);
      loops := loops[key := SettlePromise(l, l.firing.value, true).(firing := None)];
    }
  }
}
