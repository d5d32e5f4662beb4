/** Running a list of lazy promises with a bound on how many are in flight. */
module ParallelRun {
  import opened Options

  /** How the returned promise stands. */
  datatype Outcome<R, E> = Pending | Resolved(results: seq<R>) | Rejected(error: E)

  /** A promise of the list settles. */
  datatype Event<R, E> = Fulfilled(task: nat, result: R) | Failed(task: nat, error: E)

  /** The counters of the scheduler, with what they count: the tasks running, those that failed,
      and the results so far. `size` is the length of the list, `limit` the bound asked for. */
  datatype State<R, E> = State(
    size: nat, limit: int, index: nat, working: nat, complete: nat,
    results: map<nat, R>, running: set<nat>, failed: set<nat>, outcome: Outcome<R, E>)

  ghost function Between(lo: nat, hi: nat): (r: set<nat>)
    requires lo <= hi
    ensures forall k :: k in r <==> lo <= k < hi
    ensures |r| == hi - lo
    decreases hi
  {
    if lo == hi then {} else Between(lo, hi - 1) + {hi - 1}
  }

  /** The list position up to which tasks are started when `working` of them occupy a slot. */
  function FilledTo(size: nat, limit: int, index: nat, working: nat): (r: nat)
    requires index <= size
    ensures index <= r <= size
    ensures r == index || working + (r - index) <= limit
    ensures working + (r - index) >= limit || r == size
  {
    if working >= limit then index
    else if index + (limit - working) <= size then index + (limit - working)
    else size
  }

  ghost function Filled<R, E>(s: State<R, E>): State<R, E>
    requires s.index <= s.size
  {
    var to := FilledTo(s.size, s.limit, s.index, s.working);
    s.(index := to, working := s.working + (to - s.index), running := s.running + Between(s.index, to))
  }

  ghost function Unstarted<R, E>(size: nat, limit: int): State<R, E> {
    State(size, limit, 0, 0, 0, map[], {}, {}, Pending)
  }

  ghost function Start<R, E>(size: nat, limit: int): State<R, E> {
    Filled(Unstarted(size, limit))
  }

  ghost predicate AllIn<R>(results: map<nat, R>, size: nat) {
    forall k: nat :: k < size ==> k in results
  }

  /** The results in list order. */
  function InOrder<R>(results: map<nat, R>, size: nat): (r: seq<R>)
    requires AllIn(results, size)
    ensures |r| == size && forall k: nat :: k < size ==> r[k] == results[k]
  {
    if size == 0 then [] else InOrder(results, size - 1) + [results[size - 1]]
  }

  /** A promise settles once. */
  function Settle<R, E>(before: Outcome<R, E>, now: Outcome<R, E>): Outcome<R, E> {
    if before.Pending? then now else before
  }

  /** A task returned its result, before a freed slot is filled. */
  ghost function Returned<R, E>(s: State<R, E>, i: nat, result: R): State<R, E>
    requires s.working > 0
  {
    s.(working := s.working - 1, complete := s.complete + 1,
       results := s.results[i := result], running := s.running - {i})
  }

  /** One promise of the list settles. A failed task keeps its slot. */
  ghost function Step<R, E>(s: State<R, E>, event: Event<R, E>): State<R, E>
    requires Sound(s) && event.task in s.running
  {
    SlotIsTaken(s, event.task);
    match event
    case Fulfilled(i, result) =>
      var t := Returned(s, i, result);
      if t.complete == s.size then
        AllReturned(s, i, result);
        t.(outcome := Settle(s.outcome, Resolved(InOrder(t.results, s.size))))
      else
        Filled(t)
    case Failed(i, error) =>
      s.(running := s.running - {i}, failed := s.failed + {i}, outcome := Settle(s.outcome, Rejected(error)))
  }

  /** `k` is below `n` and in one of three sets, or neither. */
  ghost predicate InOnePart(a: set<nat>, b: set<nat>, c: set<nat>, n: nat, k: nat) {
    && (k in a || k in b || k in c <==> k < n)
    && !(k in a && k in b) && !(k in a && k in c) && !(k in b && k in c)
  }

  ghost function Misplaced(a: set<nat>, b: set<nat>, c: set<nat>, n: nat): iset<nat> {
    iset k: nat | !InOnePart(a, b, c, n, k)
  }

  /** Three disjoint sets make up the numbers below `n`. */
  ghost predicate Parts(a: set<nat>, b: set<nat>, c: set<nat>, n: nat) {
    Misplaced(a, b, c, n) == iset{}
  }

  lemma PartsAt(a: set<nat>, b: set<nat>, c: set<nat>, n: nat, k: nat)
    requires Parts(a, b, c, n)
    ensures InOnePart(a, b, c, n, k)
  {
    assert k !in Misplaced(a, b, c, n);
  }

  /** The started tasks are the first `index` of the list: each running, failed or done. */
  ghost predicate Accounted<R, E>(s: State<R, E>) {
    && s.index <= s.size
    && Parts(s.running, s.failed, s.results.Keys, s.index)
    && s.working == |s.running| + |s.failed|
    && s.complete == |s.results.Keys|
    && s.complete + s.working == s.index
  }

  /** What holds between any two events. */
  ghost predicate Sound<R, E>(s: State<R, E>) {
    && Accounted(s)
    // the limit is kept, and slots are used while tasks are left
    && (s.limit >= 0 ==> s.working <= s.limit)
    && (s.working >= s.limit || s.index == s.size)
    // rejected by a failure, resolved when all is done, with the results in list order
    && (s.outcome.Rejected? <==> s.failed != {})
    && (s.outcome.Resolved? <==> s.size > 0 && s.complete == s.size)
    && (s.outcome.Resolved? ==> AllIn(s.results, s.size) && s.outcome.results == InOrder(s.results, s.size))
  }

  lemma OneTaken<T>(s: set<T>, x: T)
    requires x in s
    ensures |s| > 0 && |s - {x}| == |s| - 1
  {
  }

  lemma OneAdded<T>(s: set<T>, x: T)
    requires x !in s
    ensures |s + {x}| == |s| + 1
  {
  }

  lemma SubsetIsSmaller<T>(a: set<T>, b: set<T>)
    requires a <= b && |a| == |b|
    ensures a == b
  {
    assert |b - a| == |b| - |a| by {
      assert b == a + (b - a);
    }
    assert b - a == {};
  }

  lemma MoreStarted(a: set<nat>, b: set<nat>, c: set<nat>, n: nat, m: nat)
    requires Parts(a, b, c, n) && n <= m
    ensures Parts(a + Between(n, m), b, c, m) && |a + Between(n, m)| == |a| + (m - n)
  {
    forall k: nat
      ensures InOnePart(a, b, c, n, k) && InOnePart(a + Between(n, m), b, c, m, k)
    {
      PartsAt(a, b, c, n, k);
    }
    forall k | k in a
      ensures k !in Between(n, m)
    {
      PartsAt(a, b, c, n, k);
    }
    assert a !! Between(n, m);
  }

  /** A number goes from the first part to the third. */
  lemma MovedToThird(a: set<nat>, b: set<nat>, c: set<nat>, n: nat, i: nat)
    requires Parts(a, b, c, n) && i in a
    ensures Parts(a - {i}, b, c + {i}, n)
    ensures |a| > 0 && |a - {i}| == |a| - 1 && |c + {i}| == |c| + 1
  {
    PartsAt(a, b, c, n, i);
    OneTaken(a, i);
    OneAdded(c, i);
    forall k: nat
      ensures InOnePart(a - {i}, b, c + {i}, n, k)
    {
      PartsAt(a, b, c, n, k);
    }
  }

  /** The order of the parts does not matter. */
  lemma PartsSwapped(a: set<nat>, b: set<nat>, c: set<nat>, n: nat)
    requires Parts(a, b, c, n)
    ensures Parts(a, c, b, n)
  {
    forall k: nat
      ensures InOnePart(a, c, b, n, k)
    {
      PartsAt(a, b, c, n, k);
    }
  }

  lemma ReturnedIsAccounted<R, E>(s: State<R, E>, i: nat, result: R)
    requires Accounted(s) && i in s.running
    ensures s.working > 0 && Accounted(Returned(s, i, result))
  {
    MovedToThird(s.running, s.failed, s.results.Keys, s.index, i);
    assert s.results[i := result].Keys == s.results.Keys + {i};
  }

  /** As many results as tasks are the results of all the tasks. */
  lemma AllReturned<R, E>(s: State<R, E>, i: nat, result: R)
    requires Accounted(s) && i in s.running && s.complete + 1 == s.size
    ensures s.working > 0 && AllIn(Returned(s, i, result).results, s.size)
  {
    ReturnedIsAccounted(s, i, result);
    var t := Returned(s, i, result);
    forall k | k in t.results
      ensures k in Between(0, s.size)
    {
      PartsAt(t.running, t.failed, t.results.Keys, t.index, k);
    }
    SubsetIsSmaller(t.results.Keys, Between(0, t.size));
  }

  lemma FilledIsAccounted<R, E>(s: State<R, E>)
    requires Accounted(s)
    ensures Accounted(Filled(s))
  {
    MoreStarted(s.running, s.failed, s.results.Keys, s.index, Filled(s).index);
  }

  lemma StartIsSound<R, E>(size: nat, limit: int)
    ensures Sound(Start<R, E>(size, limit))
  {
    assert Accounted(Unstarted<R, E>(size, limit));
    FilledIsAccounted(Unstarted<R, E>(size, limit));
  }

  lemma ReturnKeepsSound<R, E>(s: State<R, E>, i: nat, result: R)
    requires Sound(s) && i in s.running
    ensures Sound(Step(s, Fulfilled(i, result)))
    ensures s.index <= Step(s, Fulfilled(i, result)).index <= s.index + 1
  {
    ReturnedIsAccounted(s, i, result);
    var t := Returned(s, i, result);
    if s.complete + 1 == s.size {
      AllReturned(s, i, result);
    } else {
      FilledIsAccounted(t);
    }
  }

  lemma FailureKeepsSound<R, E>(s: State<R, E>, i: nat, error: E)
    requires Sound(s) && i in s.running
    ensures Sound(Step(s, Failed(i, error)))
  {
    PartsSwapped(s.running, s.failed, s.results.Keys, s.index);
    MovedToThird(s.running, s.results.Keys, s.failed, s.index, i);
    PartsSwapped(s.running - {i}, s.results.Keys, s.failed + {i}, s.index);
  }

  /** Every event keeps the laws, and starts at most one more task. */
  lemma StepKeepsSound<R, E>(s: State<R, E>, event: Event<R, E>)
    requires Sound(s) && event.task in s.running
    ensures Sound(Step(s, event))
    ensures Step(s, event).size == s.size && Step(s, event).limit == s.limit
    ensures s.index <= Step(s, event).index <= s.index + 1
  {
    match event {
      case Fulfilled(i, result) => ReturnKeepsSound(s, i, result);
      case Failed(i, error) => FailureKeepsSound(s, i, error);
    }
  }

  ghost function Next<R, E>(s: State<R, E>, event: Event<R, E>): (t: Option<State<R, E>>)
    requires Sound(s)
    ensures t.Some? ==> Sound(t.value) && t.value.size == s.size && t.value.limit == s.limit
  {
    if event.task in s.running then
      StepKeepsSound(s, event);
      Some(Step(s, event))
    else
      None
  }

  /** The settlements of a run, the last one outermost. */
  datatype History<R, E> = Begun | Then(before: History<R, E>, event: Event<R, E>)

  /** Where a history leads, if it can happen: each task that settles is running. */
  ghost function Run<R, E>(size: nat, limit: int, h: History<R, E>): (s: Option<State<R, E>>)
    ensures s.Some? ==> Sound(s.value) && s.value.size == size && s.value.limit == limit
  {
    match h
    case Begun =>
      StartIsSound<R, E>(size, limit);
      Some(Start(size, limit))
    case Then(before, event) =>
      match Run(size, limit, before)
      case None => None
      case Some(s) => Next(s, event)
  }

  ghost function Length<R, E>(h: History<R, E>): nat {
    if h.Begun? then 0 else Length(h.before) + 1
  }

  ghost predicate Happened<R, E>(h: History<R, E>, event: Event<R, E>) {
    h.Then? && (h.event == event || Happened(h.before, event))
  }

  ghost function SettledTasks<R, E>(h: History<R, E>): set<nat> {
    if h.Begun? then {} else SettledTasks(h.before) + {h.event.task}
  }

  /** The error of the first failure. */
  ghost function FirstError<R, E>(h: History<R, E>): Option<E> {
    if h.Begun? then None
    else if FirstError(h.before).Some? then FirstError(h.before)
    else if h.event.Failed? then Some(h.event.error)
    else None
  }

  ghost function ResultsOf<R, E>(h: History<R, E>): map<nat, R> {
    if h.Begun? then map[]
    else if h.event.Failed? then ResultsOf(h.before)
    else ResultsOf(h.before)[h.event.task := h.event.result]
  }

  ghost function FailedOf<R, E>(h: History<R, E>): set<nat> {
    if h.Begun? then {}
    else if h.event.Failed? then FailedOf(h.before) + {h.event.task}
    else FailedOf(h.before)
  }

  /** No task settles twice. */
  ghost predicate DistinctTasks<R, E>(h: History<R, E>) {
    h.Then? ==> DistinctTasks(h.before) && h.event.task !in SettledTasks(h.before)
  }

  lemma {:induction false} SettledOneWay<R, E>(h: History<R, E>, k: nat)
    ensures k in SettledTasks(h) <==> k in ResultsOf(h) || k in FailedOf(h)
  {
    if h.Then? {
      SettledOneWay(h.before, k);
    }
  }

  lemma {:induction false} FailureExactly<R, E>(h: History<R, E>)
    ensures FirstError(h).Some? <==> FailedOf(h) != {}
  {
    if h.Then? {
      FailureExactly(h.before);
      assert h.event.Failed? ==> h.event.task in FailedOf(h);
    }
  }

  lemma {:induction false} HappenedSettled<R, E>(h: History<R, E>, event: Event<R, E>)
    requires Happened(h, event)
    ensures event.task in SettledTasks(h)
  {
    if h.event != event {
      HappenedSettled(h.before, event);
    }
  }

  lemma {:induction false} HappenedIsTheResult<R, E>(h: History<R, E>, event: Event<R, E>)
    requires DistinctTasks(h) && Happened(h, event) && FirstError(h).None?
    ensures event.task in ResultsOf(h) && event == Fulfilled(event.task, ResultsOf(h)[event.task])
  {
    if h.event != event {
      HappenedIsTheResult(h.before, event);
      HappenedSettled(h.before, event);
    }
  }

  lemma TaskWasRunning<R, E>(s: State<R, E>, i: nat)
    requires Sound(s) && i in s.running
    ensures i !in s.results && i !in s.failed
  {
    PartsAt(s.running, s.failed, s.results.Keys, s.index, i);
  }

  lemma StepShows<R, E>(s: State<R, E>, event: Event<R, E>)
    requires Sound(s) && event.task in s.running
    ensures var t := Step(s, event);
      && t.results == (if event.Fulfilled? then s.results[event.task := event.result] else s.results)
      && t.failed == (if event.Failed? then s.failed + {event.task} else s.failed)
      && t.complete + |t.failed| == s.complete + |s.failed| + 1
      && (t.outcome.Rejected? ==> s.outcome == t.outcome || (event.Failed? && event.error == t.outcome.error))
  {
    TaskWasRunning(s, event.task);
    OneAdded(s.failed, event.task);
  }

  lemma {:induction false} RunShowsHistory<R, E>(size: nat, limit: int, h: History<R, E>, s: State<R, E>)
    requires Run(size, limit, h) == Some(s)
    ensures s.results == ResultsOf(h) && s.failed == FailedOf(h)
    ensures s.complete + |s.failed| == Length(h)
    ensures DistinctTasks(h)
  {
    if h.Then? {
      var prior := Run(size, limit, h.before).value;
      RunShowsHistory(size, limit, h.before, prior);
      TaskWasRunning(prior, h.event.task);
      SettledOneWay(h.before, h.event.task);
      StepShows(prior, h.event);
    }
  }

  lemma {:induction false} RejectedByTheFirst<R, E>(size: nat, limit: int, h: History<R, E>, s: State<R, E>)
    requires Run(size, limit, h) == Some(s)
    ensures s.outcome.Rejected? ==> FirstError(h) == Some(s.outcome.error)
  {
    if h.Then? {
      var prior := Run(size, limit, h.before).value;
      RejectedByTheFirst(size, limit, h.before, prior);
      RunShowsHistory(size, limit, h.before, prior);
      FailureExactly(h.before);
      StepShows(prior, h.event);
    }
  }

  /** The event is the fulfilment of a task with the result at its place in the list. */
  ghost predicate IsResult<R, E>(results: seq<R>, event: Event<R, E>) {
    event.task < |results| && event == Fulfilled(event.task, results[event.task])
  }

  /** In every run, with the tasks settling in any order: no task settles twice; the promise
      rejects with the first failure; it resolves exactly when every task was fulfilled, with
      the results in list order; and otherwise it is pending. */
  lemma EveryRunEndsAsPromised<R(!new), E(!new)>(size: nat, limit: int, h: History<R, E>, s: State<R, E>)
    requires Run(size, limit, h) == Some(s)
    ensures DistinctTasks(h) && Length(h) <= size
    ensures s.outcome.Rejected? <==> FirstError(h).Some?
    ensures s.outcome.Rejected? ==> FirstError(h) == Some(s.outcome.error)
    ensures s.outcome.Resolved? <==> FirstError(h).None? && Length(h) == size > 0
    ensures s.outcome.Resolved? ==> |s.outcome.results| == size
    ensures s.outcome.Resolved? ==> forall event :: Happened(h, event) ==> IsResult(s.outcome.results, event)
  {
    RunShowsHistory(size, limit, h, s);
    RejectedByTheFirst(size, limit, h, s);
    FailureExactly(h);
    if s.outcome.Resolved? {
      forall event | Happened(h, event)
        ensures IsResult(s.outcome.results, event)
      {
        HappenedIsTheResult(h, event);
        PartsAt(s.running, s.failed, s.results.Keys, s.index, event.task);
      }
    }
  }

  /** As long as nothing failed, as many tasks run as the bound and the rest of the list allow. */
  lemma SlotsAreUsed<R, E>(size: nat, limit: nat, h: History<R, E>, s: State<R, E>)
    requires Run(size, limit, h) == Some(s) && FirstError(h).None?
    ensures |s.running| == if size - Length(h) < limit then size - Length(h) else limit
    ensures s.index < size ==> |s.running| == limit
  {
    RunShowsHistory(size, limit, h, s);
    FailureExactly(h);
  }

  /** While the promise is pending, a task is running that may settle it. */
  ghost predicate KeepsGoing<R, E>(size: nat, limit: int, h: History<R, E>) {
    match Run(size, limit, h)
    case None => true
    case Some(s) => s.outcome.Pending? ==> s.running != {}
  }

  /** That is so in every run exactly when the list is not empty and at least one task may run. */
  lemma KeepsGoingExactly<R(!new), E(!new)>(size: nat, limit: int)
    ensures (forall h: History<R, E> :: KeepsGoing(size, limit, h)) <==> size >= 1 && limit >= 1
  {
    if size >= 1 && limit >= 1 {
      forall h: History<R, E>
        ensures KeepsGoing(size, limit, h)
      {
        if Run(size, limit, h).Some? {
        }
      }
    } else {
      var s := Start<R, E>(size, limit);
      assert s.running == {} && s.outcome.Pending?;
      assert !KeepsGoing<R, E>(size, limit, Begun);
    }
  }

  ghost predicate StartedInOrder(started: seq<nat>, index: nat) {
    |started| == index && forall k :: 0 <= k < index ==> started[k] == k
  }

  lemma SlotIsTaken<R, E>(s: State<R, E>, task: nat)
    requires Sound(s) && task in s.running
    ensures s.working > 0 && Accounted(s)
  {
    OneTaken(s.running, task);
  }

  lemma Beginning<R, E>(size: nat, limit: int) returns (t: State<R, E>)
    ensures Run(size, limit, Begun) == Some(t)
    ensures t.index == FilledTo(size, limit, 0, 0) && t.working == t.index
    ensures t.complete == 0 && t.results == map[] && t.outcome == Pending
  {
    t := Start(size, limit);
  }

  lemma FulfilledGoesOn<R, E>(size: nat, limit: int, h: History<R, E>, s: State<R, E>, i: nat, result: R)
      returns (t: State<R, E>)
    requires Run(size, limit, h) == Some(s) && i in s.running
    ensures Run(size, limit, Then(h, Fulfilled(i, result))) == Some(t)
    ensures s.size == size && s.limit == limit
    ensures s.working > 0 && s.index <= size && t.complete == s.complete + 1 && t.results == s.results[i := result]
    ensures t.complete == size ==>
      && AllIn(t.results, size) && t.outcome == Settle(s.outcome, Resolved(InOrder(t.results, size)))
      && t.index == s.index && t.working == s.working - 1
    ensures t.complete != size ==>
      && t.index == FilledTo(size, limit, s.index, s.working - 1)
      && t.working == s.working - 1 + (t.index - s.index) && t.outcome == s.outcome
  {
    SlotIsTaken(s, i);
    var u := Returned(s, i, result);
    if s.complete + 1 == size {
      AllReturned(s, i, result);
      t := u.(outcome := Settle(s.outcome, Resolved(InOrder(u.results, size))));
    } else {
      t := Filled(u);
    }
    assert Next(s, Fulfilled(i, result)) == Some(t);
  }

  lemma FailedGoesOn<R, E>(size: nat, limit: int, h: History<R, E>, s: State<R, E>, i: nat, error: E)
      returns (t: State<R, E>)
    requires Run(size, limit, h) == Some(s) && i in s.running
    ensures Run(size, limit, Then(h, Failed(i, error))) == Some(t)
    ensures t.index == s.index && t.working == s.working && t.complete == s.complete && t.results == s.results
    ensures t.outcome == Settle(s.outcome, Rejected(error))
  {
    t := Step(s, Failed(i, error));
  }

  /** The scheduler of one call, its promise callbacks as methods. */
  class Scheduler<R, E> {
    const size: nat
    const limit: int
    var index: nat
    var working: nat
    var complete: nat
    var results: map<nat, R>
    var outcome: Outcome<R, E>
    /** The started tasks in the order of the calls. */
    ghost var started: seq<nat>

    ghost predicate Shows(s: State<R, E>)
      reads this
    {
      && index == s.index && working == s.working && complete == s.complete
      && results == s.results && outcome == s.outcome
    }

    /** The scheduler is in the state `s` that a history leads to, and tasks were started in list order. */
    ghost predicate At(h: History<R, E>, s: State<R, E>)
      reads this
    {
      Run(size, limit, h) == Some(s) && Shows(s) && StartedInOrder(started, index)
    }

    constructor (size: nat, limit: int)
      ensures this.size == size && this.limit == limit && At(Begun, Start(size, limit))
    {
      this.size, this.limit := size, limit;
      index, working, complete, results, outcome := 0, 0, 0, map[], Pending;
      started := [];
      new;
      AddWorking();
      ghost var begun := Beginning<R, E>(size, limit);
    }

    method AddWorking()
      requires index <= size && StartedInOrder(started, index)
      modifies this`index, this`working, this`started
      ensures index == FilledTo(size, limit, old(index), old(working))
      ensures working == old(working) + (index - old(index)) && StartedInOrder(started, index)
    {
      while working < limit && index < size
        invariant old(index) <= index <= size && working - old(working) == index - old(index)
        invariant working <= limit || index == old(index)
        invariant StartedInOrder(started, index)
      {
        started := started + [index];
        index := index + 1;
        working := working + 1;
      }
    }

    method OnFulfilled(task: nat, result: R, ghost h: History<R, E>, ghost s: State<R, E>) returns (ghost t: State<R, E>)
      requires At(h, s) && task in s.running
      modifies this
      ensures At(Then(h, Fulfilled(task, result)), t)
    {
      t := FulfilledGoesOn(size, limit, h, s, task, result);
      CountResult(task, result, t);
    }

    /** The counters after a result: `t` is where they should be. */
    method CountResult(task: nat, result: R, ghost t: State<R, E>)
      requires working > 0 && index <= size && StartedInOrder(started, index)
      requires t.complete == complete + 1 && t.results == results[task := result]
      requires t.complete == size ==>
        && AllIn(t.results, size) && t.outcome == Settle(outcome, Resolved(InOrder(t.results, size)))
        && t.index == index && t.working == working - 1
      requires t.complete != size ==>
        && t.index == FilledTo(size, limit, index, working - 1)
        && t.working == working - 1 + (t.index - index) && t.outcome == outcome
      modifies this
      ensures Shows(t) && StartedInOrder(started, index)
    {
      working := working - 1;
      complete := complete + 1;
      results := results[task := result];
      if complete == size {
        outcome := Settle(outcome, Resolved(InOrder(results, size)));
      } else {
        AddWorking();
      }
    }

    method OnRejected(task: nat, error: E, ghost h: History<R, E>, ghost s: State<R, E>) returns (ghost t: State<R, E>)
      requires At(h, s) && task in s.running
      modifies this
      ensures At(Then(h, Failed(task, error)), t)
    {
      t := FailedGoesOn(size, limit, h, s, task, error);
      outcome := Settle(outcome, Rejected(error));
    }
  }
}
