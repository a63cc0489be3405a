/**
 The bounded pool of name-resolution workers (connect_plan.cpp): what each section under its lock does to it, and
 what holds over every interleaving of callers that submit and give up with workers that start, sleep and take
 requests, whatever threads cannot be started.
 */
module ResolverPool {
  import opened Protocol
  import opened Sequences

  const MAX_WORKERS: nat := 4
  const MAX_QUEUE: nat := 16

  /** A worker: started and not yet at its lock, asleep (and woken or not), or resolving a request. */
  datatype Thread<R> = Starting | Asleep(woken: bool) | Busy(request: R)

  /** The pool, with everything that has ever been submitted, started, withdrawn and answered. */
  datatype State<R> = State(
    queue: seq<R>, threads: seq<Thread<R>>,
    submitted: seq<R>, started: seq<R>, withdrawn: set<R>, answered: set<R>, spawnFailed: bool)

  function Idle<R>(threads: seq<Thread<R>>): nat {
    if threads == [] then 0
    else Idle(threads[..|threads| - 1]) + (if threads[|threads| - 1].Asleep? then 1 else 0)
  }

  function Fresh<R>(threads: seq<Thread<R>>): nat {
    if threads == [] then 0
    else Fresh(threads[..|threads| - 1]) + (if threads[|threads| - 1].Starting? then 1 else 0)
  }

  function Without<R(==)>(queue: seq<R>, request: R): (r: seq<R>)
    ensures |r| <= |queue|
  {
    if queue == [] then []
    else Without(queue[..|queue| - 1], request)
         + (if queue[|queue| - 1] == request then [] else [queue[|queue| - 1]])
  }

  // ----- the steps

  /** notify_one: a worker that sleeps and is not yet woken is woken, if there is one. */
  ghost predicate Notified<R(!new)>(s: State<R>, t: State<R>) {
    || (exists w :: 0 <= w < |s.threads| && s.threads[w] == Asleep(false)
          && t == s.(threads := s.threads[w := Asleep(true)]))
    || (t == s && forall w :: 0 <= w < |s.threads| ==> s.threads[w] != Asleep(false))
  }

  function Pushed<R>(s: State<R>, request: R): State<R> {
    s.(queue := s.queue + [request], submitted := s.submitted + [request])
  }

  /** Another worker is wanted for the requests queued. */
  predicate WantsWorker<R>(s: State<R>) {
    |s.queue| > Idle(s.threads) && |s.threads| < MAX_WORKERS
  }

  /** A new request is queued, and a worker started for it if one is wanted and can be; with no worker at all
      it is withdrawn again. */
  ghost predicate Submit<R(!new)>(s: State<R>, t: State<R>, request: R, spawns: bool) {
    && |s.queue| < MAX_QUEUE && request !in s.submitted
    && var pushed := Pushed(s, request);
    if !WantsWorker(pushed) then Notified(pushed, t)
    else if spawns then Notified(pushed.(threads := s.threads + [Starting]), t)
    else if s.threads == [] then
      t == pushed.(queue := Without(pushed.queue, request), withdrawn := s.withdrawn + {request}, spawnFailed := true)
    else Notified(pushed.(spawnFailed := true), t)
  }

  /** A worker has the lock: newly started, woken (for a reason or none), or with an answer. It takes the first
      request there is, or sleeps. */
  ghost predicate Look<R(!new)>(s: State<R>, t: State<R>, worker: nat) {
    && worker < |s.threads|
    && var after := if s.threads[worker].Busy? then s.(answered := s.answered + {s.threads[worker].request}) else s;
    if s.queue == [] then t == after.(threads := s.threads[worker := Asleep(false)])
    else
      t == after.(queue := s.queue[1..], threads := s.threads[worker := Busy(s.queue[0])],
                  started := s.started + [s.queue[0]])
  }

  /** A caller stops waiting: its request leaves the queue if no worker has taken it. */
  ghost predicate GiveUp<R(!new)>(s: State<R>, t: State<R>, request: R) {
    && request in s.submitted && request !in s.answered
    && t == if request in s.started then s
            else s.(queue := Without(s.queue, request), withdrawn := s.withdrawn + {request})
  }

  ghost predicate Next<R(!new)>(s: State<R>, t: State<R>) {
    || (exists request: R, spawns: bool :: Submit(s, t, request, spawns))
    || (exists worker: nat :: Look(s, t, worker))
    || (exists request: R :: GiveUp(s, t, request))
  }

  ghost predicate Init<R>(s: State<R>) {
    s == State([], [], [], [], {}, {}, false)
  }

  ghost predicate Run<R(!new)>(states: seq<State<R>>) {
    states != [] && Init(states[0]) && forall i :: 0 <= i < |states| - 1 ==> Next(states[i], states[i + 1])
  }

  // ----- what holds throughout

  /** The requests submitted and not withdrawn, in the order they were submitted. */
  function Kept<R>(submitted: seq<R>, withdrawn: set<R>): seq<R> {
    if submitted == [] then []
    else Kept(submitted[..|submitted| - 1], withdrawn)
         + (if submitted[|submitted| - 1] in withdrawn then [] else [submitted[|submitted| - 1]])
  }

  /** First come, first served: what was started and then what is queued is what was submitted, in order,
      without what was withdrawn; so nothing starts twice, or after it was withdrawn. */
  ghost predicate InOrder<R(!new)>(s: State<R>) {
    && Distinct(s.submitted)
    && s.started + s.queue == Kept(s.submitted, s.withdrawn)
    && (forall request :: request in s.withdrawn ==> request in s.submitted && request !in s.started)
    && (forall request :: request in s.answered ==> request in s.started)
  }

  ghost predicate Bounded<R(!new)>(s: State<R>) {
    |s.queue| <= MAX_QUEUE && |s.threads| <= MAX_WORKERS
  }

  /** While something is queued some worker is awake or on its way. */
  ghost predicate SomeoneLooks<R(!new)>(s: State<R>) {
    s.queue != [] ==> exists w :: 0 <= w < |s.threads| && s.threads[w] != Asleep(false)
  }

  /** No request waits for a worker that could still be started. */
  ghost predicate WorkersSuffice<R(!new)>(s: State<R>) {
    s.spawnFailed || |s.queue| <= Idle(s.threads) + Fresh(s.threads) || |s.threads| == MAX_WORKERS
  }

  ghost predicate BusyStarted<R(!new)>(s: State<R>) {
    forall w :: 0 <= w < |s.threads| && s.threads[w].Busy? ==> s.threads[w].request in s.started
  }

  ghost predicate Invariant<R(!new)>(s: State<R>) {
    Bounded(s) && SomeoneLooks(s) && WorkersSuffice(s) && BusyStarted(s) && InOrder(s)
  }

  // ----- counting

  lemma {:induction false} IdleAfter<R>(threads: seq<Thread<R>>, w: nat, thread: Thread<R>)
    requires w < |threads|
    ensures Idle(threads[w := thread])
         == Idle(threads) - (if threads[w].Asleep? then 1 else 0) + (if thread.Asleep? then 1 else 0)
    ensures Fresh(threads[w := thread])
         == Fresh(threads) - (if threads[w].Starting? then 1 else 0) + (if thread.Starting? then 1 else 0)
  {
    var last := |threads| - 1;
    if w == last {
      assert threads[w := thread][..last] == threads[..last];
    } else {
      IdleAfter(threads[..last], w, thread);
      assert threads[w := thread][..last] == threads[..last][w := thread];
    }
  }

  lemma {:induction false} WithoutAbsent<R>(queue: seq<R>, request: R)
    requires request !in queue
    ensures Without(queue, request) == queue
  {
    if queue != [] {
      WithoutAbsent(queue[..|queue| - 1], request);
    }
  }

  lemma {:induction false} KeptWithout<R>(submitted: seq<R>, withdrawn: set<R>, request: R)
    ensures Kept(submitted, withdrawn + {request}) == Without(Kept(submitted, withdrawn), request)
  {
    if submitted != [] {
      var before, last := submitted[..|submitted| - 1], submitted[|submitted| - 1];
      KeptWithout(before, withdrawn, request);
      var kept := Kept(before, withdrawn);
      assert kept + [] == kept && Without(kept, request) + [] == Without(kept, request);
      if last !in withdrawn {
        WithoutLast(kept, last, request);
      }
    }
  }

  lemma WithoutLast<R>(queue: seq<R>, last: R, request: R)
    ensures Without(queue + [last], request) == Without(queue, request) + (if last == request then [] else [last])
  {
    assert (queue + [last])[..|queue|] == queue;
  }

  lemma {:induction false} WithoutJoins<R>(a: seq<R>, b: seq<R>, request: R)
    ensures Without(a + b, request) == Without(a, request) + Without(b, request)
    decreases |b|
  {
    if b == [] {
      assert a + b == a;
    } else {
      var before, last := b[..|b| - 1], b[|b| - 1];
      hide Without;
      WithoutJoins(a, before, request);
      WithoutLast(a + before, last, request);
      WithoutLast(before, last, request);
      assert b == before + [last] && a + b == (a + before) + [last];
      var tail := if last == request then [] else [last];
      Regrouped(Without(a, request), Without(before, request), tail);
    }
  }

  lemma Regrouped<R>(a: seq<R>, b: seq<R>, c: seq<R>)
    ensures a + (b + c) == (a + b) + c
  {
  }

  lemma {:induction false} KeptMembers<R>(submitted: seq<R>, withdrawn: set<R>, request: R)
    ensures request in Kept(submitted, withdrawn) <==> request in submitted && request !in withdrawn
  {
    if submitted != [] {
      KeptMembers(submitted[..|submitted| - 1], withdrawn, request);
      assert submitted == submitted[..|submitted| - 1] + [submitted[|submitted| - 1]];
    }
  }

  // ----- each step keeps it

  lemma NotifyKeeps<R(!new)>(s: State<R>, t: State<R>)
    requires Notified(s, t) && s.threads != []
    ensures t == s.(threads := t.threads) && |t.threads| == |s.threads|
    ensures Idle(t.threads) == Idle(s.threads) && Fresh(t.threads) == Fresh(s.threads)
    ensures exists w :: 0 <= w < |t.threads| && t.threads[w] != Asleep(false)
    ensures BusyStarted(s) ==> BusyStarted(t)
  {
    if w :| 0 <= w < |s.threads| && s.threads[w] == Asleep(false)
            && t == s.(threads := s.threads[w := Asleep(true)]) {
      IdleAfter(s.threads, w, Asleep(true));
      assert t.threads[w] != Asleep(false);
    } else {
      assert t.threads[0] != Asleep(false);
    }
  }

  lemma PushKeepsOrder<R(!new)>(s: State<R>, request: R)
    requires InOrder(s) && request !in s.submitted
    ensures InOrder(Pushed(s, request))
  {
    var t := Pushed(s, request);
    assert t.submitted[..|s.submitted|] == s.submitted;
    assert t.started + t.queue == s.started + s.queue + [request];
  }

  lemma SubmitKeeps<R(!new)>(s: State<R>, t: State<R>, request: R, spawns: bool)
    requires Invariant(s) && Submit(s, t, request, spawns)
    ensures Invariant(t)
  {
    hide InOrder, Notified, Without, Kept;
    PushKeepsOrder(s, request);
    var pushed := Pushed(s, request);
    if WantsWorker(pushed) && !spawns && s.threads == [] {
      WithdrawnAtOnce(s, t, request);
    } else if WantsWorker(pushed) && spawns {
      var more := pushed.(threads := s.threads + [Starting]);
      assert more.threads[..|s.threads|] == s.threads;
      NotifyKeeps(more, t);
      SameOrder(pushed, t);
    } else if WantsWorker(pushed) {
      NotifyKeeps(pushed.(spawnFailed := true), t);
      SameOrder(pushed, t);
    } else {
      NotifyKeeps(pushed, t);
      SameOrder(pushed, t);
    }
  }

  lemma SameOrder<R(!new)>(s: State<R>, t: State<R>)
    requires InOrder(s)
    requires t.queue == s.queue && t.submitted == s.submitted && t.started == s.started
    requires t.withdrawn == s.withdrawn && t.answered == s.answered
    ensures InOrder(t)
  {
  }

  lemma WithdrawnAtOnce<R(!new)>(s: State<R>, t: State<R>, request: R)
    requires Invariant(s) && Submit(s, t, request, false) && WantsWorker(Pushed(s, request)) && s.threads == []
    ensures Invariant(t)
  {
    var pushed := Pushed(s, request);
    OnlyOne(request);
    hide Without, InOrder, Kept, Idle, Fresh, Notified;
    assert s.queue == [] && pushed.queue == [request];
    PushKeepsOrder(s, request);
    NotStarted(s, request);
    assert t.queue == [] && t.threads == [];
    assert Bounded(t) && SomeoneLooks(t) && WorkersSuffice(t) && BusyStarted(t);
    hide Bounded, SomeoneLooks, WorkersSuffice, BusyStarted, WantsWorker, Submit;
    WithdrawKeepsOrder(pushed, t, request);
  }

  lemma OnlyOne<R>(request: R)
    ensures Without([request], request) == []
  {
  }

  lemma NotStarted<R(!new)>(s: State<R>, request: R)
    requires InOrder(s) && request !in s.submitted
    ensures request !in s.started
  {
    if request in s.started {
      assert request in s.started + s.queue;
      KeptMembers(s.submitted, s.withdrawn, request);
    }
  }

  lemma WithdrawKeepsOrder<R(!new)>(s: State<R>, t: State<R>, request: R)
    requires InOrder(s) && request in s.submitted && request !in s.started
    requires t == s.(queue := Without(s.queue, request), withdrawn := s.withdrawn + {request}, spawnFailed := t.spawnFailed)
    ensures InOrder(t)
  {
    hide Kept, Without;
    KeptWithout(s.submitted, s.withdrawn, request);
    WithoutJoins(s.started, s.queue, request);
    WithoutAbsent(s.started, request);
  }

  lemma LookKeepsOrder<R(!new)>(s: State<R>, t: State<R>, worker: nat)
    requires InOrder(s) && BusyStarted(s) && Look(s, t, worker)
    ensures InOrder(t) && BusyStarted(t)
  {
    hide Kept;
    if s.queue != [] {
      assert s.queue == [s.queue[0]] + s.queue[1..];
      assert t.started + t.queue == s.started + s.queue;
      KeptMembers(s.submitted, s.withdrawn, s.queue[0]);
      assert s.queue[0] in s.started + s.queue;
    }
  }

  lemma LookKeeps<R(!new)>(s: State<R>, t: State<R>, worker: nat)
    requires Invariant(s) && Look(s, t, worker)
    ensures Invariant(t)
  {
    LookKeepsOrder(s, t, worker);
    hide InOrder, BusyStarted, Kept;
    IdleAfter(s.threads, worker, t.threads[worker]);
    assert s.queue != [] ==> t.threads[worker] != Asleep(false);
  }

  lemma GiveUpKeeps<R(!new)>(s: State<R>, t: State<R>, request: R)
    requires Invariant(s) && GiveUp(s, t, request)
    ensures Invariant(t)
  {
    if request !in s.started {
      WithdrawKeepsOrder(s, t, request);
    }
    hide InOrder, Kept;
  }

  lemma NextKeeps<R(!new)>(s: State<R>, t: State<R>)
    requires Invariant(s) && Next(s, t)
    ensures Invariant(t)
  {
    hide Invariant, Submit, Look, GiveUp;
    if request: R, spawns: bool :| Submit(s, t, request, spawns) {
      SubmitKeeps(s, t, request, spawns);
    } else if worker: nat :| Look(s, t, worker) {
      LookKeeps(s, t, worker);
    } else {
      var request: R :| GiveUp(s, t, request);
      GiveUpKeeps(s, t, request);
    }
  }

  /** Over every run: at most four workers and sixteen requests queued; something queued always has a worker
      awake or on its way to it; and unless starting a thread has failed no request waits for a worker that
      could still be started. */
  lemma {:induction false} RunKeeps<R(!new)>(states: seq<State<R>>, i: nat)
    requires Run(states) && i < |states|
    ensures Invariant(states[i])
  {
    hide Invariant, Next;
    if i == 0 {
      InitKeeps(states[0]);
    } else {
      RunKeeps(states, i - 1);
      assert Next(states[i - 1], states[i - 1 + 1]);
      NextKeeps(states[i - 1], states[i]);
    }
  }

  lemma InitKeeps<R(!new)>(s: State<R>)
    requires Init(s)
    ensures Invariant(s)
  {
  }

  lemma NextOnlyAdds<R(!new)>(s: State<R>, t: State<R>)
    requires Next(s, t)
    ensures s.withdrawn <= t.withdrawn
  {
  }

  lemma {:induction false} WithdrawnStays<R(!new)>(states: seq<State<R>>, i: nat, j: nat)
    requires Run(states) && i <= j < |states|
    ensures states[i].withdrawn <= states[j].withdrawn
    decreases j
  {
    hide Next;
    if i < j {
      WithdrawnStays(states, i, j - 1);
      assert Next(states[j - 1], states[j - 1 + 1]);
      NextOnlyAdds(states[j - 1], states[j]);
    }
  }

  lemma {:induction false} KeptDistinct<R(!new)>(submitted: seq<R>, withdrawn: set<R>)
    requires Distinct(submitted)
    ensures Distinct(Kept(submitted, withdrawn))
  {
    if submitted != [] {
      var before, last := submitted[..|submitted| - 1], submitted[|submitted| - 1];
      KeptDistinct(before, withdrawn);
      KeptMembers(before, withdrawn, last);
      assert last !in before;
    }
  }

  /** Whatever the run, no request is started twice, none is started once its caller has withdrawn it, and what
      is started and queued is what was submitted and not withdrawn, in the order it came. */
  lemma StartedOnceAndNotAfterWithdrawal<R(!new)>(states: seq<State<R>>, i: nat, j: nat, request: R)
    requires Run(states) && i <= j < |states|
    ensures Distinct(states[j].started)
    ensures request in states[i].withdrawn ==> request !in states[j].started && request !in states[j].queue
    ensures states[j].started + states[j].queue == Kept(states[j].submitted, states[j].withdrawn)
  {
    RunKeeps(states, j);
    WithdrawnStays(states, i, j);
    hide Run, Kept;
    var s := states[j];
    KeptDistinct(s.submitted, s.withdrawn);
    KeptMembers(s.submitted, s.withdrawn, request);
    assert request in s.queue ==> request in s.started + s.queue;
    var all := s.started + s.queue;
    assert forall k :: 0 <= k < |s.started| ==> s.started[k] == all[k];
  }

  // ----- the sections under the lock

  datatype Outcome = Queued | ResourceExhausted

  /** The pool. Requests are numbers, and the flags of a request are whether it is in `started` and `done`. */
  class Pool {
    var queue: seq<nat>
    var workers: nat
    var idle: nat
    var started: set<nat>
    var done: set<nat>
    ghost var view: State<nat>

    ghost predicate Valid()
      reads this
    {
      && queue == view.queue && workers == |view.threads| && idle == Idle(view.threads)
      && Invariant(view)
      && (forall request :: request in started <==> request in view.started)
      && done == view.answered
    }

    constructor ()
      ensures Valid() && Init(view)
    {
      queue, workers, idle, started, done := [], 0, 0, {}, {};
      view := State([], [], [], [], {}, {}, false);
      new;
      InitKeeps(view);
    }

    /** A caller's request, once there is room in the queue; `spawns` says whether a thread can be started. */
    method Resolve(request: nat, spawns: bool) returns (outcome: Outcome)
      requires Valid() && |queue| < MAX_QUEUE && request !in view.submitted
      modifies this
      ensures Valid() && Submit(old(view), view, request, spawns)
      ensures outcome == ResourceExhausted <==> request in view.withdrawn
    {
      hide Invariant, Kept, Without, Idle, Fresh, Notified, Woken;
      ghost var s := view;
      RequestIsNew(s, request);
      queue := queue + [request];
      ghost var next := Pushed(s, request);
      outcome := Queued;
      if |queue| > idle && workers < MAX_WORKERS {
        if spawns {
          next := next.(threads := next.threads + [Starting]);
          FreshIsNotIdle(s.threads);
          workers := workers + 1;
        } else if workers == 0 {
          Erase(request);
          view := next.(queue := Without(next.queue, request), withdrawn := s.withdrawn + {request}, spawnFailed := true);
          SubmitKeeps(s, view, request, spawns);
          return ResourceExhausted;
        } else {
          next := next.(spawnFailed := true);
        }
      }
      view := Woken(next);
      WokenNotifies(next);
      SubmitKeeps(s, view, request, spawns);
    }

    /** Takes a request out of the queue. */
    method Erase(request: nat)
      modifies `queue
      ensures queue == Without(old(queue), request)
    {
      var kept := [];
      for i := 0 to |queue|
        invariant kept == Without(queue[..i], request)
      {
        assert queue[..i + 1][..i] == queue[..i];
        if queue[i] != request {
          kept := kept + [queue[i]];
        }
      }
      assert queue[..|queue|] == queue;
      queue := kept;
    }

    /** A caller gives its request up. */
    method Withdraw(request: nat)
      requires Valid() && request in view.submitted && request !in done
      modifies `queue, `view
      ensures Valid() && GiveUp(old(view), view, request)
    {
      hide Invariant, Without;
      ghost var s := view;
      if request !in started {
        Erase(request);
        view := s.(queue := Without(s.queue, request), withdrawn := s.withdrawn + {request});
      }
      GiveUpKeeps(s, view, request);
    }

    /** A worker that was just started, or that has the answer to its request, comes to the lock. */
    method Enter(ghost worker: nat, finished: Option<nat>) returns (taken: Option<nat>)
      requires Valid() && worker < |view.threads|
      requires view.threads[worker] == if finished.Some? then Busy(finished.value) else Starting
      modifies this
      ensures Valid() && Look(old(view), view, worker)
      ensures view.threads[worker] == if taken.Some? then Busy(taken.value) else Asleep(false)
    {
      hide Invariant, Idle, Fresh;
      if finished.Some? {
        done := done + {finished.value};
      }
      ghost var s := view;
      idle := idle + 1;
      taken := None;
      if queue != [] {
        idle := idle - 1;
        taken := Some(queue[0]);
        queue := queue[1..];
        started := started + {taken.value};
      }
      view := Looked(s, worker);
      LookKeeps(s, view, worker);
      IdleAfter(s.threads, worker, view.threads[worker]);
    }

    /** A sleeping worker wakes up, for a request or for no reason. */
    method Wake(ghost worker: nat) returns (taken: Option<nat>)
      requires Valid() && worker < |view.threads| && view.threads[worker].Asleep?
      modifies this
      ensures Valid() && Look(old(view), view, worker)
      ensures view.threads[worker] == if taken.Some? then Busy(taken.value) else Asleep(false)
    {
      hide Invariant, Idle, Fresh;
      ghost var s := view;
      taken := None;
      if queue != [] {
        SleeperIsIdle(s.threads, worker);
        idle := idle - 1;
        taken := Some(queue[0]);
        queue := queue[1..];
        started := started + {taken.value};
      }
      view := Looked(s, worker);
      LookKeeps(s, view, worker);
      IdleAfter(s.threads, worker, view.threads[worker]);
    }
  }

  /** The state after a worker has looked. */
  ghost function Looked(s: State<nat>, worker: nat): (t: State<nat>)
    requires worker < |s.threads|
    ensures Look(s, t, worker)
  {
    var after := if s.threads[worker].Busy? then s.(answered := s.answered + {s.threads[worker].request}) else s;
    if s.queue == [] then after.(threads := s.threads[worker := Asleep(false)])
    else
      after.(queue := s.queue[1..], threads := s.threads[worker := Busy(s.queue[0])],
             started := s.started + [s.queue[0]])
  }

  /** The first sleeping worker that is not woken, or the number of workers. */
  ghost function FirstAsleep(threads: seq<Thread<nat>>): (w: nat)
    ensures w <= |threads|
    ensures w < |threads| ==> threads[w] == Asleep(false)
    ensures w == |threads| ==> forall k :: 0 <= k < |threads| ==> threads[k] != Asleep(false)
  {
    if threads == [] then 0
    else if threads[0] == Asleep(false) then 0
    else 1 + FirstAsleep(threads[1..])
  }

  ghost function Woken(s: State<nat>): State<nat> {
    var w := FirstAsleep(s.threads);
    if w < |s.threads| then s.(threads := s.threads[w := Asleep(true)]) else s
  }

  lemma WokenNotifies(s: State<nat>)
    ensures Notified(s, Woken(s)) && Woken(s) == s.(threads := Woken(s).threads) && |Woken(s).threads| == |s.threads|
    ensures Idle(Woken(s).threads) == Idle(s.threads)
  {
    var w := FirstAsleep(s.threads);
    if w < |s.threads| {
      IdleAfter(s.threads, w, Asleep(true));
    }
  }

  lemma FreshIsNotIdle(threads: seq<Thread<nat>>)
    ensures Idle(threads + [Starting]) == Idle(threads)
  {
    assert (threads + [Starting])[..|threads|] == threads;
  }

  lemma {:induction false} SleeperIsIdle(threads: seq<Thread<nat>>, w: nat)
    requires w < |threads| && threads[w].Asleep?
    ensures Idle(threads) > 0
  {
    if w < |threads| - 1 {
      SleeperIsIdle(threads[..|threads| - 1], w);
    }
  }

  lemma RequestIsNew(s: State<nat>, request: nat)
    requires Invariant(s) && request !in s.submitted
    ensures request !in s.withdrawn && request !in s.started
  {
    NotStarted(s, request);
  }
}
