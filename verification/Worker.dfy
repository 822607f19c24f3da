/** The worker of Worker.hpp: its one thread pops from a `SuspensionQueue` that nobody else pops from
    and that is never terminated, and hands one task after the other to the handler, if one is set. */
module Worker {
  import opened Bytes
  import opened Runs
  import opened TakenTasks
  import Q = SuspensionQueue

  /** What the worker's thread has in hand. */
  datatype Hand<T> = Empty | Task(task: T)

  datatype State<T> = State(queue: Q.State<T>, onTask: bool, hand: Hand<T>, taken: seq<Taken<T>>)

  datatype Step<T> = InQueue(step: Q.Step<T>) | SetOnTask(on: bool) | Execute {
    predicate ByCaller() { SetOnTask? || (InQueue? && step.t != SELF) }
    predicate Pushes() { InQueue? && step.Push? }
  }

  /** The thread that belongs to the worker; all others only push. */
  const SELF: Q.Tid := 0

  ghost predicate Enabled<T>(s: State<T>, step: Step<T>) {
    match step
    case InQueue(e) =>
      && Q.Enabled(s.queue, e)
      && !e.SetTerminated?
      && (if e.t == SELF then s.hand.Empty? && !e.Push? else e.Push? || e.NotifyAll?)
    case SetOnTask(_) => true
    case Execute => s.hand.Task?
  }

  function Apply<T>(s: State<T>, step: Step<T>): State<T> {
    match step
    case InQueue(e) =>
      var q := Q.Apply(s.queue, e);
      if |q.delivered| > |s.queue.delivered| then s.(queue := q, hand := Task(q.delivered[|q.delivered| - 1].item))
      else s.(queue := q)
    case SetOnTask(on) => s.(onTask := on)
    case Execute =>
      if s.hand.Task? then s.(hand := Empty, taken := s.taken + [Taken(s.hand.task, s.onTask)]) else s
  }

  /** The worker's thread runs before anyone can set a handler. */
  ghost predicate Init<T>(s: State<T>) {
    Q.Init(s.queue) && SELF in s.queue.threads && !s.onTask && s.hand == Empty && s.taken == []
  }

  function Start<T>(threads: map<Q.Tid, Q.Pc>): State<T> {
    State(Q.State(false, [], threads, [], [], 0), false, Empty, [])
  }

  ghost function TaskThread<T>(): System<State<T>, Step<T>> {
    System((s: State<T>) => Init(s), (s: State<T>, e: Step<T>) => Enabled(s, e),
           (s: State<T>, e: Step<T>) => Apply(s, e))
  }

  function Items<T>(es: seq<Q.Entry<T>>): (items: seq<T>)
    ensures |items| == |es| && forall i :: 0 <= i < |es| ==> items[i] == es[i].item
  {
    seq(|es|, i requires 0 <= i < |es| => es[i].item)
  }

  function InHand<T>(s: State<T>): seq<T> {
    if s.hand.Task? then [s.hand.task] else []
  }

  ghost predicate Inv<T>(s: State<T>) {
    && Q.Inv(s.queue) && !s.queue.terminated
    && SELF in s.queue.threads && !s.queue.threads[SELF].Pushed? && !s.queue.threads[SELF].Terminating?
    && Items(s.queue.delivered) == Tasks(s.taken) + InHand(s)
  }

  lemma StepKeepsInv<T>(s: State<T>, step: Step<T>)
    requires Inv(s) && Enabled(s, step)
    ensures Inv(Apply(s, step))
  {
    match step
    case InQueue(e) =>
      var q := Q.Apply(s.queue, e);
      Q.StepKeepsInv(s.queue, e);
      SelfOnlyPops(s.queue, e);
      if |q.delivered| > |s.queue.delivered| {
        assert Items(q.delivered) == Items(s.queue.delivered) + [q.delivered[|s.queue.delivered|].item];
      }
    case SetOnTask(_) =>
    case Execute =>
      TakeOne(s.taken, Taken(s.hand.task, s.onTask));
  }

  lemma SelfOnlyPops<T>(q: Q.State<T>, e: Q.Step<T>)
    requires Q.Enabled(q, e) && !e.SetTerminated? && (e.t == SELF ==> !e.Push?)
    requires SELF in q.threads && !q.threads[SELF].Pushed? && !q.threads[SELF].Terminating?
    ensures SELF in Q.Apply(q, e).threads
    ensures !Q.Apply(q, e).threads[SELF].Pushed? && !Q.Apply(q, e).threads[SELF].Terminating?
    ensures Q.Apply(q, e).terminated == q.terminated
  {
  }

  /** In every run, whoever pushes: the tasks taken, the one in hand and those waiting are all the
      tasks ever added, in the order they were added. */
  lemma RunsInOrder<T(!new)>(s: State<T>)
    requires Reachable(TaskThread(), s)
    ensures Items(s.queue.pushed) == Tasks(s.taken) + InHand(s) + Items(s.queue.queue)
    ensures Inv(s)
  {
    forall s0: State<T>, e: Step<T> | Inv(s0) && Enabled(s0, e) ensures Inv(Apply(s0, e)) {
      StepKeepsInv(s0, e);
    }
    Invariant(TaskThread<T>(), (s0: State<T>) => Inv(s0), s);
    ItemsAppend(s.queue.delivered, s.queue.queue);
  }

  lemma ItemsAppend<T>(a: seq<Q.Entry<T>>, b: seq<Q.Entry<T>>)
    ensures Items(a + b) == Items(a) + Items(b)
  {
  }

  /** With no push under way and a task waiting, the worker is not asleep. */
  lemma NotAsleepOverTasks<T(!new)>(s: State<T>)
    requires Reachable(TaskThread(), s) && s.queue.queue != [] && !Q.Somebody(s.queue, Q.Pushed)
    ensures !Q.Is(s.queue, SELF, Q.Waiting)
  {
    RunsInOrder(s);
  }

  // ---- tasks are executed only while a handler is set ----

  predicate HandlerAtEveryTask<T>(s: State<T>, run: seq<Step<T>>)
    decreases |run|
  {
    run == [] || ((run[0].Execute? ==> s.onTask) && HandlerAtEveryTask(Apply(s, run[0]), run[1..]))
  }

  lemma StepLosesOrNot<T>(s: State<T>, step: Step<T>)
    requires Enabled(s, step)
    ensures NoneLost(Apply(s, step).taken) <==> NoneLost(s.taken) && (step.Execute? ==> s.onTask)
  {
    if step.Execute? { TakeOne(s.taken, Taken(s.hand.task, s.onTask)); }
  }

  /** A run loses no task exactly if a handler is set at each of its tasks. */
  lemma {:induction false} NoneLostIffHandlerSet<T>(s: State<T>, run: seq<Step<T>>)
    requires Legal(TaskThread(), s, run)
    ensures NoneLost(After(TaskThread(), s, run).taken) <==> NoneLost(s.taken) && HandlerAtEveryTask(s, run)
    decreases run
  {
    if run != [] {
      StepLosesOrNot(s, run[0]);
      NoneLostIffHandlerSet(Apply(s, run[0]), run[1..]);
    }
  }

  /** The callers do nothing more: nobody adds a task or sets the handler. */
  ghost predicate LeftAlone<T>(run: seq<Step<T>>) {
    forall step <- run :: !step.SetOnTask? && (step.InQueue? ==> !step.step.Push?)
  }

  /** There is no task to lose. */
  predicate Safe<T>(s: State<T>) {
    s.onTask || (s.hand.Empty? && s.queue.queue == [])
  }

  lemma {:induction false} SafeKeepsTasks<T>(s: State<T>, run: seq<Step<T>>)
    requires Safe(s) && Legal(TaskThread(), s, run) && LeftAlone(run)
    ensures HandlerAtEveryTask(s, run)
    decreases run
  {
    if run != [] {
      assert run[0] in run && forall step <- run[1..] :: step in run;
      SafeKeepsTasks(Apply(s, run[0]), run[1..]);
    }
  }

  /** `run` gets the worker's thread its next task, and does nothing else that matters. */
  ghost predicate Gets<T>(s: State<T>, run: seq<Step<T>>) {
    && Legal(TaskThread(), s, run) && LeftAlone(run)
    && var s' := After(TaskThread(), s, run);
       s'.hand.Task? && s'.onTask == s.onTask && s'.taken == s.taken
  }

  lemma GetNow<T>(s: State<T>) returns (run: seq<Step<T>>)
    requires Inv(s) && s.hand.Empty? && s.queue.queue != []
    requires Q.Is(s.queue, SELF, Q.Idle) || Q.Is(s.queue, SELF, Q.Woken)
    ensures Gets(s, run)
  {
    assert Q.MutexFree(s.queue) by {
      forall t ensures !Q.Is(s.queue, t, Q.AboutToWait) { }
    }
    var e: Q.Step<T> := if Q.Is(s.queue, SELF, Q.Idle) then Q.EnterPop(SELF) else Q.LeaveWait(SELF);
    run := [InQueue(e)];
    assert run[1..] == [];
  }

  /** The worker's thread gets the next task, after one notification at most. */
  lemma GetTask<T>(s: State<T>) returns (run: seq<Step<T>>)
    requires Inv(s) && s.hand.Empty? && s.queue.queue != []
    ensures Gets(s, run)
  {
    assert !Q.Is(s.queue, SELF, Q.AboutToWait);
    if Q.Is(s.queue, SELF, Q.Waiting) {
      assert Q.Somebody(s.queue, Q.Waiting);
      var p :| Q.Is(s.queue, p, Q.Pushed);
      var step: Step<T> := InQueue(Q.NotifyAll(p));
      StepKeepsInv(s, step);
      var last := GetNow(Apply(s, step));
      run := [step] + last;
      assert run[1..] == last;
    } else {
      run := GetNow(s);
    }
  }

  /** A worker that is left alone can lose a task exactly if no handler is set while a task waits or
      is in hand. */
  lemma CanLoseIffUnset<T(!new)>(s: State<T>)
    requires Reachable(TaskThread(), s) && NoneLost(s.taken)
    ensures (exists run: seq<Step<T>> :: Legal(TaskThread(), s, run) && LeftAlone(run)
                                         && !NoneLost(After(TaskThread(), s, run).taken))
            <==> !Safe(s)
  {
    RunsInOrder(s);
    if Safe(s) {
      forall run: seq<Step<T>> | Legal(TaskThread(), s, run) && LeftAlone(run)
        ensures NoneLost(After(TaskThread(), s, run).taken)
      {
        SafeKeepsTasks(s, run);
        NoneLostIffHandlerSet(s, run);
      }
    } else {
      var run := LosingRun(s);
      assert Legal(TaskThread(), s, run) && LeftAlone(run) && !NoneLost(After(TaskThread(), s, run).taken);
    }
  }

  lemma LosingRun<T>(s: State<T>) returns (run: seq<Step<T>>)
    requires Inv(s) && !Safe(s)
    ensures Legal(TaskThread(), s, run) && LeftAlone(run) && !NoneLost(After(TaskThread(), s, run).taken)
  {
    run := [];
    if s.hand.Empty? { run := GetTask(s); }
    Extend(TaskThread(), s, run, Execute);
    StepLosesOrNot(After(TaskThread(), s, run), Execute);
    run := run + [Execute];
  }

  /** It does happen: a task added to a new worker before its handler is set. */
  lemma TaskCanBeLost() returns (s: State<int>)
    ensures Reachable(TaskThread(), s) && !NoneLost(s.taken)
  {
    var s0: State<int> := Start(map[0 := Q.Idle, 1 := Q.Idle]);
    StartReachable(TaskThread(), s0);
    var push: Step<int> := InQueue(Q.Push(1, 7));
    StepReachable(TaskThread(), s0, push);
    StepKeepsInv(s0, push);
    s := LoseOne(Apply(s0, push));
  }

  lemma LoseOne(s: State<int>) returns (s': State<int>)
    requires Reachable(TaskThread(), s) && Inv(s) && !Safe(s)
    ensures Reachable(TaskThread(), s') && !NoneLost(s'.taken)
  {
    var run := LosingRun(s);
    RunReachable(TaskThread(), s, run);
    s' := After(TaskThread(), s, run);
  }

  // ---- which callers may lose a task ----

  lemma {:induction false} SetStaysSet<T>(s: State<T>, run: seq<Step<T>>)
    requires s.onTask && forall step <- run :: step != SetOnTask(false)
    ensures HandlerAtEveryTask(s, run)
    decreases run
  {
    if run != [] {
      assert run[0] in run && forall step <- run[1..] :: step in run;
      SetStaysSet(Apply(s, run[0]), run[1..]);
    }
  }

  lemma InvAfter<T(!new)>(s: State<T>, run: seq<Step<T>>)
    requires Inv(s) && Legal(TaskThread(), s, run)
    ensures Inv(After(TaskThread(), s, run))
  {
    forall s0: State<T>, e: Step<T> | Inv(s0) && Enabled(s0, e) ensures Inv(Apply(s0, e)) {
      StepKeepsInv(s0, e);
    }
    KeptByRun(TaskThread<T>(), (s0: State<T>) => Inv(s0), s, run);
  }

  /** While the handler stays set, what was added has been executed, is in hand or still waits. */
  lemma NothingLostWhileSet<T(!new)>(s: State<T>, run: seq<Step<T>>)
    requires Inv(s) && Legal(TaskThread(), s, run)
    requires s.onTask && NoneLost(s.taken) && forall step <- run :: step != SetOnTask(false)
    ensures var s' := After(TaskThread(), s, run);
            Items(s'.queue.pushed) == Executed(s'.taken) + InHand(s') + Items(s'.queue.queue)
  {
    SetStaysSet(s, run);
    NoneLostIffHandlerSet(s, run);
    InvAfter(s, run);
    var s' := After(TaskThread(), s, run);
    ItemsAppend(s'.queue.delivered, s'.queue.queue);
  }

  /** What the threads that use the worker do in a run. */
  function Callers<T>(run: seq<Step<T>>): seq<Step<T>> {
    if run == [] then [] else (if run[0].ByCaller() then [run[0]] else []) + Callers(run[1..])
  }

  /** From the first push on, at each moment between two steps of the callers, a handler is set.
      `added` and `set'` say how it stands before the steps. */
  predicate AlwaysSet<T>(calls: seq<Step<T>>, added: bool, set': bool) {
    && (added ==> set')
    && (calls != [] ==>
          AlwaysSet(calls[1..], added || calls[0].Pushes(), if calls[0].SetOnTask? then calls[0].on else set'))
  }

  lemma StepKeepsSet<T>(s: State<T>, step: Step<T>, calls: seq<Step<T>>, later: seq<Step<T>>)
    requires Inv(s) && Enabled(s, step) && AlwaysSet(calls, s.queue.pushed != [], s.onTask)
    requires calls == (if step.ByCaller() then [step] else []) + later
    ensures AlwaysSet(later, Apply(s, step).queue.pushed != [], Apply(s, step).onTask)
    ensures step.Execute? ==> s.onTask
  {
    if step.ByCaller() {
      assert calls[0] == step && calls[1..] == later;
    } else {
      assert calls == later;
    }
    assert step.Execute? ==> |Items(s.queue.delivered)| > 0;
  }

  lemma {:induction false} AlwaysSetIsEnough<T>(s: State<T>, run: seq<Step<T>>)
    requires Inv(s) && Legal(TaskThread(), s, run) && AlwaysSet(Callers(run), s.queue.pushed != [], s.onTask)
    ensures HandlerAtEveryTask(s, run)
    decreases run
  {
    if run != [] {
      StepKeepsInv(s, run[0]);
      StepKeepsSet(s, run[0], Callers(run), Callers(run[1..]));
      AlwaysSetIsEnough(Apply(s, run[0]), run[1..]);
    }
  }

  lemma {:induction false} AlwaysSetBefore<T>(calls: seq<Step<T>>, more: seq<Step<T>>, added: bool, set': bool)
    requires calls <= more && AlwaysSet(more, added, set')
    ensures AlwaysSet(calls, added, set')
    decreases calls
  {
    if calls != [] {
      AlwaysSetBefore(calls[1..], more[1..], added || calls[0].Pushes(),
                      if calls[0].SetOnTask? then calls[0].on else set');
    }
  }

  /** Whether callers can take a step depends on where the threads stand, not on the tasks. */
  lemma {:induction false} CallersGoOn<T>(s: State<T>, s': State<T>, calls: seq<Step<T>>)
    requires Legal(TaskThread(), s, calls) && s.queue.threads == s'.queue.threads
    requires forall step <- calls :: step.ByCaller()
    ensures Legal(TaskThread(), s', calls) && Callers(calls) == calls
    decreases calls
  {
    if calls != [] {
      assert calls[0] in calls && forall step <- calls[1..] :: step in calls;
      CallerGoesOn(s, s', calls[0]);
      CallersGoOn(Apply(s, calls[0]), Apply(s', calls[0]), calls[1..]);
    }
  }

  lemma CallerGoesOn<T>(s: State<T>, s': State<T>, step: Step<T>)
    requires Enabled(s, step) && step.ByCaller() && s.queue.threads == s'.queue.threads
    ensures Enabled(s', step) && Apply(s, step).queue.threads == Apply(s', step).queue.threads
  {
    if Q.MutexFree(s.queue) {
      forall t ensures !Q.Is(s'.queue, t, Q.AboutToWait) { assert !Q.Is(s.queue, t, Q.AboutToWait); }
    }
  }

  lemma LoseNow<T>(s: State<T>, calls: seq<Step<T>>) returns (run: seq<Step<T>>)
    requires Inv(s) && Legal(TaskThread(), s, calls) && forall step <- calls :: step.ByCaller()
    requires s.queue.queue != [] && !s.onTask && s.hand.Empty? && Q.Is(s.queue, SELF, Q.Idle)
    ensures Legal(TaskThread(), s, run) && Callers(run) == calls && !HandlerAtEveryTask(s, run)
  {
    assert Q.MutexFree(s.queue) by {
      forall t ensures !Q.Is(s.queue, t, Q.AboutToWait) { }
    }
    var pop: Step<T> := InQueue(Q.EnterPop(SELF));
    var s1 := Apply(s, pop);
    var more: seq<Step<T>> := [Execute] + calls;
    assert s1.queue.threads == s.queue.threads;
    CallersGoOn(s, Apply(s1, Execute), calls);
    assert more[1..] == calls;
    assert Legal(TaskThread(), s1, more) && Callers(more) == calls && !HandlerAtEveryTask(s1, more);
    run := [pop] + more;
    assert run[1..] == more;
  }

  /** The thread bides its time outside pop until a task is there and no handler is set. */
  lemma {:induction false} LosingSchedule<T>(s: State<T>, calls: seq<Step<T>>) returns (run: seq<Step<T>>)
    requires Inv(s) && Legal(TaskThread(), s, calls) && forall step <- calls :: step.ByCaller()
    requires s.queue.queue == s.queue.pushed && s.hand.Empty? && Q.Is(s.queue, SELF, Q.Idle)
    requires !AlwaysSet(calls, s.queue.pushed != [], s.onTask)
    ensures Legal(TaskThread(), s, run) && Callers(run) == calls && !HandlerAtEveryTask(s, run)
    decreases calls
  {
    if s.queue.pushed != [] && !s.onTask {
      run := LoseNow(s, calls);
    } else {
      assert calls[0] in calls && forall step <- calls[1..] :: step in calls;
      StepKeepsInv(s, calls[0]);
      CallerLeavesThread(s, calls[0]);
      var rest := LosingSchedule(Apply(s, calls[0]), calls[1..]);
      run := [calls[0]] + rest;
      assert run[1..] == rest;
    }
  }

  lemma CallerLeavesThread<T>(s: State<T>, step: Step<T>)
    requires Enabled(s, step) && step.ByCaller()
    requires s.queue.queue == s.queue.pushed && s.hand.Empty? && Q.Is(s.queue, SELF, Q.Idle)
    ensures var s' := Apply(s, step);
            && s'.queue.queue == s'.queue.pushed && s'.hand.Empty? && Q.Is(s'.queue, SELF, Q.Idle)
            && (s'.queue.pushed != [] <==> s.queue.pushed != [] || step.Pushes())
            && s'.onTask == if step.SetOnTask? then step.on else s.onTask
  {
  }

  /** Whatever the thread's pace, and wherever the run stops, no task of a new worker is lost, exactly
      if the callers keep a handler set from the first push on. */
  lemma NeverLostIffAlwaysSet<T(!new)>(threads: map<Q.Tid, Q.Pc>, calls: seq<Step<T>>)
    requires SELF in threads && forall t <- threads :: threads[t] == Q.Idle
    requires Legal(TaskThread(), Start(threads), calls) && forall step <- calls :: step.ByCaller()
    ensures (forall run: seq<Step<T>> :: Legal(TaskThread(), Start(threads), run) && Callers(run) <= calls
                                         ==> NoneLost(After(TaskThread(), Start(threads), run).taken))
            <==> AlwaysSet(calls, false, false)
  {
    var s: State<T> := Start(threads);
    if AlwaysSet(calls, false, false) {
      forall run: seq<Step<T>> | Legal(TaskThread(), s, run) && Callers(run) <= calls
        ensures NoneLost(After(TaskThread(), s, run).taken)
      {
        AlwaysSetBefore(Callers(run), calls, false, false);
        AlwaysSetIsEnough(s, run);
        NoneLostIffHandlerSet(s, run);
      }
    } else {
      var run := LosingSchedule(s, calls);
      NoneLostIffHandlerSet(s, run);
      assert Legal(TaskThread(), s, run) && Callers(run) <= calls;
    }
  }

  // ---- the code ----

  /** The object itself; `log` is the state of the whole system, and `run` all its steps so far. */
  class Worker<T> {
    const queue: Q.SuspensionQueue<T>
    var onTask: bool
    ghost const start: State<T>
    ghost var log: State<T>
    ghost var run: seq<Step<T>>

    ghost predicate Valid()
      reads this, queue
    {
      queue.Valid() && queue.log == log.queue && onTask == log.onTask && Traced()
    }

    ghost predicate Traced()
      reads this
    {
      Init(start) && Legal(TaskThread(), start, run) && After(TaskThread(), start, run) == log
    }

    constructor (ghost threads: map<Q.Tid, Q.Pc>)
      requires SELF in threads && forall t <- threads :: threads[t] == Q.Idle
      ensures Valid() && log == start == Start(threads) && run == [] && fresh(queue)
    {
      queue := new Q.SuspensionQueue<T>(threads);
      onTask := false;
      start := Start(threads);
      log, run := Start(threads), [];
    }

    ghost method Record(step: Step<T>)
      requires Traced() && Enabled(log, step)
      modifies this`log, this`run
      ensures Traced() && log == Apply(old(log), step) && run == old(run) + [step]
    {
      Extend(TaskThread(), start, run, step);
      log, run := Apply(log, step), run + [step];
    }

    method SetHandler(on: bool)
      requires Valid()
      modifies this
      ensures Valid() && log == Apply(old(log), SetOnTask(on)) && run == old(run) + [SetOnTask(on)]
      ensures log == old(log).(onTask := on)
    {
      onTask := on;
      Record(SetOnTask(on));
    }

    /** One step on the queue. */
    method InQueueDo(e: Q.Step<T>)
      requires Valid() && Enabled(log, InQueue(e))
      modifies this`log, this`run, queue
      ensures Valid() && log == Apply(old(log), InQueue(e)) && run == old(run) + [InQueue(e)]
    {
      queue.Perform(e);
      Record(InQueue(e));
    }

    /** add: a push with nobody in between. */
    method AddTask(t: Q.Tid, task: T)
      requires Valid() && t != SELF && Q.Is(log.queue, t, Q.Idle) && Q.MutexFree(log.queue)
      modifies this`log, this`run, queue
      ensures Valid() && run == old(run) + [InQueue(Q.Push(t, task)), InQueue(Q.NotifyAll(t))]
      ensures log.queue.queue == old(log.queue.queue) + [Q.Entry(t, task)] && !Q.Somebody(log.queue, Q.Waiting)
      ensures log == old(log).(queue := log.queue)
    {
      InQueueDo(Q.Push(t, task));
      InQueueDo(Q.NotifyAll(t));
    }

    /** The worker's pop, up to the wait or to the end. */
    method ThreadPop() returns (r: Q.Popped<T>)
      requires Valid() && log.hand.Empty? && Q.Is(log.queue, SELF, Q.Idle) && Q.MutexFree(log.queue)
      modifies this`log, this`run, queue
      ensures Valid() && log == Apply(old(log), InQueue(Q.EnterPop(SELF)))
      ensures run == old(run) + [InQueue(Q.EnterPop(SELF))]
      ensures log == old(log).(queue := log.queue, hand := if r.Item? then Task(r.item) else Empty)
      ensures r == if old(queue.queue) == [] then Q.MustWait else Q.Item(old(queue.queue)[0].item)
      ensures Got(log, r)
    {
      r := queue.PopLocked(SELF);
      Record(InQueue(Q.EnterPop(SELF)));
    }

    /** The worker's pop, from the return of a wait to the next or to the end. */
    method ThreadPopWoken() returns (r: Q.Popped<T>)
      requires Valid() && log.hand.Empty? && Q.Is(log.queue, SELF, Q.Woken) && Q.MutexFree(log.queue)
      requires !queue.isTerminated
      modifies this`log, this`run, queue
      ensures Valid() && log == Apply(old(log), InQueue(Q.LeaveWait(SELF)))
      ensures run == old(run) + [InQueue(Q.LeaveWait(SELF))]
      ensures log == old(log).(queue := log.queue, hand := if r.Item? then Task(r.item) else Empty)
      ensures r == if old(queue.queue) == [] then Q.MustWait else Q.Item(old(queue.queue)[0].item)
      ensures Got(log, r)
    {
      r := queue.PopWoken(SELF);
      Record(InQueue(Q.LeaveWait(SELF)));
    }

    /** The rest of the loop's body: the task reaches the handler if there is one. */
    method ThreadExecute(task: T) returns (executed: bool)
      requires Valid() && log.hand == Task(task)
      modifies this`log, this`run
      ensures Valid() && log == Apply(old(log), Execute) && run == old(run) + [Execute]
      ensures executed == old(onTask)
      ensures log == old(log).(hand := Empty, taken := old(log.taken) + [Taken(task, executed)])
    {
      executed := onTask;
      Record(Execute);
    }

    method PerformOther(step: Step<T>)
      requires Valid() && !step.Execute? && Enabled(log, step)
      modifies this, queue
      ensures Valid() && log == Apply(old(log), step) && run == old(run) + [step]
    {
      match step
      case SetOnTask(on) => SetHandler(on);
      case InQueue(e) => InQueueDo(e);
    }

    /** Steps of other threads. */
    method PerformOthers(steps: seq<Step<T>>)
      requires Valid() && Others(steps) && Legal(TaskThread(), log, steps)
      modifies this, queue
      ensures Valid() && log == After(TaskThread(), old(log), steps) && run == old(run) + steps
    {
      for i := 0 to |steps|
        invariant Valid() && run == old(run) + steps[..i]
        invariant Legal(TaskThread(), log, steps[i..])
        invariant After(TaskThread(), log, steps[i..]) == After(TaskThread(), old(log), steps)
      {
        assert steps[i..][1..] == steps[i + 1..] && steps[i] in steps;
        assert steps[..i + 1] == steps[..i] + [steps[i]];
        PerformOther(steps[i]);
      }
    }

    /** One turn of the thread's loop, with what others do during the waits of its pop and between the
        pop and the look at the handler.  Either it still waits at the end, or exactly one more
        task has been taken. */
    method ThreadTurn(waits: seq<seq<Step<T>>>, late: seq<Step<T>>) returns (waiting: bool)
      requires Valid() && Enabled(log, InQueue(Q.EnterPop(SELF)))
      requires Turn(Apply(log, InQueue(Q.EnterPop(SELF))), waits, late)
      modifies this, queue
      ensures Valid() && old(run) <= run && log.hand.Empty?
      ensures if waiting then log.taken == old(log.taken) && Q.Is(log.queue, SELF, Q.Waiting)
              else (exists t :: log.taken == old(log.taken) + [t]) && EndsWith(run, late + [Execute])
    {
      var r := ThreadGet(waits, late);
      if r.MustWait? { return true; }
      ThreadFinish(r.item, late);
      return false;
    }

    /** What comes after the pop. */
    method ThreadFinish(task: T, late: seq<Step<T>>)
      requires Valid() && log.hand == Task(task) && Others(late) && Legal(TaskThread(), log, late)
      modifies this, queue
      ensures Valid() && old(run) <= run && log.hand.Empty?
      ensures exists t :: log.taken == old(log.taken) + [t]
      ensures EndsWith(run, late + [Execute])
    {
      OthersKeepHand(log, late);
      AppendAssociates(run, late, [Execute]);
      PerformOthers(late);
      var _ := ThreadExecute(task);
    }

    /** All of the worker's pop. */
    method ThreadGet(waits: seq<seq<Step<T>>>, ghost late: seq<Step<T>>) returns (r: Q.Popped<T>)
      requires Valid() && Enabled(log, InQueue(Q.EnterPop(SELF)))
      requires Turn(Apply(log, InQueue(Q.EnterPop(SELF))), waits, late)
      modifies this, queue
      ensures Valid() && old(run) <= run && log.taken == old(log.taken)
      ensures match r
              case Item(item) => log.hand == Task(item) && Others(late) && Legal(TaskThread(), log, late)
              case MustWait => log.hand.Empty? && Q.Is(log.queue, SELF, Q.Waiting)
              case NoItem => false
    {
      r := ThreadPop();
      var i := 0;
      while r.MustWait? && i < |waits|
        invariant i <= |waits| && Valid() && old(run) <= run && log.taken == old(log.taken)
        invariant Got(log, r) && Turn(log, waits[i..], late)
        decreases |waits| - i
      {
        assert waits[i..][0] == waits[i] && waits[i..][1..] == waits[i + 1..];
        r := ThreadWait(waits[i..], late);
        i := i + 1;
      }
      if r.MustWait? {
        ThreadSleep();
      } else {
        TurnEnds(log, waits[i..], late);
      }
    }

    method ThreadSleep()
      requires Valid() && log.hand.Empty? && Q.Is(log.queue, SELF, Q.AboutToWait)
      modifies this`log, this`run, queue
      ensures Valid() && old(run) <= run && log.taken == old(log.taken)
      ensures log.hand.Empty? && Q.Is(log.queue, SELF, Q.Waiting)
    {
      InQueueDo(Q.Wait(SELF));
    }

    /** One wait of the worker's pop. */
    method ThreadWait(waits: seq<seq<Step<T>>>, ghost late: seq<Step<T>>) returns (r: Q.Popped<T>)
      requires Valid() && log.hand.Empty? && waits != [] && Turn(log, waits, late)
      modifies this, queue
      ensures Valid() && old(run) <= run && log.taken == old(log.taken)
      ensures Got(log, r) && Turn(log, waits[1..], late)
    {
      InQueueDo(Q.Wait(SELF));
      OthersKeepHand(log, waits[0]);
      PerformOthers(waits[0]);
      r := ThreadPopWoken();
    }
  }

  ghost predicate EndsWith<T>(run: seq<Step<T>>, last: seq<Step<T>>) {
    |last| <= |run| && run[|run| - |last|..] == last
  }

  ghost predicate Others<T>(steps: seq<Step<T>>) {
    forall step <- steps :: step.SetOnTask? || (step.InQueue? && (step.step.t != SELF || step.step.SpuriousWake?))
  }

  lemma {:induction false} OthersKeepHand<T>(s: State<T>, steps: seq<Step<T>>)
    requires Others(steps) && Legal(TaskThread(), s, steps)
    ensures var s' := After(TaskThread(), s, steps);
            s'.hand == s.hand && s'.taken == s.taken && s'.queue.terminated == s.queue.terminated
    decreases steps
  {
    if steps != [] {
      assert steps[0] in steps && forall step <- steps[1..] :: step in steps;
      OthersKeepHand(Apply(s, steps[0]), steps[1..]);
    }
  }

  /** What others do from a state `s` of the worker's pop on: `waits[i]` during its `i`th wait, and
      `late` after it has returned. */
  ghost predicate Turn<T>(s: State<T>, waits: seq<seq<Step<T>>>, late: seq<Step<T>>)
    decreases |waits|
  {
    if waits == [] then s.hand.Task? ==> Others(late) && Legal(TaskThread(), s, late)
    else
      && Q.Is(s.queue, SELF, Q.AboutToWait) && s.hand.Empty? && !s.queue.terminated && Others(waits[0])
      && Legal(TaskThread(), Apply(s, InQueue(Q.Wait(SELF))), waits[0])
      && var woken := After(TaskThread(), Apply(s, InQueue(Q.Wait(SELF))), waits[0]);
         Enabled(woken, InQueue(Q.LeaveWait(SELF))) && Turn(Apply(woken, InQueue(Q.LeaveWait(SELF))), waits[1..], late)
  }

  lemma TurnEnds<T>(s: State<T>, waits: seq<seq<Step<T>>>, late: seq<Step<T>>)
    requires Turn(s, waits, late) && s.hand.Task?
    ensures Others(late) && Legal(TaskThread(), s, late)
  {
  }

  /** What pop has returned to the worker. */
  ghost predicate Got<T>(s: State<T>, r: Q.Popped<T>) {
    match r
    case Item(item) => s.hand == Task(item)
    case MustWait => s.hand.Empty? && Q.Is(s.queue, SELF, Q.AboutToWait)
    case NoItem => false
  }
}
