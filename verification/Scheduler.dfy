/** The task loop of Scheduler.hpp over the non-blocking queue of ThreadQueue.hpp.  Any thread may
    add tasks, start, stop, terminate or set the handlers between any two steps of the scheduler's
    thread. */
module Scheduler {
  import opened Bytes
  import opened Runs
  import opened TakenTasks

  datatype Option<T> = None | Some(value: T)

  // ---- ThreadQueue ----

  class ThreadQueue<T> {
    var queue: seq<T>

    constructor ()
      ensures queue == []
    {
      queue := [];
    }

    method Push(item: T)
      modifies this
      ensures queue == old(queue) + [item]
    {
      queue := queue + [item];
    }

    method Pop() returns (r: Option<T>)
      modifies this
      ensures old(queue) == [] ==> r == None && queue == []
      ensures old(queue) != [] ==> r == Some(old(queue)[0]) && queue == old(queue)[1..]
    {
      if |queue| == 0 { return None; }
      r := Some(queue[0]);
      queue := queue[1..];
    }
  }

  // ---- the whole system ----

  /** Where the scheduler's thread stands. */
  datatype Pc<T> =
    | Top             // before `isTerminated()`
    | BeforePop
    | HasTask(task: T)
    | Drained         // has just popped nothing
    | Ended

  /** What was true when `on_repeat_` was called. */
  datatype Repeat = Repeat(taken: nat, pushedBeforePop: nat)

  datatype State<T> = State(
    queue: seq<T>,
    started: bool,
    terminated: bool,
    onTask: bool,     // on_task_ is set
    onRepeat: bool,   // on_repeat_ is set
    pc: Pc<T>,
    pushed: seq<T>,
    taken: seq<Taken<T>>,
    emptyPopAt: nat,  // how many tasks had been pushed at the last pop that found nothing
    repeats: seq<Repeat>)

  datatype Step<T> =
    | Add(task: T) | SetStarted(on: bool) | Terminate | SetOnTask(on: bool) | SetOnRepeat(on: bool) // any thread
    | Check | PopTask | RunTask | RepeatOrSleep                                             // the scheduler's
  {
    predicate ByOthers() { !Check? && !PopTask? && !RunTask? && !RepeatOrSleep? }
  }

  predicate Enabled<T>(s: State<T>, step: Step<T>) {
    match step
    case Check => s.pc.Top?
    case PopTask => s.pc.BeforePop?
    case RunTask => s.pc.HasTask?
    case RepeatOrSleep => s.pc.Drained?
    case _ => true
  }

  function Apply<T>(s: State<T>, step: Step<T>): State<T> {
    if !Enabled(s, step) then s else
    match step
    case Add(task) => s.(queue := s.queue + [task], pushed := s.pushed + [task])
    case SetStarted(on) => s.(started := on)
    case Terminate => s.(terminated := true)
    case SetOnTask(on) => s.(onTask := on)
    case SetOnRepeat(on) => s.(onRepeat := on)
    case Check => s.(pc := if s.terminated then Ended else BeforePop)
    case PopTask =>
      if s.queue == [] then s.(pc := Drained, emptyPopAt := |s.pushed|)
      else s.(pc := HasTask(s.queue[0]), queue := s.queue[1..])
    case RunTask =>
      s.(pc := BeforePop, taken := s.taken + [Taken(s.pc.task, s.onTask)])
    case RepeatOrSleep =>
      // SimpleThread::sleep returns at once while the thread is not terminated.
      if s.started && s.onRepeat
      then s.(pc := Top, repeats := s.repeats + [Repeat(|s.taken|, s.emptyPopAt)])
      else s.(pc := Top)
  }

  function Start<T>(): State<T> {
    State([], false, false, false, false, Top, [], [], 0, [])
  }

  ghost predicate Init<T>(s: State<T>) {
    s == Start()
  }

  ghost function TaskLoop<T>(): System<State<T>, Step<T>> {
    System((s: State<T>) => Init(s), (s: State<T>, e: Step<T>) => Enabled(s, e),
           (s: State<T>, e: Step<T>) => Apply(s, e))
  }

  function InHand<T>(pc: Pc<T>): seq<T> {
    if pc.HasTask? then [pc.task] else []
  }

  ghost predicate Inv<T>(s: State<T>) {
    && s.pushed == Tasks(s.taken) + InHand(s.pc) + s.queue
    && s.emptyPopAt <= |s.taken|
    && (s.pc.Drained? ==> s.emptyPopAt == |s.taken|)
    && (forall r <- s.repeats :: r.taken == r.pushedBeforePop <= |s.taken|)
  }

  lemma NextInHand<T>(taken: seq<T>, queue: seq<T>)
    requires queue != []
    ensures taken + [] + queue == taken + [queue[0]] + queue[1..]
  {
  }

  lemma StepKeepsInv<T>(s: State<T>, step: Step<T>)
    requires Inv(s) && Enabled(s, step)
    ensures Inv(Apply(s, step))
    ensures s.taken <= Apply(s, step).taken && s.pushed <= Apply(s, step).pushed
  {
    match step
    case Add(task) =>
      AppendAssociates(Tasks(s.taken) + InHand(s.pc), s.queue, [task]);
    case PopTask =>
      if s.queue != [] { NextInHand(Tasks(s.taken), s.queue); }
    case RunTask =>
      RunKeepsInv(s);
    case _ =>
  }

  lemma RunKeepsInv<T>(s: State<T>)
    requires Inv(s) && s.pc.HasTask?
    ensures Inv(Apply(s, RunTask))
    ensures s.taken <= Apply(s, RunTask).taken && s.pushed <= Apply(s, RunTask).pushed
  {
    TakeOne(s.taken, Taken(s.pc.task, s.onTask));
  }

  /** In every run the tasks are taken once each, in the order they were pushed. */
  lemma TakenInOrder<T(!new)>(s: State<T>)
    requires Reachable(TaskLoop(), s)
    ensures Tasks(s.taken) <= s.pushed
    ensures s.pushed == Tasks(s.taken) + InHand(s.pc) + s.queue
    ensures Inv(s)
  {
    forall s0: State<T>, e: Step<T> | Inv(s0) && Enabled(s0, e) ensures Inv(Apply(s0, e)) {
      StepKeepsInv(s0, e);
    }
    Invariant(TaskLoop<T>(), (s0: State<T>) => Inv(s0), s);
  }

  /** Whenever `on_repeat_` has been called, the tasks taken until then were exactly those that had
      been pushed before the preceding empty pop. */
  lemma RepeatSeesAllTasks<T(!new)>(s: State<T>, k: nat)
    requires Reachable(TaskLoop(), s) && k < |s.repeats|
    ensures var r := s.repeats[k];
            && r.taken <= |s.taken| && r.pushedBeforePop <= |s.pushed|
            && Tasks(s.taken[..r.taken]) == s.pushed[..r.pushedBeforePop]
  {
    TakenInOrder(s);
    var r := s.repeats[k];
    assert r in s.repeats;
    assert Tasks(s.taken[..r.taken]) == Tasks(s.taken)[..r.taken];
  }

  // ---- repeats only while started, with a handler ----

  /** No repeat will come for want of a start, or of a handler. */
  ghost predicate Still<T>(s: State<T>, run: seq<Step<T>>) {
    || (!s.started && forall step <- run :: step != SetStarted(true))
    || (!s.onRepeat && forall step <- run :: step != SetOnRepeat(true))
  }

  /** While the scheduler stays stopped, or no repeat handler is set, none is called. */
  lemma {:induction false} NoRepeatWhileStill<T>(s: State<T>, run: seq<Step<T>>)
    requires Still(s, run) && Legal(TaskLoop(), s, run)
    ensures After(TaskLoop(), s, run).repeats == s.repeats
    decreases run
  {
    if run != [] {
      assert run[0] in run && forall step <- run[1..] :: step in run;
      NoRepeatWhileStill(Apply(s, run[0]), run[1..]);
    }
  }

  /** While it stays started with a handler, each round of the thread calls it once. */
  lemma {:induction false} RepeatEachRound<T>(s: State<T>, run: seq<Step<T>>)
    requires s.started && s.onRepeat && Legal(TaskLoop(), s, run)
    requires forall step <- run :: step != SetStarted(false) && step != SetOnRepeat(false)
    ensures |After(TaskLoop(), s, run).repeats| == |s.repeats| + Rounds(run)
    decreases run
  {
    if run != [] {
      assert run[0] in run && forall step <- run[1..] :: step in run;
      RepeatEachRound(Apply(s, run[0]), run[1..]);
    }
  }

  /** How often the thread comes to the end of its loop's body. */
  function Rounds<T>(run: seq<Step<T>>): nat {
    if run == [] then 0 else (if run[0].RepeatOrSleep? then 1 else 0) + Rounds(run[1..])
  }

  // ---- tasks are executed only while a handler is set ----

  predicate HandlerAtEveryTask<T>(s: State<T>, run: seq<Step<T>>)
    decreases |run|
  {
    run == [] || ((run[0].RunTask? ==> s.onTask) && HandlerAtEveryTask(Apply(s, run[0]), run[1..]))
  }

  lemma StepLosesOrNot<T>(s: State<T>, step: Step<T>)
    requires Enabled(s, step)
    ensures NoneLost(Apply(s, step).taken) <==> NoneLost(s.taken) && (step.RunTask? ==> s.onTask)
  {
    if step.RunTask? { TakeOne(s.taken, Taken(s.pc.task, s.onTask)); }
  }

  /** A run loses no task exactly if a handler is set at each of its tasks. */
  lemma {:induction false} NoneLostIffHandlerSet<T>(s: State<T>, run: seq<Step<T>>)
    requires Legal(TaskLoop(), s, run)
    ensures NoneLost(After(TaskLoop(), s, run).taken) <==> NoneLost(s.taken) && HandlerAtEveryTask(s, run)
    decreases run
  {
    if run != [] {
      StepLosesOrNot(s, run[0]);
      NoneLostIffHandlerSet(Apply(s, run[0]), run[1..]);
    }
  }

  lemma {:induction false} SetStaysSet<T>(s: State<T>, run: seq<Step<T>>)
    requires s.onTask && forall step <- run :: step != SetOnTask(false)
    ensures HandlerAtEveryTask(s, run)
    decreases run
  {
    if run != [] {
      assert run[0] in run && forall step <- run[1..] :: step in run;
      SetStaysSet(Apply(s, run[0]), run[1..]);
    }
  }

  /** While the handler stays set, what was pushed has been executed, is in hand or still waits. */
  lemma NothingLostWhileSet<T(!new)>(s: State<T>, run: seq<Step<T>>)
    requires Inv(s) && Legal(TaskLoop(), s, run)
    requires s.onTask && NoneLost(s.taken) && forall step <- run :: step != SetOnTask(false)
    ensures var s' := After(TaskLoop(), s, run);
            s'.pushed == Executed(s'.taken) + InHand(s'.pc) + s'.queue
  {
    SetStaysSet(s, run);
    NoneLostIffHandlerSet(s, run);
    InvAfter(s, run);
  }

  lemma InvAfter<T(!new)>(s: State<T>, run: seq<Step<T>>)
    requires Inv(s) && Legal(TaskLoop(), s, run)
    ensures Inv(After(TaskLoop(), s, run))
  {
    forall s0: State<T>, e: Step<T> | Inv(s0) && Enabled(s0, e) ensures Inv(Apply(s0, e)) {
      StepKeepsInv(s0, e);
    }
    KeptByRun(TaskLoop<T>(), (s0: State<T>) => Inv(s0), s, run);
  }

  // ---- which callers may lose a task ----

  /** What the other threads do in a run. */
  function Callers<T>(run: seq<Step<T>>): seq<Step<T>> {
    if run == [] then [] else (if run[0].ByOthers() then [run[0]] else []) + Callers(run[1..])
  }

  /** From the first add on, at each moment between two calls, a handler is set.  `added` and `set`
      say how it stands before the calls. */
  predicate AlwaysSet<T>(calls: seq<Step<T>>, added: bool, set': bool) {
    && (added ==> set')
    && (calls != [] ==>
          AlwaysSet(calls[1..], added || calls[0].Add?, if calls[0].SetOnTask? then calls[0].on else set'))
  }

  lemma StepKeepsSet<T>(s: State<T>, step: Step<T>, calls: seq<Step<T>>, later: seq<Step<T>>)
    requires Inv(s) && Enabled(s, step) && AlwaysSet(calls, s.pushed != [], s.onTask)
    requires calls == (if step.ByOthers() then [step] else []) + later
    ensures AlwaysSet(later, Apply(s, step).pushed != [], Apply(s, step).onTask)
    ensures step.RunTask? ==> s.onTask
  {
    if step.ByOthers() {
      assert calls[0] == step && calls[1..] == later;
    } else {
      assert calls == later;
    }
    assert step.RunTask? ==> s.pushed != [];
  }

  lemma {:induction false} AlwaysSetIsEnough<T>(s: State<T>, run: seq<Step<T>>)
    requires Inv(s) && Legal(TaskLoop(), s, run) && AlwaysSet(Callers(run), s.pushed != [], s.onTask)
    ensures HandlerAtEveryTask(s, run)
    decreases run
  {
    if run != [] {
      StepKeepsInv(s, run[0]);
      StepKeepsSet(s, run[0], Callers(run), Callers(run[1..]));
      AlwaysSetIsEnough(Apply(s, run[0]), run[1..]);
    }
  }

  /** Other threads can always go on. */
  lemma {:induction false} CallersGoOn<T>(s: State<T>, calls: seq<Step<T>>)
    requires forall step <- calls :: step.ByOthers()
    ensures Legal(TaskLoop(), s, calls) && Callers(calls) == calls
    decreases calls
  {
    if calls != [] {
      assert calls[0] in calls;
      CallersGoOn(Apply(s, calls[0]), calls[1..]);
    }
  }

  lemma LoseNow<T>(s: State<T>, calls: seq<Step<T>>) returns (run: seq<Step<T>>)
    requires s.pc.BeforePop? && s.queue != [] && !s.onTask && forall step <- calls :: step.ByOthers()
    ensures Legal(TaskLoop(), s, run) && Callers(run) == calls && !HandlerAtEveryTask(s, run)
  {
    var s1 := Apply(s, PopTask);
    var more: seq<Step<T>> := [RunTask] + calls;
    CallersGoOn(Apply(s1, RunTask), calls);
    assert more[1..] == calls;
    assert Legal(TaskLoop(), s1, more) && Callers(more) == calls && !HandlerAtEveryTask(s1, more);
    run := [PopTask] + more;
    assert run[1..] == more;
  }

  /** The thread is about to pop, and bides its time until a task is there and no handler is set. */
  lemma {:induction false} LosingRun<T>(s: State<T>, calls: seq<Step<T>>) returns (run: seq<Step<T>>)
    requires s.pc.BeforePop? && s.queue == s.pushed && forall step <- calls :: step.ByOthers()
    requires !AlwaysSet(calls, s.pushed != [], s.onTask)
    ensures Legal(TaskLoop(), s, run) && Callers(run) == calls && !HandlerAtEveryTask(s, run)
    decreases calls
  {
    if s.pushed != [] && !s.onTask {
      run := LoseNow(s, calls);
    } else {
      assert calls[0] in calls;
      var rest := LosingRun(Apply(s, calls[0]), calls[1..]);
      run := [calls[0]] + rest;
      assert run[1..] == rest;
    }
  }

  /** Whatever the thread's pace, no task is lost, exactly if the callers keep a handler set from the
      first add on. */
  lemma NeverLostIffAlwaysSet<T(!new)>(calls: seq<Step<T>>)
    requires forall step <- calls :: step.ByOthers()
    ensures (forall run: seq<Step<T>> :: Legal(TaskLoop(), Start(), run) && Callers(run) == calls
                                         ==> NoneLost(After(TaskLoop(), Start(), run).taken))
            <==> AlwaysSet(calls, false, false)
  {
    var s: State<T> := Start();
    forall run: seq<Step<T>> | Legal(TaskLoop(), s, run) && Callers(run) == calls
      ensures NoneLost(After(TaskLoop(), s, run).taken) <==> HandlerAtEveryTask(s, run)
      ensures AlwaysSet(calls, false, false) ==> HandlerAtEveryTask(s, run)
    {
      NoneLostIffHandlerSet(s, run);
      if AlwaysSet(calls, false, false) { AlwaysSetIsEnough(s, run); }
    }
    if !AlwaysSet(calls, false, false) {
      var rest := LosingRun(Apply(s, Check), calls);
      var run := [Check] + rest;
      assert run[1..] == rest;
      assert Legal(TaskLoop(), s, run) && Callers(run) == calls;
    }
  }

  /** A task pushed and popped before any handler is set is lost. */
  lemma TaskCanBeLost() returns (s: State<int>)
    ensures Reachable(TaskLoop(), s) && s.pushed == [7] && s.queue == [] && s.pc == BeforePop && Executed(s.taken) == []
  {
    s := Start();
    StartReachable(TaskLoop(), s);
    StepReachable(TaskLoop(), s, Add(7));
    s := Apply(s, Add(7));
    StepReachable(TaskLoop(), s, Check);
    s := Apply(s, Check);
    StepReachable(TaskLoop(), s, PopTask);
    s := Apply(s, PopTask);
    StepReachable(TaskLoop(), s, RunTask);
    s := Apply(s, RunTask);
    assert s.taken[..0] == [];
  }

  // ---- the code ----

  /** The object itself; `log` is the state of the whole system, `run` all its steps so far, and
      every method up to `ThreadRepeat` is one of them. */
  class Scheduler<T(!new)> {
    var started: bool
    var terminated: bool
    var onTask: bool
    var onRepeat: bool
    const queue: ThreadQueue<T>
    ghost var log: State<T>
    ghost var run: seq<Step<T>>

    ghost predicate Valid()
      reads this, queue
    {
      && queue.queue == log.queue && started == log.started && terminated == log.terminated
      && onTask == log.onTask && onRepeat == log.onRepeat
      && Traced()
    }

    ghost predicate Traced()
      reads this
    {
      Legal(TaskLoop(), Start(), run) && After(TaskLoop(), Start(), run) == log
    }

    constructor ()
      ensures Valid() && log == Start() && run == [] && fresh(queue)
    {
      started, terminated, onTask, onRepeat := false, false, false, false;
      queue := new ThreadQueue<T>();
      log, run := Start(), [];
    }

    ghost method Record(step: Step<T>)
      requires Traced() && Enabled(log, step)
      modifies this`log, this`run
      ensures Traced() && log == Apply(old(log), step) && run == old(run) + [step]
    {
      Extend(TaskLoop(), Start(), run, step);
      log, run := Apply(log, step), run + [step];
    }

    method AddTask(task: T)
      requires Valid()
      modifies this`log, this`run, queue
      ensures Valid() && log == Apply(old(log), Add(task)) && run == old(run) + [Add(task)]
      ensures log == old(log).(queue := old(log.queue) + [task], pushed := old(log.pushed) + [task])
    {
      queue.Push(task);
      Record(Add(task));
    }

    method SetStarted(value: bool)
      requires Valid()
      modifies this`started, this`log, this`run
      ensures Valid() && log == Apply(old(log), Step.SetStarted(value)) && run == old(run) + [Step.SetStarted(value)]
      ensures log == old(log).(started := value)
    {
      started := value;
      Record(Step.SetStarted(value));
    }

    method Terminate()
      requires Valid()
      modifies this`terminated, this`log, this`run
      ensures Valid() && log == Apply(old(log), Step.Terminate) && run == old(run) + [Step.Terminate]
      ensures log == old(log).(terminated := true)
    {
      terminated := true;
      Record(Step.Terminate);
    }

    method SetOnTask(value: bool)
      requires Valid()
      modifies this`onTask, this`log, this`run
      ensures Valid() && log == Apply(old(log), Step.SetOnTask(value)) && run == old(run) + [Step.SetOnTask(value)]
      ensures log == old(log).(onTask := value)
    {
      onTask := value;
      Record(Step.SetOnTask(value));
    }

    method SetOnRepeat(value: bool)
      requires Valid()
      modifies this`onRepeat, this`log, this`run
      ensures Valid() && log == Apply(old(log), Step.SetOnRepeat(value)) && run == old(run) + [Step.SetOnRepeat(value)]
      ensures log == old(log).(onRepeat := value)
    {
      onRepeat := value;
      Record(Step.SetOnRepeat(value));
    }

    /** The condition of the outer loop. */
    method ThreadCheck() returns (end: bool)
      requires Valid() && log.pc.Top?
      modifies this`log, this`run
      ensures Valid() && log == Apply(old(log), Check) && run == old(run) + [Check] && end == log.pc.Ended?
      ensures end == old(terminated) && log == old(log).(pc := if end then Ended else BeforePop)
    {
      end := terminated;
      Record(Check);
    }

    /** One pop of the inner loop. */
    method ThreadPop() returns (r: Option<T>)
      requires Valid() && log.pc.BeforePop?
      modifies this`log, this`run, queue
      ensures Valid() && log == Apply(old(log), PopTask) && run == old(run) + [PopTask]
      ensures r == if log.pc.HasTask? then Some(log.pc.task) else None
      ensures r == if old(queue.queue) == [] then None else Some(old(queue.queue)[0])
      ensures r.Some? ==> log == old(log).(pc := HasTask(r.value), queue := old(log.queue)[1..])
      ensures r == None ==> log == old(log).(pc := Drained, emptyPopAt := |old(log.pushed)|)
    {
      r := queue.Pop();
      Record(PopTask);
    }

    /** The body of the inner loop: the task reaches the handler if there is one. */
    method ThreadRun(task: T) returns (executed: bool)
      requires Valid() && log.pc == HasTask(task)
      modifies this`log, this`run
      ensures Valid() && log == Apply(old(log), RunTask) && run == old(run) + [RunTask]
      ensures executed == old(onTask)
      ensures log == old(log).(pc := BeforePop, taken := old(log.taken) + [Taken(task, executed)])
    {
      executed := onTask;
      Record(RunTask);
    }

    /** After the inner loop: `on_repeat_`, or a sleep that does nothing. */
    method ThreadRepeat() returns (repeated: bool)
      requires Valid() && log.pc.Drained?
      modifies this`log, this`run
      ensures Valid() && log == Apply(old(log), RepeatOrSleep) && run == old(run) + [RepeatOrSleep]
      ensures repeated <==> old(started) && old(onRepeat)
      ensures log == old(log).(pc := Top, repeats := old(log.repeats) +
                                 if repeated then [Repeat(|log.taken|, log.emptyPopAt)] else [])
    {
      repeated := started && onRepeat;
      Record(RepeatOrSleep);
    }

    /** One call of another thread. */
    method Call(step: Step<T>)
      requires Valid() && step.ByOthers()
      modifies this, queue
      ensures Valid() && log == Apply(old(log), step) && run == old(run) + [step] && Passed(old(log), log)
    {
      match step
      case Add(task) => AddTask(task);
      case SetStarted(on) => SetStarted(on);
      case Terminate => Terminate();
      case SetOnTask(on) => SetOnTask(on);
      case SetOnRepeat(on) => SetOnRepeat(on);
    }

    /** The calls that come before the thread's next step. */
    method Interleave(others: seq<seq<Step<T>>>, k: nat)
      requires Valid() && AllByOthers(others)
      modifies this, queue
      ensures Valid() && Passed(old(log), log) && run == old(run) + At(others, k)
      ensures k >= |others| ==> log == old(log)
    {
      if k >= |others| { return; }
      var calls := others[k];
      for i := 0 to |calls|
        invariant Valid() && Passed(old(log), log) && run == old(run) + calls[..i]
      {
        assert calls[i] in calls && calls in others;
        Call(calls[i]);
      }
    }

    /** One turn of the outer loop of the thread, in any interleaving: `others[k]` is what other
        threads do before its `k`th step, and when the list is used up they do nothing more.  The
        thread's own steps are a check, and then, unless that ends it, pops with a run of the task
        between any two, until one finds nothing, and the repeat.  Such a turn takes every task that
        was pushed before it. */
    method ThreadTurn(others: seq<seq<Step<T>>>) returns (end: bool, ghost own: seq<Step<T>>)
      requires Valid() && log.pc.Top? && AllByOthers(others)
      modifies this, queue
      ensures Valid() && run == old(run) + Woven(others, own) && old(log.pushed) <= log.pushed
      ensures if end then own == [Check] && log.pc.Ended? && log.terminated && log.taken == old(log.taken)
              else log.pc.Top? && |old(log.pushed)| <= |log.taken|
                   && |log.taken| >= |old(log.taken)| && own == TurnOf(|log.taken| - |old(log.taken)|)
    {
      Interleave(others, 0);
      end := ThreadCheck();
      own := [Check];
      WovenMore(others, [], Check);
      if !end {
        own := ThreadTasks(others, old(run));
      }
    }

    /** The turn after its check. */
    method ThreadTasks(others: seq<seq<Step<T>>>, ghost start: seq<Step<T>>) returns (ghost own: seq<Step<T>>)
      requires Valid() && log.pc.BeforePop? && AllByOthers(others) && run == start + Woven(others, [Check])
      modifies this, queue
      ensures Valid() && run == start + Woven(others, own) && old(log.pushed) <= log.pushed
      ensures log.pc.Top? && |old(log.pushed)| <= |log.taken|
      ensures |log.taken| >= |old(log.taken)| && own == TurnOf(|log.taken| - |old(log.taken)|)
    {
      var t := ThreadNext(others, 1, start, [Check]);
      ghost var n: nat := 0;
      var k: nat := 2;
      while t != None
        invariant Valid() && old(log.pushed) <= log.pushed && |log.taken| == |old(log.taken)| + n
        invariant k == 2 * n + 2 == |[Check] + Pops<T>(n)| && run == start + Woven(others, [Check] + Pops(n))
        invariant log.pc == if t.Some? then HasTask(t.value) else Drained
        invariant t == None ==> log.emptyPopAt >= |old(log.pushed)|
        decreases if k < |others| then |others| - k else 0, |queue.queue| + if t.Some? then 1 else 0
      {
        t := ThreadRunAndPop(t.value, others, k, start, n);
        k, n := k + 2, n + 1;
      }
      ThreadFinish(others, k, start, n);
      own := TurnOf(n);
    }

    /** A pop of the inner loop, in its interleaving. */
    method ThreadNext(others: seq<seq<Step<T>>>, k: nat, ghost start: seq<Step<T>>, ghost own: seq<Step<T>>)
      returns (t: Option<T>)
      requires Valid() && log.pc.BeforePop? && AllByOthers(others)
      requires k == |own| && run == start + Woven(others, own)
      modifies this, queue
      ensures Valid() && run == start + Woven(others, own + [PopTask])
      ensures old(log.pushed) <= log.pushed && log.taken == old(log.taken)
      ensures log.pc == if t.Some? then HasTask(t.value) else Drained
      ensures t == None ==> log.emptyPopAt == |log.pushed|
      ensures k >= |others| ==> |queue.queue| + (if t.Some? then 1 else 0) == |old(queue.queue)|
    {
      Interleave(others, k);
      t := ThreadPop();
      WovenAfter(start, others, own, PopTask);
    }

    /** What comes after the inner loop. */
    method ThreadFinish(others: seq<seq<Step<T>>>, k: nat, ghost start: seq<Step<T>>, ghost n: nat)
      requires Valid() && log.pc.Drained? && AllByOthers(others)
      requires k == |[Check] + Pops<T>(n)| && run == start + Woven(others, [Check] + Pops(n))
      modifies this, queue
      ensures Valid() && run == start + Woven(others, TurnOf(n))
      ensures old(log.pushed) <= log.pushed && log.taken == old(log.taken)
      ensures log.pc.Top? && |log.taken| == old(log.emptyPopAt)
    {
      Interleave(others, k);
      InvAfter(Start(), run);
      var _ := ThreadRepeat();
      WovenAfter(start, others, [Check] + Pops(n), RepeatOrSleep);
    }

    /** The body of the inner loop. */
    method ThreadRunAndPop(task: T, others: seq<seq<Step<T>>>, k: nat, ghost start: seq<Step<T>>, ghost n: nat)
      returns (t: Option<T>)
      requires Valid() && log.pc == HasTask(task) && AllByOthers(others)
      requires k == |[Check] + Pops<T>(n)| && run == start + Woven(others, [Check] + Pops(n))
      modifies this, queue
      ensures Valid() && run == start + Woven(others, [Check] + Pops(n + 1))
      ensures old(log.pushed) <= log.pushed && |log.taken| == |old(log.taken)| + 1
      ensures log.pc == if t.Some? then HasTask(t.value) else Drained
      ensures t == None ==> log.emptyPopAt == |log.pushed|
      ensures k >= |others| ==> |queue.queue| + (if t.Some? then 1 else 0) == |old(queue.queue)|
    {
      Interleave(others, k);
      var _ := ThreadRun(task);
      WovenAfter(start, others, [Check] + Pops(n), RunTask);
      t := ThreadNext(others, k + 1, start, [Check] + Pops(n) + [RunTask]);
      PopsMore<T>(n);
    }

    /** The thread, for as many turns as there are schedules for. */
    method ThreadExecute(turns: seq<seq<seq<Step<T>>>>) returns (end: bool, ghost owns: seq<seq<Step<T>>>)
      requires Valid() && log.pc.Top? && forall others <- turns :: AllByOthers(others)
      modifies this, queue
      ensures Valid() && |owns| <= |turns| && run == old(run) + WovenAll(turns, owns)
      ensures if end then log.pc.Ended? && log.terminated
              else log.pc.Top? && |owns| == |turns| && (turns != [] ==> |old(log.pushed)| <= |log.taken|)
    {
      owns := [];
      for i := 0 to |turns|
        invariant Valid() && log.pc.Top? && old(log.pushed) <= log.pushed
        invariant |owns| == i && run == old(run) + WovenAll(turns, owns)
        invariant i > 0 ==> |old(log.pushed)| <= |log.taken|
      {
        assert turns[i] in turns;
        ghost var own;
        end, own := ThreadTurn(turns[i]);
        WovenTurn(old(run), turns, owns, own);
        owns := owns + [own];
        if end { return; }
      }
      end := false;
    }
  }

  /** What other threads do before the thread's `k`th step. */
  function At<T>(others: seq<seq<Step<T>>>, k: nat): seq<Step<T>> {
    if k < |others| then others[k] else []
  }

  /** The thread's own steps, each after the calls that come before it. */
  function Woven<T>(others: seq<seq<Step<T>>>, own: seq<Step<T>>): seq<Step<T>> {
    if own == [] then []
    else Woven(others, own[..|own| - 1]) + At(others, |own| - 1) + [own[|own| - 1]]
  }

  function WovenAll<T>(turns: seq<seq<seq<Step<T>>>>, owns: seq<seq<Step<T>>>): seq<Step<T>>
    requires |owns| <= |turns|
  {
    if owns == [] then []
    else WovenAll(turns, owns[..|owns| - 1]) + Woven(turns[|owns| - 1], owns[|owns| - 1])
  }

  /** The steps of an inner loop that runs `n` tasks, and of the turn around it. */
  function Pops<T>(n: nat): (own: seq<Step<T>>)
    ensures |own| == 2 * n + 1
  {
    if n == 0 then [PopTask] else Pops(n - 1) + [RunTask, PopTask]
  }

  function TurnOf<T>(n: nat): seq<Step<T>> {
    [Check] + Pops(n) + [RepeatOrSleep]
  }

  lemma PopsMore<T>(n: nat)
    ensures [Check] + Pops<T>(n) + [RunTask] + [PopTask] == [Check] + Pops<T>(n + 1)
  {
  }

  lemma WovenMore<T>(others: seq<seq<Step<T>>>, own: seq<Step<T>>, step: Step<T>)
    ensures Woven(others, own + [step]) == Woven(others, own) + At(others, |own|) + [step]
  {
    assert (own + [step])[..|own|] == own;
  }

  lemma WovenAfter<T>(start: seq<Step<T>>, others: seq<seq<Step<T>>>, own: seq<Step<T>>, step: Step<T>)
    ensures start + Woven(others, own) + At(others, |own|) + [step] == start + Woven(others, own + [step])
  {
    WovenMore(others, own, step);
  }

  lemma WovenTurn<T>(start: seq<Step<T>>, turns: seq<seq<seq<Step<T>>>>, owns: seq<seq<Step<T>>>, own: seq<Step<T>>)
    requires |owns| < |turns|
    ensures start + WovenAll(turns, owns) + Woven(turns[|owns|], own) == start + WovenAll(turns, owns + [own])
  {
    assert (owns + [own])[..|owns|] == owns;
    AppendAssociates(start, WovenAll(turns, owns), Woven(turns[|owns|], own));
  }

  /** Steps that are not the thread's lead from `s` to `t`. */
  ghost predicate Passed<T>(s: State<T>, t: State<T>) {
    t.pc == s.pc && t.taken == s.taken && t.emptyPopAt == s.emptyPopAt && t.repeats == s.repeats && s.pushed <= t.pushed
  }

  ghost predicate AllByOthers<T>(others: seq<seq<Step<T>>>) {
    forall calls <- others, step <- calls :: step.ByOthers()
  }
}
