/** The blocking queue of SuspensionQueue.hpp, for any number of threads that push, pop and
    terminate.  Every step below is a region no other thread can come between: a stretch of code
    under the mutex, or a single call to the condition variable outside it. */
module SuspensionQueue {
  import opened Bytes
  import opened Runs

  type Tid = nat

  /** Where a thread stands. */
  datatype Pc =
    | Idle        // outside the queue
    | Pushed      // in push, past the unlock, before notify_all
    | Terminating // in terminate, past setting the flag, before notify_all
    | AboutToWait // in pop, holding the mutex, has seen the queue empty
    | Waiting     // in condition_.wait, not notified
    | Woken       // in condition_.wait, notified, has to get the mutex back

  datatype Entry<T> = Entry(producer: Tid, item: T)

  datatype State<T> = State(
    terminated: bool,
    queue: seq<Entry<T>>,
    threads: map<Tid, Pc>,
    pushed: seq<Entry<T>>,    // everything ever pushed
    delivered: seq<Entry<T>>, // everything ever returned by pop
    empties: nat)             // how often pop has returned without an item

  datatype Step<T> =
    | Push(t: Tid, item: T)
    | SetTerminated(t: Tid)
    | NotifyAll(t: Tid)
    | EnterPop(t: Tid) // lock, look at the queue
    | Wait(t: Tid)     // release the mutex and become a waiter, at once
    | SpuriousWake(t: Tid)
    | LeaveWait(t: Tid) // get the mutex back, look at the flag, look at the queue

  ghost predicate Is<T>(s: State<T>, t: Tid, pc: Pc) {
    t in s.threads && s.threads[t] == pc
  }

  /** A thread about to wait holds the mutex; in all other places it is free. */
  ghost predicate MutexFree<T>(s: State<T>) {
    forall t :: !Is(s, t, AboutToWait)
  }

  ghost predicate Enabled<T>(s: State<T>, step: Step<T>) {
    match step
    case Push(t, _) => Is(s, t, Idle) && MutexFree(s)
    case SetTerminated(t) => Is(s, t, Idle)
    case NotifyAll(t) => Is(s, t, Pushed) || Is(s, t, Terminating)
    case EnterPop(t) => Is(s, t, Idle) && MutexFree(s)
    case Wait(t) => Is(s, t, AboutToWait)
    case SpuriousWake(t) => Is(s, t, Waiting)
    case LeaveWait(t) => Is(s, t, Woken) && MutexFree(s)
  }

  function WakeAll(threads: map<Tid, Pc>): map<Tid, Pc> {
    map t | t in threads :: if threads[t] == Waiting then Woken else threads[t]
  }

  function At<T>(s: State<T>, t: Tid, pc: Pc): State<T> {
    s.(threads := s.threads[t := pc])
  }

  function TakeOrWait<T>(s: State<T>, t: Tid): State<T> {
    if s.queue == [] then At(s, t, AboutToWait)
    else At(s.(queue := s.queue[1..], delivered := s.delivered + [s.queue[0]]), t, Idle)
  }

  function Apply<T>(s: State<T>, step: Step<T>): State<T> {
    match step
    case Push(t, item) =>
      At(s.(queue := s.queue + [Entry(t, item)], pushed := s.pushed + [Entry(t, item)]), t, Pushed)
    case SetTerminated(t) => At(s.(terminated := true), t, Terminating)
    case NotifyAll(t) => At(s.(threads := WakeAll(s.threads)), t, Idle)
    case EnterPop(t) => TakeOrWait(s, t)
    case Wait(t) => At(s, t, Waiting)
    case SpuriousWake(t) => At(s, t, Woken)
    case LeaveWait(t) =>
      if s.terminated then At(s.(empties := s.empties + 1), t, Idle) else TakeOrWait(s, t)
  }

  ghost predicate Init<T>(s: State<T>) {
    && !s.terminated && s.queue == s.pushed == s.delivered == [] && s.empties == 0
    && forall t <- s.threads :: s.threads[t] == Idle
  }

  ghost function Queue<T>(): System<State<T>, Step<T>> {
    System((s: State<T>) => Init(s), (s: State<T>, e: Step<T>) => Enabled(s, e),
           (s: State<T>, e: Step<T>) => Apply(s, e))
  }

  // ---- what every step keeps ----

  ghost predicate Conserved<T>(s: State<T>) {
    s.pushed == s.delivered + s.queue
  }

  ghost predicate Somebody<T>(s: State<T>, pc: Pc) {
    exists t :: Is(s, t, pc)
  }

  /** A waiter that nobody has notified and a non-empty queue mean that a push is still to notify. */
  ghost predicate NoLostWakeUp<T>(s: State<T>) {
    s.queue != [] && Somebody(s, Waiting) ==> Somebody(s, Pushed)
  }

  ghost predicate Inv<T>(s: State<T>) {
    && Conserved(s)
    && (s.empties > 0 ==> s.terminated)
    && NoLostWakeUp(s)
    && (Somebody(s, AboutToWait) ==> s.queue == [])
    && (forall t, t' :: Is(s, t, AboutToWait) && Is(s, t', AboutToWait) ==> t == t')
  }

  lemma StepKeepsInv<T>(s: State<T>, step: Step<T>)
    requires Inv(s) && Enabled(s, step)
    ensures Inv(Apply(s, step))
    ensures s.terminated ==> Apply(s, step).terminated
    ensures s.pushed <= Apply(s, step).pushed && s.delivered <= Apply(s, step).delivered
  {
    var s' := Apply(s, step);
    forall u: Tid, pc: Pc | u != step.t && Is(s', u, pc) && !pc.Waiting? && !pc.Woken? ensures Is(s, u, pc) {
      OthersStay(s, step, u, pc);
    }
    if s'.queue != [] && Somebody(s', Waiting) {
      PusherStays(s, step);
    }
    if Somebody(s', AboutToWait) {
      var u :| Is(s', u, AboutToWait);
      assert u == step.t || Is(s, u, AboutToWait);
    }
  }

  lemma OthersStay<T>(s: State<T>, step: Step<T>, u: Tid, pc: Pc)
    requires Enabled(s, step) && u != step.t && Is(Apply(s, step), u, pc)
    ensures Is(s, u, pc) || (step.NotifyAll? && Is(s, u, Waiting) && pc == Woken)
  {
  }

  lemma PusherStays<T>(s: State<T>, step: Step<T>)
    requires Inv(s) && Enabled(s, step)
    requires Apply(s, step).queue != [] && Somebody(Apply(s, step), Waiting)
    ensures Somebody(Apply(s, step), Pushed)
  {
    var s' := Apply(s, step);
    assert step.Wait? ==> Somebody(s, AboutToWait) by { assert step.Wait? ==> Is(s, step.t, AboutToWait); }
    var w :| Is(s', w, Waiting);
    if step.Push? {
      assert Is(s', step.t, Pushed);
    } else {
      assert !step.NotifyAll?;
      assert Is(s, w, Waiting);
      var p :| Is(s, p, Pushed);
      assert Is(s', p, Pushed);
    }
  }

  /** Every reachable state, whatever the interleaving and whenever terminate is called. */
  lemma Safety<T(!new)>(s: State<T>)
    requires Reachable(Queue(), s)
    ensures s.pushed == s.delivered + s.queue
    ensures s.empties > 0 ==> s.terminated
    ensures s.queue != [] && Somebody(s, Waiting) ==> Somebody(s, Pushed)
    ensures Inv(s)
  {
    forall s0: State<T>, e: Step<T> | Inv(s0) && Enabled(s0, e) ensures Inv(Apply(s0, e)) {
      StepKeepsInv(s0, e);
    }
    Invariant(Queue<T>(), (s0: State<T>) => Inv(s0), s);
  }

  /** With no push under way, nobody sleeps on a non-empty queue. */
  lemma NobodySleepsOnItems<T(!new)>(s: State<T>)
    requires Reachable(Queue(), s) && !Somebody(s, Pushed) && s.queue != []
    ensures !Somebody(s, Waiting)
  {
    Safety(s);
  }

  /** Nothing but the mutex, or a wait, ever blocks a thread; and who holds the mutex before a wait can
      always go on and release it. */
  lemma OnlyTheMutexBlocks<T(!new)>(s: State<T>, t: Tid, item: T)
    requires Reachable(Queue(), s)
    ensures Is(s, t, Idle) ==> Enabled(s, SetTerminated(t))
    ensures Is(s, t, Pushed) || Is(s, t, Terminating) ==> Enabled(s, NotifyAll(t))
    ensures MutexFree(s) && Is(s, t, Idle) ==> Enabled(s, Push(t, item)) && Enabled(s, EnterPop(t))
    ensures MutexFree(s) && Is(s, t, Woken) ==> Enabled(s, LeaveWait(t))
    ensures !MutexFree(s) ==> exists u :: Enabled(s, Wait(u)) && MutexFree(Apply(s, Wait(u)))
  {
    Safety(s);
    if !MutexFree(s) {
      var u :| Is(s, u, AboutToWait);
      var s' := Apply(s, Wait(u));
      assert MutexFree(s') by {
        forall w ensures !Is(s', w, AboutToWait) { assert w != u ==> !Is(s, w, AboutToWait); }
      }
      assert Enabled(s, Wait(u));
    }
  }

  // ---- the order of each producer ----

  function From<T>(es: seq<Entry<T>>, p: Tid): seq<Entry<T>> {
    if es == [] then [] else (if es[0].producer == p then [es[0]] else []) + From(es[1..], p)
  }

  lemma {:induction false} FromAppend<T>(a: seq<Entry<T>>, b: seq<Entry<T>>, p: Tid)
    ensures From(a + b, p) == From(a, p) + From(b, p)
  {
    if a == [] {
      assert a + b == b;
    } else {
      FromAppend(a[1..], b, p);
      assert (a + b)[1..] == a[1..] + b;
      var first := if a[0].producer == p then [a[0]] else [];
      assert first + (From(a[1..], p) + From(b, p)) == (first + From(a[1..], p)) + From(b, p);
    }
  }

  /** The items of one producer come out in the order it pushed them. */
  lemma ProducerOrder<T(!new)>(s: State<T>, p: Tid)
    requires Reachable(Queue(), s)
    ensures From(s.pushed, p) == From(s.delivered, p) + From(s.queue, p)
  {
    Safety(s);
    FromAppend(s.delivered, s.queue, p);
  }

  // ---- what pop returns ----

  /** How a stretch of pop ends: with an item, with none, or before a wait. */
  datatype Popped<T> = Item(item: T) | NoItem | MustWait

  /** What a step returns from a pop, if it ends one. */
  function Result<T>(s: State<T>, step: Step<T>): Popped<T> {
    if !step.EnterPop? && !step.LeaveWait? then MustWait
    else if step.LeaveWait? && s.terminated then NoItem
    else if s.queue == [] then MustWait
    else Item(s.queue[0].item)
  }

  /** A pop that returns an item takes it from the front of the queue; one that returns none takes
      nothing; no other step delivers anything.  Nothing but a push puts an item in. */
  lemma StepReturns<T>(s: State<T>, step: Step<T>)
    requires Enabled(s, step)
    ensures var s', r := Apply(s, step), Result(s, step);
            && (r.Item? ==> s.queue != [] && s.queue[0].item == r.item && s'.queue == s.queue[1..]
                            && s'.delivered == s.delivered + [s.queue[0]])
            && (!r.Item? ==> s'.delivered == s.delivered && (step.Push? || s'.queue == s.queue))
            && s'.empties == s.empties + (if r.NoItem? then 1 else 0)
            && (r.NoItem? ==> s.terminated && s'.queue == s.queue && s'.pushed == s.pushed)
            && (r != MustWait <==> Is(s', step.t, Idle) && (step.EnterPop? || step.LeaveWait?))
            && (!step.Push? ==> s'.pushed == s.pushed)
            && (step.Push? ==> s'.queue == s.queue + [Entry(step.t, step.item)]
                               && s'.pushed == s.pushed + [Entry(step.t, step.item)])
  {
  }

  /** What the pops of the threads `ts` return in a run. */
  function Results<T>(s: State<T>, run: seq<Step<T>>, ts: set<Tid>): seq<Popped<T>>
    decreases |run|
  {
    if run == [] then []
    else (if !Result(s, run[0]).MustWait? && run[0].t in ts then [Result(s, run[0])] else [])
         + Results(Apply(s, run[0]), run[1..], ts)
  }

  function ItemsOf<T>(rs: seq<Popped<T>>): seq<T> {
    if rs == [] then [] else (if rs[0].Item? then [rs[0].item] else []) + ItemsOf(rs[1..])
  }

  function Empties<T>(rs: seq<Popped<T>>): nat {
    if rs == [] then 0 else (if rs[0].NoItem? then 1 else 0) + Empties(rs[1..])
  }

  ghost predicate HasItems<T>(es: seq<Entry<T>>, items: seq<T>) {
    |es| == |items| && forall i :: 0 <= i < |es| ==> es[i].item == items[i]
  }

  /** Over every run, the items that pops return are those delivered, in that order, and as many pops
      return none as are counted.  `ts` are all threads of the run. */
  lemma {:induction false} ReturnedIsDelivered<T>(s: State<T>, run: seq<Step<T>>, ts: set<Tid>)
    requires Legal(Queue(), s, run) && forall step <- run :: step.t in ts
    ensures var s', rs := After(Queue(), s, run), Results(s, run, ts);
            && s.delivered <= s'.delivered && HasItems(s'.delivered[|s.delivered|..], ItemsOf(rs))
            && s'.empties == s.empties + Empties(rs)
    decreases run
  {
    if run != [] {
      assert run[0] in run && forall step <- run[1..] :: step in run;
      StepReturns(s, run[0]);
      ReturnedIsDelivered(Apply(s, run[0]), run[1..], ts);
      MoreReturned(s, run[0], After(Queue(), s, run), Results(Apply(s, run[0]), run[1..], ts));
    }
  }

  lemma MoreReturned<T>(s: State<T>, step: Step<T>, s': State<T>, rs: seq<Popped<T>>)
    requires Enabled(s, step)
    requires var s1 := Apply(s, step);
             && s1.delivered <= s'.delivered && HasItems(s'.delivered[|s1.delivered|..], ItemsOf(rs))
             && s'.empties == s1.empties + Empties(rs)
    ensures var all := (if Result(s, step).MustWait? then [] else [Result(s, step)]) + rs;
            && s.delivered <= s'.delivered && HasItems(s'.delivered[|s.delivered|..], ItemsOf(all))
            && s'.empties == s.empties + Empties(all)
  {
    StepReturns(s, step);
    var r := Result(s, step);
    if r.MustWait? {
      assert [] + rs == rs;
    } else {
      assert ([r] + rs)[1..] == rs;
      assert r.Item? ==> s'.delivered[|s.delivered|..] == [s.queue[0]] + s'.delivered[|s.delivered| + 1..];
    }
  }

  lemma {:induction false} ResultsConcat<T>(s: State<T>, run: seq<Step<T>>, more: seq<Step<T>>, ts: set<Tid>)
    ensures Results(s, run + more, ts) == Results(s, run, ts) + Results(After(Queue(), s, run), more, ts)
    decreases run
  {
    if run == [] {
      assert run + more == more;
    } else {
      ResultsConcat(Apply(s, run[0]), run[1..], more, ts);
      assert (run + more)[1..] == run[1..] + more;
      var first := if !Result(s, run[0]).MustWait? && run[0].t in ts then [Result(s, run[0])] else [];
      AppendAssociates(first, Results(Apply(s, run[0]), run[1..], ts), Results(After(Queue(), s, run), more, ts));
    }
  }

  // ---- liveness, as far as it goes ----

  /** From every reachable state in which there is an item and a thread inside pop, two steps
      without any spurious wake-up suffice to let a pop return. */
  lemma PopCanReturn<T(!new)>(s: State<T>, c: Tid) returns (run: seq<Step<T>>)
    requires Reachable(Queue(), s) && s.queue != []
    requires Is(s, c, Waiting) || Is(s, c, Woken)
    ensures |run| <= 2 && Legal(Queue(), s, run) && forall step <- run :: !step.SpuriousWake?
    ensures var s' := After(Queue(), s, run);
            s'.delivered == s.delivered + [s.queue[0]] || s'.empties == s.empties + 1
  {
    Safety(s);
    assert MutexFree(s);
    if Is(s, c, Woken) {
      Extend(Queue(), s, [], LeaveWait(c));
      run := [] + [LeaveWait(c)];
    } else {
      assert Somebody(s, Waiting);
      var p :| Is(s, p, Pushed);
      var s1 := Apply(s, NotifyAll(p));
      Extend(Queue(), s, [], NotifyAll(p));
      assert MutexFree(s1) by {
        forall t ensures !Is(s1, t, AboutToWait) { assert !Is(s, t, AboutToWait); }
      }
      assert Is(s1, c, Woken);
      run := [] + [NotifyAll(p)];
      Extend(Queue(), s, run, LeaveWait(c));
      run := run + [LeaveWait(c)];
    }
  }

  // ---- terminate ----

  /** Nobody is going to wake the waiters of `s`: no notify_all is under way. */
  ghost predicate Silent<T>(s: State<T>) {
    !Somebody(s, Pushed) && !Somebody(s, Terminating)
  }

  /** Asleep in pop, or bound to be. */
  ghost predicate Asleep<T>(s: State<T>, c: Tid) {
    Is(s, c, Waiting) || Is(s, c, AboutToWait)
  }

  /** Nobody pushes or terminates any more, and nobody wakes up for no reason. */
  ghost predicate Quiet<T>(run: seq<Step<T>>) {
    forall step <- run :: !step.Push? && !step.SetTerminated? && !step.SpuriousWake?
  }

  lemma QuietStep<T>(s: State<T>, step: Step<T>, c: Tid)
    requires Silent(s) && Enabled(s, step) && Quiet([step])
    ensures Silent(Apply(s, step))
    ensures Asleep(s, c) ==> Asleep(Apply(s, step), c)
  {
    var s' := Apply(s, step);
    assert step in [step];
    forall t, pc: Pc | pc == Pushed || pc == Terminating ensures !Is(s', t, pc) {
      assert Is(s', t, pc) ==> Is(s, t, pc);
    }
  }

  /** Once nobody is left to notify, a sleeper sleeps on, and no notification comes up again. */
  lemma {:induction false} SleepersSleepOn<T>(s: State<T>, run: seq<Step<T>>, c: Tid)
    requires Silent(s) && Legal(Queue(), s, run) && Quiet(run)
    ensures Silent(After(Queue(), s, run))
    ensures Asleep(s, c) ==> Asleep(After(Queue(), s, run), c)
    decreases run
  {
    if run != [] {
      assert run[0] in run && forall step <- run[1..] :: step in run;
      QuietStep(s, run[0], c);
      SleepersSleepOn(Apply(s, run[0]), run[1..], c);
    }
  }

  /** `c` is never going to return from pop, however the run goes on. */
  ghost predicate Stranded<T(!new)>(s: State<T>, c: Tid) {
    forall run: seq<Step<T>> :: Legal(Queue(), s, run) && Quiet(run) ==> Asleep(After(Queue(), s, run), c)
  }

  /** A pop on a terminated queue with nobody left to notify never returns exactly if the queue is
      empty at the call. */
  lemma PopAfterTerminate<T(!new)>(s: State<T>, c: Tid)
    requires s.terminated && Silent(s) && Enabled(s, EnterPop(c))
    ensures Stranded(Apply(s, EnterPop(c)), c) <==> s.queue == []
  {
    var s' := Apply(s, EnterPop(c));
    if s.queue == [] {
      forall t, pc: Pc | pc == Pushed || pc == Terminating ensures !Is(s', t, pc) {
        assert Is(s', t, pc) ==> Is(s, t, pc);
      }
      forall run: seq<Step<T>> | Legal(Queue(), s', run) && Quiet(run) ensures Asleep(After(Queue(), s', run), c) {
        SleepersSleepOn(s', run, c);
      }
    } else {
      var none: seq<Step<T>> := [];
      assert Legal(Queue(), s', none) && Quiet(none) && Is(After(Queue(), s', none), c, Idle);
    }
  }

  /** A notification reaches exactly the threads that are already waiting. */
  lemma NotifyWakesWaiters<T>(s: State<T>, t: Tid, c: Tid)
    requires Enabled(s, NotifyAll(t))
    ensures var s' := Apply(s, NotifyAll(t));
            && (Is(s', c, Woken) <==> Is(s, c, Woken) || Is(s, c, Waiting))
            && (Is(s', c, AboutToWait) <==> Is(s, c, AboutToWait))
            && !Is(s', c, Waiting)
  {
  }

  /** The notification of terminate, when it is the last one under way: of the threads inside pop it
      leaves stranded exactly the one that has seen the queue empty and does not wait yet. */
  lemma TerminateReleases<T(!new)>(s: State<T>, t: Tid, c: Tid)
    requires Inv(s) && s.terminated && Is(s, t, Terminating)
    requires forall u :: u != t ==> !Is(s, u, Pushed) && !Is(s, u, Terminating)
    requires Asleep(s, c) || Is(s, c, Woken)
    ensures Stranded(Apply(s, NotifyAll(t)), c) <==> Is(s, c, AboutToWait)
  {
    var s' := Apply(s, NotifyAll(t));
    forall u, pc: Pc | pc == Pushed || pc == Terminating ensures !Is(s', u, pc) {
      assert Is(s', u, pc) ==> u != t && Is(s, u, pc);
    }
    NotifyWakesWaiters(s, t, c);
    StepKeepsInv(s, NotifyAll(t));
    if Is(s, c, AboutToWait) {
      forall run: seq<Step<T>> | Legal(Queue(), s', run) && Quiet(run) ensures Asleep(After(Queue(), s', run), c) {
        SleepersSleepOn(s', run, c);
      }
    } else {
      var run := WokenReturns(s', c);
      assert Legal(Queue(), s', run) && Quiet(run) && Is(After(Queue(), s', run), c, Idle);
    }
  }

  /** A thread that has been woken on a terminated queue can return, as soon as nobody else holds the
      mutex. */
  lemma WokenReturns<T(!new)>(s: State<T>, c: Tid) returns (run: seq<Step<T>>)
    requires Inv(s) && s.terminated && Is(s, c, Woken)
    ensures Legal(Queue(), s, run) && Quiet(run) && Is(After(Queue(), s, run), c, Idle)
  {
    if MutexFree(s) {
      run := WokenReturnsNow(s, c);
      return;
    }
    var holder :| Is(s, holder, AboutToWait);
    var s1 := Apply(s, Wait(holder));
    assert MutexFree(s1) by {
      forall t ensures !Is(s1, t, AboutToWait) { assert t != holder ==> !Is(s, t, AboutToWait); }
    }
    assert Is(s1, c, Woken);
    var last := WokenReturnsNow(s1, c);
    run := [Wait(holder)] + last;
    assert run[1..] == last;
  }

  lemma WokenReturnsNow<T>(s: State<T>, c: Tid) returns (run: seq<Step<T>>)
    requires s.terminated && Is(s, c, Woken) && MutexFree(s)
    ensures Legal(Queue(), s, run) && Quiet(run) && Is(After(Queue(), s, run), c, Idle)
  {
    run := [LeaveWait(c)];
    assert run[1..] == [];
  }

  // Both ways to be stranded do happen: thread 0 terminates the queue, and thread 1 has called pop
  // or is about to.

  function Two(terminated: bool, first: Pc, second: Pc): State<int> {
    State(terminated, [], map[0 := first, 1 := second], [], [], 0)
  }

  lemma SecondEntersPop(terminated: bool, first: Pc)
    requires !first.AboutToWait?
    ensures Enabled(Two(terminated, first, Idle), EnterPop(1))
    ensures Apply(Two(terminated, first, Idle), EnterPop(1)) == Two(terminated, first, AboutToWait)
  {
  }

  lemma SecondWaits(terminated: bool, first: Pc)
    ensures Enabled(Two(terminated, first, AboutToWait), Wait(1))
    ensures Apply(Two(terminated, first, AboutToWait), Wait(1)) == Two(terminated, first, Waiting)
  {
  }

  lemma FirstSetsFlag(second: Pc)
    ensures Enabled(Two(false, Idle, second), SetTerminated(0))
    ensures Apply(Two(false, Idle, second), SetTerminated(0)) == Two(true, Terminating, second)
  {
  }

  lemma FirstNotifies(second: Pc)
    requires !second.Waiting?
    ensures Enabled(Two(true, Terminating, second), NotifyAll(0))
    ensures Apply(Two(true, Terminating, second), NotifyAll(0)) == Two(true, Idle, second)
  {
    var s := Two(true, Terminating, second);
    assert WakeAll(s.threads) == s.threads;
    assert s.threads[0 := Idle] == Two(true, Idle, second).threads;
  }

  lemma TwoReachable(before: State<int>, step: Step<int>, after: State<int>)
    requires Reachable(Queue(), before) && Enabled(before, step) && Apply(before, step) == after
    ensures Reachable(Queue(), after)
  {
    StepReachable(Queue(), before, step);
  }

  lemma FirstTerminates(second: Pc)
    requires !second.Waiting? && Reachable(Queue(), Two(false, Idle, second))
    ensures Reachable(Queue(), Two(true, Idle, second))
  {
    FirstSetsFlag(second);
    TwoReachable(Two(false, Idle, second), SetTerminated(0), Two(true, Terminating, second));
    FirstNotifies(second);
    TwoReachable(Two(true, Terminating, second), NotifyAll(0), Two(true, Idle, second));
  }

  /** The first thread terminates the queue and notifies, then the second calls pop. */
  lemma TerminateCanStrandAConsumer() returns (s: State<int>)
    ensures Reachable(Queue(), s) && s.terminated && Is(s, 1, Waiting) && Silent(s)
  {
    s := Two(true, Idle, Waiting);
    StartReachable(Queue(), Two(false, Idle, Idle));
    FirstTerminates(Idle);
    SecondEntersPop(true, Idle);
    TwoReachable(Two(true, Idle, Idle), EnterPop(1), Two(true, Idle, AboutToWait));
    SecondWaits(true, Idle);
    TwoReachable(Two(true, Idle, AboutToWait), Wait(1), s);
  }

  /** The second thread is in pop already and has seen the queue empty.  Terminate does not take the
      mutex, so it can notify before the second thread waits. */
  lemma TerminateCanMissAConsumer() returns (s: State<int>)
    ensures Reachable(Queue(), s) && s.terminated && Is(s, 1, Waiting) && Silent(s)
  {
    s := Two(true, Idle, Waiting);
    StartReachable(Queue(), Two(false, Idle, Idle));
    SecondEntersPop(false, Idle);
    TwoReachable(Two(false, Idle, Idle), EnterPop(1), Two(false, Idle, AboutToWait));
    FirstTerminates(AboutToWait);
    SecondWaits(true, Idle);
    TwoReachable(Two(true, Idle, AboutToWait), Wait(1), s);
  }

  // ---- the code ----

  /** What other threads, or the condition variable, do while `t` is busy or asleep. */
  ghost predicate Others<T>(steps: seq<Step<T>>, t: Tid) {
    forall step <- steps :: step.t != t || step.SpuriousWake?
  }

  lemma {:induction false} PusherStaysPut<T>(s: State<T>, steps: seq<Step<T>>, t: Tid, pc: Pc)
    requires Legal(Queue(), s, steps) && Others(steps, t) && Is(s, t, pc) && (pc == Pushed || pc == Terminating)
    ensures Is(After(Queue(), s, steps), t, pc)
    decreases steps
  {
    if steps != [] {
      assert steps[0] in steps && forall step <- steps[1..] :: step in steps;
      PusherStaysPut(Apply(s, steps[0]), steps[1..], t, pc);
    }
  }

  /** What happens during the waits of a pop of `t` that stands in `s`: `waits[i]` are the steps of
      the others during the `i`th wait.  Each wait but the one that the list ends in is over when
      `t` has been woken and the mutex is free. */
  ghost predicate Waits<T>(s: State<T>, t: Tid, waits: seq<seq<Step<T>>>)
    decreases |waits|
  {
    if waits == [] then true
    else
      && Is(s, t, AboutToWait) && Others(waits[0], t)
      && Legal(Queue(), Apply(s, Wait(t)), waits[0])
      && var woken := After(Queue(), Apply(s, Wait(t)), waits[0]);
         Enabled(woken, LeaveWait(t)) && Waits(Apply(woken, LeaveWait(t)), t, waits[1..])
  }

  /** The object itself; `log` is the state of the whole system, and `run` all its steps so far.  The
      methods up to `PopWoken` are one step each, and the rest is put together from them. */
  class SuspensionQueue<T> {
    var isTerminated: bool
    var queue: seq<Entry<T>>
    ghost const start: State<T>
    ghost var log: State<T>
    ghost var run: seq<Step<T>>

    ghost predicate Valid()
      reads this
    {
      && isTerminated == log.terminated && queue == log.queue
      && Traced()
    }

    ghost predicate Traced()
      reads this
    {
      Init(start) && Legal(Queue(), start, run) && After(Queue(), start, run) == log
    }

    constructor (ghost threads: map<Tid, Pc>)
      requires forall t <- threads :: threads[t] == Idle
      ensures Valid() && log == start && run == [] && log.threads == threads
    {
      isTerminated, queue := false, [];
      start := State(false, [], threads, [], [], 0);
      log, run := State(false, [], threads, [], [], 0), [];
    }

    ghost method Record(step: Step<T>)
      requires Traced() && Enabled(log, step)
      modifies this`log, this`run
      ensures Traced() && log == Apply(old(log), step) && run == old(run) + [step]
    {
      Extend(Queue(), start, run, step);
      log, run := Apply(log, step), run + [step];
    }

    /** push, up to the unlock */
    method PushLocked(t: Tid, item: T)
      requires Valid() && Is(log, t, Idle) && MutexFree(log)
      modifies this
      ensures Valid() && log == Apply(old(log), Step.Push(t, item)) && run == old(run) + [Step.Push(t, item)]
      ensures log == old(log).(queue := old(log.queue) + [Entry(t, item)], pushed := old(log.pushed) + [Entry(t, item)],
                               threads := old(log.threads)[t := Pushed])
    {
      queue := queue + [Entry(t, item)];
      Record(Step.Push(t, item));
    }

    /** terminate, up to notify_all */
    method SetFlag(t: Tid)
      requires Valid() && Is(log, t, Idle)
      modifies this
      ensures Valid() && log == Apply(old(log), SetTerminated(t)) && run == old(run) + [SetTerminated(t)]
      ensures log == old(log).(terminated := true, threads := old(log.threads)[t := Terminating])
    {
      isTerminated := true;
      Record(SetTerminated(t));
    }

    /** notify_all, which changes no field */
    method Notify(t: Tid)
      requires Valid() && (Is(log, t, Pushed) || Is(log, t, Terminating))
      modifies this`log, this`run
      ensures Valid() && log == Apply(old(log), NotifyAll(t)) && run == old(run) + [NotifyAll(t)]
      ensures log == old(log).(threads := log.threads) && log.threads.Keys == old(log.threads).Keys
      ensures forall u <- log.threads :: log.threads[u] ==
                if u == t then Idle else if old(log.threads)[u].Waiting? then Woken else old(log.threads)[u]
    {
      Record(NotifyAll(t));
    }

    /** pop, up to the wait or to the end */
    method PopLocked(t: Tid) returns (r: Popped<T>)
      requires Valid() && Is(log, t, Idle) && MutexFree(log)
      modifies this
      ensures Valid() && log == Apply(old(log), EnterPop(t)) && run == old(run) + [EnterPop(t)]
      ensures r == if old(queue) == [] then MustWait else Item(old(queue)[0].item)
      ensures r.MustWait? ==> log == old(log).(threads := old(log.threads)[t := AboutToWait])
      ensures r.Item? ==> log == old(log).(queue := old(queue)[1..], delivered := old(log.delivered) + [old(queue)[0]],
                                           threads := old(log.threads)[t := Idle])
    {
      Record(EnterPop(t));
      if |queue| == 0 { return MustWait; }
      r := Item(queue[0].item);
      queue := queue[1..];
    }

    /** The call of condition_.wait, which changes no field. */
    method StartWait(t: Tid)
      requires Valid() && Is(log, t, AboutToWait)
      modifies this`log, this`run
      ensures Valid() && log == Apply(old(log), Wait(t)) && run == old(run) + [Wait(t)]
      ensures log == old(log).(threads := old(log.threads)[t := Waiting])
    {
      Record(Wait(t));
    }

    /** condition_.wait comes back although nobody notified. */
    method WakeSpuriously(t: Tid)
      requires Valid() && Is(log, t, Waiting)
      modifies this`log, this`run
      ensures Valid() && log == Apply(old(log), SpuriousWake(t)) && run == old(run) + [SpuriousWake(t)]
      ensures log == old(log).(threads := old(log.threads)[t := Woken])
    {
      Record(SpuriousWake(t));
    }

    /** pop, from the return of the wait to the next wait or to the end.  A pop that finds the queue
        terminated returns without an item, and takes none. */
    method PopWoken(t: Tid) returns (r: Popped<T>)
      requires Valid() && Is(log, t, Woken) && MutexFree(log)
      modifies this
      ensures Valid() && log == Apply(old(log), LeaveWait(t)) && run == old(run) + [LeaveWait(t)]
      ensures r == if old(isTerminated) then NoItem
                   else if old(queue) == [] then MustWait else Item(old(queue)[0].item)
      ensures r.NoItem? ==> log == old(log).(empties := old(log.empties) + 1, threads := old(log.threads)[t := Idle])
      ensures r.MustWait? ==> log == old(log).(threads := old(log.threads)[t := AboutToWait])
      ensures r.Item? ==> log == old(log).(queue := old(queue)[1..], delivered := old(log.delivered) + [old(queue)[0]],
                                           threads := old(log.threads)[t := Idle])
    {
      Record(LeaveWait(t));
      if isTerminated { return NoItem; }
      if |queue| == 0 { return MustWait; }
      r := Item(queue[0].item);
      queue := queue[1..];
    }

    /** Any one step. */
    method Perform(step: Step<T>)
      requires Valid() && Enabled(log, step)
      modifies this
      ensures Valid() && log == Apply(old(log), step) && run == old(run) + [step]
    {
      match step
      case Push(t, item) => PushLocked(t, item);
      case SetTerminated(t) => SetFlag(t);
      case NotifyAll(t) => Notify(t);
      case EnterPop(t) => var _ := PopLocked(t);
      case Wait(t) => StartWait(t);
      case SpuriousWake(t) => WakeSpuriously(t);
      case LeaveWait(t) => var _ := PopWoken(t);
    }

    method PerformAll(steps: seq<Step<T>>)
      requires Valid() && Legal(Queue(), log, steps)
      modifies this
      ensures Valid() && log == After(Queue(), old(log), steps) && run == old(run) + steps
    {
      for i := 0 to |steps|
        invariant Valid() && run == old(run) + steps[..i]
        invariant Legal(Queue(), log, steps[i..])
        invariant After(Queue(), log, steps[i..]) == After(Queue(), old(log), steps)
      {
        assert steps[i..][1..] == steps[i + 1..];
        assert steps[..i + 1] == steps[..i] + [steps[i]];
        Perform(steps[i]);
      }
    }

    /** All of push; `between` is what others do between its unlock and its notification.  When it
        returns, nobody waits. */
    method Push(t: Tid, item: T, between: seq<Step<T>>)
      requires Valid() && Enabled(log, Step.Push(t, item))
      requires Others(between, t) && Legal(Queue(), Apply(log, Step.Push(t, item)), between)
      modifies this
      ensures Valid() && run == old(run) + [Step.Push(t, item)] + between + [NotifyAll(t)]
      ensures Is(log, t, Idle) && !Somebody(log, Waiting)
    {
      PushLocked(t, item);
      PusherStaysPut(log, between, t, Pushed);
      PerformAll(between);
      Notify(t);
    }

    /** All of terminate, likewise. */
    method Terminate(t: Tid, between: seq<Step<T>>)
      requires Valid() && Enabled(log, SetTerminated(t))
      requires Others(between, t) && Legal(Queue(), Apply(log, SetTerminated(t)), between)
      modifies this
      ensures Valid() && run == old(run) + [SetTerminated(t)] + between + [NotifyAll(t)]
      ensures Is(log, t, Idle) && !Somebody(log, Waiting)
    {
      SetFlag(t);
      PusherStaysPut(log, between, t, Terminating);
      PerformAll(between);
      Notify(t);
    }

    /** All of pop.  If the waits given are not enough, it still waits at the end and has returned
        nothing.  Otherwise what it returns is what this thread has been given in the steps it took:
        the item delivered last, or none, and that only from a terminated queue. */
    method Pop(t: Tid, waits: seq<seq<Step<T>>>) returns (r: Popped<T>, ghost steps: seq<Step<T>>)
      requires Valid() && Enabled(log, EnterPop(t)) && Waits(Apply(log, EnterPop(t)), t, waits)
      modifies this
      ensures Valid() && run == old(run) + steps
      ensures Legal(Queue(), old(log), steps) && After(Queue(), old(log), steps) == log
      ensures if r.MustWait? then Is(log, t, Waiting) else Returned(log, t, r)
      ensures Results(old(log), steps, {t}) == if r.MustWait? then [] else [r]
    {
      r, steps := PopFirst(t);
      var i := 0;
      while r.MustWait? && i < |waits|
        invariant i <= |waits| && Valid() && run == old(run) + steps && Waits(log, t, waits[i..])
        invariant if r.MustWait? then Is(log, t, AboutToWait) else Returned(log, t, r)
        invariant Gives(old(log), steps, log, t, r)
      {
        assert waits[i..][0] == waits[i] && waits[i..][1..] == waits[i + 1..];
        r, steps := WaitAgain(t, waits[i..], old(log), steps, old(run));
        i := i + 1;
      }
      if r.MustWait? {
        steps := WaitOn(t, old(log), steps, old(run));
      }
    }

    /** Another wait of a pop that began in `s` and has taken `before` since. */
    method WaitAgain(t: Tid, waits: seq<seq<Step<T>>>, ghost s: State<T>, ghost before: seq<Step<T>>,
                     ghost run0: seq<Step<T>>)
      returns (r: Popped<T>, ghost steps: seq<Step<T>>)
      requires Valid() && waits != [] && Waits(log, t, waits)
      requires run == run0 + before && Gives(s, before, log, t, MustWait)
      modifies this
      ensures Valid() && run == run0 + steps && Waits(log, t, waits[1..])
      ensures if r.MustWait? then Is(log, t, AboutToWait) else Returned(log, t, r)
      ensures Gives(s, steps, log, t, r)
    {
      ghost var more, mid := [], log;
      r, more := WaitOnce(t, waits);
      GivesLater(s, before, mid, more, log, t, r);
      AppendAssociates(run0, before, more);
      steps := before + more;
    }

    /** A wait that is not over yet. */
    method WaitOn(t: Tid, ghost s: State<T>, ghost before: seq<Step<T>>, ghost run0: seq<Step<T>>)
      returns (ghost steps: seq<Step<T>>)
      requires Valid() && Is(log, t, AboutToWait) && run == run0 + before && Gives(s, before, log, t, MustWait)
      modifies this`log, this`run
      ensures Valid() && run == run0 + steps && Is(log, t, Waiting) && Gives(s, steps, log, t, MustWait)
    {
      OneGives(log, Wait(t));
      GivesLater(s, before, log, [Wait(t)], Apply(log, Wait(t)), t, MustWait);
      StartWait(t);
      AppendAssociates(run0, before, [Wait(t)]);
      steps := before + [Wait(t)];
    }

    method PopFirst(t: Tid) returns (r: Popped<T>, ghost steps: seq<Step<T>>)
      requires Valid() && Enabled(log, EnterPop(t))
      modifies this
      ensures Valid() && run == old(run) + steps && log == Apply(old(log), EnterPop(t))
      ensures if r.MustWait? then Is(log, t, AboutToWait) else Returned(log, t, r)
      ensures Gives(old(log), steps, log, t, r)
    {
      OneGives(log, EnterPop(t));
      r := PopLocked(t);
      steps := [EnterPop(t)];
    }

    /** The body of the loop of pop. */
    method WaitOnce(t: Tid, waits: seq<seq<Step<T>>>) returns (r: Popped<T>, ghost steps: seq<Step<T>>)
      requires Valid() && waits != [] && Waits(log, t, waits)
      modifies this
      ensures Valid() && run == old(run) + steps && Waits(log, t, waits[1..])
      ensures if r.MustWait? then Is(log, t, AboutToWait) else Returned(log, t, r)
      ensures Gives(old(log), steps, log, t, r)
    {
      steps := Sleep(t, waits[0]);
      ghost var woken := log;
      OneGives(log, LeaveWait(t));
      r := PopWoken(t);
      GivesLater(old(log), steps, woken, [LeaveWait(t)], log, t, r);
      AppendAssociates(old(run), steps, [LeaveWait(t)]);
      steps := steps + [LeaveWait(t)];
    }

    /** The wait itself, with what others do meanwhile. */
    method Sleep(t: Tid, others: seq<Step<T>>) returns (ghost steps: seq<Step<T>>)
      requires Valid() && Is(log, t, AboutToWait) && Others(others, t) && Legal(Queue(), Apply(log, Wait(t)), others)
      modifies this
      ensures Valid() && run == old(run) + steps
      ensures log == After(Queue(), Apply(old(log), Wait(t)), others)
      ensures Gives(old(log), steps, log, t, MustWait)
    {
      OneGives(log, Wait(t));
      StartWait(t);
      ghost var asleep := log;
      PerformAll(others);
      OthersReturnNothing(asleep, others, t);
      GivesLater(old(log), [Wait(t)], asleep, others, log, t, MustWait);
      AppendAssociates(old(run), [Wait(t)], others);
      steps := [Wait(t)] + others;
    }
  }

  /** Pop has just returned `r` to `t`. */
  ghost predicate Returned<T>(s: State<T>, t: Tid, r: Popped<T>) {
    && Is(s, t, Idle)
    && (r.Item? ==> s.delivered != [] && s.delivered[|s.delivered| - 1].item == r.item)
    && (r.NoItem? ==> s.terminated && s.empties > 0)
  }

  /** The steps lead from `s` to `s'`, and give `t` the result `r` of one pop, or nothing yet. */
  ghost predicate Gives<T>(s: State<T>, steps: seq<Step<T>>, s': State<T>, t: Tid, r: Popped<T>) {
    && Legal(Queue(), s, steps) && After(Queue(), s, steps) == s'
    && Results(s, steps, {t}) == if r.MustWait? then [] else [r]
  }

  lemma OneGives<T>(s: State<T>, step: Step<T>)
    requires Enabled(s, step)
    ensures Gives(s, [step], Apply(s, step), step.t, Result(s, step))
  {
    assert [step][1..] == [];
  }

  lemma GivesLater<T>(s: State<T>, steps: seq<Step<T>>, s1: State<T>, more: seq<Step<T>>, s2: State<T>,
                      t: Tid, r: Popped<T>)
    requires Gives(s, steps, s1, t, MustWait) && Gives(s1, more, s2, t, r)
    ensures Gives(s, steps + more, s2, t, r)
  {
    Concat(Queue(), s, steps, more);
    ResultsConcat(s, steps, more, {t});
  }

  lemma {:induction false} OthersReturnNothing<T>(s: State<T>, steps: seq<Step<T>>, t: Tid)
    requires Others(steps, t) && Legal(Queue(), s, steps)
    ensures Gives(s, steps, After(Queue(), s, steps), t, MustWait)
    decreases steps
  {
    if steps != [] {
      assert steps[0] in steps && forall step <- steps[1..] :: step in steps;
      OthersReturnNothing(Apply(s, steps[0]), steps[1..], t);
    }
  }
}
