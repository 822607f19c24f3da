/** Tasks that a thread has taken from its queue.  The threads of Worker.hpp and Scheduler.hpp hand a
    task to `on_task_` if it is set at that moment, and delete it either way. */
module TakenTasks {
  /** A task that was taken, and whether a handler was there to run it. */
  datatype Taken<T> = Taken(task: T, handled: bool)

  function Tasks<T>(ts: seq<Taken<T>>): (r: seq<T>)
    ensures |r| == |ts| && forall i :: 0 <= i < |ts| ==> r[i] == ts[i].task
  {
    seq(|ts|, i requires 0 <= i < |ts| => ts[i].task)
  }

  function Executed<T>(ts: seq<Taken<T>>): seq<T> {
    if ts == [] then []
    else Executed(ts[..|ts| - 1]) + if ts[|ts| - 1].handled then [ts[|ts| - 1].task] else []
  }

  lemma {:induction false} ExecutedLength<T>(ts: seq<Taken<T>>)
    ensures |Executed(ts)| <= |ts|
  {
    if ts != [] { ExecutedLength(ts[..|ts| - 1]); }
  }

  /** Everything taken has been executed, in order. */
  ghost predicate NoneLost<T>(ts: seq<Taken<T>>) {
    Executed(ts) == Tasks(ts)
  }

  /** A task that finds no handler is lost for good. */
  lemma TakeOne<T>(ts: seq<Taken<T>>, t: Taken<T>)
    ensures Tasks(ts + [t]) == Tasks(ts) + [t.task]
    ensures Executed(ts + [t]) == Executed(ts) + if t.handled then [t.task] else []
    ensures NoneLost(ts + [t]) <==> NoneLost(ts) && t.handled
  {
    assert (ts + [t])[..|ts|] == ts;
    ExecutedLength(ts);
    assert (Tasks(ts) + [t.task])[..|ts|] == Tasks(ts);
    assert NoneLost(ts + [t]) && t.handled ==> Executed(ts) == (Executed(ts) + [t.task])[..|ts|];
  }
}
