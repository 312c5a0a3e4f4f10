/** The process pool serves its tasks in the order in which it accepted them, in every interleaving. */
module ProcessPoolOrder {
  import opened Wrappers
  import opened ProcessPool

  /** The tasks accepted by the steps so far, in order. */
  function AcceptedBy(steps: seq<Step>): seq<nat> {
    if steps == [] then []
    else
      var last := steps[|steps| - 1];
      AcceptedBy(steps[..|steps| - 1]) + if last.OfSubmission? && last.submit.Enqueue? then [last.t] else []
  }

  function WorkerTask(s: State, w: nat): Option<nat> { if w in s.workers then TaskOf(s.workers[w]) else None }
  function CloserTasks(s: State, c: nat): seq<nat> { if c in s.closers then TasksOf(s.closers[c]) else [] }

  /** The tasks that a step takes from the queue: the one a free worker now has, or those a closer now has that had none. */
  function Taken(before: State, step: Step, after: State): seq<nat> {
    match step
    case OfWorker(w, _) =>
      if WorkerTask(before, w).None? && WorkerTask(after, w).Some? then [WorkerTask(after, w).value] else []
    case OfCloser(c, _) => if CloserTasks(before, c) == [] then CloserTasks(after, c) else []
    case OfSubmission(_, _) => []
  }

  /** The tasks that have left the queue in the first `n` steps, in the order they left. */
  function Departed(run: seq<State>, steps: seq<Step>, n: nat): seq<nat>
    requires n <= |steps| < |run|
  {
    if n == 0 then [] else Departed(run, steps, n - 1) + Taken(run[n - 1], steps[n - 1], run[n])
  }

  lemma WorkerTakesFirst(s: State, w: nat, step: WorkerStep)
    requires WorkerCan(s, w, step)
    ensures Taken(s, OfWorker(w, step), WorkerNext(s, w, step)) + WorkerNext(s, w, step).queue == s.queue
  {
    if step.TakeTask? {
      assert [s.queue[0]] + s.queue[1..] == s.queue;
    }
  }

  lemma CloserTakesAll(s: State, c: nat, step: CloserStep)
    requires CloserCan(s, c, step)
    ensures Taken(s, OfCloser(c, step), CloserNext(s, c, step)) + CloserNext(s, c, step).queue == s.queue
  {
    if step.TakeAll? {
      assert s.queue + [] == s.queue;
    }
  }

  /** A step takes its tasks from the front of the queue and puts an accepted one at its end. */
  lemma StepServesInOrder(s: State, step: Step, accepted: seq<nat>)
    requires Enabled(s, step)
    requires accepted == if step.OfSubmission? && step.submit.Enqueue? then [step.t] else []
    ensures Taken(s, step, Next(s, step)) + Next(s, step).queue == s.queue + accepted
  {
    match step {
      case OfWorker(w, work) => WorkerTakesFirst(s, w, work);
      case OfCloser(c, close) => CloserTakesAll(s, c, close);
      case OfSubmission(t, submit) =>
    }
  }

  lemma Regroup(gone: seq<nat>, queue: seq<nat>, accepted: seq<nat>, taken: seq<nat>, left: seq<nat>)
    requires taken + left == queue + accepted
    ensures (gone + queue) + accepted == (gone + taken) + left
  {
    assert (gone + queue) + accepted == gone + (queue + accepted);
    assert (gone + taken) + left == gone + (taken + left);
  }

  /** First in, first out: at any time the tasks accepted so far are those that have left the queue, followed by the queue. */
  lemma {:induction false} FirstInFirstOut(run: seq<State>, steps: seq<Step>, n: nat)
    requires IsRun(run, steps) && n <= |steps|
    ensures AcceptedBy(steps[..n]) == Departed(run, steps, n) + run[n].queue
  {
    if n > 0 {
      FirstInFirstOut(run, steps, n - 1);
      var step := steps[n - 1];
      var accepted := if step.OfSubmission? && step.submit.Enqueue? then [step.t] else [];
      assert Enabled(run[n - 1], steps[n - 1]) && run[n - 1 + 1] == Next(run[n - 1], steps[n - 1]);
      assert steps[..n][..n - 1] == steps[..n - 1];
      StepServesInOrder(run[n - 1], step, accepted);
      Regroup(Departed(run, steps, n - 1), run[n - 1].queue, accepted, Taken(run[n - 1], step, run[n]), run[n].queue);
    }
  }

  // ----- no task overtakes another -----

  lemma {:induction false} AcceptedStays(run: seq<State>, steps: seq<Step>, n: nat, t: nat)
    requires IsRun(run, steps) && n <= |steps| && t in AcceptedBy(steps[..n])
    ensures TaskAccepted(run[n], t)
  {
    if n > 0 {
      assert Enabled(run[n - 1], steps[n - 1]) && run[n - 1 + 1] == Next(run[n - 1], steps[n - 1]);
      assert steps[..n][..n - 1] == steps[..n - 1];
      if t in AcceptedBy(steps[..n - 1]) {
        AcceptedStays(run, steps, n - 1, t);
      }
    }
  }

  /** No task is accepted twice. */
  lemma {:induction false} AcceptedOnce(run: seq<State>, steps: seq<Step>, n: nat)
    requires IsRun(run, steps) && n <= |steps|
    ensures NoRepeats(AcceptedBy(steps[..n]))
  {
    if n > 0 {
      AcceptedOnce(run, steps, n - 1);
      var last := steps[n - 1];
      assert Enabled(run[n - 1], steps[n - 1]);
      assert steps[..n][..n - 1] == steps[..n - 1];
      if last.OfSubmission? && last.submit.Enqueue? && last.t in AcceptedBy(steps[..n - 1]) {
        AcceptedStays(run, steps, n - 1, last.t);
        assert false;
      }
    }
  }

  /** When a worker starts a task, every task accepted before that one has already left the queue. */
  lemma NeverOvertaken(run: seq<State>, steps: seq<Step>, n: nat, w: nat, i: nat, j: nat)
    requires IsRun(run, steps) && n < |steps| && steps[n].OfWorker? && steps[n].w == w
    requires i < j < |AcceptedBy(steps[..n])|
    requires WorkerTask(run[n], w).None? && WorkerTask(run[n + 1], w) == Some(AcceptedBy(steps[..n])[j])
    ensures AcceptedBy(steps[..n])[i] in Departed(run, steps, n)
  {
    var all, gone := AcceptedBy(steps[..n]), Departed(run, steps, n);
    FirstInFirstOut(run, steps, n);
    AcceptedOnce(run, steps, n);
    assert Enabled(run[n], steps[n]) && run[n + 1] == Next(run[n], steps[n]);
    WorkerTakesFirst(run[n], w, steps[n].work);
    assert run[n].queue[0] == all[j] == all[|gone|];
    assert j == |gone| && all[i] == gone[i];
  }
}
