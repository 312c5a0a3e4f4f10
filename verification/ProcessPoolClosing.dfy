/** When the process pool accepts and refuses a task, and what each kind of close has done when it returns. */
module ProcessPoolClosing {
  import opened ProcessPool
  import opened ProcessPoolOrder

  // ----- what a step leaves alone -----

  lemma WorkerLeaves(s: State, w: nat, step: WorkerStep)
    requires WorkerCan(s, w, step)
    ensures var s' := WorkerNext(s, w, step);
            && s'.submissions == s.submissions && s'.closers == s.closers && s'.workers.Keys == s.workers.Keys
            && s'.closed == s.closed && s'.handles == s.handles
  {
  }

  lemma SubmissionLeaves(s: State, t: nat, step: SubmissionStep)
    requires SubmissionCan(s, t, step)
    ensures var s' := SubmissionNext(s, t, step);
            && s'.workers == s.workers && s'.closers == s.closers && s'.closed == s.closed && s'.handles == s.handles
            && t in s'.submissions
            && s'.submissions == s.submissions[t := s'.submissions[t]]
  {
  }

  lemma CloserLeaves(s: State, c: nat, step: CloserStep)
    requires CloserCan(s, c, step)
    ensures var s' := CloserNext(s, c, step);
            && s'.workers == s.workers && s'.submissions == s.submissions && c in s'.closers
            && (s.closed ==> s'.closed) && (!s.handles ==> !s'.handles)
            && s'.closers == s.closers[c := s'.closers[c]]
  {
  }

  /** Only a submission's own steps move it. */
  lemma OthersKeepSubmission(s: State, step: Step, t: nat)
    requires Enabled(s, step) && !(step.OfSubmission? && step.t == t)
    ensures t in Next(s, step).submissions <==> t in s.submissions
    ensures t in s.submissions ==> Next(s, step).submissions[t] == s.submissions[t]
  {
    match step {
      case OfWorker(w, work) => WorkerLeaves(s, w, work);
      case OfSubmission(x, submit) => SubmissionLeaves(s, x, submit);
      case OfCloser(c, close) => CloserLeaves(s, c, close);
    }
  }

  // ----- accepting and refusing -----

  /** The submission saw the pool open at `m` and has held the queue lock from there to `n`. */
  ghost predicate SawItOpen(run: seq<State>, t: nat, m: nat, n: nat) {
    m <= n < |run| && !run[m].closed && forall k :: m <= k <= n ==> run[k].lock == BySubmission(t)
  }

  lemma {:induction false} OpenWhenSeen(run: seq<State>, steps: seq<Step>, n: nat, t: nat) returns (m: nat)
    requires IsRun(run, steps) && n < |run| && SubmitAt(run[n], t, SawOpen)
    ensures SawItOpen(run, t, m, n)
  {
    RunKeeps(run, steps, n);
    assert SubmissionFits(run[n], t);
    assert n > 0 && Enabled(run[n - 1], steps[n - 1]) && run[n - 1 + 1] == Next(run[n - 1], steps[n - 1]);
    RunKeeps(run, steps, n - 1);
    if SubmitAt(run[n - 1], t, SawOpen) {
      m := OpenWhenSeen(run, steps, n - 1, t);
    } else {
      SeenByTest(run[n - 1], steps[n - 1], t);
      assert SubmissionFits(run[n - 1], t);
      m := n - 1;
    }
  }

  lemma SeenByTest(s: State, step: Step, t: nat)
    requires Enabled(s, step) && !SubmitAt(s, t, SawOpen) && SubmitAt(Next(s, step), t, SawOpen)
    ensures step == OfSubmission(t, TestClosed) && SubmitAt(s, t, Entered) && !s.closed
  {
    if !(step.OfSubmission? && step.t == t) {
      OthersKeepSubmission(s, step, t);
    }
  }

  /** A task is accepted only into a queue with room, by a submission that saw the pool open since it last got the lock. */
  lemma AcceptedOnlyWhenOpen(run: seq<State>, steps: seq<Step>, n: nat, t: nat) returns (m: nat)
    requires IsRun(run, steps) && n < |steps| && !TaskAccepted(run[n], t) && TaskAccepted(run[n + 1], t)
    ensures SawItOpen(run, t, m, n) && |run[n].queue| < run[n].capacity
    ensures run[n + 1].queue == run[n].queue + [t]
  {
    assert Enabled(run[n], steps[n]) && run[n + 1] == Next(run[n], steps[n]);
    AcceptedByEnqueue(run[n], steps[n], t);
    m := OpenWhenSeen(run, steps, n, t);
  }

  lemma AcceptedByEnqueue(s: State, step: Step, t: nat)
    requires Enabled(s, step) && !TaskAccepted(s, t) && TaskAccepted(Next(s, step), t)
    ensures step == OfSubmission(t, Enqueue)
  {
    if !(step.OfSubmission? && step.t == t) {
      OthersKeepSubmission(s, step, t);
    }
  }

  /** A task is refused only for a bad timeout, by a closed pool, or by a full queue. */
  lemma RefusedOnlyWhen(s: State, step: Step, t: nat)
    requires Enabled(s, step) && !SubmitAt(s, t, Refused) && SubmitAt(Next(s, step), t, Refused)
    ensures step == OfSubmission(t, BadTimeout) || s.closed || |s.queue| >= s.capacity
  {
    if !(step.OfSubmission? && step.t == t) {
      OthersKeepSubmission(s, step, t);
    }
  }

  // ----- closing -----

  /** Where a call of this kind stands; `emptied` says that the queue has been empty since the call. */
  ghost predicate Stands(s: State, c: nat, kind: Kind, emptied: bool) {
    && c in s.closers
    && (match s.closers[c]
        case WantFlag(k) => k == kind && !kind.CancelPending?
        case WantLock(k) => k == kind && !kind.Close? && (kind.CancelPending? || s.closed)
        case Inside(k) => k == kind && !kind.Close? && (kind.CancelPending? || s.closed)
        case Draining(k, _) => k == kind && !kind.Close? && emptied && (kind.CancelPending? || s.closed)
        case DrainedOne(k, _) => k == kind && !kind.Close? && emptied && (kind.CancelPending? || s.closed)
        case Joining => !kind.CancelPending? && s.closed && (kind.Close? || emptied)
        case Holding => !kind.CancelPending? && s.closed && !s.handles && (kind.Close? || emptied)
        case Done => (kind.CancelPending? || (s.closed && !s.handles)) && (kind.Close? || emptied))
  }

  lemma FlagsStay(s: State, step: Step)
    requires Enabled(s, step)
    ensures s.closed ==> Next(s, step).closed
    ensures !s.handles ==> !Next(s, step).handles
    ensures Next(s, step).workers.Keys == s.workers.Keys
  {
    match step {
      case OfWorker(w, work) => WorkerLeaves(s, w, work);
      case OfSubmission(t, submit) => SubmissionLeaves(s, t, submit);
      case OfCloser(c, close) => CloserLeaves(s, c, close);
    }
  }

  lemma ExitsStay(s: State, step: Step)
    requires Enabled(s, step) && AllExited(s)
    ensures AllExited(Next(s, step))
  {
    FlagsStay(s, step);
    forall w | w in Next(s, step).workers ensures Next(s, step).workers[w].Exited? {
      assert w in s.workers && WorkerAt(s, w, Exited);
      StillExited(s, step, w);
    }
  }

  lemma OthersKeepCloser(s: State, step: Step, c: nat)
    requires Enabled(s, step) && c in s.closers && !(step.OfCloser? && step.c == c)
    ensures c in Next(s, step).closers && Next(s, step).closers[c] == s.closers[c]
  {
    match step {
      case OfWorker(w, work) => WorkerLeaves(s, w, work);
      case OfSubmission(t, submit) => SubmissionLeaves(s, t, submit);
      case OfCloser(d, close) => CloserLeaves(s, d, close);
    }
  }

  lemma StandsOn(s: State, step: Step, c: nat, kind: Kind, emptied: bool)
    requires Enabled(s, step) && Stands(s, c, kind, emptied)
    ensures Stands(Next(s, step), c, kind, emptied || Next(s, step).queue == [])
  {
    FlagsStay(s, step);
    if step.OfCloser? && step.c == c {
      OwnStep(s, step.close, c, kind, emptied);
    } else {
      OthersKeepCloser(s, step, c);
    }
  }

  lemma OwnStep(s: State, close: CloserStep, c: nat, kind: Kind, emptied: bool)
    requires CloserCan(s, c, close) && Stands(s, c, kind, emptied)
    ensures Stands(CloserNext(s, c, close), c, kind, emptied || CloserNext(s, c, close).queue == [])
  {
    CloserLeaves(s, c, close);
  }

  ghost predicate EmptyBetween(run: seq<State>, i: nat, n: nat) { exists m :: i < m <= n < |run| && run[m].queue == [] }

  lemma CallBegins(s: State, c: nat, kind: Kind, emptied: bool)
    requires CloserCan(s, c, Call(kind))
    ensures Stands(CloserNext(s, c, Call(kind)), c, kind, emptied)
  {
  }

  lemma RunStep(run: seq<State>, steps: seq<Step>, n: nat)
    requires IsRun(run, steps) && n < |steps|
    ensures Enabled(run[n], steps[n]) && run[n + 1] == Next(run[n], steps[n])
  {
  }

  lemma StandsMore(s: State, c: nat, kind: Kind, emptied: bool, more: bool)
    requires Stands(s, c, kind, emptied) && (emptied ==> more)
    ensures Stands(s, c, kind, more)
  {
  }

  lemma EmptyGrows(run: seq<State>, i: nat, n: nat)
    requires i < n < |run| && (EmptyBetween(run, i, n - 1) || run[n].queue == [])
    ensures EmptyBetween(run, i, n)
  {
    if EmptyBetween(run, i, n - 1) {
      var m :| i < m <= n - 1 < |run| && run[m].queue == [];
    }
  }

  lemma FirstStep(run: seq<State>, steps: seq<Step>, i: nat, c: nat, kind: Kind, emptied: bool)
    requires IsRun(run, steps) && i < |steps| && steps[i] == OfCloser(c, Call(kind))
    ensures Stands(run[i + 1], c, kind, emptied)
  {
    RunStep(run, steps, i);
    CallBegins(run[i], c, kind, emptied);
  }

  lemma LaterStep(run: seq<State>, steps: seq<Step>, n: nat, c: nat, kind: Kind, emptied: bool)
    requires IsRun(run, steps) && n < |steps| && Stands(run[n], c, kind, emptied)
    ensures Stands(run[n + 1], c, kind, emptied || run[n + 1].queue == [])
  {
    RunStep(run, steps, n);
    StandsOn(run[n], steps[n], c, kind, emptied);
  }

  lemma {:induction false} CallStands(run: seq<State>, steps: seq<Step>, i: nat, n: nat, c: nat, kind: Kind)
    requires IsRun(run, steps) && i < n < |run| && steps[i] == OfCloser(c, Call(kind))
    ensures Stands(run[n], c, kind, EmptyBetween(run, i, n))
    decreases n
  {
    if n == i + 1 {
      FirstStep(run, steps, i, c, kind, EmptyBetween(run, i, n));
    } else {
      CallStands(run, steps, i, n - 1, c, kind);
      var now := EmptyBetween(run, i, n - 1) || run[n].queue == [];
      LaterStep(run, steps, n - 1, c, kind, EmptyBetween(run, i, n - 1));
      if now {
        EmptyGrows(run, i, n);
      }
      StandsMore(run[n], c, kind, now, EmptyBetween(run, i, n));
    }
  }

  lemma {:induction false} DepartedStays(run: seq<State>, steps: seq<Step>, m: nat, n: nat, t: nat)
    requires m <= n <= |steps| < |run| && t in Departed(run, steps, m)
    ensures t in Departed(run, steps, n)
    decreases n
  {
    if m < n {
      DepartedStays(run, steps, m, n - 1, t);
    }
  }

  lemma {:induction false} AcceptedStaysAccepted(steps: seq<Step>, m: nat, n: nat, t: nat)
    requires m <= n <= |steps| && t in AcceptedBy(steps[..m])
    ensures t in AcceptedBy(steps[..n])
    decreases n
  {
    if m < n {
      AcceptedStaysAccepted(steps, m, n - 1, t);
      assert steps[..n][..n - 1] == steps[..n - 1];
    }
  }

  lemma GoneOnceEmpty(run: seq<State>, steps: seq<Step>, i: nat, m: nat, n: nat, t: nat)
    requires IsRun(run, steps) && i < m <= n < |run| && run[m].queue == [] && t in AcceptedBy(steps[..i])
    ensures t in Departed(run, steps, n)
  {
    FirstInFirstOut(run, steps, m);
    AcceptedStaysAccepted(steps, i, m, t);
    assert Departed(run, steps, m) + [] == Departed(run, steps, m);
    DepartedStays(run, steps, m, n, t);
  }

  // ----- who waits for the workers -----

  /** The closer found the handles at `k`, so it is the one that waits. */
  ghost predicate Took(run: seq<State>, steps: seq<Step>, c: nat, k: nat) {
    k < |steps| && k < |run| && steps[k] == OfCloser(c, TakeHandles) && run[k].handles
  }

  lemma HandlesStep(run: seq<State>, steps: seq<Step>, n: nat)
    requires IsRun(run, steps) && n < |steps|
    ensures !run[n].handles ==> !run[n + 1].handles
  {
    RunStep(run, steps, n);
    FlagsStay(run[n], steps[n]);
  }

  lemma {:induction false} HandlesGone(run: seq<State>, steps: seq<Step>, m: nat, n: nat)
    requires IsRun(run, steps) && m <= n < |run| && !run[m].handles
    ensures !run[n].handles
    decreases n
  {
    if m < n {
      HandlesGone(run, steps, m, n - 1);
      HandlesStep(run, steps, n - 1);
    }
  }

  /** At most one closer ever waits. */
  lemma OneWaits(run: seq<State>, steps: seq<Step>, c: nat, k: nat, c': nat, k': nat)
    requires IsRun(run, steps) && Took(run, steps, c, k) && Took(run, steps, c', k') && k <= k'
    ensures c == c' && k == k'
  {
    if k < k' {
      RunStep(run, steps, k);
      HandlesGone(run, steps, k + 1, k');
      assert false;
    }
  }

  lemma WaitsOn(s: State, step: Step, c: nat)
    requires Enabled(s, step) && c in s.closers && (s.closers[c] == Holding || (s.closers[c] == Done && AllExited(s)))
    ensures var s' := Next(s, step); c in s'.closers && (s'.closers[c] == Holding || (s'.closers[c] == Done && AllExited(s')))
  {
    if AllExited(s) {
      ExitsStay(s, step);
    }
    if step.OfCloser? && step.c == c {
      CloserLeaves(s, c, step.close);
    } else {
      OthersKeepCloser(s, step, c);
    }
  }

  lemma {:induction false} TakerWaits(run: seq<State>, steps: seq<Step>, c: nat, k: nat, n: nat)
    requires IsRun(run, steps) && Took(run, steps, c, k) && k < n < |run|
    ensures c in run[n].closers && (run[n].closers[c] == Holding || (run[n].closers[c] == Done && AllExited(run[n])))
    decreases n
  {
    RunStep(run, steps, n - 1);
    if n > k + 1 {
      TakerWaits(run, steps, c, k, n - 1);
      WaitsOn(run[n - 1], steps[n - 1], c);
    }
  }

  /**
   When a close returns, the pool is closed and someone has taken the workers'
   handles; if it was this close, every worker has gone. When a cancellation
   returns, every task accepted before it was called has left the queue. A close
   that does not cancel never takes a task.
   */
  lemma CloseReturns(run: seq<State>, steps: seq<Step>, i: nat, n: nat, c: nat, kind: Kind)
    requires IsRun(run, steps) && i < n < |run| && steps[i] == OfCloser(c, Call(kind))
    requires c in run[n].closers && run[n].closers[c] == Done
    ensures !kind.CancelPending? ==> run[n].closed && !run[n].handles
    ensures (exists k: nat :: k < n && Took(run, steps, c, k)) ==> AllExited(run[n])
    ensures !kind.Close? ==> forall t :: t in AcceptedBy(steps[..i]) ==> t in Departed(run, steps, n)
    ensures kind.Close? ==> forall m :: i < m <= n ==> CloserTasks(run[m], c) == []
  {
    CallStands(run, steps, i, n, c, kind);
    if k: nat :| k < n && Took(run, steps, c, k) {
      TakerWaits(run, steps, c, k, n);
    }
    if !kind.Close? {
      var m :| i < m <= n < |run| && run[m].queue == [];
      forall t | t in AcceptedBy(steps[..i]) ensures t in Departed(run, steps, n) {
        GoneOnceEmpty(run, steps, i, m, n, t);
      }
    } else {
      forall m | i < m <= n ensures CloserTasks(run[m], c) == [] {
        CallStands(run, steps, i, m, c, kind);
      }
    }
  }

  lemma FirstWaits() returns (s: State)
    ensures Reachable(s) && s.closers == map[0 := Holding] && !s.handles && s.workers == map[0 := Outside]
  {
    var start := StartReached();
    var a := MoveCloser(start, 0, WantFlag(Close), start.lock, start.closed);
    var b := MoveCloser(a, 0, Joining, a.lock, true);
    s := Grab(b, 0);
    ReachNext(start, OfCloser(0, Call(Close)), a);
    ReachNext(a, OfCloser(0, RaiseFlag), b);
    ReachNext(b, OfCloser(0, TakeHandles), s);
  }

  /** A second close need not wait: it can return while a worker is still there. */
  lemma SecondCloseReturnsEarly() returns (s: State)
    ensures Reachable(s) && 1 in s.closers && s.closers[1] == Done && !AllExited(s)
  {
    var start := FirstWaits();
    var a := MoveCloser(start, 1, WantFlag(Close), start.lock, start.closed);
    var b := MoveCloser(a, 1, Joining, a.lock, true);
    s := Grab(b, 1);
    ReachNext(start, OfCloser(1, Call(Close)), a);
    ReachNext(a, OfCloser(1, RaiseFlag), b);
    ReachNext(b, OfCloser(1, TakeHandles), s);
    assert s.workers[0] == Outside;
  }
}
