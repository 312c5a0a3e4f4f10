/**
 The process pool of src/process.rs as a state machine. Worker threads,
 submissions and closers interleave at the grain of one lock operation or one
 atomic access each; the `closed` flag is read under the queue lock but written
 outside it. A submission and the task it carries share an identifier.
 */
module ProcessPool {
  import opened Wrappers

  /** `process_pool_worker`. The middle three hold the queue lock. */
  datatype Worker =
    | Outside
    | Looking
    | SawEmpty
    | MustWait
    | Waiting
    | Running(task: nat)
    | Sent(task: nat)
    | Closed(task: nat)
    | Exited

  /** `process_pool_enqueue` and what its caller does with the outcome. `Entered` and `SawOpen` hold the lock. */
  datatype Submission =
    | Started
    | Entered
    | SawOpen
    | Blocked
    | Accepted
    | Dropped
    | Refused
    | RefusedClosed
    | Gone

  /** `close_process_pool` with and without cancellation, and `mux_process_pool_cancel_pending`. */
  datatype Kind = Close | CloseAndCancel | CancelPending

  datatype Closer =
    | WantFlag(kind: Kind)
    | WantLock(kind: Kind)
    | Inside(kind: Kind)
    | Draining(kind: Kind, tasks: seq<nat>)
    | DrainedOne(kind: Kind, tasks: seq<nat>)
    | Joining
    | Holding
    | Done

  datatype Owner = NoOne | ByWorker(w: nat) | BySubmission(t: nat) | ByCloser(c: nat)

  /** A result channel: values sent, times closed, references held. `late` records a use after closing. */
  datatype Channel = Channel(sends: nat, closes: nat, refs: int, late: bool)

  /** Where a task is: bookkeeping that `InOnePlace` ties to the queue, the threads and the channels. */
  datatype Place = Pending | Queued | Working(w: nat) | Cancelling(c: nat) | Finished | Cancelled

  datatype State = State(
    capacity: nat,
    closed: bool,
    lock: Owner,
    queue: seq<nat>,
    workers: map<nat, Worker>,
    submissions: map<nat, Submission>,
    closers: map<nat, Closer>,
    channels: map<nat, Channel>,
    places: map<nat, Place>,
    left: bool,     // whether some worker has exited
    handles: bool)  // whether the workers' handles are still there to be joined

  function Send(ch: Channel): Channel { ch.(sends := ch.sends + 1, late := ch.late || ch.closes > 0) }
  function Shut(ch: Channel): Channel { ch.(closes := ch.closes + 1, late := ch.late || ch.closes > 0) }
  function Release(ch: Channel, n: nat): Channel { ch.(refs := ch.refs - n) }

  datatype WorkerStep = TakeLock | TakeTask | FindEmpty | CheckClosed | Wait | SendValue | CloseChannel | DropChannel

  datatype SubmissionStep =
    | Arrive | BadTimeout | Enter | TestClosed | Enqueue | Block | GiveUp | CloseRefused | DropRefused | DropResult

  datatype CloserStep = Call(kind: Kind) | RaiseFlag | EnterQueue | TakeAll | CloseNext | DropNext | EndDrain | TakeHandles | Join

  datatype Step = OfWorker(w: nat, work: WorkerStep) | OfSubmission(t: nat, submit: SubmissionStep) | OfCloser(c: nat, close: CloserStep)

  predicate WorkerAt(s: State, w: nat, pc: Worker) { w in s.workers && s.workers[w] == pc }
  predicate SubmitAt(s: State, t: nat, pc: Submission) { t in s.submissions && s.submissions[t] == pc }

  predicate WorkerCan(s: State, w: nat, step: WorkerStep) {
    w in s.workers &&
    var pc := s.workers[w];
    match step
    case TakeLock => s.lock == NoOne && (pc == Outside || pc == Waiting)
    case TakeTask => pc == Looking && s.queue != []
    case FindEmpty => pc == Looking && s.queue == []
    case CheckClosed => pc == SawEmpty
    case Wait => pc == MustWait
    case SendValue => pc.Running? && pc.task in s.channels
    case CloseChannel => pc.Sent? && pc.task in s.channels
    case DropChannel => pc.Closed? && pc.task in s.channels
  }

  predicate SubmissionCan(s: State, t: nat, step: SubmissionStep) {
    if step == Arrive then t !in s.submissions && t !in s.channels && t !in s.places
    else
      && t in s.submissions && t in s.channels
      && var pc := s.submissions[t];
         match step
         case Arrive => false
         case BadTimeout => pc == Started
         case Enter => s.lock == NoOne && (pc == Started || pc == Blocked)
         case TestClosed => pc == Entered
         case Enqueue => pc == SawOpen && |s.queue| < s.capacity
         case Block => pc == SawOpen && |s.queue| >= s.capacity
         case GiveUp => (pc == SawOpen || pc == Entered) && |s.queue| >= s.capacity
         case CloseRefused => pc == Refused
         case DropRefused => pc == RefusedClosed
         case DropResult => pc == Accepted
  }

  ghost predicate CloserCan(s: State, c: nat, step: CloserStep) {
    if step.Call? then c !in s.closers
    else
      && c in s.closers
      && var pc := s.closers[c];
         match step
         case Call(_) => false
         case RaiseFlag => pc.WantFlag?
         case EnterQueue => s.lock == NoOne && pc.WantLock?
         case TakeAll => pc.Inside?
         case CloseNext => pc.Draining? && pc.tasks != [] && pc.tasks[0] in s.channels
         case DropNext => pc.DrainedOne? && pc.tasks != [] && pc.tasks[0] in s.channels
         case EndDrain => pc.Draining? && pc.tasks == []
         case TakeHandles => pc.Joining?
         case Join => pc.Holding? && forall w :: w in s.workers ==> s.workers[w].Exited?
  }

  ghost predicate Enabled(s: State, step: Step) {
    match step
    case OfWorker(w, work) => WorkerCan(s, w, work)
    case OfSubmission(t, submit) => SubmissionCan(s, t, submit)
    case OfCloser(c, close) => CloserCan(s, c, close)
  }

  // ----- effects: moves of a thread between program points, and steps that touch a task -----

  function MoveWorker(s: State, w: nat, pc: Worker, lock: Owner): State {
    s.(lock := lock, workers := s.workers[w := pc], left := s.left || pc.Exited?)
  }

  function MoveSubmission(s: State, t: nat, pc: Submission, lock: Owner): State {
    s.(lock := lock, submissions := s.submissions[t := pc])
  }

  function MoveCloser(s: State, c: nat, pc: Closer, lock: Owner, closed: bool): State {
    s.(lock := lock, closed := closed, closers := s.closers[c := pc])
  }

  function Pop(s: State, w: nat): State
    requires s.queue != []
  {
    var t := s.queue[0];
    s.(lock := NoOne, queue := s.queue[1..], workers := s.workers[w := Running(t)], places := s.places[t := Working(w)])
  }

  function SendResult(s: State, w: nat, t: nat): State
    requires t in s.channels
  {
    s.(workers := s.workers[w := Sent(t)], channels := s.channels[t := Send(s.channels[t])])
  }

  function CloseResult(s: State, w: nat, t: nat): State
    requires t in s.channels
  {
    s.(workers := s.workers[w := Closed(t)], channels := s.channels[t := Shut(s.channels[t])])
  }

  function FinishTask(s: State, w: nat, t: nat): State
    requires t in s.channels
  {
    s.(workers := s.workers[w := Outside], channels := s.channels[t := Release(s.channels[t], 1)], places := s.places[t := Finished])
  }

  /** A submission allocates its channel and takes a second reference for the task. */
  function Begin(s: State, t: nat): State {
    s.(submissions := s.submissions[t := Started], channels := s.channels[t := Channel(0, 0, 2, false)], places := s.places[t := Pending])
  }

  function Push(s: State, t: nat): State {
    s.(lock := NoOne, queue := s.queue + [t], submissions := s.submissions[t := Accepted], places := s.places[t := Queued])
  }

  /** The submission's own dealings with its channel: closing it when refused, dropping references. */
  function Handle(s: State, t: nat, pc: Submission, ch: Channel): State {
    s.(submissions := s.submissions[t := pc], channels := s.channels[t := ch])
  }

  function Drain(s: State, c: nat, kind: Kind): State {
    s.(lock := NoOne, queue := [], closers := s.closers[c := Draining(kind, s.queue)],
       places := map t | t in s.places :: if t in s.queue then Cancelling(c) else s.places[t])
  }

  /** The first closer to get here takes the workers' handles and waits; any later one finds none and is done. */
  function Grab(s: State, c: nat): State {
    s.(handles := false, closers := s.closers[c := if s.handles then Holding else Done])
  }

  function CancelClose(s: State, c: nat, kind: Kind, tasks: seq<nat>): State
    requires tasks != [] && tasks[0] in s.channels
  {
    s.(closers := s.closers[c := DrainedOne(kind, tasks)], channels := s.channels[tasks[0] := Shut(s.channels[tasks[0]])])
  }

  function CancelRelease(s: State, c: nat, kind: Kind, tasks: seq<nat>): State
    requires tasks != [] && tasks[0] in s.channels
  {
    s.(closers := s.closers[c := Draining(kind, tasks[1..])],
       channels := s.channels[tasks[0] := Release(s.channels[tasks[0]], 1)], places := s.places[tasks[0] := Cancelled])
  }

  function WorkerNext(s: State, w: nat, step: WorkerStep): State
    requires WorkerCan(s, w, step)
  {
    match step
    case TakeLock => MoveWorker(s, w, Looking, ByWorker(w))
    case TakeTask => Pop(s, w)
    case FindEmpty => MoveWorker(s, w, SawEmpty, s.lock)
    case CheckClosed => if s.closed then MoveWorker(s, w, Exited, NoOne) else MoveWorker(s, w, MustWait, s.lock)
    case Wait => MoveWorker(s, w, Waiting, NoOne)
    case SendValue => SendResult(s, w, s.workers[w].task)
    case CloseChannel => CloseResult(s, w, s.workers[w].task)
    case DropChannel => FinishTask(s, w, s.workers[w].task)
  }

  function SubmissionNext(s: State, t: nat, step: SubmissionStep): State
    requires SubmissionCan(s, t, step)
  {
    match step
    case Arrive => Begin(s, t)
    case BadTimeout => MoveSubmission(s, t, Refused, s.lock)
    case Enter => MoveSubmission(s, t, Entered, BySubmission(t))
    case TestClosed => if s.closed then MoveSubmission(s, t, Refused, NoOne) else MoveSubmission(s, t, SawOpen, s.lock)
    case Enqueue => Push(s, t)
    case Block => MoveSubmission(s, t, Blocked, NoOne)
    case GiveUp => MoveSubmission(s, t, Refused, NoOne)
    case CloseRefused => Handle(s, t, RefusedClosed, Shut(s.channels[t]))
    case DropRefused => Handle(s, t, Gone, Release(s.channels[t], 2))
    case DropResult => Handle(s, t, Dropped, Release(s.channels[t], 1))
  }

  ghost function CloserNext(s: State, c: nat, step: CloserStep): State
    requires CloserCan(s, c, step)
  {
    match step
    case Call(kind) => MoveCloser(s, c, if kind.CancelPending? then WantLock(kind) else WantFlag(kind), s.lock, s.closed)
    case RaiseFlag => MoveCloser(s, c, if s.closers[c].kind.CloseAndCancel? then WantLock(CloseAndCancel) else Joining, s.lock, true)
    case EnterQueue => MoveCloser(s, c, Inside(s.closers[c].kind), ByCloser(c), s.closed)
    case TakeAll => Drain(s, c, s.closers[c].kind)
    case CloseNext => CancelClose(s, c, s.closers[c].kind, s.closers[c].tasks)
    case DropNext => CancelRelease(s, c, s.closers[c].kind, s.closers[c].tasks)
    case EndDrain => MoveCloser(s, c, if s.closers[c].kind.CancelPending? then Done else Joining, s.lock, s.closed)
    case TakeHandles => Grab(s, c)
    case Join => MoveCloser(s, c, Done, s.lock, s.closed)
  }

  ghost function Next(s: State, step: Step): State
    requires Enabled(s, step)
  {
    match step
    case OfWorker(w, work) => WorkerNext(s, w, work)
    case OfSubmission(t, submit) => SubmissionNext(s, t, submit)
    case OfCloser(c, close) => CloserNext(s, c, close)
  }

  // ----- the invariant -----

  predicate WorkerHolds(pc: Worker) { pc.Looking? || pc.SawEmpty? || pc.MustWait? }
  predicate SubmitHolds(pc: Submission) { pc.Entered? || pc.SawOpen? }

  function TaskOf(pc: Worker): Option<nat> {
    if pc.Running? || pc.Sent? || pc.Closed? then Some(pc.task) else None
  }

  function TasksOf(pc: Closer): seq<nat> {
    if pc.Draining? || pc.DrainedOne? then pc.tasks else []
  }

  ghost predicate NoRepeats(q: seq<nat>) { forall i, j :: 0 <= i < j < |q| ==> q[i] != q[j] }

  ghost predicate AllAt(s: State, tasks: seq<nat>, place: Place) {
    forall i :: 0 <= i < |tasks| ==> tasks[i] in s.places && s.places[tasks[i]] == place
  }

  /** A worker holds the lock exactly when its program counter says so, and owns the task it names. */
  ghost predicate WorkerFits(s: State, w: nat)
    requires w in s.workers
  {
    var pc := s.workers[w];
    && (WorkerHolds(pc) <==> s.lock == ByWorker(w))
    && (TaskOf(pc).Some? ==> TaskOf(pc).value in s.places && s.places[TaskOf(pc).value] == Working(w))
    && (pc.SawEmpty? ==> s.queue == [])
    && (pc.Exited? ==> s.left)
  }

  /** A submission that saw the pool open still holds the lock, so no worker can have exited since. */
  ghost predicate SubmissionFits(s: State, t: nat)
    requires t in s.submissions
  {
    && (SubmitHolds(s.submissions[t]) <==> s.lock == BySubmission(t))
    && t in s.places
    && (s.submissions[t].SawOpen? ==> !s.left)
  }

  ghost predicate CloserFits(s: State, c: nat)
    requires c in s.closers
  {
    var pc := s.closers[c];
    && (pc.Inside? <==> s.lock == ByCloser(c))
    && NoRepeats(TasksOf(pc))
    && (pc.DrainedOne? ==> pc.tasks != [])
    && AllAt(s, TasksOf(pc), Cancelling(c))
  }

  /** The queue is bounded and holds each queued task once; once a worker has left it is closed for good and empty. */
  ghost predicate QueueFits(s: State) {
    && |s.queue| <= s.capacity
    && NoRepeats(s.queue)
    && AllAt(s, s.queue, Queued)
    && (s.left ==> s.closed && s.queue == [])
    && (s.lock.ByWorker? ==> s.lock.w in s.workers)
    && (s.lock.BySubmission? ==> s.lock.t in s.submissions)
    && (s.lock.ByCloser? ==> s.lock.c in s.closers)
  }

  /** A submission that has been accepted; the caller then holds one channel reference until it drops it. */
  predicate IsAccepted(pc: Submission) { pc.Accepted? || pc.Dropped? }
  function CallerRefs(pc: Submission): nat { if pc.Accepted? then 1 else 0 }

  /** What a task's channel has seen, given where the task is. */
  ghost predicate TaskFits(s: State, t: nat)
    requires t in s.places
  {
    && t in s.submissions && t in s.channels
    && var pc, ch := s.submissions[t], s.channels[t];
       match s.places[t]
       case Pending =>
         && !IsAccepted(pc)
         && ch == Channel(0, if pc.RefusedClosed? || pc.Gone? then 1 else 0, if pc.Gone? then 0 else 2, false)
       case Queued => IsAccepted(pc) && t in s.queue && ch == Channel(0, 0, 1 + CallerRefs(pc), false)
       case Working(w) =>
         && IsAccepted(pc) && w in s.workers && TaskOf(s.workers[w]) == Some(t)
         && ch == Channel(if s.workers[w].Running? then 0 else 1, if s.workers[w].Closed? then 1 else 0, 1 + CallerRefs(pc), false)
       case Cancelling(c) =>
         && IsAccepted(pc) && c in s.closers && t in TasksOf(s.closers[c])
         && ch == Channel(0, if s.closers[c].DrainedOne? && s.closers[c].tasks[0] == t then 1 else 0, 1 + CallerRefs(pc), false)
       case Finished => IsAccepted(pc) && ch == Channel(1, 1, CallerRefs(pc), false)
       case Cancelled => IsAccepted(pc) && ch == Channel(0, 1, CallerRefs(pc), false)
  }

  ghost predicate Inv(s: State) {
    && QueueFits(s)
    && (forall w {:trigger WorkerFits(s, w)} :: w in s.workers ==> WorkerFits(s, w))
    && (forall t {:trigger SubmissionFits(s, t)} :: t in s.submissions ==> SubmissionFits(s, t))
    && (forall c {:trigger CloserFits(s, c)} :: c in s.closers ==> CloserFits(s, c))
    && (forall t {:trigger TaskFits(s, t)} :: t in s.places ==> TaskFits(s, t))
  }

  /** A pool just created: the workers are about to take the lock, and nothing has been submitted. */
  ghost predicate Init(s: State) {
    && !s.closed && !s.left && s.handles && s.lock == NoOne && s.queue == []
    && (forall w :: w in s.workers ==> s.workers[w] == Outside)
    && s.submissions == map[] && s.closers == map[] && s.channels == map[] && s.places == map[]
  }

  // ----- every step keeps it -----

  lemma MoveWorkerKeeps(s: State, w: nat, pc: Worker, lock: Owner)
    requires Inv(s) && w in s.workers && TaskOf(s.workers[w]).None? && TaskOf(pc).None?
    requires WorkerHolds(pc) <==> lock == ByWorker(w)
    requires lock == s.lock || (s.lock == NoOne && lock == ByWorker(w)) || (s.lock == ByWorker(w) && lock == NoOne)
    requires pc.SawEmpty? ==> s.queue == []
    requires pc.Exited? ==> s.closed && s.queue == [] && s.lock == ByWorker(w)
    ensures Inv(MoveWorker(s, w, pc, lock))
  {
    var s' := MoveWorker(s, w, pc, lock);
    assert WorkerFits(s, w);
    forall x | x in s'.workers ensures WorkerFits(s', x) { assert WorkerFits(s, x); }
    forall t | t in s'.submissions ensures SubmissionFits(s', t) { assert SubmissionFits(s, t); }
    forall c | c in s'.closers ensures CloserFits(s', c) { assert CloserFits(s, c); }
    forall t | t in s'.places ensures TaskFits(s', t) { assert TaskFits(s, t); }
  }

  /** A submission that is neither accepted nor past its refusal: its channel is untouched. */
  predicate Undecided(pc: Submission) { pc.Started? || pc.Entered? || pc.SawOpen? || pc.Blocked? || pc.Refused? }

  lemma MoveSubmissionKeeps(s: State, t: nat, pc: Submission, lock: Owner)
    requires Inv(s) && t in s.submissions && Undecided(s.submissions[t]) && Undecided(pc)
    requires SubmitHolds(pc) <==> lock == BySubmission(t)
    requires lock == s.lock || (s.lock == NoOne && lock == BySubmission(t)) || (s.lock == BySubmission(t) && lock == NoOne)
    requires pc.SawOpen? ==> !s.closed
    ensures Inv(MoveSubmission(s, t, pc, lock))
  {
    var s' := MoveSubmission(s, t, pc, lock);
    assert SubmissionFits(s, t);
    forall w | w in s'.workers ensures WorkerFits(s', w) { assert WorkerFits(s, w); }
    forall u | u in s'.submissions ensures SubmissionFits(s', u) { assert SubmissionFits(s, u); }
    forall c | c in s'.closers ensures CloserFits(s', c) { assert CloserFits(s, c); }
    forall u | u in s'.places ensures TaskFits(s', u) { assert TaskFits(s, u); }
  }

  lemma MoveCloserKeeps(s: State, c: nat, pc: Closer, lock: Owner, closed: bool)
    requires Inv(s) && TasksOf(pc) == [] && !pc.DrainedOne? && (c in s.closers ==> TasksOf(s.closers[c]) == [])
    requires pc.Inside? <==> lock == ByCloser(c)
    requires lock == s.lock || (s.lock == NoOne && lock == ByCloser(c))
    requires s.closed ==> closed
    ensures Inv(MoveCloser(s, c, pc, lock, closed))
  {
    var s' := MoveCloser(s, c, pc, lock, closed);
    forall w | w in s'.workers ensures WorkerFits(s', w) { assert WorkerFits(s, w); }
    forall t | t in s'.submissions ensures SubmissionFits(s', t) { assert SubmissionFits(s, t); }
    forall d | d in s'.closers ensures CloserFits(s', d) { if d != c { assert CloserFits(s, d); } }
    forall t | t in s'.places ensures TaskFits(s', t) { assert TaskFits(s, t); }
  }

  lemma GrabKeeps(s: State, c: nat)
    requires Inv(s) && c in s.closers && s.closers[c] == Joining
    ensures Inv(Grab(s, c))
  {
    var s' := Grab(s, c);
    forall w | w in s'.workers ensures WorkerFits(s', w) { assert WorkerFits(s, w); }
    forall t | t in s'.submissions ensures SubmissionFits(s', t) { assert SubmissionFits(s, t); }
    forall d | d in s'.closers ensures CloserFits(s', d) { assert CloserFits(s, d); }
    forall t | t in s'.places ensures TaskFits(s', t) { assert TaskFits(s, t); }
  }

  lemma PopKeeps(s: State, w: nat)
    requires Inv(s) && WorkerAt(s, w, Looking) && s.queue != []
    ensures Inv(Pop(s, w))
  {
    var s', t := Pop(s, w), s.queue[0];
    assert WorkerFits(s, w) && TaskFits(s, t);
    assert forall i :: 0 <= i < |s'.queue| ==> s'.queue[i] == s.queue[i + 1];
    forall x | x in s'.workers ensures WorkerFits(s', x) { assert WorkerFits(s, x); }
    forall u | u in s'.submissions ensures SubmissionFits(s', u) { assert SubmissionFits(s, u); }
    forall d | d in s'.closers ensures CloserFits(s', d) { assert CloserFits(s, d); }
    forall u | u in s'.places ensures TaskFits(s', u) { assert TaskFits(s, u); }
  }

  lemma SendKeeps(s: State, w: nat, t: nat)
    requires Inv(s) && WorkerAt(s, w, Running(t)) && t in s.channels
    ensures s.channels[t].closes == 0 && Inv(SendResult(s, w, t))
  {
    var s' := SendResult(s, w, t);
    assert WorkerFits(s, w) && TaskFits(s, t);
    forall x | x in s'.workers ensures WorkerFits(s', x) { assert WorkerFits(s, x); }
    forall u | u in s'.submissions ensures SubmissionFits(s', u) { assert SubmissionFits(s, u); }
    forall d | d in s'.closers ensures CloserFits(s', d) { assert CloserFits(s, d); }
    forall u | u in s'.places ensures TaskFits(s', u) { assert TaskFits(s, u); }
  }

  lemma CloseKeeps(s: State, w: nat, t: nat)
    requires Inv(s) && WorkerAt(s, w, Sent(t)) && t in s.channels
    ensures s.channels[t].closes == 0 && Inv(CloseResult(s, w, t))
  {
    var s' := CloseResult(s, w, t);
    assert WorkerFits(s, w) && TaskFits(s, t);
    forall x | x in s'.workers ensures WorkerFits(s', x) { assert WorkerFits(s, x); }
    forall u | u in s'.submissions ensures SubmissionFits(s', u) { assert SubmissionFits(s, u); }
    forall d | d in s'.closers ensures CloserFits(s', d) { assert CloserFits(s, d); }
    forall u | u in s'.places ensures TaskFits(s', u) { assert TaskFits(s, u); }
  }

  lemma FinishKeeps(s: State, w: nat, t: nat)
    requires Inv(s) && WorkerAt(s, w, Closed(t)) && t in s.channels
    ensures Inv(FinishTask(s, w, t))
  {
    var s' := FinishTask(s, w, t);
    assert WorkerFits(s, w) && TaskFits(s, t);
    forall x | x in s'.workers ensures WorkerFits(s', x) { assert WorkerFits(s, x); }
    forall u | u in s'.submissions ensures SubmissionFits(s', u) { assert SubmissionFits(s, u); }
    forall d | d in s'.closers ensures CloserFits(s', d) { assert CloserFits(s, d); }
    forall u | u in s'.places ensures TaskFits(s', u) { assert TaskFits(s, u); }
  }

  lemma BeginKeeps(s: State, t: nat)
    requires Inv(s) && t !in s.submissions && t !in s.channels && t !in s.places
    ensures Inv(Begin(s, t))
  {
    var s' := Begin(s, t);
    forall x | x in s'.workers ensures WorkerFits(s', x) { assert WorkerFits(s, x); }
    forall u | u in s'.submissions ensures SubmissionFits(s', u) { if u != t { assert SubmissionFits(s, u); } }
    forall d | d in s'.closers ensures CloserFits(s', d) { assert CloserFits(s, d); }
    forall u | u in s'.places ensures TaskFits(s', u) { if u != t { assert TaskFits(s, u); } }
  }

  lemma PushKeeps(s: State, t: nat)
    requires Inv(s) && SubmitAt(s, t, SawOpen) && |s.queue| < s.capacity
    ensures Inv(Push(s, t))
  {
    var s' := Push(s, t);
    assert SubmissionFits(s, t) && TaskFits(s, t);
    forall x | x in s'.workers ensures WorkerFits(s', x) { assert WorkerFits(s, x); }
    forall u | u in s'.submissions ensures SubmissionFits(s', u) { assert SubmissionFits(s, u); }
    forall d | d in s'.closers ensures CloserFits(s', d) { assert CloserFits(s, d); }
    forall u | u in s'.places ensures TaskFits(s', u) { assert TaskFits(s, u); }
  }

  /** A submission touching its own channel affects its own task only. */
  lemma HandleKeeps(s: State, t: nat, pc: Submission, ch: Channel)
    requires Inv(s) && t in s.submissions && !SubmitHolds(s.submissions[t]) && !SubmitHolds(pc)
    requires t in s.places && TaskFits(Handle(s, t, pc, ch), t)
    ensures Inv(Handle(s, t, pc, ch))
  {
    var s' := Handle(s, t, pc, ch);
    forall x | x in s'.workers ensures WorkerFits(s', x) { assert WorkerFits(s, x); }
    forall u | u in s'.submissions ensures SubmissionFits(s', u) { assert SubmissionFits(s, u); }
    forall d | d in s'.closers ensures CloserFits(s', d) { assert CloserFits(s, d); }
    forall u | u in s'.places ensures TaskFits(s', u) { if u != t { assert TaskFits(s, u); } }
  }

  lemma RefusedCloses(s: State, t: nat)
    requires Inv(s) && SubmitAt(s, t, Refused)
    ensures t in s.channels && Inv(Handle(s, t, RefusedClosed, Shut(s.channels[t])))
  {
    assert SubmissionFits(s, t) && TaskFits(s, t);
    HandleKeeps(s, t, RefusedClosed, Shut(s.channels[t]));
  }

  lemma RefusedReleases(s: State, t: nat)
    requires Inv(s) && SubmitAt(s, t, RefusedClosed)
    ensures t in s.channels && Inv(Handle(s, t, Gone, Release(s.channels[t], 2)))
  {
    assert SubmissionFits(s, t) && TaskFits(s, t);
    HandleKeeps(s, t, Gone, Release(s.channels[t], 2));
  }

  lemma CallerReleases(s: State, t: nat)
    requires Inv(s) && SubmitAt(s, t, Accepted)
    ensures t in s.channels && Inv(Handle(s, t, Dropped, Release(s.channels[t], 1)))
  {
    assert SubmissionFits(s, t) && TaskFits(s, t);
    HandleKeeps(s, t, Dropped, Release(s.channels[t], 1));
  }

  lemma DrainKeeps(s: State, c: nat, kind: Kind)
    requires Inv(s) && c in s.closers && s.closers[c] == Inside(kind)
    ensures Inv(Drain(s, c, kind))
  {
    var s' := Drain(s, c, kind);
    assert CloserFits(s, c);
    forall x | x in s'.workers ensures WorkerFits(s', x) { assert WorkerFits(s, x); }
    forall u | u in s'.submissions ensures SubmissionFits(s', u) { assert SubmissionFits(s, u); }
    forall d | d in s'.closers ensures CloserFits(s', d) { assert CloserFits(s, d); }
    forall u | u in s'.places ensures TaskFits(s', u) { assert TaskFits(s, u); }
  }

  lemma CancelCloseKeeps(s: State, c: nat, kind: Kind, tasks: seq<nat>)
    requires Inv(s) && c in s.closers && s.closers[c] == Draining(kind, tasks) && tasks != [] && tasks[0] in s.channels
    ensures s.channels[tasks[0]].closes == 0 && Inv(CancelClose(s, c, kind, tasks))
  {
    var s' := CancelClose(s, c, kind, tasks);
    assert CloserFits(s, c) && TaskFits(s, tasks[0]);
    forall x | x in s'.workers ensures WorkerFits(s', x) { assert WorkerFits(s, x); }
    forall u | u in s'.submissions ensures SubmissionFits(s', u) { assert SubmissionFits(s, u); }
    forall d | d in s'.closers ensures CloserFits(s', d) { assert CloserFits(s, d); }
    forall u | u in s'.places ensures TaskFits(s', u) { assert TaskFits(s, u); }
  }

  lemma CancelReleaseKeeps(s: State, c: nat, kind: Kind, tasks: seq<nat>)
    requires Inv(s) && c in s.closers && s.closers[c] == DrainedOne(kind, tasks) && tasks != [] && tasks[0] in s.channels
    ensures Inv(CancelRelease(s, c, kind, tasks))
  {
    var s' := CancelRelease(s, c, kind, tasks);
    assert CloserFits(s, c) && TaskFits(s, tasks[0]);
    assert forall i :: 0 <= i < |tasks[1..]| ==> tasks[1..][i] == tasks[i + 1];
    forall x | x in s'.workers ensures WorkerFits(s', x) { assert WorkerFits(s, x); }
    forall u | u in s'.submissions ensures SubmissionFits(s', u) { assert SubmissionFits(s, u); }
    forall d | d in s'.closers ensures CloserFits(s', d) { assert CloserFits(s, d); }
    forall u | u in s'.places ensures TaskFits(s', u) { assert TaskFits(s, u); }
  }

  lemma WorkerStepKeeps(s: State, w: nat, step: WorkerStep)
    requires Inv(s) && WorkerCan(s, w, step)
    ensures Inv(WorkerNext(s, w, step))
  {
    assert WorkerFits(s, w);
    match step {
      case TakeLock => MoveWorkerKeeps(s, w, Looking, ByWorker(w));
      case TakeTask => PopKeeps(s, w);
      case FindEmpty => MoveWorkerKeeps(s, w, SawEmpty, s.lock);
      case CheckClosed =>
        if s.closed {
          MoveWorkerKeeps(s, w, Exited, NoOne);
        } else {
          MoveWorkerKeeps(s, w, MustWait, s.lock);
        }
      case Wait => MoveWorkerKeeps(s, w, Waiting, NoOne);
      case SendValue => SendKeeps(s, w, s.workers[w].task);
      case CloseChannel => CloseKeeps(s, w, s.workers[w].task);
      case DropChannel => FinishKeeps(s, w, s.workers[w].task);
    }
  }

  lemma SubmissionStepKeeps(s: State, t: nat, step: SubmissionStep)
    requires Inv(s) && SubmissionCan(s, t, step)
    ensures Inv(SubmissionNext(s, t, step))
  {
    if step == Arrive {
      BeginKeeps(s, t);
    } else {
      assert SubmissionFits(s, t);
      match step {
        case BadTimeout => MoveSubmissionKeeps(s, t, Refused, s.lock);
        case Enter => MoveSubmissionKeeps(s, t, Entered, BySubmission(t));
        case TestClosed =>
          if s.closed {
            MoveSubmissionKeeps(s, t, Refused, NoOne);
          } else {
            MoveSubmissionKeeps(s, t, SawOpen, s.lock);
          }
        case Enqueue => PushKeeps(s, t);
        case Block => MoveSubmissionKeeps(s, t, Blocked, NoOne);
        case GiveUp => MoveSubmissionKeeps(s, t, Refused, NoOne);
        case CloseRefused => RefusedCloses(s, t);
        case DropRefused => RefusedReleases(s, t);
        case DropResult => CallerReleases(s, t);
      }
    }
  }

  lemma CloserStepKeeps(s: State, c: nat, step: CloserStep)
    requires Inv(s) && CloserCan(s, c, step)
    ensures Inv(CloserNext(s, c, step))
  {
    if step.Call? {
      MoveCloserKeeps(s, c, if step.kind.CancelPending? then WantLock(step.kind) else WantFlag(step.kind), s.lock, s.closed);
    } else {
      assert CloserFits(s, c);
      var pc := s.closers[c];
      match step {
        case RaiseFlag => MoveCloserKeeps(s, c, if pc.kind.CloseAndCancel? then WantLock(CloseAndCancel) else Joining, s.lock, true);
        case EnterQueue => MoveCloserKeeps(s, c, Inside(pc.kind), ByCloser(c), s.closed);
        case TakeAll => DrainKeeps(s, c, pc.kind);
        case CloseNext => CancelCloseKeeps(s, c, pc.kind, pc.tasks);
        case DropNext => CancelReleaseKeeps(s, c, pc.kind, pc.tasks);
        case EndDrain => MoveCloserKeeps(s, c, if pc.kind.CancelPending? then Done else Joining, s.lock, s.closed);
        case TakeHandles => GrabKeeps(s, c);
        case Join => MoveCloserKeeps(s, c, Done, s.lock, s.closed);
      }
    }
  }

  lemma StepKeeps(s: State, step: Step)
    requires Inv(s) && Enabled(s, step)
    ensures Inv(Next(s, step))
  {
    match step {
      case OfWorker(w, work) => WorkerStepKeeps(s, w, work);
      case OfSubmission(t, submit) => SubmissionStepKeeps(s, t, submit);
      case OfCloser(c, close) => CloserStepKeeps(s, c, close);
    }
  }

  // ----- whole runs -----

  /** `run` is a sequence of states, each reached from the one before by the step between them. */
  ghost predicate IsRun(run: seq<State>, steps: seq<Step>) {
    && |run| == |steps| + 1
    && Init(run[0])
    && forall i {:trigger steps[i]} :: 0 <= i < |steps| ==> Enabled(run[i], steps[i]) && run[i + 1] == Next(run[i], steps[i])
  }

  lemma {:induction false} RunKeeps(run: seq<State>, steps: seq<Step>, i: nat)
    requires IsRun(run, steps) && i < |run|
    ensures Inv(run[i])
  {
    if i > 0 {
      RunKeeps(run, steps, i - 1);
      StepKeeps(run[i - 1], steps[i - 1]);
    }
  }

  /** A task has been handed to the pool and not given back to its submitter. */
  predicate TaskAccepted(s: State, t: nat) { t in s.submissions && IsAccepted(s.submissions[t]) }

  predicate HeldByWorker(s: State, t: nat, w: nat) { w in s.workers && TaskOf(s.workers[w]) == Some(t) }
  predicate HeldByCloser(s: State, t: nat, c: nat) { c in s.closers && t in TasksOf(s.closers[c]) }

  /**
   The place of a task is where the threads and the queue have it: so it is
   queued, or held by one worker, or held by one closer, or held by no one and
   its channel is closed, with a result exactly if it has finished.
   */
  ghost predicate InOnePlace(s: State, t: nat) {
    && t in s.places && t in s.channels && s.places[t] != Pending
    && (s.places[t] == Queued <==> t in s.queue)
    && (forall w {:trigger HeldByWorker(s, t, w)} :: s.places[t] == Working(w) <==> HeldByWorker(s, t, w))
    && (forall c {:trigger HeldByCloser(s, t, c)} :: s.places[t] == Cancelling(c) <==> HeldByCloser(s, t, c))
    && (s.places[t] == Finished ==> s.channels[t].closes == 1 && s.channels[t].sends == 1)
    && (s.places[t] == Cancelled ==> s.channels[t].closes == 1 && s.channels[t].sends == 0)
  }

  lemma AcceptedInOnePlace(s: State, t: nat)
    requires Inv(s) && TaskAccepted(s, t)
    ensures InOnePlace(s, t)
  {
    assert SubmissionFits(s, t) && TaskFits(s, t);
    forall w ensures s.places[t] == Working(w) <==> HeldByWorker(s, t, w) {
      assert w in s.workers ==> WorkerFits(s, w);
    }
    forall c ensures s.places[t] == Cancelling(c) <==> HeldByCloser(s, t, c) {
      assert c in s.closers ==> CloserFits(s, c);
    }
  }

  /**
   In every reachable state: the queue is within its capacity; every accepted
   task is in exactly one place, so no two threads hold it; every channel has
   been closed at most once, was never used after that, and carries at most one
   result; and it still has every reference that someone is going to drop.
   */
  lemma PoolIsSafe(run: seq<State>, steps: seq<Step>, i: nat)
    requires IsRun(run, steps) && i < |run|
    ensures |run[i].queue| <= run[i].capacity && NoRepeats(run[i].queue)
    ensures forall t :: TaskAccepted(run[i], t) ==> InOnePlace(run[i], t)
    ensures forall t :: t in run[i].submissions ==>
              && t in run[i].channels
              && var ch := run[i].channels[t]; ch.closes <= 1 && ch.sends <= 1 && ch.refs >= 0 && !ch.late
  {
    RunKeeps(run, steps, i);
    var s := run[i];
    forall t | t in s.submissions
      ensures t in s.places && TaskFits(s, t) && (TaskAccepted(s, t) ==> InOnePlace(s, t))
    {
      assert SubmissionFits(s, t) && TaskFits(s, t);
      if TaskAccepted(s, t) {
        AcceptedInOnePlace(s, t);
      }
    }
  }

  /** Once a worker has exited the pool is closed and its queue is empty, in that state and in every later one. */
  lemma {:induction false} QueueStaysEmpty(run: seq<State>, steps: seq<Step>, i: nat, j: nat, w: nat)
    requires IsRun(run, steps) && i <= j < |run| && WorkerAt(run[i], w, Exited)
    ensures run[j].closed && run[j].queue == []
    decreases j - i
  {
    RunKeeps(run, steps, i);
    assert WorkerFits(run[i], w);
    if i < j {
      StillExited(run[i], steps[i], w);
      QueueStaysEmpty(run, steps, i + 1, j, w);
    }
  }

  /** No step of any thread moves a worker that has exited. */
  lemma StillExited(s: State, step: Step, w: nat)
    requires Enabled(s, step) && WorkerAt(s, w, Exited)
    ensures WorkerAt(Next(s, step), w, Exited)
  {
    match step {
      case OfWorker(x, work) => OtherWorkersStay(s, x, work, w);
      case OfSubmission(t, submit) => SubmissionsMoveNoWorker(s, t, submit);
      case OfCloser(c, close) => ClosersMoveNoWorker(s, c, close);
    }
  }

  lemma ClosersMoveNoWorker(s: State, c: nat, step: CloserStep)
    requires CloserCan(s, c, step)
    ensures CloserNext(s, c, step).workers == s.workers
  {
  }

  lemma OtherWorkersStay(s: State, x: nat, step: WorkerStep, w: nat)
    requires WorkerCan(s, x, step) && WorkerAt(s, w, Exited)
    ensures x != w && WorkerAt(WorkerNext(s, x, step), w, Exited)
  {
  }

  lemma SubmissionsMoveNoWorker(s: State, t: nat, step: SubmissionStep)
    requires SubmissionCan(s, t, step)
    ensures SubmissionNext(s, t, step).workers == s.workers
  {
  }

  ghost predicate AllExited(s: State) { forall w :: w in s.workers ==> s.workers[w].Exited? }
  ghost predicate NoOneCancelling(s: State) { forall c :: c in s.closers ==> TasksOf(s.closers[c]) == [] }

  /** When the workers have all gone and no one is cancelling, every accepted task has its channel closed: none is stranded. */
  lemma NoTaskIsStranded(run: seq<State>, steps: seq<Step>, i: nat, t: nat)
    requires IsRun(run, steps) && i < |run| && run[i].workers.Keys != {}
    requires AllExited(run[i]) && NoOneCancelling(run[i]) && TaskAccepted(run[i], t)
    ensures t in run[i].channels && run[i].channels[t].closes == 1
    ensures t in run[i].places && (run[i].places[t] == Finished || run[i].places[t] == Cancelled)
    ensures run[i].channels[t].sends == if run[i].places[t] == Finished then 1 else 0
  {
    var s := run[i];
    RunKeeps(run, steps, i);
    assert SubmissionFits(s, t) && TaskFits(s, t);
    var w :| w in s.workers.Keys;
    assert WorkerFits(s, w);
    QueueStaysEmpty(run, steps, i, i, w);
  }

  // ----- such runs exist -----

  /** `s` is reached by some run. */
  ghost predicate Reachable(s: State) {
    exists run: seq<State>, steps: seq<Step> :: IsRun(run, steps) && run[|run| - 1] == s
  }

  lemma ReachNext(s: State, step: Step, s': State)
    requires Reachable(s) && Enabled(s, step) && s' == Next(s, step)
    ensures Reachable(s')
  {
    var run: seq<State>, steps: seq<Step> :| IsRun(run, steps) && run[|run| - 1] == s;
    var run', steps' := run + [s'], steps + [step];
    forall i | 0 <= i < |steps'| ensures Enabled(run'[i], steps'[i]) && run'[i + 1] == Next(run'[i], steps'[i]) {
      if i < |steps| {
        assert run'[i] == run[i] && run'[i + 1] == run[i + 1];
      }
    }
    assert IsRun(run', steps') && run'[|run'| - 1] == s';
  }

  /** One worker, one task and at most one closer, at the given points. */
  ghost predicate Sample(s: State, lock: Owner, queue: seq<nat>, worker: Worker, place: Place) {
    && s.capacity == 1 && s.lock == lock && s.queue == queue && s.workers.Keys == {0} && s.workers[0] == worker
    && SubmitAt(s, 0, if place.Pending? then SawOpen else Accepted)
    && 0 in s.channels && s.places.Keys == {0} && s.places[0] == place
    && !s.closed && s.closers == map[]
  }

  lemma StartReached() returns (s: State)
    ensures Reachable(s) && Init(s) && s.capacity == 1 && s.workers == map[0 := Outside]
  {
    s := State(1, false, NoOne, [], map[0 := Outside], map[], map[], map[], map[], false, true);
    var run := [s];
    assert IsRun(run, []) && run[|run| - 1] == s;
  }

  lemma SawOpenReached() returns (s: State)
    ensures Reachable(s) && Sample(s, BySubmission(0), [], Outside, Pending)
  {
    var start := StartReached();
    var a := Begin(start, 0);
    var b := MoveSubmission(a, 0, Entered, BySubmission(0));
    s := MoveSubmission(b, 0, SawOpen, b.lock);
    ReachNext(start, OfSubmission(0, Arrive), a);
    ReachNext(a, OfSubmission(0, Enter), b);
    ReachNext(b, OfSubmission(0, TestClosed), s);
  }

  lemma AcceptedReached() returns (s: State)
    ensures Reachable(s) && Sample(s, NoOne, [0], Outside, Queued)
  {
    var start := SawOpenReached();
    s := Push(start, 0);
    ReachNext(start, OfSubmission(0, Enqueue), s);
  }

  lemma FinishedReached() returns (s: State)
    ensures Reachable(s) && Sample(s, NoOne, [], Outside, Finished)
  {
    var start := AcceptedReached();
    var a := MoveWorker(start, 0, Looking, ByWorker(0));
    var b := Pop(a, 0);
    var c := SendResult(b, 0, 0);
    var d := CloseResult(c, 0, 0);
    s := FinishTask(d, 0, 0);
    ReachNext(start, OfWorker(0, TakeLock), a);
    ReachNext(a, OfWorker(0, TakeTask), b);
    ReachNext(b, OfWorker(0, SendValue), c);
    ReachNext(c, OfWorker(0, CloseChannel), d);
    ReachNext(d, OfWorker(0, DropChannel), s);
  }

  /** A task can be accepted and finished, the pool closed, and every worker gone: the theorems above speak of such runs. */
  lemma ExitReached() returns (s: State)
    ensures Reachable(s) && s.workers.Keys != {} && AllExited(s) && NoOneCancelling(s)
    ensures TaskAccepted(s, 0) && 0 in s.places && s.places[0] == Finished
  {
    var start := FinishedReached();
    var a := MoveCloser(start, 0, WantFlag(Close), start.lock, start.closed);
    var b := MoveCloser(a, 0, Joining, a.lock, true);
    var c := MoveWorker(b, 0, Looking, ByWorker(0));
    var d := MoveWorker(c, 0, SawEmpty, c.lock);
    s := MoveWorker(d, 0, Exited, NoOne);
    ReachNext(start, OfCloser(0, Call(Close)), a);
    ReachNext(a, OfCloser(0, RaiseFlag), b);
    ReachNext(b, OfWorker(0, TakeLock), c);
    ReachNext(c, OfWorker(0, FindEmpty), d);
    ReachNext(d, OfWorker(0, CheckClosed), s);
    assert 0 in s.workers.Keys;
  }
}
