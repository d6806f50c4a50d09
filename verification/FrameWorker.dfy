/** The handshake between the frame producer and the frame worker, as a transition system at the
    granularity of the worker mutex: each step is one locked section, or one stretch of work
    between two of them. */
module FrameWorker {

  /** The worker, between the locked sections of `frame_worker_main` and `run_frame_worker_cycle`. */
  datatype WorkerPc =
    | Idle
    | Sealing
    | AwaitPermission(overlap: bool)
    | Preparing(overlap: bool)
    | PublishSealed(overlap: bool, prepared: bool)
    | Encoding
    | PublishDone
    | Telemetry
    | Catching
    | Exiting
    | Stopped

  /** The producer, between the locked sections of `begin_frame` and `end_frame`. A frame is being
      recorded in `Recording`, and none in `AfterEnd`. */
  datatype ProducerPc =
    | AfterEnd
    | BeginStart
    | BeginLock(surfaceChanged: bool)
    | BeginWait
    | BeginRead
    | BeginRecheck
    | BeginImpl
    | BeginStore(prepared: bool)
    | Recording
    | WaitSealed
    | WaitDone
    | EndStart
    | EndWait
    | Drain
    | Submit

  /** A thread that may call `stop_frame_worker` at any time. */
  datatype StopperPc = NoStop | Joining | Clearing

  datatype State = State(
    started: bool,
    stop: bool,
    jobPending: bool,
    sealed: bool,
    ready: bool,
    framePrepared: bool,
    prepareAllowed: bool,
    worker: WorkerPc,
    producer: ProducerPc,
    stopper: StopperPc,
    submittedFrames: nat,   // frames handed over
    sealedFrames: nat,      // frames whose shared renderer state was released
    doneFrames: nat,        // frames finished, or dropped by an exception or a stop
    begun: bool,            // begin_frame has taken the lock since the last hand-over
    answer: bool)           // what begin_frame returned last

  const INITIAL := State(false, false, false, true, true, false, false, Stopped, AfterEnd, NoStop, 0, 0, 0, false, false)

  // ---- Steps ----

  function Release(s: State): State {
    s.(sealed := true, ready := true, sealedFrames := s.submittedFrames, doneFrames := s.submittedFrames)
  }

  predicate WorkerStep(s: State, t: State) {
    match s.worker
    case Idle =>
      if s.stop then t == s.(worker := Exiting)
      else s.jobPending && t == s.(jobPending := false, worker := Sealing)
    case Sealing =>
      t == s.(worker := AwaitPermission(true)) || t == s.(worker := AwaitPermission(false)) || t == s.(worker := Catching)
    case AwaitPermission(overlap) =>
      if s.stop then t == s.(worker := Exiting)
      else s.prepareAllowed && t == s.(prepareAllowed := false, worker := Preparing(overlap))
    case Preparing(overlap) =>
      t == s.(worker := PublishSealed(overlap, true)) || t == s.(worker := PublishSealed(overlap, false))
    case PublishSealed(overlap, prepared) =>
      var published := s.(framePrepared := prepared, sealed := true, sealedFrames := s.submittedFrames);
      if overlap then t == published.(worker := Encoding)
      else t == Release(published).(worker := Telemetry)
    case Encoding => t == s.(worker := PublishDone) || t == s.(worker := Catching)
    case PublishDone => t == s.(ready := true, doneFrames := s.submittedFrames, worker := Telemetry)
    case Telemetry => t == s.(worker := Idle)
    case Catching => t == Release(s.(framePrepared := false, worker := Idle))
    case Exiting => t == Release(s.(worker := Stopped))
    case Stopped => false
  }

  /** `ensure_frame_worker_started`. */
  function Started(s: State): State {
    if s.started then s
    else Release(s.(stop := false, jobPending := false, prepareAllowed := false, started := true, worker := Idle))
  }

  /** Whether a wait for this phase returns: the flag is set, or there is no worker. */
  predicate SealedReached(s: State) { s.sealed || !s.started }

  predicate DoneReached(s: State) { s.ready || !s.started }

  /** `begin_frame`. The surface check and the preparation result are up to the environment. */
  predicate BeginStep(s: State, t: State) {
    match s.producer
    case AfterEnd => t == s.(producer := BeginStart)
    case BeginStart => t.producer.BeginLock? && t == Started(s).(producer := t.producer)
    case BeginLock(surfaceChanged) =>
      if !s.ready then
        t == s.(begun := true, prepareAllowed := true, answer := if surfaceChanged then s.answer else true,
                producer := if surfaceChanged then BeginWait else Recording)
      else
        t == s.(begun := true, answer := if s.framePrepared then true else s.answer,
                producer := if s.framePrepared then Recording else BeginRecheck)
    case BeginWait => DoneReached(s) && t == s.(producer := BeginRead)
    case BeginRead => t == s.(answer := s.framePrepared, producer := Recording)
    case BeginRecheck => if s.framePrepared then t == s.(answer := true, producer := Recording) else t == s.(producer := BeginImpl)
    case BeginImpl => t.producer.BeginStore? && t == s.(producer := t.producer)
    case BeginStore(prepared) => t == s.(framePrepared := prepared, answer := prepared, producer := Recording)
    case _ => false
  }

  /** Recording a frame, waiting for either phase while doing so, beginning again after a failed
      preparation, and `end_frame`. */
  predicate EndStep(s: State, t: State) {
    match s.producer
    case Recording =>
      && (t.producer.WaitSealed? || t.producer.WaitDone? || t.producer.BeginStart? || t.producer.EndStart?)
      && t == s.(producer := t.producer)
    case WaitSealed => SealedReached(s) && t == s.(producer := Recording)
    case WaitDone => DoneReached(s) && t == s.(producer := Recording)
    case EndStart => t == Started(s).(producer := EndWait)
    case EndWait => DoneReached(s) && t == s.(producer := Drain)
    case Drain => t == s.(producer := Submit)
    case Submit =>
      t == s.(framePrepared := false, sealed := false, ready := false, jobPending := true, prepareAllowed := false,
              submittedFrames := s.submittedFrames + 1, begun := false, producer := AfterEnd)
    case _ => false
  }

  predicate ProducerStep(s: State, t: State) {
    BeginStep(s, t) || EndStep(s, t)
  }

  predicate StopperStep(s: State, t: State) {
    match s.stopper
    case NoStop => s.started && t == s.(stop := true, prepareAllowed := true, stopper := Joining)
    case Joining => s.worker.Stopped? && t == s.(stopper := Clearing)
    case Clearing =>
      // A frame handed over after the worker left is dropped here.
      t == s.(started := false, framePrepared := false, stopper := NoStop,
              sealedFrames := s.submittedFrames, doneFrames := s.submittedFrames)
  }

  predicate Step(s: State, t: State) {
    WorkerStep(s, t) || ProducerStep(s, t) || StopperStep(s, t)
  }

  /** What the protocol does not decide is open: whether a cycle overlaps, how a preparation ends, and
      what sealing and encoding throw. */
  lemma WorkerOutcomesAreOpen(s: State, decision: bool)
    ensures s.worker.Sealing? ==> WorkerStep(s, s.(worker := AwaitPermission(decision)))
    ensures s.worker.Preparing? ==> WorkerStep(s, s.(worker := PublishSealed(s.worker.overlap, decision)))
    ensures s.worker.Sealing? || s.worker.Encoding? ==> WorkerStep(s, s.(worker := Catching))
  {
  }

  /** So is whether the surface has changed, how the producer's own preparation ends, and what is
      called while a frame is recorded. */
  lemma ProducerOutcomesAreOpen(s: State, decision: bool)
    ensures s.producer.BeginStart? ==> BeginStep(s, Started(s).(producer := BeginLock(decision)))
    ensures s.producer.BeginImpl? ==> BeginStep(s, s.(producer := BeginStore(decision)))
  {
    hide Started;
  }

  lemma RecordingIsOpen(s: State, p: ProducerPc)
    requires s.producer.Recording? && (p.BeginStart? || p.EndStart? || p.WaitSealed? || p.WaitDone?)
    ensures EndStep(s, s.(producer := p))
  {
  }

  // ---- What every reachable state keeps ----

  /** The worker owns the sealed frame and the renderer state of a cycle. */
  predicate InCycle(w: WorkerPc) {
    w.Sealing? || w.AwaitPermission? || w.Preparing? || w.PublishSealed? || w.Encoding? || w.PublishDone? || w.Catching?
  }

  /** No cycle is running, and none can start until the producer hands over a frame. */
  predicate Quiet(s: State) {
    !InCycle(s.worker) && (s.jobPending ==> s.stop)
  }

  /** The producer touches state that a cycle also uses. */
  predicate UsesRenderer(p: ProducerPc) {
    p.Drain? || p.Submit? || p.BeginRecheck? || p.BeginImpl? || p.BeginStore?
  }

  predicate Overlaps(s: State) {
    UsesRenderer(s.producer) && InCycle(s.worker)
  }

  /** The producer waits for a phase that has not been reached. */
  predicate Blocked(s: State) {
    match s.producer
    case BeginWait => !DoneReached(s)
    case WaitSealed => !SealedReached(s)
    case WaitDone => !DoneReached(s)
    case EndWait => !DoneReached(s)
    case _ => false
  }

  predicate AfterBegin(p: ProducerPc) {
    !p.AfterEnd? && !p.BeginStart? && !p.BeginLock?
  }

  /** A cycle has still to pass the permission gate. */
  predicate NeedsPermission(s: State) {
    s.started && !s.stop && !s.ready && (s.jobPending || s.worker.Sealing? || s.worker.AwaitPermission?)
  }

  /** At most one frame is outstanding, and the flags count it. */
  predicate CountsAgree(s: State) {
    && s.doneFrames <= s.sealedFrames <= s.submittedFrames <= s.doneFrames + 1
    && (s.ready ==> s.sealed && s.doneFrames == s.submittedFrames)
    && (s.sealed ==> s.sealedFrames == s.submittedFrames)
    && (s.started && !s.ready ==> s.doneFrames < s.submittedFrames)
    && (s.started && !s.sealed ==> s.sealedFrames < s.submittedFrames)
    && (!s.started && s.doneFrames < s.submittedFrames ==> s.producer.AfterEnd? || s.producer.BeginStart?)
  }

  /** When the worker thread exists and why it leaves. */
  predicate LifetimeAgrees(s: State) {
    && (!s.started ==> s.worker.Stopped? && s.stopper.NoStop?)
    && (s.worker.Exiting? || (s.started && s.worker.Stopped?) ==> s.stop)
    && (s.started && s.stop ==> !s.stopper.NoStop?)
    && (!s.stopper.NoStop? ==> s.stop && s.started)
    && (s.stopper.Clearing? ==> s.worker.Stopped?)
  }

  /** The flags say where in its cycle the worker is. */
  predicate PhasesAgree(s: State) {
    && !(s.jobPending && InCycle(s.worker))
    && (s.started && s.ready ==> !InCycle(s.worker) && (s.jobPending ==> s.stop))
    && (s.started && !s.ready ==> s.jobPending || InCycle(s.worker) || s.worker.Exiting?)
    && (s.started && s.sealed && !s.ready ==> s.worker.Encoding? || s.worker.PublishDone? || s.worker.Catching?)
    && (s.worker.Encoding? || s.worker.PublishDone? ==> s.sealed)
    && (s.worker.Sealing? || s.worker.AwaitPermission? || s.worker.Preparing? || s.worker.PublishSealed? ==> !s.sealed)
  }

  /** Permission to prepare belongs to the frame that began after the hand-over. */
  predicate PermissionAgrees(s: State) {
    && (AfterBegin(s.producer) ==> s.begun)
    && (s.producer.AfterEnd? ==> !s.begun)
    && (s.prepareAllowed ==> s.begun || s.stop)
    && (s.worker.Preparing? || s.worker.PublishSealed? || s.worker.Encoding? || s.worker.PublishDone? ==> s.begun)
    && (NeedsPermission(s) && s.begun ==> s.prepareAllowed)
  }

  /** The producer's own use of the renderer excludes the worker's. */
  predicate Excluded(s: State) {
    UsesRenderer(s.producer) ==> !InCycle(s.worker) && (s.started ==> s.ready && (s.jobPending ==> s.stop))
  }

  /** The producer prepares only a frame that nobody has prepared, and reads the worker's result only
      when the cycle is over. */
  predicate PreparationAgrees(s: State) {
    && (s.producer.BeginRecheck? || s.producer.BeginImpl? || s.producer.BeginStore? ==> !s.framePrepared)
    && (s.producer.BeginRead? ==> s.doneFrames == s.submittedFrames)
  }

  predicate Inv(s: State) {
    && CountsAgree(s) && LifetimeAgrees(s) && PhasesAgree(s) && PermissionAgrees(s) && Excluded(s)
    && PreparationAgrees(s)
  }

  lemma InitialInv()
    ensures Inv(INITIAL)
  {
  }

  /** How far the worker is from the next phase it publishes. */
  function WorkerRank(w: WorkerPc): nat {
    match w
    case Telemetry => 9
    case Idle => 8
    case Sealing => 7
    case AwaitPermission(_) => 6
    case Preparing(_) => 5
    case PublishSealed(_, _) => 4
    case Encoding => 3
    case PublishDone => 2
    case Catching => 2
    case Exiting => 1
    case Stopped => 0
  }

  /** A step of the worker comes closer to publishing a phase, or publishes both. */
  predicate Leads(s: State, t: State) {
    t.stopper == s.stopper && (WorkerRank(t.worker) < WorkerRank(s.worker) || (t.ready && t.sealed))
  }

  // ---- What a step does ----

  /** A preparation of a frame ends with this result: the worker's, or the producer's own. */
  predicate Prepares(s: State, t: State, prepared: bool) {
    || (s.worker.PublishSealed? && s.worker.prepared == prepared && t.worker != s.worker)
    || (s.producer == BeginStore(prepared) && t.producer != s.producer)
  }

  /** The frame is handed over, dropped after an exception, or given up with the worker. */
  predicate Forgets(s: State, t: State) {
    || (s.producer.Submit? && t.producer != s.producer)
    || (s.worker.Catching? && t.worker != s.worker)
    || (s.stopper.Clearing? && t.stopper != s.stopper)
  }

  predicate Replaces(s: State, t: State) {
    Prepares(s, t, true) || Prepares(s, t, false) || Forgets(s, t)
  }

  /** `begin_frame` answers at this step. */
  predicate Answers(s: State, t: State) {
    t.producer.Recording? && (s.producer.BeginLock? || s.producer.BeginRead? || s.producer.BeginRecheck? || s.producer.BeginStore?)
  }

  /** It answers without waiting, for a frame that the worker is still to prepare. */
  predicate IsOptimistic(s: State) {
    s.producer == BeginLock(false) && !s.ready
  }

  /** What one step does to the flag, what `begin_frame` answers, and when a wait returns. */
  predicate Agrees(s: State, t: State) {
    && t.framePrepared == (Prepares(s, t, true) || (s.framePrepared && !Replaces(s, t)))
    && (Answers(s, t) ==>
          if IsOptimistic(s) then t.answer && t.prepareAllowed
          else t.answer == t.framePrepared && s.doneFrames == s.submittedFrames)
    && (t.producer != s.producer ==>
          && (s.producer.WaitSealed? ==> s.sealedFrames == s.submittedFrames)
          && (s.producer.WaitDone? || s.producer.EndWait? || s.producer.BeginWait? ==> s.doneFrames == s.submittedFrames))
  }

  // One lemma for each program counter.

  lemma FromIdle(s: State, t: State)
    requires Inv(s) && s.worker.Idle? && WorkerStep(s, t)
    ensures Inv(t) && Leads(s, t) && Agrees(s, t)
  {
  }

  lemma FromSealing(s: State, t: State)
    requires Inv(s) && s.worker.Sealing? && WorkerStep(s, t)
    ensures Inv(t) && Leads(s, t) && Agrees(s, t)
  {
  }

  lemma FromAwaitPermission(s: State, t: State)
    requires Inv(s) && s.worker.AwaitPermission? && WorkerStep(s, t)
    ensures Inv(t) && Leads(s, t) && Agrees(s, t)
  {
  }

  lemma FromPreparing(s: State, t: State)
    requires Inv(s) && s.worker.Preparing? && WorkerStep(s, t)
    ensures Inv(t) && Leads(s, t) && Agrees(s, t)
  {
  }

  lemma FromPublishSealed(s: State, t: State)
    requires Inv(s) && s.worker.PublishSealed? && WorkerStep(s, t)
    ensures Inv(t) && Leads(s, t) && Agrees(s, t)
  {
  }

  lemma FromEncoding(s: State, t: State)
    requires Inv(s) && s.worker.Encoding? && WorkerStep(s, t)
    ensures Inv(t) && Leads(s, t) && Agrees(s, t)
  {
  }

  lemma FromPublishDone(s: State, t: State)
    requires Inv(s) && s.worker.PublishDone? && WorkerStep(s, t)
    ensures Inv(t) && Leads(s, t) && Agrees(s, t)
  {
  }

  lemma FromTelemetry(s: State, t: State)
    requires Inv(s) && s.worker.Telemetry? && WorkerStep(s, t)
    ensures Inv(t) && Leads(s, t) && Agrees(s, t)
  {
  }

  lemma FromCatching(s: State, t: State)
    requires Inv(s) && s.worker.Catching? && WorkerStep(s, t)
    ensures Inv(t) && Leads(s, t) && Agrees(s, t)
  {
  }

  lemma FromExiting(s: State, t: State)
    requires Inv(s) && s.worker.Exiting? && WorkerStep(s, t)
    ensures Inv(t) && Leads(s, t) && Agrees(s, t)
  {
  }

  lemma FromAfterEnd(s: State, t: State)
    requires Inv(s) && s.producer.AfterEnd? && BeginStep(s, t)
    ensures Inv(t) && Agrees(s, t)
  {
  }

  lemma FromBeginStart(s: State, t: State)
    requires Inv(s) && s.producer.BeginStart? && BeginStep(s, t)
    ensures Inv(t) && Agrees(s, t)
  {
  }

  lemma FromBeginLock(s: State, t: State)
    requires Inv(s) && s.producer.BeginLock? && BeginStep(s, t)
    ensures Inv(t) && Agrees(s, t)
  {
  }

  lemma FromBeginWait(s: State, t: State)
    requires Inv(s) && s.producer.BeginWait? && BeginStep(s, t)
    ensures Inv(t) && Agrees(s, t)
  {
  }

  lemma FromBeginRead(s: State, t: State)
    requires Inv(s) && s.producer.BeginRead? && BeginStep(s, t)
    ensures Inv(t) && Agrees(s, t)
  {
  }

  lemma FromBeginRecheck(s: State, t: State)
    requires Inv(s) && s.producer.BeginRecheck? && BeginStep(s, t)
    ensures Inv(t) && Agrees(s, t)
  {
  }

  lemma FromBeginImpl(s: State, t: State)
    requires Inv(s) && s.producer.BeginImpl? && BeginStep(s, t)
    ensures Inv(t) && Agrees(s, t)
  {
  }

  lemma FromBeginStore(s: State, t: State)
    requires Inv(s) && s.producer.BeginStore? && BeginStep(s, t)
    ensures Inv(t) && Agrees(s, t)
  {
  }

  lemma FromRecording(s: State, t: State)
    requires Inv(s) && s.producer.Recording? && EndStep(s, t)
    ensures Inv(t) && Agrees(s, t)
  {
  }

  lemma FromWaitSealed(s: State, t: State)
    requires Inv(s) && s.producer.WaitSealed? && EndStep(s, t)
    ensures Inv(t) && Agrees(s, t)
  {
  }

  lemma FromWaitDone(s: State, t: State)
    requires Inv(s) && s.producer.WaitDone? && EndStep(s, t)
    ensures Inv(t) && Agrees(s, t)
  {
  }

  lemma FromEndStart(s: State, t: State)
    requires Inv(s) && s.producer.EndStart? && EndStep(s, t)
    ensures Inv(t) && Agrees(s, t)
  {
  }

  lemma FromEndWait(s: State, t: State)
    requires Inv(s) && s.producer.EndWait? && EndStep(s, t)
    ensures Inv(t) && Agrees(s, t)
  {
  }

  lemma FromDrain(s: State, t: State)
    requires Inv(s) && s.producer.Drain? && EndStep(s, t)
    ensures Inv(t) && Agrees(s, t)
  {
  }

  lemma FromSubmit(s: State, t: State)
    requires Inv(s) && s.producer.Submit? && EndStep(s, t)
    ensures Inv(t) && Agrees(s, t)
  {
  }

  lemma FromNoStop(s: State, t: State)
    requires Inv(s) && s.stopper.NoStop? && StopperStep(s, t)
    ensures Inv(t) && Agrees(s, t)
  {
  }

  lemma FromJoining(s: State, t: State)
    requires Inv(s) && s.stopper.Joining? && StopperStep(s, t)
    ensures Inv(t) && Agrees(s, t)
  {
  }

  lemma FromClearing(s: State, t: State)
    requires Inv(s) && s.stopper.Clearing? && StopperStep(s, t)
    ensures Inv(t) && Agrees(s, t)
  {
  }

  lemma WorkerStepKeepsInv(s: State, t: State)
    requires Inv(s) && WorkerStep(s, t)
    ensures Inv(t) && Leads(s, t) && Agrees(s, t)
  {
    match s.worker {
      case Idle => FromIdle(s, t);
      case Sealing => FromSealing(s, t);
      case AwaitPermission(_) => FromAwaitPermission(s, t);
      case Preparing(_) => FromPreparing(s, t);
      case PublishSealed(_, _) => FromPublishSealed(s, t);
      case Encoding => FromEncoding(s, t);
      case PublishDone => FromPublishDone(s, t);
      case Telemetry => FromTelemetry(s, t);
      case Catching => FromCatching(s, t);
      case Exiting => FromExiting(s, t);
      case _ =>
    }
  }

  lemma BeginStepKeepsInv(s: State, t: State)
    requires Inv(s) && BeginStep(s, t)
    ensures Inv(t) && Agrees(s, t)
  {
    match s.producer {
      case AfterEnd => FromAfterEnd(s, t);
      case BeginStart => FromBeginStart(s, t);
      case BeginLock(_) => FromBeginLock(s, t);
      case BeginWait => FromBeginWait(s, t);
      case BeginRead => FromBeginRead(s, t);
      case BeginRecheck => FromBeginRecheck(s, t);
      case BeginImpl => FromBeginImpl(s, t);
      case BeginStore(_) => FromBeginStore(s, t);
      case _ =>
    }
  }

  lemma EndStepKeepsInv(s: State, t: State)
    requires Inv(s) && EndStep(s, t)
    ensures Inv(t) && Agrees(s, t)
  {
    match s.producer {
      case Recording => FromRecording(s, t);
      case WaitSealed => FromWaitSealed(s, t);
      case WaitDone => FromWaitDone(s, t);
      case EndStart => FromEndStart(s, t);
      case EndWait => FromEndWait(s, t);
      case Drain => FromDrain(s, t);
      case Submit => FromSubmit(s, t);
      case _ =>
    }
  }

  lemma StopperStepKeepsInv(s: State, t: State)
    requires Inv(s) && StopperStep(s, t)
    ensures Inv(t) && Agrees(s, t)
  {
    match s.stopper {
      case NoStop => FromNoStop(s, t);
      case Joining => FromJoining(s, t);
      case Clearing => FromClearing(s, t);
    }
  }

  lemma StepKeepsInv(s: State, t: State)
    requires Inv(s) && Step(s, t)
    ensures Inv(t) && Agrees(s, t)
  {
    if WorkerStep(s, t) {
      WorkerStepKeepsInv(s, t);
    } else if BeginStep(s, t) {
      BeginStepKeepsInv(s, t);
    } else if EndStep(s, t) {
      EndStepKeepsInv(s, t);
    } else {
      StopperStepKeepsInv(s, t);
    }
  }

  // ---- Safety over whole runs ----

  ghost predicate IsPath(run: seq<State>) {
    forall i | 0 <= i < |run| - 1 :: Step(run[i], run[i + 1])
  }

  ghost predicate IsRun(run: seq<State>) {
    run != [] && run[0] == INITIAL && IsPath(run)
  }

  lemma {:induction false} PathKeepsInv(path: seq<State>, n: nat)
    requires n < |path| && IsPath(path) && Inv(path[0])
    ensures Inv(path[n])
  {
    if n > 0 {
      PathKeepsInv(path, n - 1);
      assert Step(path[n - 1], path[n - 1 + 1]);
      StepKeepsInv(path[n - 1], path[n]);
    }
  }

  lemma RunKeepsInv(run: seq<State>, n: nat)
    requires IsRun(run) && n < |run|
    ensures Inv(run[n])
  {
    InitialInv();
    PathKeepsInv(run, n);
  }

  /** In every interleaving at most one frame is outstanding, DONE comes no earlier than SEALED,
      and neither the drain of `end_frame` nor the producer's own preparation of a frame runs
      while the worker is in a cycle. */
  lemma CyclesNeverOverlap(run: seq<State>, n: nat)
    requires IsRun(run) && n < |run|
    ensures var s := run[n];
            && s.doneFrames <= s.sealedFrames <= s.submittedFrames && s.submittedFrames - s.doneFrames <= 1
            && (s.ready ==> s.sealed)
            && (s.ready && s.started ==> Quiet(s))
            && !Overlaps(s)
  {
    RunKeepsInv(run, n);
  }

  /** The worker passes its permission gate only for a frame that began after the hand-over it is
      working on, so permission never carries over to the next cycle. */
  lemma PermissionIsFresh(run: seq<State>, n: nat)
    requires IsRun(run) && n + 1 < |run|
    requires run[n].worker.AwaitPermission? && run[n + 1].worker.Preparing?
    ensures run[n].begun && !run[n + 1].prepareAllowed
    ensures run[n].submittedFrames == run[n].doneFrames + 1 && !run[n].producer.AfterEnd?
  {
    RunKeepsInv(run, n);
    assert Step(run[n], run[n + 1]);
  }

  // ---- Preparation ----

  predicate PreparedAt(run: seq<State>, n: nat) { n + 1 < |run| && Prepares(run[n], run[n + 1], true) }

  predicate ReplacedAt(run: seq<State>, n: nat) { n + 1 < |run| && Replaces(run[n], run[n + 1]) }

  /** The last preparation of the run so far succeeded, and its frame is still there. */
  ghost predicate IsPrepared(run: seq<State>, n: nat) {
    exists m: nat | m < n :: PreparedAt(run, m) && Untouched(run, m + 1, n)
  }

  ghost predicate Untouched(run: seq<State>, from: nat, n: nat) {
    forall j: nat | from <= j < n :: !ReplacedAt(run, j)
  }

  /** At every point of every run the flag holds the result of the last preparation, the worker's or
      the producer's, unless its frame has been handed over or dropped since. */
  lemma {:induction false} PreparedIsLastResult(run: seq<State>, n: nat)
    requires IsRun(run) && n < |run|
    ensures run[n].framePrepared <==> IsPrepared(run, n)
  {
    hide Prepares, Replaces, Step, IsPrepared;
    NothingPrepared(run);
    if n > 0 {
      PreparedIsLastResult(run, n - 1);
      assert Step(run[n - 1], run[n - 1 + 1]);
      RunKeepsInv(run, n - 1);
      StepKeepsInv(run[n - 1], run[n]);
      OneMorePrepares(run, n);
    }
  }

  lemma NothingPrepared(run: seq<State>)
    ensures !IsPrepared(run, 0)
  {
  }

  lemma OneMorePrepares(run: seq<State>, n: nat)
    requires 0 < n < |run|
    ensures IsPrepared(run, n) <==> PreparedAt(run, n - 1) || (IsPrepared(run, n - 1) && !ReplacedAt(run, n - 1))
  {
    hide PreparedAt, ReplacedAt;
    if PreparedAt(run, n - 1) {
      assert Untouched(run, n - 1 + 1, n);
    } else if IsPrepared(run, n) {
      var m: nat :| m < n && PreparedAt(run, m) && Untouched(run, m + 1, n);
      assert Untouched(run, m + 1, n - 1);
    }
    if IsPrepared(run, n - 1) && !ReplacedAt(run, n - 1) {
      var m: nat :| m < n - 1 && PreparedAt(run, m) && Untouched(run, m + 1, n - 1);
      assert Untouched(run, m + 1, n);
    }
  }

  /** When `begin_frame` answers, then with the result of the last preparation, of a cycle that is
      over; or optimistically, and then the worker has the permission to prepare the frame. */
  lemma AnswerIsLastResult(run: seq<State>, n: nat)
    requires IsRun(run) && n + 1 < |run| && Answers(run[n], run[n + 1])
    ensures if IsOptimistic(run[n]) then run[n + 1].answer && run[n + 1].prepareAllowed
            else (run[n + 1].answer <==> IsPrepared(run, n + 1)) && run[n].doneFrames == run[n].submittedFrames
  {
    hide IsPrepared, Step, Inv, Answers, IsOptimistic;
    RunKeepsInv(run, n);
    assert Step(run[n], run[n + 1]);
    PreparedIsLastResult(run, n + 1);
    StepKeepsInv(run[n], run[n + 1]);
  }

  /** `begin_frame` prepares the frame itself. */
  predicate Prepare(p: ProducerPc) {
    p.BeginRecheck? || p.BeginImpl? || p.BeginStore?
  }

  /** A `begin_frame` that finds the worker done and no frame prepared prepares one before it returns,
      and answers with that result. */
  lemma UnpreparedIsPrepared(run: seq<State>, n: nat, k: nat)
    requires IsRun(run) && n + 1 < k < |run|
    requires run[n].producer.BeginLock? && run[n].ready && !run[n].framePrepared && run[n + 1].producer != run[n].producer
    requires run[k].producer.Recording? && forall j | n < j < k :: !run[j].producer.Recording?
    ensures exists i: nat | n < i < k - 1 ::
              && run[i].producer.BeginImpl? && run[i + 1].producer.BeginStore?
              && run[i + 1].producer.prepared == run[k].answer == run[k].framePrepared
  {
    hide BeginStep, EndStep, WorkerStep, StopperStep, Inv;
    assert Step(run[n], run[n + 1]);
    RunKeepsInv(run, n);
    LockLeadsToRecheck(run[n], run[n + 1]);
    var i := PreparingSince(run, n + 1, k - 1);
    assert Step(run[k - 1], run[k - 1 + 1]);
    RunKeepsInv(run, k - 1);
    PreparationEnds(run[k - 1], run[k]);
  }

  lemma LockLeadsToRecheck(s: State, t: State)
    requires Inv(s) && Step(s, t) && s.producer.BeginLock? && s.ready && !s.framePrepared && t.producer != s.producer
    ensures t.producer.BeginRecheck?
  {
  }

  lemma PreparationGoesOn(s: State, t: State)
    requires Inv(s) && Step(s, t) && Prepare(s.producer) && !t.producer.Recording?
    ensures Prepare(t.producer)
    ensures t.producer.BeginStore? ==> s.producer.BeginImpl? || s.producer == t.producer
  {
  }

  lemma PreparationEnds(s: State, t: State)
    requires Inv(s) && Step(s, t) && Prepare(s.producer) && t.producer.Recording?
    ensures s.producer.BeginStore? && s.producer.prepared == t.answer == t.framePrepared
  {
  }

  /** The producer's own preparation, seen from a later state: where its call returned. */
  lemma {:induction false} PreparingSince(run: seq<State>, from: nat, n: nat) returns (i: nat)
    requires IsRun(run) && from <= n < |run| && run[from].producer.BeginRecheck?
    requires forall j | from <= j <= n :: !run[j].producer.Recording?
    ensures Prepare(run[n].producer)
    ensures run[n].producer.BeginStore? ==>
              from <= i < n && run[i].producer.BeginImpl? && run[i + 1].producer == run[n].producer
    decreases n
  {
    hide Step, Inv;
    i := 0;
    if n > from {
      i := PreparingSince(run, from, n - 1);
      assert Step(run[n - 1], run[n - 1 + 1]);
      RunKeepsInv(run, n - 1);
      PreparationGoesOn(run[n - 1], run[n]);
      if !run[n - 1].producer.BeginStore? { i := n - 1; }
    }
  }

  // ---- Waiting ----

  /** A wait for a phase returns only when the phase has been reached for every frame handed over. */
  lemma WaitsReachTheirPhase(run: seq<State>, n: nat)
    requires IsRun(run) && n + 1 < |run| && run[n + 1].producer != run[n].producer
    ensures run[n].producer.WaitSealed? ==> run[n].sealedFrames == run[n].submittedFrames
    ensures run[n].producer.WaitDone? || run[n].producer.EndWait? || run[n].producer.BeginWait? ==>
              run[n].doneFrames == run[n].submittedFrames
  {
    hide Step, Inv;
    RunKeepsInv(run, n);
    assert Step(run[n], run[n + 1]);
    StepKeepsInv(run[n], run[n + 1]);
  }

  // ---- Progress ----

  function StopperRank(p: StopperPc): nat {
    match p
    case NoStop => 2
    case Joining => 1
    case Clearing => 0
  }

  /** How many steps of the other threads a wait can still outlast. */
  function Rank(s: State): nat {
    WorkerRank(s.worker) + StopperRank(s.stopper)
  }

  /** One step of the thread a blocked producer waits for. */
  function UnblockingStep(s: State): State {
    match s.worker
    case Idle => if s.stop then s.(worker := Exiting) else s.(jobPending := false, worker := Sealing)
    case Sealing => s.(worker := AwaitPermission(true))
    case AwaitPermission(overlap) =>
      if s.stop then s.(worker := Exiting) else s.(prepareAllowed := false, worker := Preparing(overlap))
    case Preparing(overlap) => s.(worker := PublishSealed(overlap, true))
    case PublishSealed(overlap, prepared) =>
      var published := s.(framePrepared := prepared, sealed := true, sealedFrames := s.submittedFrames);
      if overlap then published.(worker := Encoding) else Release(published).(worker := Telemetry)
    case Encoding => s.(worker := PublishDone)
    case PublishDone => s.(ready := true, doneFrames := s.submittedFrames, worker := Telemetry)
    case Telemetry => s.(worker := Idle)
    case Catching => Release(s.(framePrepared := false, worker := Idle))
    case Exiting => Release(s.(worker := Stopped))
    case Stopped =>
      if s.stopper.Clearing?
      then s.(started := false, framePrepared := false, stopper := NoStop,
              sealedFrames := s.submittedFrames, doneFrames := s.submittedFrames)
      else s.(stopper := Clearing)
  }

  /** Whoever waits for SEALED or DONE, some thread it depends on can move: after an exception or
      a stop request at any point as well. */
  lemma BlockedProducerIsServed(s: State)
    requires Inv(s) && Blocked(s)
    ensures WorkerStep(s, UnblockingStep(s)) || StopperStep(s, UnblockingStep(s))
  {
  }

  lemma WaitingWorkerStepDecreases(s: State, t: State)
    requires Inv(s) && Blocked(s) && Blocked(t) && WorkerStep(s, t)
    ensures Rank(t) < Rank(s)
  {
    WorkerStepKeepsInv(s, t);
  }

  lemma WaitingStepDecreases(s: State, t: State)
    requires Inv(s) && Blocked(s) && Blocked(t) && Step(s, t)
    ensures Rank(t) < Rank(s)
  {
    if WorkerStep(s, t) {
      WaitingWorkerStepDecreases(s, t);
    }
  }

  /** However the other threads are scheduled, a wait ends within Rank steps of theirs. */
  lemma {:induction false} WaitEnds(wait: seq<State>)
    requires wait != [] && IsPath(wait) && Inv(wait[0])
    requires forall i | 0 <= i < |wait| :: Blocked(wait[i])
    ensures |wait| <= Rank(wait[0]) + 1 <= 12
  {
    if |wait| > 1 {
      assert Step(wait[0], wait[0 + 1]);
      StepKeepsInv(wait[0], wait[1]);
      WaitingStepDecreases(wait[0], wait[1]);
      forall i | 0 <= i < |wait[1..]| - 1
        ensures Step(wait[1..][i], wait[1..][i + 1])
      {
        assert Step(wait[i + 1], wait[i + 1 + 1]);
      }
      WaitEnds(wait[1..]);
    }
  }

  function ProducerMove(s: State): (t: State)
    ensures t.stop ==> s.stop
  {
    match s.producer
    case AfterEnd => s.(producer := BeginStart)
    case BeginStart => Started(s).(producer := BeginLock(false))
    case BeginLock(surfaceChanged) =>
      if !s.ready then
        s.(begun := true, prepareAllowed := true, answer := if surfaceChanged then s.answer else true,
           producer := if surfaceChanged then BeginWait else Recording)
      else
        s.(begun := true, answer := if s.framePrepared then true else s.answer,
           producer := if s.framePrepared then Recording else BeginRecheck)
    case BeginWait => s.(producer := BeginRead)
    case BeginRead => s.(answer := s.framePrepared, producer := Recording)
    case BeginRecheck => if s.framePrepared then s.(answer := true, producer := Recording) else s.(producer := BeginImpl)
    case BeginImpl => s.(producer := BeginStore(true))
    case BeginStore(prepared) => s.(framePrepared := prepared, answer := prepared, producer := Recording)
    case Recording => s.(producer := EndStart)
    case WaitSealed => s.(producer := Recording)
    case WaitDone => s.(producer := Recording)
    case EndStart => Started(s).(producer := EndWait)
    case EndWait => s.(producer := Drain)
    case Drain => s.(producer := Submit)
    case Submit =>
      s.(framePrepared := false, sealed := false, ready := false, jobPending := true, prepareAllowed := false,
         submittedFrames := s.submittedFrames + 1, begun := false, producer := AfterEnd)
  }

  predicate Beginning(p: ProducerPc) {
    p.AfterEnd? || p.BeginStart? || p.BeginLock? || p.BeginWait? || p.BeginRead? || p.BeginRecheck? || p.BeginImpl? || p.BeginStore?
  }

  lemma BeginMoves(s: State)
    requires !Blocked(s) && Beginning(s.producer)
    ensures BeginStep(s, ProducerMove(s))
  {
  }

  lemma EndMoves(s: State)
    requires !Blocked(s) && !Beginning(s.producer)
    ensures EndStep(s, ProducerMove(s))
  {
  }

  lemma UnblockedProducerMoves(s: State)
    requires !Blocked(s)
    ensures ProducerStep(s, ProducerMove(s))
  {
    hide BeginStep, EndStep, ProducerMove;
    if Beginning(s.producer) {
      BeginMoves(s);
    } else {
      EndMoves(s);
    }
  }

  /** A step that no new stop request is needed for. */
  predicate ProtocolStep(s: State, t: State) {
    WorkerStep(s, t) || ProducerStep(s, t) || (StopperStep(s, t) && !s.stopper.NoStop?)
  }

  lemma UnblockingNeedsNoStop(s: State)
    requires Inv(s) && Blocked(s)
    ensures ProtocolStep(s, UnblockingStep(s)) && UnblockingStep(s).stop == s.stop
  {
    BlockedProducerIsServed(s);
  }

  lemma ProducerNeedsNoStop(s: State)
    requires !Blocked(s)
    ensures ProtocolStep(s, ProducerMove(s)) && (ProducerMove(s).stop ==> s.stop)
  {
    hide BeginStep, EndStep, WorkerStep, StopperStep, ProducerMove;
    UnblockedProducerMoves(s);
  }

  /** In no reachable state does the protocol wait for a stop request: the worker, the producer or
      a stop already under way can move. */
  lemma NoDeadlock(run: seq<State>, n: nat)
    requires IsRun(run) && n < |run|
    ensures exists t :: ProtocolStep(run[n], t) && (t.stop ==> run[n].stop)
  {
    hide ProtocolStep, UnblockingStep, ProducerMove;
    RunKeepsInv(run, n);
    if Blocked(run[n]) {
      UnblockingNeedsNoStop(run[n]);
    } else {
      ProducerNeedsNoStop(run[n]);
    }
  }

  // ---- What the protocol needs from its users ----

  /** Calling `end_frame` again without a `begin_frame` in between. */
  predicate SecondEnd(s: State, t: State) {
    s.producer.AfterEnd? && t == s.(producer := EndWait)
  }

  /** From a run of one frame whose worker has reached the permission gate, a second `end_frame`
      waits for ever: nothing can move but a new stop request. */
  lemma SecondEndWaitsForever()
    returns (run: seq<State>, stuck: State)
    ensures IsRun(run) && SecondEnd(run[|run| - 1], stuck) && Blocked(stuck) && !stuck.stop
    ensures forall t :: !ProtocolStep(stuck, t)
    ensures forall t :: Step(stuck, t) ==> StopperStep(stuck, t) && t.stop
  {
    run := FirstFrameRun();
    stuck := run[|run| - 1].(producer := EndWait);
  }

  /** The worker holds the first frame at its permission gate, and the producer has begun no second. */
  const FIRST_AT_GATE :=
    State(true, false, false, false, false, false, false, AwaitPermission(true), AfterEnd, NoStop, 1, 0, 0, false, true)

  lemma FirstFrameRun() returns (run: seq<State>)
    ensures IsRun(run) && run[|run| - 1] == FIRST_AT_GATE
  {
    var s0 := INITIAL;
    var s1 := s0.(producer := BeginStart);
    var s2 := Started(s1).(producer := BeginLock(false));
    var s3 := s2.(begun := true, producer := BeginRecheck);
    var s4 := s3.(producer := BeginImpl);
    var s5 := s4.(producer := BeginStore(true));
    var s6 := s5.(framePrepared := true, answer := true, producer := Recording);
    var s7 := s6.(producer := EndStart);
    var s8 := s7.(producer := EndWait);
    var s9 := s8.(producer := Drain);
    var s10 := s9.(producer := Submit);
    var s11 := ProducerMove(s10);
    var s12 := s11.(jobPending := false, worker := Sealing);
    var s13 := s12.(worker := AwaitPermission(true));
    run := [s0, s1, s2, s3, s4, s5, s6, s7, s8, s9, s10, s11, s12, s13];
    forall i | 0 <= i < |run| - 1
      ensures Step(run[i], run[i + 1])
    {
      if i == 1 {
        assert BeginStep(s1, s2);
      } else if i == 11 {
        assert WorkerStep(s11, s12);
      } else if i == 12 {
        assert WorkerStep(s12, s13);
      } else if i < 6 {
        assert BeginStep(run[i], run[i + 1]);
      } else {
        assert EndStep(run[i], run[i + 1]);
      }
    }
  }

  // ---- A throw after DONE ----

  /** The telemetry at the end of a cycle runs inside the cycle's exception handler but after DONE
      is published. This is what the handler would leave, were it to throw. */
  function Thrown(s: State): State {
    Release(s.(framePrepared := false, worker := Idle))
  }

  function StepsToRenderer(p: ProducerPc): nat {
    match p
    case BeginLock(_) => 1
    case EndWait => 1
    case BeginStart => 2
    case EndStart => 2
    case AfterEnd => 3
    case Recording => 3
    case WaitSealed => 4
    case WaitDone => 4
    case BeginRead => 4
    case BeginWait => 5
    case _ => 0
  }

  /** DONE is set although a cycle has begun. */
  predicate DoneTooEarly(s: State) {
    s.started && s.ready && s.sealed && !s.framePrepared && s.worker.Sealing?
  }

  lemma BeginApproaches(s: State)
    requires DoneTooEarly(s) && !UsesRenderer(s.producer) && Beginning(s.producer)
    ensures DoneTooEarly(ProducerMove(s))
    ensures StepsToRenderer(s.producer) == StepsToRenderer(ProducerMove(s).producer) + 1
  {
  }

  lemma EndApproaches(s: State)
    requires DoneTooEarly(s) && !UsesRenderer(s.producer) && !Beginning(s.producer)
    ensures DoneTooEarly(ProducerMove(s))
    ensures StepsToRenderer(s.producer) == StepsToRenderer(ProducerMove(s).producer) + 1
  {
  }

  lemma ProducerApproaches(s: State)
    requires DoneTooEarly(s) && !UsesRenderer(s.producer)
    ensures DoneTooEarly(ProducerMove(s))
    ensures StepsToRenderer(s.producer) == StepsToRenderer(ProducerMove(s).producer) + 1
  {
    hide ProducerMove, DoneTooEarly, StepsToRenderer;
    if Beginning(s.producer) {
      BeginApproaches(s);
    } else {
      EndApproaches(s);
    }
  }

  /** Then nothing keeps the producer from the renderer. */
  lemma {:induction false} ProducerReachesRenderer(s: State) returns (path: seq<State>)
    requires DoneTooEarly(s)
    ensures path != [] && path[0] == s && IsPath(path) && |path| == StepsToRenderer(s.producer) + 1
    ensures Overlaps(path[|path| - 1])
    decreases StepsToRenderer(s.producer)
  {
    hide BeginStep, EndStep, WorkerStep, StopperStep, ProducerMove;
    if UsesRenderer(s.producer) {
      path := [s];
    } else {
      UnblockedProducerMoves(s);
      ProducerApproaches(s);
      var rest := ProducerReachesRenderer(ProducerMove(s));
      path := [s] + rest;
      PathExtends(s, rest);
    }
  }

  lemma PathExtends(s: State, rest: seq<State>)
    requires rest != [] && IsPath(rest) && Step(s, rest[0])
    ensures IsPath([s] + rest)
  {
    var path := [s] + rest;
    forall i | 0 <= i < |path| - 1
      ensures Step(path[i], path[i + 1])
    {
      if i > 0 { assert Step(rest[i - 1], rest[i - 1 + 1]); }
    }
  }

  lemma ThrowOverlaps(s: State) returns (path: seq<State>)
    requires Inv(s) && s.worker.Telemetry? && !s.stop && s.jobPending
    ensures path != [] && path[0] == Thrown(s) && IsPath(path) && |path| <= 7 && Overlaps(path[|path| - 1])
  {
    var t := Thrown(s);
    var u := t.(jobPending := false, worker := Sealing);
    var rest := ProducerReachesRenderer(u);
    path := [t] + rest;
    PathExtends(t, rest);
  }

  /** Were the telemetry to throw, some continuation would let the producer use the renderer during
      a cycle of the worker, if and only if the next frame has already been handed over. */
  lemma ThrowAfterDone(s: State)
    requires Inv(s) && s.worker.Telemetry? && !s.stop
    ensures s.jobPending <==>
            exists path: seq<State> ::
              path != [] && path[0] == Thrown(s) && IsPath(path) && Overlaps(path[|path| - 1])
  {
    if s.jobPending {
      var path := ThrowOverlaps(s);
    } else {
      assert Inv(Thrown(s));
      forall path: seq<State> | path != [] && path[0] == Thrown(s) && IsPath(path)
        ensures !Overlaps(path[|path| - 1])
      {
        PathKeepsInv(path, |path| - 1);
      }
    }
  }

  lemma ProducerExtends(run: seq<State>) returns (longer: seq<State>)
    requires IsRun(run) && !Blocked(run[|run| - 1])
    ensures IsRun(longer) && longer[|longer| - 1] == ProducerMove(run[|run| - 1])
  {
    var s := run[|run| - 1];
    UnblockedProducerMoves(s);
    longer := RunExtends(run, ProducerMove(s));
  }

  lemma WorkerExtends(run: seq<State>) returns (longer: seq<State>)
    requires IsRun(run) && WorkerStep(run[|run| - 1], UnblockingStep(run[|run| - 1]))
    ensures IsRun(longer) && longer[|longer| - 1] == UnblockingStep(run[|run| - 1])
  {
    longer := RunExtends(run, UnblockingStep(run[|run| - 1]));
  }

  lemma RunExtends(run: seq<State>, t: State) returns (longer: seq<State>)
    requires IsRun(run) && Step(run[|run| - 1], t)
    ensures IsRun(longer) && longer[|longer| - 1] == t
  {
    longer := run + [t];
    forall i | 0 <= i < |longer| - 1
      ensures Step(longer[i], longer[i + 1])
    {
      if i < |run| - 1 { assert Step(run[i], run[i + 1]); }
    }
  }

  lemma SecondFrameBegins() returns (run: seq<State>)
    ensures IsRun(run) && run[|run| - 1] == FIRST_AT_GATE.(begun := true, prepareAllowed := true, producer := Recording)
  {
    run := FirstFrameRun();
    run := ProducerExtends(run);
    run := ProducerExtends(run);
    run := ProducerExtends(run);
  }

  lemma FirstFrameEnds() returns (run: seq<State>)
    ensures IsRun(run)
    ensures run[|run| - 1] == State(true, false, false, true, true, true, false, Telemetry, Recording, NoStop, 1, 1, 1, true, true)
  {
    run := SecondFrameBegins();
    run := WorkerExtends(run);
    run := WorkerExtends(run);
    run := WorkerExtends(run);
    run := WorkerExtends(run);
    run := WorkerExtends(run);
  }

  lemma SecondFrameDrains() returns (run: seq<State>)
    ensures IsRun(run)
    ensures run[|run| - 1] == State(true, false, false, true, true, true, false, Telemetry, Drain, NoStop, 1, 1, 1, true, true)
  {
    run := FirstFrameEnds();
    run := ProducerExtends(run);
    run := ProducerExtends(run);
    run := ProducerExtends(run);
  }

  /** A run reaches telemetry with the next frame handed over. */
  lemma TelemetryWithNextFrame() returns (run: seq<State>)
    ensures IsRun(run)
    ensures var s := run[|run| - 1]; s.worker.Telemetry? && s.jobPending && !s.stop
  {
    run := SecondFrameDrains();
    run := ProducerExtends(run);
    run := ProducerExtends(run);
  }
}
