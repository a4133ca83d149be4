/** The bounded worker pool of internal/workq/workq.go: submitters under the read lock, closers
    under the write lock, and workers draining the channel, interleaved step by step. */
module WorkQueue {
  import opened Collections

  datatype Config = Config(Workers: int, QueueDepth: int)

  datatype Result = Accepted | ErrQueueFull | ErrClosed

  /** A Submit call. It holds the read lock from Locked until it leaves Returning; Full has
      found the queue full but not yet counted it. The job it submits is named by the call. */
  datatype SubmitPC = Arriving | Locked | SawOpen | Full | Returning(result: Result) | Done(result: Result)

  /** A Close call: closeOnce, the write lock, the two closes, then waiting for the workers. */
  datatype ClosePC = Entering | InOnce | HoldsLock | ClosedFlag | ClosedJobs | Draining | ReturnedNil | TimedOut

  datatype WorkerPC = Idle | Running(job: nat) | Exited

  datatype Once = NotStarted | InProgress | Complete

  /** closed is the closed-flag channel, jobsClosed says that the jobs channel was closed.
      started and finished are histories. */
  datatype State = State(capacity: nat, queue: seq<nat>, closed: bool, jobsClosed: bool, once: Once,
                         submits: seq<SubmitPC>, closes: seq<ClosePC>, workers: seq<WorkerPC>,
                         rejectedTotal: nat, started: seq<nat>, finished: set<nat>, cancelled: bool)

  /** New: at least one worker, sixteen slots unless a positive depth is given. */
  function New(cfg: Config): (s: State)
    ensures |s.workers| >= 1 && s.capacity >= |s.workers| + 1
    ensures cfg.Workers >= 1 && cfg.QueueDepth >= 1 ==> |s.workers| == cfg.Workers && s.capacity == cfg.Workers + cfg.QueueDepth
  {
    var w := if cfg.Workers < 1 then 1 else cfg.Workers;
    var d := if cfg.QueueDepth < 1 then 16 else cfg.QueueDepth;
    State(w + d, [], false, false, NotStarted, [], [], seq(w, _ => Idle), 0, [], {}, false)
  }

  datatype Step =
    | CallSubmit
    | RLock(k: nat)
    | CheckClosed(k: nat)
    | TrySend(k: nat)
    | CountFull(k: nat)
    | RUnlock(k: nat)
    | CallClose
    | EnterOnce(c: nat)
    | Lock(c: nat)
    | CloseFlag(c: nat)
    | CloseJobs(c: nat)
    | Unlock(c: nat)
    | SkipOnce(c: nat)
    | AllDone(c: nat)
    | TimeOut(c: nat)
    | Take(w: nat)
    | FinishJob(w: nat, panicked: bool)
    | Exit(w: nat)

  predicate Reading(pc: SubmitPC) {
    !pc.Arriving? && !pc.Done?
  }

  predicate Writing(pc: ClosePC) {
    pc.HoldsLock? || pc.ClosedFlag? || pc.ClosedJobs?
  }

  predicate InsideOnce(pc: ClosePC) {
    pc.InOnce? || Writing(pc)
  }

  ghost predicate NoReaders(s: State) {
    forall k :: 0 <= k < |s.submits| ==> !Reading(s.submits[k])
  }

  ghost predicate NoWriter(s: State) {
    forall c :: 0 <= c < |s.closes| ==> !Writing(s.closes[c])
  }

  predicate SubmitAt(s: State, k: nat, pc: SubmitPC) { k < |s.submits| && s.submits[k] == pc }
  predicate CloseAt(s: State, c: nat, pc: ClosePC) { c < |s.closes| && s.closes[c] == pc }
  predicate WorkerAt(s: State, w: nat, pc: WorkerPC) { w < |s.workers| && s.workers[w] == pc }

  ghost predicate Enabled(s: State, step: Step) {
    match step
    case CallSubmit => true
    case RLock(k) => SubmitAt(s, k, Arriving) && NoWriter(s)
    case CheckClosed(k) => SubmitAt(s, k, Locked)
    case TrySend(k) => SubmitAt(s, k, SawOpen)
    case CountFull(k) => SubmitAt(s, k, Full)
    case RUnlock(k) => k < |s.submits| && s.submits[k].Returning?
    case CallClose => true
    case EnterOnce(c) => CloseAt(s, c, Entering) && s.once == NotStarted
    case Lock(c) => CloseAt(s, c, InOnce) && NoReaders(s) && NoWriter(s)
    case CloseFlag(c) => CloseAt(s, c, HoldsLock)
    case CloseJobs(c) => CloseAt(s, c, ClosedFlag)
    case Unlock(c) => CloseAt(s, c, ClosedJobs)
    case SkipOnce(c) => CloseAt(s, c, Entering) && s.once == Complete
    case AllDone(c) => CloseAt(s, c, Draining) && forall w :: 0 <= w < |s.workers| ==> s.workers[w] == Exited
    case TimeOut(c) => CloseAt(s, c, Draining)
    case Take(w) => WorkerAt(s, w, Idle) && s.queue != []
    case FinishJob(w, _) => w < |s.workers| && s.workers[w].Running?
    case Exit(w) => WorkerAt(s, w, Idle) && s.queue == [] && s.jobsClosed
  }

  /** A send on the closed jobs channel, which would panic. */
  predicate SendsOnClosed(s: State, k: nat) {
    SubmitAt(s, k, SawOpen) && s.jobsClosed
  }

  function SetSubmit(s: State, k: nat, pc: SubmitPC): State
    requires k < |s.submits|
  {
    s.(submits := s.submits[k := pc])
  }

  function SetClose(s: State, c: nat, pc: ClosePC): State
    requires c < |s.closes|
  {
    s.(closes := s.closes[c := pc])
  }

  ghost function Apply(s: State, step: Step): State
    requires Enabled(s, step)
  {
    match step
    case CallSubmit => s.(submits := s.submits + [Arriving])
    case RLock(k) => SetSubmit(s, k, Locked)
    case CheckClosed(k) => SetSubmit(s, k, if s.closed then Returning(ErrClosed) else SawOpen)
    case TrySend(k) =>
      if |s.queue| < s.capacity then SetSubmit(s, k, Returning(Accepted)).(queue := s.queue + [k])
      else SetSubmit(s, k, Full)
    case CountFull(k) => SetSubmit(s, k, Returning(ErrQueueFull)).(rejectedTotal := s.rejectedTotal + 1)
    case RUnlock(k) => SetSubmit(s, k, Done(s.submits[k].result))
    case CallClose => s.(closes := s.closes + [Entering])
    case EnterOnce(c) => SetClose(s, c, InOnce).(once := InProgress)
    case Lock(c) => SetClose(s, c, HoldsLock)
    case CloseFlag(c) => SetClose(s, c, ClosedFlag).(closed := true)
    case CloseJobs(c) => SetClose(s, c, ClosedJobs).(jobsClosed := true)
    case Unlock(c) => SetClose(s, c, Draining).(once := Complete)
    case SkipOnce(c) => SetClose(s, c, Draining)
    case AllDone(c) => SetClose(s, c, ReturnedNil)
    case TimeOut(c) => SetClose(s, c, TimedOut).(cancelled := true)
    case Take(w) => s.(workers := s.workers[w := Running(s.queue[0])], queue := s.queue[1..], started := s.started + [s.queue[0]])
    case FinishJob(w, _) => s.(workers := s.workers[w := Idle], finished := s.finished + {s.workers[w].job})
    case Exit(w) => s.(workers := s.workers[w := Exited])
  }

  // ---------- the jobs ----------

  ghost predicate WasAccepted(pc: SubmitPC) {
    pc == Returning(Accepted) || pc == Done(Accepted)
  }

  ghost function AcceptedJobs(s: State): set<nat> {
    set k | 0 <= k < |s.submits| && WasAccepted(s.submits[k])
  }

  ghost function QueuedJobs(s: State): set<nat> {
    set j | j in s.queue
  }

  ghost function RunningJobs(s: State): set<nat> {
    set w | 0 <= w < |s.workers| && s.workers[w].Running? :: s.workers[w].job
  }

  predicate FullResult(pc: SubmitPC) {
    pc == Returning(ErrQueueFull) || pc == Done(ErrQueueFull)
  }

  ghost function FullResults(s: State): set<nat> {
    set k | 0 <= k < |s.submits| && FullResult(s.submits[k])
  }

  // ---------- the invariant ----------

  ghost predicate LocksOk(s: State) {
    && (!NoWriter(s) ==> NoReaders(s))
    && (forall c :: 0 <= c < |s.closes| && InsideOnce(s.closes[c]) ==> s.once == InProgress)
    && (forall c, d :: 0 <= c < d < |s.closes| ==> !(InsideOnce(s.closes[c]) && InsideOnce(s.closes[d])))
    && (forall c :: 0 <= c < |s.closes| && s.closes[c].HoldsLock? ==> !s.closed)
    && (forall c :: 0 <= c < |s.closes| && (s.closes[c].ClosedFlag? || s.closes[c].ClosedJobs?) ==> s.closed)
    && (s.jobsClosed ==> s.closed)
    && (forall k :: 0 <= k < |s.submits| && s.submits[k] == SawOpen ==> !s.closed)
    && (forall c :: 0 <= c < |s.closes| && s.closes[c].InOnce? ==> !s.closed)
    && (s.once == NotStarted ==> !s.closed)
  }

  ghost predicate JobsOk(s: State) {
    && NoDup(s.queue)
    && AcceptedJobs(s) == QueuedJobs(s) + RunningJobs(s) + s.finished
    && QueuedJobs(s) !! RunningJobs(s)
    && (QueuedJobs(s) + RunningJobs(s)) !! s.finished
    && (forall v, w :: 0 <= v < w < |s.workers| && s.workers[v].Running? && s.workers[w].Running? ==>
          s.workers[v].job != s.workers[w].job)
    && NoDup(s.started)
    && (set j | j in s.started) == RunningJobs(s) + s.finished
    && |s.queue| <= s.capacity
  }

  ghost predicate DrainOk(s: State) {
    && |s.workers| >= 1
    && (forall w :: 0 <= w < |s.workers| && s.workers[w] == Exited ==> s.jobsClosed && s.queue == [])
    && (forall c :: 0 <= c < |s.closes| && s.closes[c] == ReturnedNil ==>
          forall w :: 0 <= w < |s.workers| ==> s.workers[w] == Exited)
  }

  ghost predicate Inv(s: State) {
    LocksOk(s) && JobsOk(s) && DrainOk(s) && s.rejectedTotal == |FullResults(s)|
  }

  lemma NewInv(cfg: Config)
    ensures Inv(New(cfg))
  {
    var s := New(cfg);
    assert AcceptedJobs(s) == {} && QueuedJobs(s) == {} && RunningJobs(s) == {} && FullResults(s) == {};
  }

  predicate SubmitStep(step: Step) {
    step.CallSubmit? || step.RLock? || step.CheckClosed? || step.TrySend? || step.CountFull? || step.RUnlock?
  }

  predicate CloseStep(step: Step) {
    step.CallClose? || step.EnterOnce? || step.Lock? || step.CloseFlag? || step.CloseJobs? || step.Unlock?
    || step.SkipOnce? || step.AllDone? || step.TimeOut?
  }

  lemma SubmitKeepsLocks(s: State, step: Step)
    requires LocksOk(s) && Enabled(s, step) && SubmitStep(step)
    ensures LocksOk(Apply(s, step))
  {
  }

  lemma CallKeepsLocks(s: State)
    requires LocksOk(s)
    ensures LocksOk(s.(closes := s.closes + [Entering]))
  {
    var s' := s.(closes := s.closes + [Entering]);
    assert forall c :: 0 <= c < |s.closes| ==> s'.closes[c] == s.closes[c];
  }

  lemma WaitKeepsLocks(s: State, step: Step)
    requires LocksOk(s) && Enabled(s, step) && (step.SkipOnce? || step.AllDone? || step.TimeOut?)
    ensures LocksOk(Apply(s, step))
  {
    var s' := Apply(s, step);
    assert forall d :: 0 <= d < |s.closes| && d != step.c ==> s'.closes[d] == s.closes[d];
    assert !InsideOnce(s'.closes[step.c]);
    assert s'.submits == s.submits && s'.once == s.once && s'.closed == s.closed && s'.jobsClosed == s.jobsClosed;
    assert !NoWriter(s') ==> !NoWriter(s);
    hide Apply, Enabled;
  }

  lemma EnterKeepsLocks(s: State, step: Step)
    requires LocksOk(s) && Enabled(s, step) && (step.EnterOnce? || step.Lock?)
    ensures LocksOk(Apply(s, step))
  {
  }

  lemma FlagsKeepLocks(s: State, step: Step)
    requires LocksOk(s) && Enabled(s, step) && (step.CloseFlag? || step.CloseJobs?)
    ensures LocksOk(Apply(s, step))
  {
    assert Writing(s.closes[step.c]);
  }

  lemma UnlockKeepsLocks(s: State, c: nat)
    requires LocksOk(s) && Enabled(s, Unlock(c))
    ensures LocksOk(Apply(s, Unlock(c)))
  {
    assert Writing(s.closes[c]);
    var s' := Apply(s, Unlock(c));
    assert forall d :: 0 <= d < |s'.closes| && d != c ==> s'.closes[d] == s.closes[d];
    assert NoWriter(s');
  }

  lemma CloseKeepsLocks(s: State, step: Step)
    requires LocksOk(s) && Enabled(s, step) && CloseStep(step)
    ensures LocksOk(Apply(s, step))
  {
    hide LocksOk;
    match step
    case CallClose => CallKeepsLocks(s);
    case EnterOnce(_) => EnterKeepsLocks(s, step);
    case Lock(_) => EnterKeepsLocks(s, step);
    case CloseFlag(_) => FlagsKeepLocks(s, step);
    case CloseJobs(_) => FlagsKeepLocks(s, step);
    case Unlock(c) => UnlockKeepsLocks(s, c);
    case _ => WaitKeepsLocks(s, step);
  }

  lemma StepKeepsLocks(s: State, step: Step)
    requires LocksOk(s) && Enabled(s, step)
    ensures LocksOk(Apply(s, step))
  {
    if SubmitStep(step) {
      SubmitKeepsLocks(s, step);
    } else if CloseStep(step) {
      CloseKeepsLocks(s, step);
    } else {
      var s' := Apply(s, step);
      assert s' == s.(workers := s'.workers, queue := s'.queue, started := s'.started, finished := s'.finished);
      assert NoWriter(s') == NoWriter(s) && NoReaders(s') == NoReaders(s);
    }
  }

  lemma SendKeepsJobs(s: State, k: nat)
    requires JobsOk(s) && SubmitAt(s, k, SawOpen) && |s.queue| < s.capacity
    ensures JobsOk(Apply(s, TrySend(k)))
  {
    var s' := Apply(s, TrySend(k));
    assert k !in AcceptedJobs(s);
    assert AcceptedJobs(s') == AcceptedJobs(s) + {k};
    assert QueuedJobs(s') == QueuedJobs(s) + {k};
    assert k !in QueuedJobs(s);
  }

  lemma TakeKeepsJobs(s: State, w: nat)
    requires JobsOk(s) && WorkerAt(s, w, Idle) && s.queue != []
    ensures JobsOk(Apply(s, Take(w)))
  {
    var s', j := Apply(s, Take(w)), s.queue[0];
    assert s.queue == [j] + s.queue[1..];
    assert j in QueuedJobs(s);
    assert QueuedJobs(s') == QueuedJobs(s) - {j};
    TakenRuns(s, s', w, j);
    assert AcceptedJobs(s') == AcceptedJobs(s);
    assert (set i | i in s'.started) == (set i | i in s.started) + {j};
    assert j !in (set i | i in s.started);
    forall v | 0 <= v < |s.workers| && s.workers[v].Running? ensures s.workers[v].job != j {
      assert s.workers[v].job in RunningJobs(s);
    }
  }

  lemma TakenRuns(s: State, s': State, w: nat, j: nat)
    requires w < |s.workers| && s.workers[w] == Idle && s'.workers == s.workers[w := Running(j)]
    ensures RunningJobs(s') == RunningJobs(s) + {j}
  {
    forall i | i in RunningJobs(s) ensures i in RunningJobs(s') {
      var v :| 0 <= v < |s.workers| && s.workers[v].Running? && s.workers[v].job == i;
      assert s'.workers[v] == s.workers[v];
    }
    assert s'.workers[w].job == j;
  }

  lemma FinishedStops(s: State, s': State, w: nat)
    requires w < |s.workers| && s.workers[w].Running? && s'.workers == s.workers[w := Idle]
    requires forall v, u :: 0 <= v < u < |s.workers| && s.workers[v].Running? && s.workers[u].Running? ==>
               s.workers[v].job != s.workers[u].job
    ensures RunningJobs(s') == RunningJobs(s) - {s.workers[w].job}
  {
    forall i | i in RunningJobs(s) - {s.workers[w].job} ensures i in RunningJobs(s') {
      var v :| 0 <= v < |s.workers| && s.workers[v].Running? && s.workers[v].job == i;
      assert s'.workers[v] == s.workers[v];
    }
    forall i | i in RunningJobs(s') ensures i in RunningJobs(s) && i != s.workers[w].job {
      var v :| 0 <= v < |s'.workers| && s'.workers[v].Running? && s'.workers[v].job == i;
      assert s'.workers[v] == s.workers[v] && v != w;
    }
  }

  lemma FinishKeepsJobs(s: State, w: nat, panicked: bool)
    requires JobsOk(s) && w < |s.workers| && s.workers[w].Running?
    ensures JobsOk(Apply(s, FinishJob(w, panicked)))
  {
    var s', j := Apply(s, FinishJob(w, panicked)), s.workers[w].job;
    assert j in RunningJobs(s);
    FinishedStops(s, s', w);
    assert AcceptedJobs(s') == AcceptedJobs(s) && QueuedJobs(s') == QueuedJobs(s);
  }

  lemma ExitKeepsJobs(s: State, w: nat)
    requires JobsOk(s) && WorkerAt(s, w, Idle)
    ensures JobsOk(s.(workers := s.workers[w := Exited]))
  {
    var s' := s.(workers := s.workers[w := Exited]);
    forall i | i in RunningJobs(s) ensures i in RunningJobs(s') {
      var v :| 0 <= v < |s.workers| && s.workers[v].Running? && s.workers[v].job == i;
      assert s'.workers[v] == s.workers[v];
    }
    assert RunningJobs(s') == RunningJobs(s);
    assert AcceptedJobs(s') == AcceptedJobs(s) && QueuedJobs(s') == QueuedJobs(s);
  }

  lemma SamePartiesKeepJobs(s: State, s': State)
    requires JobsOk(s) && AcceptedJobs(s') == AcceptedJobs(s)
    requires s'.queue == s.queue && s'.workers == s.workers && s'.finished == s.finished && s'.started == s.started
    requires s'.capacity == s.capacity
    ensures JobsOk(s')
  {
    assert QueuedJobs(s') == QueuedJobs(s) && RunningJobs(s') == RunningJobs(s);
  }

  lemma FullKeepsAccepted(s: State, k: nat)
    requires SubmitAt(s, k, SawOpen) && |s.queue| >= s.capacity
    ensures AcceptedJobs(Apply(s, TrySend(k))) == AcceptedJobs(s)
  {
  }

  lemma StepKeepsJobs(s: State, step: Step)
    requires JobsOk(s) && Enabled(s, step)
    ensures JobsOk(Apply(s, step))
  {
    hide JobsOk, AcceptedJobs;
    match step
    case TrySend(k) =>
      if |s.queue| < s.capacity {
        SendKeepsJobs(s, k);
      } else {
        FullKeepsAccepted(s, k);
        SamePartiesKeepJobs(s, Apply(s, step));
      }
    case Take(w) => TakeKeepsJobs(s, w);
    case FinishJob(w, panicked) => FinishKeepsJobs(s, w, panicked);
    case Exit(w) => ExitKeepsJobs(s, w);
    case _ =>
      AcceptsOnlyBySending(s, step);
      SamePartiesKeepJobs(s, Apply(s, step));
  }

  /** After the jobs channel is closed, or once a worker has exited, nothing is queued again. */
  lemma SubmitKeepsDrain(s: State, step: Step)
    requires LocksOk(s) && DrainOk(s) && Enabled(s, step) && SubmitStep(step)
    ensures DrainOk(Apply(s, step))
  {
    var s' := Apply(s, step);
    assert s'.workers == s.workers && s'.closes == s.closes && s'.jobsClosed == s.jobsClosed;
    assert s.jobsClosed ==> s'.queue == s.queue;
  }

  lemma CloseKeepsDrain(s: State, step: Step)
    requires DrainOk(s) && Enabled(s, step) && CloseStep(step)
    ensures DrainOk(Apply(s, step))
  {
    var s' := Apply(s, step);
    assert s'.workers == s.workers && s'.queue == s.queue && (s.jobsClosed ==> s'.jobsClosed);
    forall c | 0 <= c < |s'.closes| && s'.closes[c] == ReturnedNil
      ensures forall w :: 0 <= w < |s.workers| ==> s.workers[w] == Exited
    {
      assert (step.AllDone? && step.c == c) || (c < |s.closes| && s.closes[c] == ReturnedNil);
    }
  }

  lemma WorkKeepsDrain(s: State, step: Step)
    requires DrainOk(s) && Enabled(s, step) && (step.Take? || step.FinishJob? || step.Exit?)
    ensures DrainOk(Apply(s, step))
  {
    var s' := Apply(s, step);
    assert s'.closes == s.closes && s'.jobsClosed == s.jobsClosed;
    assert s.workers[step.w] != Exited;
  }

  lemma StepKeepsDrain(s: State, step: Step)
    requires LocksOk(s) && DrainOk(s) && Enabled(s, step)
    ensures DrainOk(Apply(s, step))
  {
    hide LocksOk, DrainOk, Apply, Enabled;
    if SubmitStep(step) {
      SubmitKeepsDrain(s, step);
    } else if CloseStep(step) {
      CloseKeepsDrain(s, step);
    } else {
      WorkKeepsDrain(s, step);
    }
  }

  /** Only call k moves; the counter goes up with its ErrQueueFull result. */
  lemma MoveKeepsCount(s: State, s': State, k: nat)
    requires k < |s.submits| && |s'.submits| == |s.submits| && s.rejectedTotal == |FullResults(s)|
    requires forall j :: 0 <= j < |s.submits| && j != k ==> s'.submits[j] == s.submits[j]
    requires FullResult(s.submits[k]) ==> FullResult(s'.submits[k])
    requires s'.rejectedTotal == s.rejectedTotal + if FullResult(s'.submits[k]) && !FullResult(s.submits[k]) then 1 else 0
    ensures s'.rejectedTotal == |FullResults(s')|
  {
    assert FullResults(s') == FullResults(s) + if FullResult(s'.submits[k]) then {k} else {};
  }

  lemma CallKeepsFull(s: State)
    ensures FullResults(s.(submits := s.submits + [Arriving])) == FullResults(s)
  {
  }

  lemma SameSubmitsKeepFull(s: State, s': State)
    requires s'.submits == s.submits
    ensures FullResults(s') == FullResults(s)
  {
  }

  lemma StepKeepsCount(s: State, step: Step)
    requires s.rejectedTotal == |FullResults(s)| && Enabled(s, step)
    ensures Apply(s, step).rejectedTotal == |FullResults(Apply(s, step))|
  {
    hide FullResults, FullResult, Apply;
    if step.CallSubmit? {
      CallKeepsFull(s);
      CallIs(s);
    } else if SubmitStep(step) {
      SubmitKeepsCount(s, step);
    } else {
      OtherSteps(s, step);
      SameSubmitsKeepFull(s, Apply(s, step));
    }
  }

  lemma CallIs(s: State)
    ensures Apply(s, CallSubmit) == s.(submits := s.submits + [Arriving])
  {
  }

  lemma OtherSteps(s: State, step: Step)
    requires Enabled(s, step) && !SubmitStep(step)
    ensures Apply(s, step).submits == s.submits && Apply(s, step).rejectedTotal == s.rejectedTotal
  {
  }

  lemma SubmitKeepsCount(s: State, step: Step)
    requires s.rejectedTotal == |FullResults(s)| && Enabled(s, step) && SubmitStep(step) && !step.CallSubmit?
    ensures Apply(s, step).rejectedTotal == |FullResults(Apply(s, step))|
  {
    hide FullResults;
    MoveKeepsCount(s, Apply(s, step), step.k);
  }

  lemma StepKeepsInv(s: State, step: Step)
    requires Inv(s) && Enabled(s, step)
    ensures Inv(Apply(s, step))
  {
    hide LocksOk, JobsOk, DrainOk;
    StepKeepsLocks(s, step);
    StepKeepsJobs(s, step);
    StepKeepsDrain(s, step);
    StepKeepsCount(s, step);
  }

  // ---------- runs ----------

  ghost predicate Run(cfg: Config, states: seq<State>, steps: seq<Step>) {
    && |states| == |steps| + 1 && states[0] == New(cfg)
    && forall i :: 0 <= i < |steps| ==> Enabled(states[i], steps[i]) && states[i + 1] == Apply(states[i], steps[i])
  }

  lemma {:induction false} RunInv(cfg: Config, states: seq<State>, steps: seq<Step>, n: nat)
    requires Run(cfg, states, steps) && n <= |steps|
    ensures Inv(states[n])
  {
    if n == 0 {
      NewInv(cfg);
    } else {
      RunInv(cfg, states, steps, n - 1);
      StepKeepsInv(states[n - 1], steps[n - 1]);
    }
  }

  /** No Submit ever sends on the closed jobs channel. */
  lemma NeverSendsOnClosed(cfg: Config, states: seq<State>, steps: seq<Step>, n: nat, k: nat)
    requires Run(cfg, states, steps) && n <= |steps|
    ensures !SendsOnClosed(states[n], k)
  {
    RunInv(cfg, states, steps, n);
  }

  /** Accepted = queued + running + finished, each job in one place, started at most once. */
  lemma JobsConserved(cfg: Config, states: seq<State>, steps: seq<Step>, n: nat)
    requires Run(cfg, states, steps) && n <= |steps|
    ensures var s := states[n];
      && |AcceptedJobs(s)| == |s.queue| + |RunningJobs(s)| + |s.finished|
      && NoDup(s.started) && (forall j :: j in s.started ==> j in AcceptedJobs(s))
  {
    RunInv(cfg, states, steps, n);
    var s := states[n];
    NoDupSize(s.queue);
    assert QueuedJobs(s) == Elems(s.queue);
    assert |QueuedJobs(s) + RunningJobs(s)| == |QueuedJobs(s)| + |RunningJobs(s)|;
    forall j | j in s.started ensures j in AcceptedJobs(s) {
      assert j in (set i | i in s.started);
    }
  }

  /** The jobs accepted in the first n steps, in order. */
  ghost function Sent(states: seq<State>, steps: seq<Step>, n: nat): seq<nat>
    requires n <= |steps| <= |states|
  {
    if n == 0 then []
    else
      var s, step := states[n - 1], steps[n - 1];
      Sent(states, steps, n - 1) + if step.TrySend? && |s.queue| < s.capacity then [step.k] else []
  }

  /** Jobs start in the order in which they were accepted. */
  lemma {:induction false} StartedInOrder(cfg: Config, states: seq<State>, steps: seq<Step>, n: nat)
    requires Run(cfg, states, steps) && n <= |steps|
    ensures states[n].started + states[n].queue == Sent(states, steps, n)
  {
    if n > 0 {
      StartedInOrder(cfg, states, steps, n - 1);
      StepKeepsOrder(states[n - 1], steps[n - 1]);
    }
  }

  lemma StepKeepsOrder(s: State, step: Step)
    requires Enabled(s, step)
    ensures Apply(s, step).started + Apply(s, step).queue
         == s.started + s.queue + if step.TrySend? && |s.queue| < s.capacity then [step.k] else []
  {
    if step.Take? {
      assert s.queue == [s.queue[0]] + s.queue[1..];
    }
  }

  /** The queue never exceeds Workers + QueueDepth, nor the running jobs Workers. */
  lemma Bounded(cfg: Config, states: seq<State>, steps: seq<Step>, n: nat)
    requires Run(cfg, states, steps) && n <= |steps|
    ensures |states[n].queue| <= New(cfg).capacity && |RunningJobs(states[n])| <= |New(cfg).workers|
  {
    RunInv(cfg, states, steps, n);
    SizesFixed(cfg, states, steps, n);
    RunningAtMostWorkers(states[n].workers);
    assert RunningJobs(states[n]) == RunningOf(states[n].workers);
  }

  lemma {:induction false} SizesFixed(cfg: Config, states: seq<State>, steps: seq<Step>, n: nat)
    requires Run(cfg, states, steps) && n <= |steps|
    ensures states[n].capacity == New(cfg).capacity && |states[n].workers| == |New(cfg).workers|
  {
    if n > 0 {
      SizesFixed(cfg, states, steps, n - 1);
      StepKeepsSizes(states[n - 1], steps[n - 1]);
    }
  }

  lemma StepKeepsSizes(s: State, step: Step)
    requires Enabled(s, step)
    ensures Apply(s, step).capacity == s.capacity && |Apply(s, step).workers| == |s.workers|
  {
  }

  ghost function RunningOf(workers: seq<WorkerPC>): set<nat> {
    set w | 0 <= w < |workers| && workers[w].Running? :: workers[w].job
  }

  lemma {:induction false} RunningAtMostWorkers(workers: seq<WorkerPC>)
    ensures |RunningOf(workers)| <= |workers|
  {
    if workers != [] {
      var t, last := workers[..|workers| - 1], workers[|workers| - 1];
      RunningAtMostWorkers(t);
      forall j | j in RunningOf(workers) ensures j in RunningOf(t) + (if last.Running? then {last.job} else {}) {
        var w :| 0 <= w < |workers| && workers[w].Running? && workers[w].job == j;
        if w < |t| {
          assert t[w] == workers[w];
        }
      }
      SubsetSize(RunningOf(workers), RunningOf(t) + (if last.Running? then {last.job} else {}));
    }
  }

  /** Once the pool is closed no further job is accepted. */
  lemma NothingAcceptedAfterClose(cfg: Config, states: seq<State>, steps: seq<Step>, n: nat)
    requires Run(cfg, states, steps) && n < |steps| && states[n].closed
    ensures AcceptedJobs(states[n + 1]) == AcceptedJobs(states[n]) && states[n + 1].closed
  {
    RunInv(cfg, states, steps, n);
    AcceptsOnlyBySending(states[n], steps[n]);
  }

  lemma AcceptsOnlyBySending(s: State, step: Step)
    requires Enabled(s, step) && !step.TrySend?
    ensures AcceptedJobs(Apply(s, step)) == AcceptedJobs(s)
  {
  }

  /** Close returns nil only when every accepted job has finished. */
  lemma CloseNilMeansDrained(cfg: Config, states: seq<State>, steps: seq<Step>, n: nat, c: nat)
    requires Run(cfg, states, steps) && n <= |steps| && CloseAt(states[n], c, ReturnedNil)
    ensures AcceptedJobs(states[n]) == states[n].finished
  {
    RunInv(cfg, states, steps, n);
    var s := states[n];
    assert s.workers[0] == Exited && s.queue == [];
    assert QueuedJobs(s) == {} && RunningJobs(s) == {};
  }

  /** rejectedTotal counts exactly the calls that got ErrQueueFull. */
  lemma RejectedCountsFull(cfg: Config, states: seq<State>, steps: seq<Step>, n: nat)
    requires Run(cfg, states, steps) && n <= |steps|
    ensures states[n].rejectedTotal == |FullResults(states[n])|
  {
    RunInv(cfg, states, steps, n);
  }

  /** Submit k was refused for want of room, whether or not it has counted and returned yet. */
  predicate Refused(s: State, k: nat) {
    k < |s.submits| && (s.submits[k] == Full || FullResult(s.submits[k]))
  }

  predicate RefusedClosed(s: State, k: nat) {
    k < |s.submits| && (s.submits[k] == Returning(ErrClosed) || s.submits[k] == Done(ErrClosed))
  }

  /** Every refused Submit met a queue of exactly Workers + QueueDepth jobs. */
  lemma {:induction false} RefusedMetFullQueue(cfg: Config, states: seq<State>, steps: seq<Step>, n: nat, k: nat)
    requires Run(cfg, states, steps) && n <= |steps| && Refused(states[n], k)
    ensures exists i :: 0 <= i < n && steps[i] == TrySend(k) && |states[i].queue| == New(cfg).capacity
  {
    if n > 0 {
      if Refused(states[n - 1], k) {
        RefusedMetFullQueue(cfg, states, steps, n - 1, k);
      } else {
        hide Inv, Apply, Enabled, Refused;
        RefusedByItsSend(states[n - 1], steps[n - 1], k);
        QueueFits(cfg, states, steps, n - 1);
      }
    }
  }

  lemma QueueFits(cfg: Config, states: seq<State>, steps: seq<Step>, n: nat)
    requires Run(cfg, states, steps) && n <= |steps|
    ensures |states[n].queue| <= states[n].capacity == New(cfg).capacity
  {
    RunInv(cfg, states, steps, n);
    SizesFixed(cfg, states, steps, n);
  }

  lemma RefusedByItsSend(s: State, step: Step, k: nat)
    requires Enabled(s, step) && !Refused(s, k) && Refused(Apply(s, step), k)
    ensures step == TrySend(k) && |s.queue| >= s.capacity
  {
  }

  /** ErrClosed is only ever answered by a pool that was closed. */
  lemma {:induction false} ErrClosedMetClosed(cfg: Config, states: seq<State>, steps: seq<Step>, n: nat, k: nat)
    requires Run(cfg, states, steps) && n <= |steps| && RefusedClosed(states[n], k)
    ensures exists i :: 0 <= i < n && steps[i] == CheckClosed(k) && states[i].closed
  {
    hide Apply, Enabled;
    if n > 0 {
      if RefusedClosed(states[n - 1], k) {
        ErrClosedMetClosed(cfg, states, steps, n - 1, k);
      } else {
        RefusedByItsCheck(states[n - 1], steps[n - 1], k);
      }
    }
  }

  lemma RefusedByItsCheck(s: State, step: Step, k: nat)
    requires Enabled(s, step) && !RefusedClosed(s, k) && RefusedClosed(Apply(s, step), k)
    ensures step == CheckClosed(k) && s.closed
  {
  }

  // ---------- the pool object ----------

  datatype Stats = Stats(Depth: nat, Rejected: nat)

  /** The pool's own fields. Submit runs under the read lock, so a Close cannot come between
      its steps; other submitters and workers can, which the steps above allow for. */
  class Pool {
    const capacity: nat
    var queue: seq<nat>
    var closed: bool
    var jobsClosed: bool
    var rejectedTotal: nat

    ghost predicate Shows(s: State)
      reads this
    {
      s.capacity == capacity && s.queue == queue && s.closed == closed && s.jobsClosed == jobsClosed
      && s.rejectedTotal == rejectedTotal
    }

    constructor (cfg: Config)
      ensures Shows(New(cfg))
    {
      capacity := New(cfg).capacity;
      queue, closed, jobsClosed, rejectedTotal := [], false, false, 0;
    }

    /** Submit of call k, undisturbed: CheckClosed, TrySend and, if full, CountFull. */
    method Submit(k: nat) returns (r: Result)
      modifies this
      ensures forall s: State :: old(Shows(s)) && SubmitAt(s, k, Locked) ==>
        exists s' :: Shows(s') && SubmitAt(s', k, Returning(r)) && SubmitRuns(s, k, s')
    {
      ghost var q0, n0 := queue, rejectedTotal;
      if closed {
        r := ErrClosed;
      } else if |queue| < capacity {
        queue := queue + [k];
        r := Accepted;
      } else {
        rejectedTotal := rejectedTotal + 1;
        r := ErrQueueFull;
      }
      forall s: State | s.capacity == capacity && s.queue == q0 && s.closed == closed && s.jobsClosed == jobsClosed
                        && s.rejectedTotal == n0 && SubmitAt(s, k, Locked)
        ensures exists s' :: Shows(s') && SubmitAt(s', k, Returning(r)) && SubmitRuns(s, k, s')
      {
        var s' := SetSubmit(s, k, Returning(r)).(queue := queue, rejectedTotal := rejectedTotal);
        assert Shows(s') && SubmitAt(s', k, Returning(r)) && SubmitRuns(s, k, s');
      }
    }

    method GetStats() returns (st: Stats)
      ensures forall s: State :: Shows(s) ==> st == Stats(|s.queue|, s.rejectedTotal)
    {
      st := Stats(|queue|, rejectedTotal);
    }

    /** The two closes under the write lock, for the Close call c that holds it. */
    method CloseChannels(ghost c: nat)
      modifies this
      ensures forall s: State :: old(Shows(s)) && CloseAt(s, c, HoldsLock) ==>
        Enabled(Apply(s, CloseFlag(c)), CloseJobs(c)) && Shows(Apply(Apply(s, CloseFlag(c)), CloseJobs(c)))
    {
      closed := true;
      jobsClosed := true;
    }
  }

  /** The steps of one undisturbed Submit lead from s to s'. */
  ghost predicate SubmitRuns(s: State, k: nat, s': State)
    requires SubmitAt(s, k, Locked)
  {
    var s1 := Apply(s, CheckClosed(k));
    if s.closed then s' == s1
    else
      var s2 := Apply(s1, TrySend(k));
      if |s.queue| < s.capacity then s' == s2 else s' == Apply(s2, CountFull(k))
  }

}
