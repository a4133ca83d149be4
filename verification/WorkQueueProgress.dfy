/** The worker pool always comes to rest, and what rest means: every call answered, every
    accepted job finished (internal/workq/workq.go). */
module WorkQueueProgress {
  import opened Collections
  import opened WorkQueue

  // ---------- every step uses up work ----------

  /** The most steps that are left to the one who stands at pc. */
  function SubmitLeft(pc: SubmitPC): nat {
    match pc
    case Arriving => 6
    case Locked => 5
    case SawOpen => 4
    case Full => 2
    case Returning(_) => 1
    case Done(_) => 0
  }

  function CloseLeft(pc: ClosePC): nat {
    match pc
    case Entering => 6
    case InOnce => 5
    case HoldsLock => 4
    case ClosedFlag => 3
    case ClosedJobs => 2
    case Draining => 1
    case _ => 0
  }

  function WorkerLeft(pc: WorkerPC): nat {
    match pc
    case Idle => 1
    case Running(_) => 2
    case Exited => 0
  }

  function Total<T>(s: seq<T>, left: T -> nat): nat {
    if s == [] then 0 else left(s[0]) + Total(s[1..], left)
  }

  lemma {:induction false} TotalUpdate<T>(s: seq<T>, i: nat, x: T, left: T -> nat)
    requires i < |s|
    ensures Total(s[i := x], left) + left(s[i]) == Total(s, left) + left(x)
  {
    if i == 0 {
      assert s[i := x][1..] == s[1..];
    } else {
      TotalUpdate(s[1..], i - 1, x, left);
      assert s[i := x][1..] == s[1..][i - 1 := x];
    }
  }

  lemma {:induction false} TotalPush<T>(s: seq<T>, x: T, left: T -> nat)
    ensures Total(s + [x], left) == Total(s, left) + left(x)
  {
    if s == [] {
      assert s + [x] == [x];
      assert Total([x], left) == left(x) + Total([], left);
    } else {
      TotalPush(s[1..], x, left);
      assert (s + [x])[1..] == s[1..] + [x];
    }
  }

  lemma {:induction false} TotalIdle(s: seq<WorkerPC>)
    requires forall w :: 0 <= w < |s| ==> s[w] == Idle
    ensures Total(s, WorkerLeft) == |s|
  {
    if s != [] {
      TotalIdle(s[1..]);
    }
  }

  /** A queued job still has to be taken and finished. */
  function Left(s: State): nat {
    Total(s.submits, SubmitLeft) + Total(s.closes, CloseLeft) + Total(s.workers, WorkerLeft) + 2 * |s.queue|
  }

  predicate NewCall(step: Step) {
    step.CallSubmit? || step.CallClose?
  }

  lemma SubmitUsesUp(s: State, step: Step)
    requires Enabled(s, step) && SubmitStep(step) && !NewCall(step)
    ensures Left(Apply(s, step)) < Left(s)
  {
    var s' := Apply(s, step);
    SubmitAdvances(s, step);
    hide Total, SubmitLeft, Apply, Enabled;
    TotalUpdate(s.submits, step.k, s'.submits[step.k], SubmitLeft);
  }

  lemma SubmitAdvances(s: State, step: Step)
    requires Enabled(s, step) && SubmitStep(step) && !NewCall(step)
    ensures var s' := Apply(s, step);
      && step.k < |s.submits| == |s'.submits| && s'.submits == s.submits[step.k := s'.submits[step.k]]
      && SubmitLeft(s'.submits[step.k]) + 2 * |s'.queue| < SubmitLeft(s.submits[step.k]) + 2 * |s.queue|
      && s'.closes == s.closes && s'.workers == s.workers
  {
  }

  lemma CloseUsesUp(s: State, step: Step)
    requires Enabled(s, step) && CloseStep(step) && !NewCall(step)
    ensures Left(Apply(s, step)) < Left(s)
  {
    var s' := Apply(s, step);
    hide Total;
    TotalUpdate(s.closes, step.c, s'.closes[step.c], CloseLeft);
  }

  lemma WorkUsesUp(s: State, step: Step)
    requires Enabled(s, step) && (step.Take? || step.FinishJob? || step.Exit?)
    ensures Left(Apply(s, step)) < Left(s)
  {
    var s' := Apply(s, step);
    hide Total;
    TotalUpdate(s.workers, step.w, s'.workers[step.w], WorkerLeft);
  }

  lemma StepUsesUp(s: State, step: Step)
    requires Enabled(s, step)
    ensures if NewCall(step) then Left(Apply(s, step)) == Left(s) + 6 else Left(Apply(s, step)) < Left(s)
  {
    hide Left;
    match step
    case CallSubmit =>
      CallLeft(s);
    case CallClose =>
      CallLeft(s);
    case _ =>
      hide Apply, Enabled;
      if SubmitStep(step) {
        SubmitUsesUp(s, step);
      } else if CloseStep(step) {
        CloseUsesUp(s, step);
      } else {
        WorkUsesUp(s, step);
      }
  }

  lemma CallLeft(s: State)
    ensures Left(Apply(s, CallSubmit)) == Left(s) + 6
    ensures Left(Apply(s, CallClose)) == Left(s) + 6
  {
    TotalPush(s.submits, Arriving, SubmitLeft);
    TotalPush(s.closes, Entering, CloseLeft);
  }

  /** However the pool is interleaved, only new calls keep it going: a run has at most seven
      steps for each call and one for each worker. */
  lemma {:induction false} RunsAreBounded(cfg: Config, states: seq<State>, steps: seq<Step>, n: nat)
    requires Run(cfg, states, steps) && n <= |steps|
    ensures n + Left(states[n]) <= |New(cfg).workers| + 7 * (|states[n].submits| + |states[n].closes|)
  {
    if n == 0 {
      TotalIdle(New(cfg).workers);
    } else {
      RunsAreBounded(cfg, states, steps, n - 1);
      StepUsesUp(states[n - 1], steps[n - 1]);
      CallsCounted(states[n - 1], steps[n - 1]);
      hide Left, Apply, Enabled;
    }
  }

  lemma CallsCounted(s: State, step: Step)
    requires Enabled(s, step)
    ensures var s' := Apply(s, step);
      |s'.submits| + |s'.closes| == |s.submits| + |s.closes| + if NewCall(step) then 1 else 0
  {
  }

  // ---------- what rest means ----------

  /** closeOnce is held by a call inside it, and when it is complete the jobs channel is closed. */
  ghost predicate OnceOk(s: State) {
    && (s.once == InProgress ==> exists c :: 0 <= c < |s.closes| && InsideOnce(s.closes[c]))
    && (s.once == Complete ==> s.jobsClosed)
    && (s.closed && s.once != InProgress ==> s.jobsClosed)
    && forall c :: 0 <= c < |s.closes| && (s.closes[c].ClosedJobs? || s.closes[c].Draining?) ==> s.jobsClosed
  }

  lemma StepKeepsOnce(s: State, step: Step)
    requires LocksOk(s) && OnceOk(s) && Enabled(s, step)
    ensures OnceOk(Apply(s, step))
  {
    var s' := Apply(s, step);
    if s'.once == InProgress {
      if s.once == InProgress {
        var c :| 0 <= c < |s.closes| && InsideOnce(s.closes[c]);
        assert InsideOnce(s'.closes[c]);
      } else {
        assert InsideOnce(s'.closes[step.c]);
      }
    }
  }

  lemma {:induction false} RunOnce(cfg: Config, states: seq<State>, steps: seq<Step>, n: nat)
    requires Run(cfg, states, steps) && n <= |steps|
    ensures OnceOk(states[n])
  {
    if n > 0 {
      RunOnce(cfg, states, steps, n - 1);
      RunInv(cfg, states, steps, n - 1);
      StepKeepsOnce(states[n - 1], steps[n - 1]);
    }
  }

  /** Nothing can happen but new calls and time-outs. */
  ghost predicate AtRest(s: State) {
    forall step :: Enabled(s, step) ==> NewCall(step) || step.TimeOut?
  }

  /** Submitters hold no lock and none waits for one. */
  lemma RestingSubmits(s: State)
    requires AtRest(s)
    ensures forall k :: 0 <= k < |s.submits| ==> s.submits[k].Done?
    ensures NoWriter(s)
  {
    forall c | 0 <= c < |s.closes| ensures !Writing(s.closes[c]) {
      assert !Enabled(s, CloseFlag(c)) && !Enabled(s, CloseJobs(c)) && !Enabled(s, Unlock(c));
    }
    forall k | 0 <= k < |s.submits| ensures s.submits[k].Done? {
      assert !Enabled(s, RLock(k)) && !Enabled(s, CheckClosed(k)) && !Enabled(s, TrySend(k));
      assert !Enabled(s, CountFull(k)) && !Enabled(s, RUnlock(k));
    }
  }

  lemma RestingWorkers(s: State)
    requires AtRest(s) && DrainOk(s)
    ensures s.queue == []
    ensures forall w :: 0 <= w < |s.workers| ==> s.workers[w] == if s.jobsClosed then Exited else Idle
  {
    forall w | 0 <= w < |s.workers|
      ensures !s.workers[w].Running? && (s.workers[w] == Idle ==> s.queue == [] && !s.jobsClosed)
    {
      assert !Enabled(s, FinishJob(w, false)) && !Enabled(s, Take(w)) && !Enabled(s, Exit(w));
    }
    assert s.workers[0] == Idle || s.workers[0] == Exited;
  }

  lemma RestingCloses(s: State)
    requires AtRest(s) && OnceOk(s) && NoWriter(s) && NoReaders(s)
    requires s.jobsClosed ==> forall w :: 0 <= w < |s.workers| ==> s.workers[w] == Exited
    ensures s.once != InProgress
    ensures forall c :: 0 <= c < |s.closes| ==> s.closes[c] == ReturnedNil || s.closes[c] == TimedOut
  {
    forall c | 0 <= c < |s.closes| ensures !InsideOnce(s.closes[c]) {
      assert !Enabled(s, Lock(c));
    }
    forall c | 0 <= c < |s.closes| ensures s.closes[c] == ReturnedNil || s.closes[c] == TimedOut {
      assert !Enabled(s, EnterOnce(c)) && !Enabled(s, SkipOnce(c)) && !Enabled(s, AllDone(c));
    }
  }

  /** No deadlock, and no job forgotten: whenever the pool has come to rest every Submit and
      every Close has returned, every accepted job has finished, and the workers have exited if
      the pool was closed and stand ready if not. */
  lemma RestMeansDone(cfg: Config, states: seq<State>, steps: seq<Step>, n: nat)
    requires Run(cfg, states, steps) && n <= |steps| && AtRest(states[n])
    ensures var s := states[n];
      && (forall k :: 0 <= k < |s.submits| ==> s.submits[k].Done?)
      && (forall c :: 0 <= c < |s.closes| ==> s.closes[c] == ReturnedNil || s.closes[c] == TimedOut)
      && s.queue == [] && AcceptedJobs(s) == s.finished
      && forall w :: 0 <= w < |s.workers| ==> s.workers[w] == if s.closed then Exited else Idle
  {
    var s := states[n];
    RunInv(cfg, states, steps, n);
    RunOnce(cfg, states, steps, n);
    RestingSubmits(s);
    RestingWorkers(s);
    RestingCloses(s);
    hide Enabled, AtRest;
    assert QueuedJobs(s) == {} && RunningJobs(s) == {};
  }
}
