/** The per-job event logs and their server-sent-event streamers (internal/api/handlers.go):
    every critical section is one step, and appenders, finishers, cancellations and any
    number of streamers of any number of jobs interleave freely. */
module EventLog {

  datatype Event = Event(payload: string, Done: bool)

  datatype Log = Log(events: seq<Event>, done: bool) {
    /** appendEvent's critical section. */
    function Append(evt: Event): Log {
      this.(events := events + [evt])
    }

    /** finishEvent's critical section: the event is marked Done and the log with it. */
    function Finish(evt: Event): Log {
      Log(events + [evt.(Done := true)], true)
    }
  }

  datatype End = ByTerminal | ByCancel | ByWriteError

  /** Where a streamer is: about to take the lock, inside cond.Wait, after its snapshot,
      writing event i of its batch, or gone. */
  datatype PC = Checking | Waiting | Snapped | Sending(i: nat) | Ended(how: End)

  /** cancelled: the request context is done; announced: its watcher has broadcast. base counts
      the events that were in the log when the stream attached. */
  datatype Streamer = Streamer(job: string, log: nat, base: nat, cursor: nat, batch: seq<Event>, terminal: bool,
                               sent: seq<Event>, pc: PC, cancelled: bool, announced: bool)

  /** An appendEvent call, or a finishEvent call if `last`, that has its job's log in hand. */
  datatype Appender = Appender(job: string, log: nat, evt: Event, last: bool, written: bool) {
    /** The event as it is logged. */
    function Logged(): Event {
      if last then evt.(Done := true) else evt
    }
  }

  /** All logs ever made and the jobs they were made for, the map from jobs to their present
      log, the append calls and the streamers. */
  datatype State = State(logs: seq<Log>, owners: seq<string>, jobs: map<string, nat>, appends: seq<Appender>,
                         streams: seq<Streamer>)

  const INITIAL := State([], [], map[], [], [])

  datatype Step =
    | Begin(job: string, evt: Event, last: bool)
    | Write(a: nat)
    | Attach(job: string)
    | Check(k: nat)
    | Proceed(k: nat)
    | Send(k: nat)
    | FailWrite(k: nat)
    | EndBatch(k: nat)
    | Cancel(k: nat)
    | Announce(k: nat)

  /** getOrCreateEventLog. */
  function WithLog(s: State, job: string): State {
    if job in s.jobs then s
    else s.(logs := s.logs + [Log([], false)], owners := s.owners + [job], jobs := s.jobs[job := |s.logs|])
  }

  function LogWrite(log: Log, ap: Appender): Log {
    if ap.last then log.Finish(ap.evt) else log.Append(ap.evt)
  }

  /** cond.Broadcast on log l. */
  function Woken(streams: seq<Streamer>, l: nat): (r: seq<Streamer>)
    ensures |r| == |streams|
    ensures forall k :: 0 <= k < |r| ==>
      r[k] == if streams[k].log == l && streams[k].pc == Waiting then streams[k].(pc := Checking) else streams[k]
  {
    seq(|streams|, k requires 0 <= k < |streams| =>
      if streams[k].log == l && streams[k].pc == Waiting then streams[k].(pc := Checking) else streams[k])
  }

  /** The streamer's critical section: wait, or take everything not yet flushed. */
  function Checked(log: Log, st: Streamer): Streamer {
    if st.cursor >= |log.events| && !log.done && !st.cancelled then st.(pc := Waiting)
    else st.(batch := if st.cursor <= |log.events| then log.events[st.cursor..] else [],
             cursor := |log.events|, terminal := log.done, pc := Snapped)
  }

  predicate At(s: State, k: nat) {
    k < |s.streams| && s.streams[k].log < |s.logs|
  }

  predicate Enabled(s: State, step: Step) {
    match step
    case Begin(job, _, _) => job != ""
    case Write(a) => a < |s.appends| && !s.appends[a].written && s.appends[a].log < |s.logs|
    case Attach(job) => job != ""
    case Check(k) => At(s, k) && s.streams[k].pc == Checking
    case Proceed(k) => At(s, k) && s.streams[k].pc == Snapped
    case Send(k) => At(s, k) && s.streams[k].pc.Sending? && s.streams[k].pc.i < |s.streams[k].batch|
    case FailWrite(k) => At(s, k) && s.streams[k].pc.Sending? && s.streams[k].pc.i < |s.streams[k].batch|
    case EndBatch(k) => At(s, k) && s.streams[k].pc.Sending? && s.streams[k].pc.i >= |s.streams[k].batch|
    case Cancel(k) => At(s, k)
    case Announce(k) => At(s, k) && s.streams[k].cancelled && !s.streams[k].announced && !s.streams[k].pc.Ended?
  }

  function NewStream(s: State, job: string): Streamer
    requires job in s.jobs
  {
    var l := s.jobs[job];
    Streamer(job, l, if l < |s.logs| then |s.logs[l].events| else 0, 0, [], false, [], Checking, false, false)
  }

  function Apply(s: State, step: Step): State
    requires Enabled(s, step)
  {
    match step
    case Begin(job, evt, last) =>
      var s1 := WithLog(s, job);
      s1.(appends := s1.appends + [Appender(job, s1.jobs[job], evt, last, false)])
    case Write(a) =>
      var ap := s.appends[a];
      s.(logs := s.logs[ap.log := LogWrite(s.logs[ap.log], ap)], streams := Woken(s.streams, ap.log),
         appends := s.appends[a := ap.(written := true)])
    case Attach(job) =>
      var s1 := WithLog(s, job);
      s1.(streams := s1.streams + [NewStream(s1, job)])
    case Check(k) => s.(streams := s.streams[k := Checked(s.logs[s.streams[k].log], s.streams[k])])
    case Proceed(k) =>
      var st := s.streams[k];
      s.(streams := s.streams[k := st.(pc := if st.cancelled then Ended(ByCancel) else Sending(0))])
    case Send(k) =>
      var st := s.streams[k];
      s.(streams := s.streams[k := st.(sent := st.sent + [st.batch[st.pc.i]], pc := Sending(st.pc.i + 1))])
    case FailWrite(k) => s.(streams := s.streams[k := s.streams[k].(pc := Ended(ByWriteError))])
    case EndBatch(k) =>
      var st := s.streams[k];
      if st.terminal then
        s.(jobs := s.jobs - {st.job}, streams := s.streams[k := st.(pc := Ended(ByTerminal))])
      else s.(streams := s.streams[k := st.(pc := Checking)])
    case Cancel(k) => s.(streams := s.streams[k := s.streams[k].(cancelled := true)])
    case Announce(k) =>
      var st := s.streams[k];
      s.(streams := Woken(s.streams[k := st.(announced := true)], st.log))
  }

  // ---------- the invariant ----------

  /** What of the batch has been written. */
  function Written(st: Streamer): nat {
    match st.pc
    case Sending(i) => i
    case _ => 0
  }

  ghost predicate Pending(st: Streamer) {
    st.pc == Snapped || st.pc.Sending?
  }

  /** sent is what came before the batch plus the part of the batch already written. */
  ghost predicate StreamOk(log: Log, st: Streamer) {
    && st.cursor <= |log.events| && st.base <= |log.events|
    && (st.base <= st.cursor || (st.pc == Checking && st.cursor == 0))
    && st.sent <= log.events
    && (st.pc.Checking? || st.pc.Waiting? ==> st.sent == log.events[..st.cursor] && !st.terminal)
    && (Pending(st) ==>
          && Written(st) <= |st.batch| <= st.cursor
          && st.batch == log.events[st.cursor - |st.batch|..st.cursor]
          && st.sent == log.events[..st.cursor - |st.batch| + Written(st)])
    && (Pending(st) && st.terminal ==> HasDone(log.events[..st.cursor]))
    && (st.pc == Waiting ==> st.cursor == |log.events| && !log.done)
    && (st.pc == Waiting && st.cancelled ==> !st.announced)
    && (st.announced ==> st.cancelled)
    && (st.pc == Ended(ByTerminal) ==> HasDone(st.sent) && st.sent == log.events[..st.cursor])
  }

  ghost predicate HasDone(events: seq<Event>) {
    exists e :: e in events && e.Done
  }

  ghost predicate Inv(s: State) {
    && |s.owners| == |s.logs|
    && (forall j :: j in s.jobs ==> s.jobs[j] < |s.logs| && s.owners[s.jobs[j]] == j)
    && (forall a :: 0 <= a < |s.appends| ==> s.appends[a].log < |s.logs| && s.owners[s.appends[a].log] == s.appends[a].job)
    && (forall k :: 0 <= k < |s.streams| && s.streams[k].log < |s.owners| ==> s.owners[s.streams[k].log] == s.streams[k].job)
    && (forall l :: 0 <= l < |s.logs| && s.logs[l].done ==> HasDone(s.logs[l].events))
    && (forall k :: 0 <= k < |s.streams| ==> s.streams[k].log < |s.logs| && StreamOk(s.logs[s.streams[k].log], s.streams[k]))
  }

  lemma GrownStreamOk(log: Log, log': Log, st: Streamer)
    requires StreamOk(log, st) && log.events <= log'.events && (log'.done ==> HasDone(log'.events))
    ensures StreamOk(log', if st.pc == Waiting then st.(pc := Checking) else st)
  {
    assert log'.events[..|log.events|] == log.events;
    assert log'.events[..st.cursor] == log.events[..st.cursor];
    if Pending(st) {
      assert log'.events[st.cursor - |st.batch|..st.cursor] == log.events[st.cursor - |st.batch|..st.cursor];
      assert log'.events[..st.cursor - |st.batch| + Written(st)] == log.events[..st.cursor - |st.batch| + Written(st)];
    }
  }

  lemma GrownKeepsInv(s: State, l: nat, log': Log, appends': seq<Appender>)
    requires Inv(s) && l < |s.logs| && s.logs[l].events <= log'.events && (log'.done ==> HasDone(log'.events))
    requires forall a :: 0 <= a < |appends'| ==> a < |s.appends| && appends'[a].(written := s.appends[a].written) == s.appends[a]
    ensures Inv(s.(logs := s.logs[l := log'], streams := Woken(s.streams, l), appends := appends'))
  {
    var s' := s.(logs := s.logs[l := log'], streams := Woken(s.streams, l), appends := appends');
    forall k | 0 <= k < |s'.streams|
      ensures s'.streams[k].log < |s'.logs| && StreamOk(s'.logs[s'.streams[k].log], s'.streams[k])
    {
      if s.streams[k].log == l {
        GrownStreamOk(s.logs[l], log', s.streams[k]);
      }
    }
  }

  lemma HasDoneGrows(a: seq<Event>, e: Event)
    ensures HasDone(a) ==> HasDone(a + [e])
    ensures e.Done ==> HasDone(a + [e])
  {
    if HasDone(a) {
      var x :| x in a && x.Done;
      assert x in a + [e];
    }
    assert e in a + [e];
  }

  lemma CheckedOk(log: Log, st: Streamer)
    requires StreamOk(log, st) && st.pc == Checking && (log.done ==> HasDone(log.events))
    ensures StreamOk(log, Checked(log, st))
  {
    assert log.events[..|log.events|] == log.events;
  }

  lemma SentOne(log: Log, st: Streamer)
    requires StreamOk(log, st) && st.pc.Sending? && st.pc.i < |st.batch|
    ensures StreamOk(log, st.(sent := st.sent + [st.batch[st.pc.i]], pc := Sending(st.pc.i + 1)))
  {
    var n := st.cursor - |st.batch| + st.pc.i;
    assert st.batch[st.pc.i] == log.events[n];
    assert log.events[..n + 1] == log.events[..n] + [log.events[n]];
  }

  lemma UpdatedKeepsInv(s: State, k: nat, st': Streamer)
    requires Inv(s) && k < |s.streams| && st'.log == s.streams[k].log && st'.job == s.streams[k].job
    requires StreamOk(s.logs[st'.log], st')
    ensures Inv(s.(streams := s.streams[k := st']))
  {
  }

  lemma WithLogKeepsInv(s: State, job: string)
    requires Inv(s)
    ensures Inv(WithLog(s, job)) && job in WithLog(s, job).jobs
  {
  }

  lemma MovedOn(log: Log, st: Streamer)
    requires StreamOk(log, st)
    ensures st.pc == Snapped ==> StreamOk(log, st.(pc := if st.cancelled then Ended(ByCancel) else Sending(0)))
    ensures st.pc.Sending? ==> StreamOk(log, st.(pc := Ended(ByWriteError)))
    ensures st.pc.Sending? && st.pc.i >= |st.batch| ==>
              StreamOk(log, st.(pc := if st.terminal then Ended(ByTerminal) else Checking))
  {
  }

  lemma JobsForgotten(s: State, job: string)
    requires Inv(s)
    ensures Inv(s.(jobs := s.jobs - {job}))
  {
  }

  lemma AttachKeepsInv(s: State, job: string)
    requires Inv(s) && job in s.jobs
    ensures Inv(s.(streams := s.streams + [NewStream(s, job)]))
  {
    assert s.logs[s.jobs[job]].events[..0] == [];
  }

  lemma BeginKeepsInv(s: State, step: Step)
    requires Inv(s) && step.Begin? && step.job in s.jobs
    ensures Inv(s.(appends := s.appends + [Appender(step.job, s.jobs[step.job], step.evt, step.last, false)]))
  {
  }

  /** Every step of any participant keeps the invariant. */
  lemma StepKeepsInv(s: State, step: Step)
    requires Inv(s) && Enabled(s, step)
    ensures Inv(Apply(s, step))
  {
    match step
    case Begin(job, _, _) =>
      WithLogKeepsInv(s, job);
      BeginKeepsInv(WithLog(s, job), step);
    case Write(a) =>
      var ap := s.appends[a];
      HasDoneGrows(s.logs[ap.log].events, ap.Logged());
      GrownKeepsInv(s, ap.log, LogWrite(s.logs[ap.log], ap), s.appends[a := ap.(written := true)]);
    case Attach(job) =>
      WithLogKeepsInv(s, job);
      AttachKeepsInv(WithLog(s, job), job);
    case _ => StreamerStepKeepsInv(s, step);
  }

  lemma StreamerStepKeepsInv(s: State, step: Step)
    requires Inv(s) && Enabled(s, step) && !step.Begin? && !step.Write? && !step.Attach?
    ensures Inv(Apply(s, step))
  {
    hide StreamOk, HasDone, Woken;
    match step
    case Check(k) =>
      CheckedOk(s.logs[s.streams[k].log], s.streams[k]);
      UpdatedKeepsInv(s, k, Checked(s.logs[s.streams[k].log], s.streams[k]));
    case Proceed(k) =>
      var st := s.streams[k];
      MovedOn(s.logs[st.log], st);
      UpdatedKeepsInv(s, k, st.(pc := if st.cancelled then Ended(ByCancel) else Sending(0)));
    case Send(k) =>
      var st := s.streams[k];
      SentOne(s.logs[st.log], st);
      UpdatedKeepsInv(s, k, st.(sent := st.sent + [st.batch[st.pc.i]], pc := Sending(st.pc.i + 1)));
    case FailWrite(k) =>
      MovedOn(s.logs[s.streams[k].log], s.streams[k]);
      UpdatedKeepsInv(s, k, s.streams[k].(pc := Ended(ByWriteError)));
    case EndBatch(k) =>
      var st := s.streams[k];
      MovedOn(s.logs[st.log], st);
      UpdatedKeepsInv(s, k, st.(pc := if st.terminal then Ended(ByTerminal) else Checking));
      if st.terminal {
        JobsForgotten(s.(streams := s.streams[k := st.(pc := Ended(ByTerminal))]), st.job);
      }
    case Cancel(k) => CancelKeepsInv(s, k);
    case Announce(k) => AnnounceKeepsInv(s, k);
  }

  lemma CancelKeepsInv(s: State, k: nat)
    requires Inv(s) && k < |s.streams|
    ensures Inv(s.(streams := s.streams[k := s.streams[k].(cancelled := true)]))
  {
    var st := s.streams[k].(cancelled := true);
    assert StreamOk(s.logs[st.log], st);
    UpdatedKeepsInv(s, k, st);
  }

  lemma AnnounceKeepsInv(s: State, k: nat)
    requires Inv(s) && k < |s.streams| && s.streams[k].cancelled
    ensures Inv(s.(streams := Woken(s.streams[k := s.streams[k].(announced := true)], s.streams[k].log)))
  {
    hide StreamOk, HasDone;
    var l := s.streams[k].log;
    var streams' := Woken(s.streams[k := s.streams[k].(announced := true)], l);
    forall j | 0 <= j < |streams'| ensures streams'[j].log < |s.logs| && StreamOk(s.logs[streams'[j].log], streams'[j]) {
      if j == k {
        AnnouncedOk(s.logs[l], s.streams[k]);
      } else if s.streams[j].log == l {
        GrownStreamOk(s.logs[l], s.logs[l], s.streams[j]);
      }
    }
  }

  lemma AnnouncedOk(log: Log, st: Streamer)
    requires StreamOk(log, st) && st.cancelled
    ensures StreamOk(log, if st.pc == Waiting then st.(pc := Checking, announced := true) else st.(announced := true))
  {
  }

  // ---------- runs ----------

  ghost predicate Run(states: seq<State>, steps: seq<Step>) {
    && |states| == |steps| + 1 && states[0] == INITIAL
    && forall i :: 0 <= i < |steps| ==> Enabled(states[i], steps[i]) && states[i + 1] == Apply(states[i], steps[i])
  }

  lemma {:induction false} RunInv(states: seq<State>, steps: seq<Step>, n: nat)
    requires Run(states, steps) && n <= |steps|
    ensures Inv(states[n])
  {
    if n > 0 {
      RunInv(states, steps, n - 1);
      StepKeepsInv(states[n - 1], steps[n - 1]);
    }
  }

  /** At every moment of every run, what a streamer has written is a prefix of the log it
      attached to: nothing skipped, nothing twice. */
  lemma OutputIsPrefix(states: seq<State>, steps: seq<Step>, n: nat, k: nat)
    requires Run(states, steps) && n <= |steps| && k < |states[n].streams|
    ensures states[n].streams[k].log < |states[n].logs|
    ensures states[n].streams[k].sent <= states[n].logs[states[n].streams[k].log].events
  {
    RunInv(states, steps, n);
  }

  /** A stream that ended by `terminal` has written a Done event. */
  lemma TerminalDeliveredDone(states: seq<State>, steps: seq<Step>, n: nat, k: nat)
    requires Run(states, steps) && n <= |steps| && k < |states[n].streams|
    requires states[n].streams[k].pc == Ended(ByTerminal)
    ensures HasDone(states[n].streams[k].sent)
  {
    RunInv(states, steps, n);
  }

  /** No lost wake-up: a waiting streamer has flushed everything, its log is not done, and if
      its request was cancelled the broadcast for that is still to come. */
  lemma NoLostWakeUp(states: seq<State>, steps: seq<Step>, n: nat, k: nat)
    requires Run(states, steps) && n <= |steps| && k < |states[n].streams| && states[n].streams[k].pc == Waiting
    ensures var st := states[n].streams[k];
      && st.log < |states[n].logs|
      && st.sent == states[n].logs[st.log].events && !states[n].logs[st.log].done
      && (st.cancelled ==> Enabled(states[n], Announce(k)))
  {
    RunInv(states, steps, n);
    var st := states[n].streams[k];
    assert StreamOk(states[n].logs[st.log], st);
    assert states[n].logs[st.log].events[..st.cursor] == states[n].logs[st.log].events;
  }

  /** Some step of the streamer itself is always possible, unless it waits or has ended. */
  lemma StreamerNeverStuck(states: seq<State>, steps: seq<Step>, n: nat, k: nat)
    requires Run(states, steps) && n <= |steps| && k < |states[n].streams|
    requires !states[n].streams[k].pc.Waiting? && !states[n].streams[k].pc.Ended?
    ensures Enabled(states[n], Check(k)) || Enabled(states[n], Proceed(k)) || Enabled(states[n], Send(k))
            || Enabled(states[n], EndBatch(k))
  {
    RunInv(states, steps, n);
  }

  /** Logs only grow. */
  lemma StepGrowsLogs(s: State, step: Step, l: nat)
    requires Enabled(s, step) && l < |s.logs|
    ensures l < |Apply(s, step).logs| && s.logs[l].events <= Apply(s, step).logs[l].events
    ensures s.logs[l].done ==> Apply(s, step).logs[l].done
  {
  }

  lemma {:induction false} LogsGrow(states: seq<State>, steps: seq<Step>, n: nat, m: nat, l: nat)
    requires Run(states, steps) && n <= m <= |steps| && l < |states[n].logs|
    ensures l < |states[m].logs| && states[n].logs[l].events <= states[m].logs[l].events
    ensures states[n].logs[l].done ==> states[m].logs[l].done
  {
    hide Enabled, Apply;
    if n < m {
      LogsGrow(states, steps, n, m - 1, l);
      StepGrowsLogs(states[m - 1], steps[m - 1], l);
    }
  }

  /** A streamer waits exactly when it has sent the whole log, the log is not done and the request
      not cancelled; otherwise it takes all that is left to send. */
  lemma CheckTakesAll(s: State, k: nat)
    requires Inv(s) && Enabled(s, Check(k))
    ensures var st, st', log := s.streams[k], Apply(s, Check(k)).streams[k], s.logs[s.streams[k].log];
      && (st'.pc == Waiting <==> st.sent == log.events && !log.done && !st.cancelled)
      && (st'.pc != Waiting ==> st'.pc == Snapped && st.sent + st'.batch == log.events && st'.terminal == log.done)
  {
    var st, log := s.streams[k], s.logs[s.streams[k].log];
    assert StreamOk(log, st);
    assert log.events == log.events[..st.cursor] + log.events[st.cursor..];
    if st.sent == log.events {
      assert st.cursor == |log.events|;
    }
  }

  // ---------- one log for a job ----------

  /** A stream of the job ends by `terminal` and drops the job's log from the map. */
  predicate Clears(s: State, step: Step, job: string) {
    step.EndBatch? && step.k < |s.streams| && s.streams[step.k].terminal && s.streams[step.k].job == job
  }

  ghost predicate Uncleared(states: seq<State>, steps: seq<Step>, i: nat, n: nat, job: string)
    requires i <= n <= |steps| <= |states|
  {
    forall m :: i <= m < n ==> !Clears(states[m], steps[m], job)
  }

  /** The append calls of the job beyond the first a, and its streams beyond the first k, have log l. */
  ghost predicate AllOn(s: State, job: string, a: nat, k: nat, l: nat) {
    && (forall x :: a <= x < |s.appends| && s.appends[x].job == job ==> s.appends[x].log == l)
    && (forall x :: k <= x < |s.streams| && s.streams[x].job == job ==> s.streams[x].log == l)
  }

  lemma StepKeepsLog(s: State, step: Step, job: string)
    requires Enabled(s, step) && !Clears(s, step, job) && job in s.jobs
    ensures job in Apply(s, step).jobs && Apply(s, step).jobs[job] == s.jobs[job]
  {
  }

  lemma TerminalStreamClears(s: State, step: Step, job: string)
    requires Enabled(s, step) && Clears(s, step, job)
    ensures job !in Apply(s, step).jobs && Apply(s, step).streams[step.k].pc == Ended(ByTerminal)
  {
  }

  /** Calls and streams keep their job and log, and those that begin get the job's present log. */
  lemma StepKeepsAllOn(s: State, step: Step, job: string, a: nat, k: nat, l: nat)
    requires Enabled(s, step) && AllOn(s, job, a, k, l) && job in s.jobs && s.jobs[job] == l
    requires a <= |s.appends| && k <= |s.streams|
    ensures AllOn(Apply(s, step), job, a, k, l)
    ensures |s.appends| <= |Apply(s, step).appends| && |s.streams| <= |Apply(s, step).streams|
  {
  }

  /** While no stream of a job clears it, every append, finish and attach of the job concerns
      the one log it has. */
  lemma {:induction false} OneLogUntilCleared(states: seq<State>, steps: seq<Step>, i: nat, n: nat, job: string)
    requires Run(states, steps) && i <= n <= |steps| && job in states[i].jobs && Uncleared(states, steps, i, n, job)
    ensures job in states[n].jobs && states[n].jobs[job] == states[i].jobs[job]
    ensures |states[i].appends| <= |states[n].appends| && |states[i].streams| <= |states[n].streams|
    ensures AllOn(states[n], job, |states[i].appends|, |states[i].streams|, states[i].jobs[job])
  {
    if i < n {
      OneLogUntilCleared(states, steps, i, n - 1, job);
      StepKeepsLog(states[n - 1], steps[n - 1], job);
      StepKeepsAllOn(states[n - 1], steps[n - 1], job, |states[i].appends|, |states[i].streams|, states[i].jobs[job]);
    }
  }

  // ---------- what the logs hold ----------

  /** The append call that writes in this step, if any. */
  function Writer(s: State, step: Step): seq<Appender> {
    if step.Write? && step.a < |s.appends| then [s.appends[step.a]] else []
  }

  function EventsOn(aps: seq<Appender>, l: nat): seq<Event> {
    if aps == [] then [] else (if aps[0].log == l then [aps[0].Logged()] else []) + EventsOn(aps[1..], l)
  }

  function EventsOf(aps: seq<Appender>, job: string): seq<Event> {
    if aps == [] then [] else (if aps[0].job == job then [aps[0].Logged()] else []) + EventsOf(aps[1..], job)
  }

  /** The events written to log l in the first n steps, in order. */
  function WrittenTo(states: seq<State>, steps: seq<Step>, n: nat, l: nat): seq<Event>
    requires n <= |steps| <= |states|
  {
    if n == 0 then [] else WrittenTo(states, steps, n - 1, l) + EventsOn(Writer(states[n - 1], steps[n - 1]), l)
  }

  /** The events written for the job in the first n steps, in order. */
  function WrittenFor(states: seq<State>, steps: seq<Step>, n: nat, job: string): seq<Event>
    requires n <= |steps| <= |states|
  {
    if n == 0 then [] else WrittenFor(states, steps, n - 1, job) + EventsOf(Writer(states[n - 1], steps[n - 1]), job)
  }

  lemma StepWrites(s: State, step: Step, l: nat)
    requires Inv(s) && Enabled(s, step) && l < |Apply(s, step).logs|
    ensures Apply(s, step).logs[l].events
         == (if l < |s.logs| then s.logs[l].events else []) + EventsOn(Writer(s, step), l)
  {
    hide StreamOk, HasDone;
  }

  lemma {:induction false} NothingWrittenYet(states: seq<State>, steps: seq<Step>, n: nat, l: nat)
    requires Run(states, steps) && n <= |steps| && l >= |states[n].logs|
    ensures WrittenTo(states, steps, n, l) == []
  {
    if n > 0 {
      RunInv(states, steps, n - 1);
      MoreLogs(states[n - 1], steps[n - 1]);
      NothingWrittenYet(states, steps, n - 1, l);
      WritesToExisting(states[n - 1], steps[n - 1], l);
    }
  }

  lemma WritesToExisting(s: State, step: Step, l: nat)
    requires Inv(s) && l >= |s.logs|
    ensures EventsOn(Writer(s, step), l) == []
  {
    hide StreamOk, HasDone;
  }

  lemma MoreLogs(s: State, step: Step)
    requires Enabled(s, step)
    ensures |s.logs| <= |Apply(s, step).logs|
  {
  }

  /** Every log holds exactly what was written to it, in order. */
  lemma {:induction false} LogHoldsWritten(states: seq<State>, steps: seq<Step>, n: nat, l: nat)
    requires Run(states, steps) && n <= |steps| && l < |states[n].logs|
    ensures states[n].logs[l].events == WrittenTo(states, steps, n, l)
  {
    if n > 0 {
      RunInv(states, steps, n - 1);
      StepWrites(states[n - 1], steps[n - 1], l);
      if l < |states[n - 1].logs| {
        LogHoldsWritten(states, steps, n - 1, l);
      } else {
        NothingWrittenYet(states, steps, n - 1, l);
      }
    }
  }

  /** A log is only ever written for, and streamed to, the job it was made for. */
  lemma LogsHaveOwners(states: seq<State>, steps: seq<Step>, n: nat)
    requires Run(states, steps) && n <= |steps|
    ensures |states[n].owners| == |states[n].logs|
    ensures forall a :: 0 <= a < |states[n].appends| ==>
      states[n].appends[a].log < |states[n].owners| && states[n].owners[states[n].appends[a].log] == states[n].appends[a].job
    ensures forall k :: 0 <= k < |states[n].streams| ==>
      states[n].streams[k].log < |states[n].owners| && states[n].owners[states[n].streams[k].log] == states[n].streams[k].job
  {
    RunInv(states, steps, n);
  }

  /** Everything said of a job before its first clearing: all its calls and streams are on the
      job's log, and before its first use there are none. */
  ghost predicate JobOnOneLog(s: State, job: string) {
    && (job in s.jobs ==> AllOn(s, job, 0, 0, s.jobs[job]))
    && (job !in s.jobs ==> Unused(s, job))
  }

  ghost predicate Unused(s: State, job: string) {
    && (forall a :: 0 <= a < |s.appends| ==> s.appends[a].job != job)
    && (forall k :: 0 <= k < |s.streams| ==> s.streams[k].job != job)
  }

  function JobEvents(s: State, job: string): seq<Event> {
    if job in s.jobs && s.jobs[job] < |s.logs| then s.logs[s.jobs[job]].events else []
  }

  lemma StepKeepsJobLog(s: State, step: Step, job: string)
    requires Inv(s) && Enabled(s, step) && !Clears(s, step, job) && JobOnOneLog(s, job)
    ensures JobOnOneLog(Apply(s, step), job)
  {
    hide StreamOk, HasDone;
    if job in s.jobs {
      StepKeepsAllOn(s, step, job, 0, 0, s.jobs[job]);
      StepKeepsLog(s, step, job);
    }
  }

  lemma StepWritesForJob(s: State, step: Step, job: string)
    requires Inv(s) && Enabled(s, step) && !Clears(s, step, job) && JobOnOneLog(s, job)
    ensures JobEvents(Apply(s, step), job) == JobEvents(s, job) + EventsOf(Writer(s, step), job)
  {
    hide StreamOk, HasDone;
    if job in s.jobs {
      StepKeepsLog(s, step, job);
      MoreLogs(s, step);
      StepWrites(s, step, s.jobs[job]);
    }
  }

  /** Until a stream of a job clears it, the job's log holds exactly the events written for the
      job, in order, and all its calls and streams are on that log. */
  lemma {:induction false} JobLogHoldsAll(states: seq<State>, steps: seq<Step>, n: nat, job: string)
    requires Run(states, steps) && n <= |steps| && Uncleared(states, steps, 0, n, job)
    ensures JobOnOneLog(states[n], job) && JobEvents(states[n], job) == WrittenFor(states, steps, n, job)
  {
    if n > 0 {
      RunInv(states, steps, n - 1);
      JobLogHoldsAll(states, steps, n - 1, job);
      StepKeepsJobLog(states[n - 1], steps[n - 1], job);
      StepWritesForJob(states[n - 1], steps[n - 1], job);
    }
  }

  /** So a stream's output is a prefix of the events written for its job, in order. */
  lemma StreamIsJobPrefix(states: seq<State>, steps: seq<Step>, n: nat, k: nat)
    requires Run(states, steps) && n <= |steps| && k < |states[n].streams|
    requires Uncleared(states, steps, 0, n, states[n].streams[k].job)
    ensures states[n].streams[k].sent <= WrittenFor(states, steps, n, states[n].streams[k].job)
  {
    RunInv(states, steps, n);
    OutputIsPrefix(states, steps, n, k);
    JobLogHoldsAll(states, steps, n, states[n].streams[k].job);
  }

  lemma StepKeepsStream(s: State, step: Step, k: nat)
    requires Enabled(s, step) && k < |s.streams|
    ensures k < |Apply(s, step).streams|
    ensures var st, st' := s.streams[k], Apply(s, step).streams[k];
      st'.job == st.job && st'.log == st.log && st'.base == st.base
  {
  }

  lemma {:induction false} StreamKept(states: seq<State>, steps: seq<Step>, i: nat, n: nat, k: nat)
    requires Run(states, steps) && i <= n <= |steps| && k < |states[i].streams|
    ensures k < |states[n].streams|
    ensures var st, st' := states[i].streams[k], states[n].streams[k];
      st'.job == st.job && st'.log == st.log && st'.base == st.base
  {
    hide Enabled, Apply;
    if i < n {
      StreamKept(states, steps, i, n - 1, k);
      StepKeepsStream(states[n - 1], steps[n - 1], k);
    }
  }

  /** What was in a job's log when a stream attached has been sent by the time the stream waits
      or ends by terminal. */
  lemma EarlierEventsAreSent(states: seq<State>, steps: seq<Step>, i: nat, n: nat, job: string)
    requires Run(states, steps) && i < n <= |steps| && steps[i] == Attach(job)
    ensures var k := |states[i].streams|;
      && k < |states[n].streams| && states[n].streams[k].job == job
      && (states[n].streams[k].pc == Waiting || states[n].streams[k].pc == Ended(ByTerminal) ==>
            JobEvents(states[i], job) <= states[n].streams[k].sent)
  {
    var k := |states[i].streams|;
    RunInv(states, steps, i);
    RunInv(states, steps, n);
    StreamKept(states, steps, i + 1, n, k);
    AttachedStream(states[i], job);
    var st := states[n].streams[k];
    LogsGrow(states, steps, i + 1, n, st.log);
    assert StreamOk(states[n].logs[st.log], st);
    if st.pc == Waiting || st.pc == Ended(ByTerminal) {
      var log := states[n].logs[st.log].events;
      assert st.sent == log[..st.cursor];
      assert JobEvents(states[i], job) == log[..st.base];
    }
  }

  lemma AttachedStream(s: State, job: string)
    requires Inv(s) && job != ""
    ensures var s' := Apply(s, Attach(job));
      var st := s'.streams[|s.streams|];
      && st.job == job && st.log < |s'.logs| && s'.logs[st.log].events == JobEvents(s, job) && st.base == |JobEvents(s, job)|
  {
    hide StreamOk, HasDone;
  }

  // ---------- the log object ----------

  /** jobProgressLog, one method per critical section. */
  class JobProgressLog {
    var events: seq<Event>
    var done: bool

    ghost function Value(): Log
      reads this
    {
      Log(events, done)
    }

    constructor ()
      ensures Value() == Log([], false)
    {
      events, done := [], false;
    }

    method AppendEvent(evt: Event)
      modifies this
      ensures Value() == old(Value()).Append(evt)
    {
      events := events + [evt];
    }

    method FinishEvent(evt: Event)
      modifies this
      ensures Value() == old(Value()).Finish(evt)
    {
      var marked := evt.(Done := true);
      events := events + [marked];
      done := true;
    }

    /** The streamer's section: whether it must wait, else its batch, new cursor and terminal flag. */
    method Snapshot(cursor: nat, cancelled: bool) returns (wait: bool, batch: seq<Event>, cursor': nat, terminal: bool)
      requires cursor <= |events|
      ensures forall st: Streamer :: st.cursor == cursor && st.cancelled == cancelled ==>
        Checked(Value(), st) == if wait then st.(pc := Waiting)
                                else st.(batch := batch, cursor := cursor', terminal := terminal, pc := Snapped)
    {
      if cursor >= |events| && !done && !cancelled {
        return true, [], cursor, false;
      }
      wait, batch, cursor', terminal := false, events[cursor..], |events|, done;
    }
  }

  /** The handlers' map of logs, jobs to log objects. */
  class Handlers {
    var jobEvents: map<string, JobProgressLog>

    ghost predicate Valid()
      reads this
    {
      forall i, j :: i in jobEvents && j in jobEvents && jobEvents[i] == jobEvents[j] ==> i == j
    }

    /** The logs as values. */
    ghost function Logs(): map<string, Log>
      reads this, jobEvents.Values
    {
      map j | j in jobEvents :: jobEvents[j].Value()
    }

    constructor ()
      ensures Valid() && Logs() == map[]
    {
      jobEvents := map[];
    }

    method GetOrCreateEventLog(jobID: string) returns (log: JobProgressLog)
      requires Valid()
      modifies this
      ensures Valid() && jobID in jobEvents && jobEvents[jobID] == log
      ensures jobID in old(jobEvents) ==> jobEvents == old(jobEvents)
      ensures jobID !in old(jobEvents) ==>
        fresh(log) && log.Value() == Log([], false) && jobEvents == old(jobEvents)[jobID := log]
    {
      if jobID in jobEvents {
        return jobEvents[jobID];
      }
      log := new JobProgressLog();
      jobEvents := jobEvents[jobID := log];
    }

    method ClearEventLog(jobID: string)
      requires Valid()
      modifies this
      ensures Valid() && jobEvents == if jobID == "" then old(jobEvents) else old(jobEvents) - {jobID}
    {
      if jobID != "" {
        jobEvents := jobEvents - {jobID};
      }
    }

    /** The event goes to the end of its job's log, a new one if there was none; the other jobs'
        logs are as they were. */
    method AppendEvent(jobID: string, evt: Event)
      requires Valid()
      modifies this, jobEvents.Values
      ensures Valid()
      ensures jobID == "" ==> Logs() == old(Logs())
      ensures jobID != "" ==> Logs() == old(Logs())[jobID := old(Present(jobID)).Append(evt)]
    {
      if jobID == "" {
        return;
      }
      var log := GetOrCreateEventLog(jobID);
      log.AppendEvent(evt);
    }

    method FinishEvent(jobID: string, evt: Event)
      requires Valid()
      modifies this, jobEvents.Values
      ensures Valid()
      ensures jobID == "" ==> Logs() == old(Logs())
      ensures jobID != "" ==> Logs() == old(Logs())[jobID := old(Present(jobID)).Finish(evt)]
    {
      if jobID == "" {
        return;
      }
      var log := GetOrCreateEventLog(jobID);
      log.FinishEvent(evt);
    }

    ghost function Present(jobID: string): Log
      reads this, jobEvents.Values
    {
      if jobID in jobEvents then jobEvents[jobID].Value() else Log([], false)
    }
  }
}
