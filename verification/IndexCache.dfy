/** The per-project index cache of internal/api/vector_indexes.go: lookups, single-flight
    builds, Set and Invalidate as interleaved steps over the cache, the flight table and the
    versions of the stores. */
module IndexCache {
  import opened Collections

  /** An index shows the store as of one version; madeBy is the flight whose build made it. */
  datatype Index = Index(version: nat, madeBy: Option<nat>)

  /** A ForProject call: before its lookup, after a miss, on a flight, returned. */
  datatype CallerPC = Start | Missed | OnFlight(flight: nat) | Returned(result: Option<Index>)
  datatype Caller = Caller(slug: string, pc: CallerPC)

  /** A flight: before its re-check, building, store read, result known, over. */
  datatype FlightPC = Begun | Building | Read(version: nat) | Closing(result: Option<Index>) | Over(result: Option<Index>)
  datatype Flight = Flight(slug: string, pc: FlightPC)

  /** flightOf is the single-flight table; versions counts the writes to each store. */
  datatype State = State(indexes: map<string, Index>, flightOf: map<string, nat>, flights: seq<Flight>,
                         callers: seq<Caller>, versions: map<string, nat>)

  const INITIAL := State(map[], map[], [], [], map[])

  function Version(s: State, slug: string): nat {
    if slug in s.versions then s.versions[slug] else 0
  }

  datatype Step =
    | Call(slug: string)
    | Lookup(c: nat)
    | EnterDo(c: nat)
    | Recheck(f: nat)
    | ReadStore(f: nat)
    | WriteBack(f: nat)
    | FailBuild(f: nat)
    | Close(f: nat)
    | Return(c: nat)
    | Set(slug: string, version: nat)
    | Invalidate(slug: string)
    | WriteStore(slug: string)

  predicate Enabled(s: State, step: Step) {
    match step
    case Call(_) => true
    case Lookup(c) => c < |s.callers| && s.callers[c].pc == Start
    case EnterDo(c) => c < |s.callers| && s.callers[c].pc == Missed
    case Recheck(f) => f < |s.flights| && s.flights[f].pc == Begun
    case ReadStore(f) => f < |s.flights| && s.flights[f].pc == Building
    case WriteBack(f) => f < |s.flights| && s.flights[f].pc.Read?
    case FailBuild(f) => f < |s.flights| && (s.flights[f].pc == Building || s.flights[f].pc.Read?)
    case Close(f) => f < |s.flights| && s.flights[f].pc.Closing?
    case Return(c) => c < |s.callers| && s.callers[c].pc.OnFlight? && s.callers[c].pc.flight < |s.flights|
                      && s.flights[s.callers[c].pc.flight].pc.Over?
    case Set(_, _) => true
    case Invalidate(_) => true
    case WriteStore(_) => true
  }

  function WithCaller(s: State, c: nat, pc: CallerPC): State
    requires c < |s.callers|
  {
    s.(callers := s.callers[c := s.callers[c].(pc := pc)])
  }

  function WithFlight(s: State, f: nat, pc: FlightPC): State
    requires f < |s.flights|
  {
    s.(flights := s.flights[f := s.flights[f].(pc := pc)])
  }

  function Apply(s: State, step: Step): State
    requires Enabled(s, step)
  {
    match step
    case Call(slug) => s.(callers := s.callers + [Caller(slug, Start)])
    case Lookup(c) =>
      var slug := s.callers[c].slug;
      WithCaller(s, c, if slug in s.indexes then Returned(Some(s.indexes[slug])) else Missed)
    case EnterDo(c) =>
      var slug := s.callers[c].slug;
      if slug in s.flightOf then WithCaller(s, c, OnFlight(s.flightOf[slug]))
      else
        WithCaller(s, c, OnFlight(|s.flights|)).(flights := s.flights + [Flight(slug, Begun)],
                                                  flightOf := s.flightOf[slug := |s.flights|])
    case Recheck(f) =>
      var slug := s.flights[f].slug;
      WithFlight(s, f, if slug in s.indexes then Closing(Some(s.indexes[slug])) else Building)
    case ReadStore(f) => WithFlight(s, f, Read(Version(s, s.flights[f].slug)))
    case WriteBack(f) =>
      var idx := Index(s.flights[f].pc.version, Some(f));
      WithFlight(s, f, Closing(Some(idx))).(indexes := s.indexes[s.flights[f].slug := idx])
    case FailBuild(f) => WithFlight(s, f, Closing(None))
    case Close(f) =>
      var slug := s.flights[f].slug;
      WithFlight(s, f, Over(s.flights[f].pc.result)).(
        flightOf := if slug in s.flightOf && s.flightOf[slug] == f then s.flightOf - {slug} else s.flightOf)
    case Return(c) => WithCaller(s, c, Returned(s.flights[s.callers[c].pc.flight].pc.result))
    case Set(slug, version) => s.(indexes := s.indexes[slug := Index(version, None)])
    case Invalidate(slug) => s.(indexes := s.indexes - {slug}, flightOf := s.flightOf - {slug})
    case WriteStore(slug) => s.(versions := s.versions[slug := Version(s, slug) + 1])
  }

  ghost predicate Path(states: seq<State>, steps: seq<Step>) {
    && |states| == |steps| + 1
    && forall i :: 0 <= i < |steps| ==> Enabled(states[i], steps[i]) && states[i + 1] == Apply(states[i], steps[i])
  }

  ghost predicate Run(states: seq<State>, steps: seq<Step>) {
    Path(states, steps) && states[0] == INITIAL
  }

  // ---------- one build per slug ----------

  /** The flight went past its re-check: its build function ran. */
  predicate Built(fl: Flight, f: nat) {
    || fl.pc == Building || fl.pc.Read?
    || ((fl.pc.Closing? || fl.pc.Over?) && fl.pc.result.Some? && fl.pc.result.value.madeBy == Some(f))
    || ((fl.pc.Closing? || fl.pc.Over?) && fl.pc.result.None?)
  }

  predicate Quiet(step: Step) {
    !step.Invalidate? && !step.Set? && !step.FailBuild?
  }

  /** Without Invalidate, Set and failures: an unfinished flight is the one in the table, a
      finished one carries the cached index, and so does every answer. */
  ghost predicate OneBuild(s: State) {
    && (forall slug :: slug in s.flightOf ==> s.flightOf[slug] < |s.flights| && s.flights[s.flightOf[slug]].slug == slug)
    && (forall f: nat :: f < |s.flights| ==> FlightOk(s, f))
    && (forall c: nat :: c < |s.callers| ==> CallerOk(s, c))
    && (forall slug :: slug in s.indexes ==> IndexOk(s, slug))
  }

  ghost predicate FlightOk(s: State, f: nat)
    requires f < |s.flights|
  {
    var fl := s.flights[f];
    && (!fl.pc.Over? ==> fl.slug in s.flightOf && s.flightOf[fl.slug] == f)
    && (fl.pc == Building || fl.pc.Read? ==> fl.slug !in s.indexes)
    && (fl.pc.Closing? || fl.pc.Over? ==> fl.slug in s.indexes && fl.pc.result == Some(s.indexes[fl.slug]))
  }

  ghost predicate CallerOk(s: State, c: nat)
    requires c < |s.callers|
  {
    var cl := s.callers[c];
    && (cl.pc.OnFlight? ==> cl.pc.flight < |s.flights| && s.flights[cl.pc.flight].slug == cl.slug)
    && (cl.pc.Returned? ==> cl.slug in s.indexes && cl.pc.result == Some(s.indexes[cl.slug]))
  }

  ghost predicate IndexOk(s: State, slug: string)
    requires slug in s.indexes
  {
    var maker := s.indexes[slug].madeBy;
    maker.Some? && maker.value < |s.flights| && s.flights[maker.value].slug == slug
    && Built(s.flights[maker.value], maker.value)
  }

  /** The step concerns one ForProject call, one flight, or neither. */
  predicate CallerStep(step: Step) { step.Call? || step.Lookup? || step.EnterDo? || step.Return? }
  predicate FlightStep(step: Step) { step.Recheck? || step.ReadStore? || step.WriteBack? || step.FailBuild? || step.Close? }

  lemma CallerStepKeepsOneBuild(s: State, step: Step)
    requires OneBuild(s) && Enabled(s, step) && CallerStep(step)
    ensures OneBuild(Apply(s, step))
  {
    var s' := Apply(s, step);
    forall f: nat | f < |s'.flights| ensures FlightOk(s', f) {
      if f < |s.flights| {
        assert FlightOk(s, f);
      }
    }
    forall c: nat | c < |s'.callers| ensures CallerOk(s', c) {
      if c < |s.callers| {
        assert CallerOk(s, c);
      }
      if step.Return? {
        assert FlightOk(s, s.callers[step.c].pc.flight);
      }
    }
    forall slug | slug in s'.indexes ensures IndexOk(s', slug) {
      assert IndexOk(s, slug);
    }
  }

  lemma FlightStepKeepsOneBuild(s: State, step: Step)
    requires OneBuild(s) && Enabled(s, step) && FlightStep(step) && Quiet(step)
    ensures OneBuild(Apply(s, step))
  {
    var s', fl := Apply(s, step), s.flights[step.f];
    assert FlightOk(s, step.f);
    forall f: nat | f < |s'.flights| ensures FlightOk(s', f) {
      assert FlightOk(s, f);
    }
    forall c: nat | c < |s'.callers| ensures CallerOk(s', c) {
      assert CallerOk(s, c);
    }
    forall slug | slug in s'.indexes ensures IndexOk(s', slug) {
      assert slug in s.indexes ==> IndexOk(s, slug);
    }
  }

  lemma QuietKeepsOneBuild(s: State, step: Step)
    requires OneBuild(s) && Enabled(s, step) && Quiet(step)
    ensures OneBuild(Apply(s, step))
  {
    if CallerStep(step) {
      CallerStepKeepsOneBuild(s, step);
    } else if FlightStep(step) {
      FlightStepKeepsOneBuild(s, step);
    } else {
      var s' := Apply(s, step);
      assert s' == s.(versions := s'.versions);
      forall f: nat | f < |s'.flights| ensures FlightOk(s', f) { assert FlightOk(s, f); }
      forall c: nat | c < |s'.callers| ensures CallerOk(s', c) { assert CallerOk(s, c); }
      forall slug | slug in s'.indexes ensures IndexOk(s', slug) { assert IndexOk(s, slug); }
    }
  }

  lemma {:induction false} QuietRunOneBuild(states: seq<State>, steps: seq<Step>, n: nat)
    requires Run(states, steps) && n <= |steps| && forall i :: 0 <= i < |steps| ==> Quiet(steps[i])
    ensures OneBuild(states[n])
  {
    if n > 0 {
      QuietRunOneBuild(states, steps, n - 1);
      QuietKeepsOneBuild(states[n - 1], steps[n - 1]);
    }
  }

  /** Over any interleaving of ForProject calls, a slug is built at most once. */
  lemma BuiltAtMostOnce(states: seq<State>, steps: seq<Step>, n: nat, f: nat, g: nat)
    requires Run(states, steps) && n <= |steps| && forall i :: 0 <= i < |steps| ==> Quiet(steps[i])
    requires f < |states[n].flights| && g < |states[n].flights| && states[n].flights[f].slug == states[n].flights[g].slug
    requires Built(states[n].flights[f], f) && Built(states[n].flights[g], g)
    ensures f == g
  {
    QuietRunOneBuild(states, steps, n);
    assert FlightOk(states[n], f) && FlightOk(states[n], g);
  }

  /** Whoever got an answer got the one index its slug's single build made. */
  lemma AnswersComeFromTheBuild(states: seq<State>, steps: seq<Step>, n: nat, c: nat)
    requires Run(states, steps) && n <= |steps| && forall i :: 0 <= i < |steps| ==> Quiet(steps[i])
    requires c < |states[n].callers| && states[n].callers[c].pc.Returned?
    ensures var slug := states[n].callers[c].slug;
      && slug in states[n].indexes && states[n].callers[c].pc.result == Some(states[n].indexes[slug])
      && exists f: nat :: f < |states[n].flights| && states[n].flights[f].slug == slug && Built(states[n].flights[f], f)
  {
    QuietRunOneBuild(states, steps, n);
    var s := states[n];
    assert CallerOk(s, c);
    assert IndexOk(s, s.callers[c].slug);
  }

  // ---------- freshness after Invalidate ----------

  /** A flight of the slug that has read the store before its last write and is yet to write
      back or fail. */
  ghost predicate StaleRead(s0: State, slug: string, f: nat) {
    && f < |s0.flights| && s0.flights[f].slug == slug && s0.flights[f].pc.Read?
    && s0.flights[f].pc.version < Version(s0, slug)
  }

  /** The index shows the store at s0 or later, or was made by a build that was stale at s0. */
  ghost predicate FreshOr(s0: State, slug: string, idx: Index) {
    idx.version >= Version(s0, slug) || (idx.madeBy.Some? && StaleRead(s0, slug, idx.madeBy.value))
  }

  /** Calls made after s0, and calls that at s0 have not looked up or not joined a flight yet. */
  predicate Open(s0: State, c: nat) {
    c >= |s0.callers| || s0.callers[c].pc == Start || s0.callers[c].pc == Missed
  }

  ghost predicate FreshFlight(s0: State, s: State, slug: string, f: nat)
    requires f < |s.flights|
  {
    var fl := s.flights[f];
    fl.slug == slug ==>
      && (fl.pc.Read? ==> fl.pc.version >= Version(s0, slug) || StaleRead(s0, slug, f))
      && (f >= |s0.flights| && (fl.pc.Closing? || fl.pc.Over?) && fl.pc.result.Some? ==> FreshOr(s0, slug, fl.pc.result.value))
  }

  ghost predicate FreshCaller(s0: State, s: State, slug: string, c: nat)
    requires c < |s.callers|
  {
    var cl := s.callers[c];
    cl.slug == slug && Open(s0, c) ==>
      && (cl.pc.OnFlight? ==> |s0.flights| <= cl.pc.flight < |s.flights| && s.flights[cl.pc.flight].slug == slug)
      && (cl.pc.Returned? && cl.pc.result.Some? ==> FreshOr(s0, slug, cl.pc.result.value))
  }

  /** s is some moment after slug was invalidated in s0. */
  ghost predicate Since(s0: State, s: State, slug: string) {
    && |s0.flights| <= |s.flights| && |s0.callers| <= |s.callers|
    && Version(s, slug) >= Version(s0, slug)
    && (slug in s.indexes ==> FreshOr(s0, slug, s.indexes[slug]))
    && (slug in s.flightOf ==> |s0.flights| <= s.flightOf[slug] < |s.flights| && s.flights[s.flightOf[slug]].slug == slug)
    && (forall f: nat :: f < |s.flights| ==> FreshFlight(s0, s, slug, f))
    && (forall f: nat :: f < |s0.flights| ==> s.flights[f].slug == s0.flights[f].slug)
    && (forall c: nat :: c < |s.callers| ==> FreshCaller(s0, s, slug, c))
  }

  lemma InvalidateStartsSince(s0: State, slug: string)
    ensures Since(s0, Apply(s0, Invalidate(slug)), slug)
  {
  }

  lemma CallerStepKeepsSince(s0: State, s: State, slug: string, step: Step)
    requires Since(s0, s, slug) && Enabled(s, step) && CallerStep(step)
    ensures Since(s0, Apply(s, step), slug)
  {
    var s' := Apply(s, step);
    hide FreshOr, StaleRead;
    forall f: nat | f < |s'.flights| ensures FreshFlight(s0, s', slug, f) {
      if f < |s.flights| {
        assert FreshFlight(s0, s, slug, f);
      }
    }
    forall c: nat | c < |s'.callers| ensures FreshCaller(s0, s', slug, c) {
      if c < |s.callers| {
        assert FreshCaller(s0, s, slug, c);
        if step.Return? && c == step.c {
          assert FreshFlight(s0, s, slug, s.callers[c].pc.flight);
        }
      }
    }
  }

  lemma FlightStepKeepsSince(s0: State, s: State, slug: string, step: Step)
    requires Since(s0, s, slug) && Enabled(s, step) && FlightStep(step)
    ensures Since(s0, Apply(s, step), slug)
  {
    var s' := Apply(s, step);
    assert FreshFlight(s0, s, slug, step.f);
    forall f: nat | f < |s'.flights| ensures FreshFlight(s0, s', slug, f) {
      assert FreshFlight(s0, s, slug, f);
    }
    forall c: nat | c < |s'.callers| ensures FreshCaller(s0, s', slug, c) {
      assert FreshCaller(s0, s, slug, c);
    }
  }

  lemma StepKeepsSince(s0: State, s: State, slug: string, step: Step)
    requires Since(s0, s, slug) && Enabled(s, step) && !(step.Set? && step.slug == slug)
    ensures Since(s0, Apply(s, step), slug)
  {
    if CallerStep(step) {
      CallerStepKeepsSince(s0, s, slug, step);
    } else if FlightStep(step) {
      FlightStepKeepsSince(s0, s, slug, step);
    } else {
      var s' := Apply(s, step);
      assert s' == s.(versions := s'.versions, indexes := s'.indexes, flightOf := s'.flightOf);
      forall f: nat | f < |s'.flights| ensures FreshFlight(s0, s', slug, f) { assert FreshFlight(s0, s, slug, f); }
      forall c: nat | c < |s'.callers| ensures FreshCaller(s0, s', slug, c) { assert FreshCaller(s0, s, slug, c); }
    }
  }

  lemma {:induction false} RunSince(states: seq<State>, steps: seq<Step>, i: nat, n: nat, slug: string)
    requires Path(states, steps) && i < n <= |steps| && steps[i] == Invalidate(slug)
    requires forall j :: i < j < n ==> !(steps[j].Set? && steps[j].slug == slug)
    ensures Since(states[i], states[n], slug)
  {
    if n == i + 1 {
      InvalidateStartsSince(states[i], slug);
    } else {
      RunSince(states, steps, i, n - 1, slug);
      StepKeepsSince(states[i], states[n - 1], slug, steps[n - 1]);
    }
  }

  /** Call c was open at s0 and has returned an index of the slug by s. */
  ghost predicate Answers(s0: State, s: State, slug: string, c: nat) {
    && c < |s.callers| && s.callers[c].slug == slug && Open(s0, c)
    && s.callers[c].pc.Returned? && s.callers[c].pc.result.Some?
  }

  /** The only way an index older than the Invalidate gets cached, or is returned to a call
      that was open then, is the write-back of a build that had read an older store. */
  lemma StaleOnlyFromEarlierRead(states: seq<State>, steps: seq<Step>, i: nat, n: nat, slug: string)
    requires Path(states, steps) && i < n <= |steps| && steps[i] == Invalidate(slug)
    requires forall j :: i < j < n ==> !(steps[j].Set? && steps[j].slug == slug)
    ensures slug in states[n].indexes && states[n].indexes[slug].version < Version(states[i], slug) ==>
      states[n].indexes[slug].madeBy.Some? && StaleRead(states[i], slug, states[n].indexes[slug].madeBy.value)
    ensures forall c: nat :: Answers(states[i], states[n], slug, c) ==>
      FreshOr(states[i], slug, states[n].callers[c].pc.result.value)
  {
    RunSince(states, steps, i, n, slug);
    forall c: nat | Answers(states[i], states[n], slug, c)
      ensures FreshOr(states[i], slug, states[n].callers[c].pc.result.value)
    {
      assert FreshCaller(states[i], states[n], slug, c);
    }
  }

  /** s follows s0 by an Invalidate of the slug and then any steps but a Set of it. */
  ghost predicate Follows(s0: State, slug: string, states: seq<State>, steps: seq<Step>) {
    && Path(states, steps) && states[0] == s0
    && |steps| > 0 && steps[0] == Invalidate(slug)
    && forall j :: 0 < j < |steps| ==> !(steps[j].Set? && steps[j].slug == slug)
  }

  /** Whatever follows the Invalidate, no open call returns an index older than it. */
  ghost predicate AlwaysFresh(s0: State, slug: string) {
    forall states: seq<State>, steps: seq<Step>, c: nat :: Follows(s0, slug, states, steps) && Answers(s0, states[|steps|], slug, c) ==>
      states[|steps|].callers[c].pc.result.value.version >= Version(s0, slug)
  }

  /** An Invalidate makes every open call fresh exactly when no build of the slug that has read
      an older store is yet to write back. */
  lemma FreshAfterInvalidateIff(s0: State, slug: string)
    ensures AlwaysFresh(s0, slug) <==> forall f: nat :: !StaleRead(s0, slug, f)
  {
    if f: nat :| StaleRead(s0, slug, f) {
      var states, steps := WriteBackIsServed(s0, slug, f);
      assert Answers(s0, states[|steps|], slug, |s0.callers|);
    } else {
      forall states: seq<State>, steps: seq<Step>, c: nat | Follows(s0, slug, states, steps) && Answers(s0, states[|steps|], slug, c)
        ensures states[|steps|].callers[c].pc.result.value.version >= Version(s0, slug)
      {
        StaleOnlyFromEarlierRead(states, steps, 0, |steps|, slug);
        assert FreshOr(s0, slug, states[|steps|].callers[c].pc.result.value);
      }
    }
  }

  /** From any state with such a build: it writes back, and the next call is served the old index. */
  lemma WriteBackIsServed(s0: State, slug: string, f: nat) returns (states: seq<State>, steps: seq<Step>)
    requires StaleRead(s0, slug, f)
    ensures Follows(s0, slug, states, steps) && Answers(s0, states[|steps|], slug, |s0.callers|)
    ensures states[|steps|].callers[|s0.callers|].pc.result.value.version < Version(s0, slug)
  {
    var c := |s0.callers|;
    steps := [Invalidate(slug), WriteBack(f), Call(slug), Lookup(c)];
    var s1 := Apply(s0, steps[0]);
    var s2 := Apply(s1, steps[1]);
    var s3 := Apply(s2, steps[2]);
    assert s3.callers[c] == Caller(slug, Start);
    states := [s0, s1, s2, s3, Apply(s3, steps[3])];
  }

  // ---------- Set, and the flight table ----------

  /** The step puts or drops the cached index of the slug. */
  predicate Touches(s: State, step: Step, slug: string) {
    match step
    case Set(other, _) => other == slug
    case Invalidate(other) => other == slug
    case WriteBack(f) => f < |s.flights| && s.flights[f].slug == slug
    case _ => false
  }

  /** The slug has this index cached, and calls from the c-th on have not looked yet or got it. */
  ghost predicate Served(s: State, slug: string, idx: Index, c: nat) {
    && slug in s.indexes && s.indexes[slug] == idx
    && forall x :: c <= x < |s.callers| && s.callers[x].slug == slug ==>
         s.callers[x].pc == Start || s.callers[x].pc == Returned(Some(idx))
  }

  /** Until the slug's entry is touched again, every call made after a Set gets the index set. */
  lemma {:induction false} SetIsServed(states: seq<State>, steps: seq<Step>, i: nat, n: nat, slug: string, version: nat)
    requires Path(states, steps) && i < n <= |steps| && steps[i] == Set(slug, version)
    requires forall j :: i < j < n ==> !Touches(states[j], steps[j], slug)
    ensures Served(states[n], slug, Index(version, None), |states[i].callers|)
  {
    if i + 1 < n {
      SetIsServed(states, steps, i, n - 1, slug, version);
      StepKeepsServed(states[n - 1], steps[n - 1], slug, Index(version, None), |states[i].callers|);
    }
  }

  lemma StepKeepsServed(s: State, step: Step, slug: string, idx: Index, c: nat)
    requires Enabled(s, step) && Served(s, slug, idx, c) && !Touches(s, step, slug)
    ensures Served(Apply(s, step), slug, idx, c)
  {
  }

  /** A listed flight is one of its slug that is not over. */
  ghost predicate TableOk(s: State) {
    forall slug :: slug in s.flightOf ==>
      && s.flightOf[slug] < |s.flights| && s.flights[s.flightOf[slug]].slug == slug
      && !s.flights[s.flightOf[slug]].pc.Over?
  }

  lemma {:induction false} RunTableOk(states: seq<State>, steps: seq<Step>, n: nat)
    requires Run(states, steps) && n <= |steps|
    ensures TableOk(states[n])
  {
    if n > 0 {
      RunTableOk(states, steps, n - 1);
      StepKeepsTable(states[n - 1], steps[n - 1]);
    }
  }

  lemma StepKeepsTable(s: State, step: Step)
    requires TableOk(s) && Enabled(s, step)
    ensures TableOk(Apply(s, step))
  {
  }

  /** No call joins a flight that is over: after a failed build the next call starts another. */
  lemma NobodyJoinsFinished(states: seq<State>, steps: seq<Step>, n: nat, c: nat)
    requires Run(states, steps) && n < |steps| && steps[n] == EnterDo(c)
    ensures var cl := states[n + 1].callers[c];
      && cl.pc.OnFlight? && cl.pc.flight < |states[n + 1].flights|
      && states[n + 1].flights[cl.pc.flight].slug == cl.slug && !states[n + 1].flights[cl.pc.flight].pc.Over?
  {
    RunTableOk(states, steps, n);
  }

  /** The calls that were open with flight f listed for their slug, or came later, are on f if
      they are on any. */
  ghost predicate Joined(s0: State, s: State, slug: string, f: nat) {
    && slug in s.flightOf && s.flightOf[slug] == f && |s0.callers| <= |s.callers|
    && forall c: nat :: c < |s.callers| && s.callers[c].slug == slug && Open(s0, c) && s.callers[c].pc.OnFlight? ==>
         s.callers[c].pc.flight == f
  }

  /** Until it closes or the slug is invalidated, every call of a slug joins the one flight. */
  lemma {:induction false} CallsShareFlight(states: seq<State>, steps: seq<Step>, i: nat, n: nat, slug: string, f: nat)
    requires Path(states, steps) && i <= n <= |steps| && slug in states[i].flightOf && states[i].flightOf[slug] == f
    requires forall j :: i <= j < n ==> steps[j] != Close(f) && steps[j] != Invalidate(slug)
    ensures Joined(states[i], states[n], slug, f)
  {
    if i < n {
      CallsShareFlight(states, steps, i, n - 1, slug, f);
      StepKeepsJoined(states[i], states[n - 1], steps[n - 1], slug, f);
    }
  }

  lemma StepKeepsJoined(s0: State, s: State, step: Step, slug: string, f: nat)
    requires Enabled(s, step) && Joined(s0, s, slug, f) && step != Close(f) && step != Invalidate(slug)
    ensures Joined(s0, Apply(s, step), slug, f)
  {
  }

  // ---------- what answers are, over every run ----------

  /** An index not put there by Set is the result of the build that made it, and shows a version
      the slug's store has had. */
  ghost predicate Real(s: State, slug: string, idx: Index) {
    idx.madeBy.Some? ==>
      var f := idx.madeBy.value;
      && f < |s.flights| && s.flights[f].slug == slug && idx.version <= Version(s, slug)
      && (s.flights[f].pc == Closing(Some(idx)) || s.flights[f].pc == Over(Some(idx)))
  }

  ghost predicate Failed(s: State, slug: string, f: nat) {
    f < |s.flights| && s.flights[f].slug == slug && s.flights[f].pc == Over(None)
  }

  ghost predicate RealFlight(s: State, f: nat)
    requires f < |s.flights|
  {
    var fl := s.flights[f];
    && (fl.pc.Read? ==> fl.pc.version <= Version(s, fl.slug))
    && ((fl.pc.Closing? || fl.pc.Over?) && fl.pc.result.Some? ==> Real(s, fl.slug, fl.pc.result.value))
  }

  ghost predicate RealCaller(s: State, c: nat)
    requires c < |s.callers|
  {
    var cl := s.callers[c];
    && (cl.pc.OnFlight? ==> cl.pc.flight < |s.flights| && s.flights[cl.pc.flight].slug == cl.slug)
    && (cl.pc.Returned? && cl.pc.result.Some? ==> Real(s, cl.slug, cl.pc.result.value))
    && (cl.pc.Returned? && cl.pc.result.None? ==> exists f: nat :: Failed(s, cl.slug, f))
  }

  ghost predicate AllReal(s: State) {
    && (forall slug :: slug in s.flightOf ==> s.flightOf[slug] < |s.flights| && s.flights[s.flightOf[slug]].slug == slug)
    && (forall slug :: slug in s.indexes ==> Real(s, slug, s.indexes[slug]))
    && (forall f: nat :: f < |s.flights| ==> RealFlight(s, f))
    && (forall c: nat :: c < |s.callers| ==> RealCaller(s, c))
  }

  /** Nothing that is there goes away or turns into something else. */
  ghost predicate Extends(s: State, s': State) {
    && |s.flights| <= |s'.flights|
    && (forall slug :: Version(s, slug) <= Version(s', slug))
    && forall f :: 0 <= f < |s.flights| ==>
         && s'.flights[f].slug == s.flights[f].slug
         && (s.flights[f].pc.Closing? ==> s'.flights[f].pc == s.flights[f].pc || s'.flights[f].pc == Over(s.flights[f].pc.result))
         && (s.flights[f].pc.Over? ==> s'.flights[f].pc == s.flights[f].pc)
  }

  lemma StepExtends(s: State, step: Step)
    requires Enabled(s, step)
    ensures Extends(s, Apply(s, step))
  {
  }

  lemma RealStays(s: State, s': State, slug: string, idx: Index)
    requires Extends(s, s') && Real(s, slug, idx)
    ensures Real(s', slug, idx)
  {
    assert Version(s, slug) <= Version(s', slug);
  }

  lemma FailedStays(s: State, s': State, slug: string, f: nat)
    requires Extends(s, s') && Failed(s, slug, f)
    ensures Failed(s', slug, f)
  {
  }

  lemma StepKeepsRealFlights(s: State, step: Step, f: nat)
    requires AllReal(s) && Enabled(s, step) && f < |Apply(s, step).flights|
    ensures RealFlight(Apply(s, step), f)
  {
    var s' := Apply(s, step);
    StepExtends(s, step);
    if f < |s.flights| {
      assert RealFlight(s, f);
      var slug, pc := s.flights[f].slug, s.flights[f].pc;
      if (pc.Closing? || pc.Over?) && pc.result.Some? {
        RealStays(s, s', slug, pc.result.value);
      }
      if slug in s.indexes {
        RealStays(s, s', slug, s.indexes[slug]);
      }
      assert Version(s, slug) <= Version(s', slug);
    }
    hide Extends;
  }

  lemma StepKeepsRealCallers(s: State, step: Step, c: nat)
    requires AllReal(s) && Enabled(s, step) && c < |Apply(s, step).callers|
    ensures RealCaller(Apply(s, step), c)
  {
    var s' := Apply(s, step);
    StepExtends(s, step);
    if c < |s.callers| {
      assert RealCaller(s, c);
      var slug, pc := s.callers[c].slug, s.callers[c].pc;
      if pc.Returned? && pc.result.Some? {
        RealStays(s, s', slug, pc.result.value);
      }
      if pc.Returned? && pc.result.None? {
        var f: nat :| Failed(s, slug, f);
        FailedStays(s, s', slug, f);
      }
      if slug in s.indexes {
        RealStays(s, s', slug, s.indexes[slug]);
      }
      if step == Return(c) {
        assert RealFlight(s, pc.flight);
        if s.flights[pc.flight].pc.result.None? {
          assert Failed(s', slug, pc.flight);
        } else {
          RealStays(s, s', slug, s.flights[pc.flight].pc.result.value);
        }
      }
    }
    hide Extends, Real;
  }

  lemma StepKeepsRealIndexes(s: State, step: Step, slug: string)
    requires AllReal(s) && Enabled(s, step) && slug in Apply(s, step).indexes
    ensures Real(Apply(s, step), slug, Apply(s, step).indexes[slug])
  {
    StepExtends(s, step);
    if slug in s.indexes {
      RealStays(s, Apply(s, step), slug, s.indexes[slug]);
    }
    if step.WriteBack? {
      assert RealFlight(s, step.f);
    }
  }

  /** Over every run with failures, Sets and Invalidates: an answer was set, or is the result of
      the build of a flight of its slug; nil is only answered when such a flight failed. */
  lemma {:induction false} AnswersAreReal(states: seq<State>, steps: seq<Step>, n: nat)
    requires Run(states, steps) && n <= |steps|
    ensures AllReal(states[n])
  {
    if n > 0 {
      AnswersAreReal(states, steps, n - 1);
      var s, step, s' := states[n - 1], steps[n - 1], states[n];
      forall f: nat | f < |s'.flights| ensures RealFlight(s', f) { StepKeepsRealFlights(s, step, f); }
      forall c: nat | c < |s'.callers| ensures RealCaller(s', c) { StepKeepsRealCallers(s, step, c); }
      forall slug | slug in s'.indexes ensures Real(s', slug, s'.indexes[slug]) { StepKeepsRealIndexes(s, step, slug); }
    }
  }

  // ---------- every call ends ----------

  /** The most steps of its own and of its flight that a call has left. */
  function CallLeft(s: State, c: nat): nat
    requires c < |s.callers|
  {
    match s.callers[c].pc
    case Start => 7
    case Missed => 6
    case OnFlight(f) => if f < |s.flights| then 1 + FlightLeft(s.flights[f].pc) else 1
    case Returned(_) => 0
  }

  function FlightLeft(pc: FlightPC): nat {
    match pc
    case Begun => 4
    case Building => 3
    case Read(_) => 2
    case Closing(_) => 1
    case Over(_) => 0
  }

  /** A step that brings call c closer to its end. */
  ghost predicate Advances(s: State, step: Step, c: nat)
    requires c < |s.callers|
  {
    Enabled(s, step) && !step.FailBuild? && c < |Apply(s, step).callers| && CallLeft(Apply(s, step), c) < CallLeft(s, c)
  }

  /** Whatever the others do, an open call can go on, and nothing sets it back: it returns after
      at most seven steps of its own and its flight. */
  lemma CallNeverStuck(states: seq<State>, steps: seq<Step>, n: nat, c: nat)
    requires Run(states, steps) && n <= |steps| && c < |states[n].callers|
    ensures !states[n].callers[c].pc.Returned? ==> exists step :: Advances(states[n], step, c)
    ensures n < |steps| ==> c < |states[n + 1].callers| && CallLeft(states[n + 1], c) <= CallLeft(states[n], c)
  {
    RunTableOk(states, steps, n);
    AnswersAreReal(states, steps, n);
    assert RealCaller(states[n], c);
    NextOfCall(states[n], c);
    if n < |steps| {
      NeverSetBack(states[n], steps[n], c);
    }
  }

  lemma NextOfCall(s: State, c: nat)
    requires TableOk(s) && c < |s.callers| && (s.callers[c].pc.OnFlight? ==> s.callers[c].pc.flight < |s.flights|)
    ensures !s.callers[c].pc.Returned? ==> exists step :: Advances(s, step, c)
  {
    match s.callers[c].pc
    case Start => assert Advances(s, Lookup(c), c);
    case Missed => assert Advances(s, EnterDo(c), c);
    case Returned(_) =>
    case OnFlight(f) =>
      match s.flights[f].pc
      case Begun => assert Advances(s, Recheck(f), c);
      case Building => assert Advances(s, ReadStore(f), c);
      case Read(_) => assert Advances(s, WriteBack(f), c);
      case Closing(_) => assert Advances(s, Close(f), c);
      case Over(_) => assert Advances(s, Return(c), c);
  }

  lemma NeverSetBack(s: State, step: Step, c: nat)
    requires TableOk(s) && Enabled(s, step) && c < |s.callers|
    requires s.callers[c].pc.OnFlight? ==> s.callers[c].pc.flight < |s.flights|
    ensures c < |Apply(s, step).callers| && CallLeft(Apply(s, step), c) <= CallLeft(s, c)
  {
  }

  ghost predicate Leads(s: State, step: Step, s': State) {
    Enabled(s, step) && s' == Apply(s, step)
  }

  function OneCaller(slug: string, pc: CallerPC): State {
    State(map[], map[], [], [Caller(slug, pc)], map[])
  }

  function OneFlight(slug: string, pc: FlightPC, listed: bool, written: bool): State {
    State(map[], if listed then map[slug := 0] else map[], [Flight(slug, pc)], [Caller(slug, OnFlight(0))],
          if written then map[slug := 1] else map[])
  }

  function OldCached(slug: string, later: seq<Caller>): State {
    State(map[slug := Index(0, Some(0))], map[], [Flight(slug, Closing(Some(Index(0, Some(0)))))],
          [Caller(slug, OnFlight(0))] + later, map[slug := 1])
  }

  lemma TheBuildReads(slug: string)
    ensures Leads(INITIAL, Call(slug), OneCaller(slug, Start))
    ensures Leads(OneCaller(slug, Start), Lookup(0), OneCaller(slug, Missed))
    ensures Leads(OneCaller(slug, Missed), EnterDo(0), OneFlight(slug, Begun, true, false))
    ensures Leads(OneFlight(slug, Begun, true, false), Recheck(0), OneFlight(slug, Building, true, false))
    ensures Leads(OneFlight(slug, Building, true, false), ReadStore(0), OneFlight(slug, Read(0), true, false))
  {
  }

  lemma TheCacheIsInvalidated(slug: string)
    ensures Leads(OneFlight(slug, Read(0), true, false), WriteStore(slug), OneFlight(slug, Read(0), true, true))
    ensures Leads(OneFlight(slug, Read(0), true, true), Invalidate(slug), OneFlight(slug, Read(0), false, true))
    ensures Leads(OneFlight(slug, Read(0), false, true), WriteBack(0), OldCached(slug, []))
  {
    var before, after := OneFlight(slug, Read(0), true, true), OneFlight(slug, Read(0), false, true);
    assert Apply(before, Invalidate(slug)) == after;
    assert Apply(after, WriteBack(0)) == OldCached(slug, []);
  }

  lemma TheOldIndexIsServed(slug: string)
    ensures Leads(OldCached(slug, []), Call(slug), OldCached(slug, [Caller(slug, Start)]))
    ensures Leads(OldCached(slug, [Caller(slug, Start)]), Lookup(1),
                  OldCached(slug, [Caller(slug, Returned(Some(Index(0, Some(0)))))]))
  {
    var s := OldCached(slug, [Caller(slug, Start)]);
    assert s.callers[1] == Caller(slug, Start);
  }

  /** The condition is needed: a build reads the store, the store is written and the cache
      invalidated, the build writes back, and a call made afterwards gets the old index. */
  lemma StaleWriteBack(slug: string) returns (states: seq<State>, steps: seq<Step>)
    ensures Run(states, steps) && |steps| == 10 && steps[6] == Invalidate(slug)
    ensures Version(states[6], slug) == 1 && |states[6].callers| == 1
    ensures StaleRead(states[6], slug, 0) && !AlwaysFresh(states[6], slug)
    ensures states[10].callers == [Caller(slug, OnFlight(0)), Caller(slug, Returned(Some(Index(0, Some(0)))))]
  {
    TheBuildReads(slug);
    TheCacheIsInvalidated(slug);
    TheOldIndexIsServed(slug);
    hide Apply, Enabled;
    steps := [Call(slug), Lookup(0), EnterDo(0), Recheck(0), ReadStore(0), WriteStore(slug), Invalidate(slug),
              WriteBack(0), Call(slug), Lookup(1)];
    states := [INITIAL, OneCaller(slug, Start), OneCaller(slug, Missed), OneFlight(slug, Begun, true, false),
               OneFlight(slug, Building, true, false), OneFlight(slug, Read(0), true, false),
               OneFlight(slug, Read(0), true, true), OneFlight(slug, Read(0), false, true), OldCached(slug, []),
               OldCached(slug, [Caller(slug, Start)]), OldCached(slug, [Caller(slug, Returned(Some(Index(0, Some(0)))))])];
    assert forall i :: 0 <= i < |steps| ==> Leads(states[i], steps[i], states[i + 1]);
    LeadsMakeRun(states, steps);
    FreshAfterInvalidateIff(states[6], slug);
  }

  lemma LeadsMakeRun(states: seq<State>, steps: seq<Step>)
    requires |states| == |steps| + 1 && states[0] == INITIAL
    requires forall i :: 0 <= i < |steps| ==> Leads(states[i], steps[i], states[i + 1])
    ensures Run(states, steps)
  {
    forall i | 0 <= i < |steps| ensures Enabled(states[i], steps[i]) && states[i + 1] == Apply(states[i], steps[i]) {
      assert Leads(states[i], steps[i], states[i + 1]);
    }
  }

  // ---------- the cache object ----------

  /** The fields VectorIndexes guards with its mutex, and the table singleflight guards with
      its own; one method per critical section. */
  class VectorIndexes {
    var indexes: map<string, Index>
    var flightOf: map<string, nat>

    ghost predicate Shows(s: State)
      reads this
    {
      s.indexes == indexes && s.flightOf == flightOf
    }

    constructor ()
      ensures Shows(INITIAL)
    {
      indexes, flightOf := map[], map[];
    }

    method Get(slug: string) returns (r: Option<Index>)
      ensures forall s: State, c: nat :: Shows(s) && c < |s.callers| && s.callers[c] == Caller(slug, Start) ==>
        Apply(s, Lookup(c)) == WithCaller(s, c, if r.Some? then Returned(r) else Missed)
    {
      r := if slug in indexes then Some(indexes[slug]) else None;
    }

    method Put(slug: string, version: nat)
      modifies this
      ensures forall s: State :: s.indexes == old(indexes) && s.flightOf == old(flightOf) ==>
        Apply(s, Set(slug, version)) == s.(indexes := indexes, flightOf := flightOf)
    {
      indexes := indexes[slug := Index(version, None)];
    }

    method Evict(slug: string)
      modifies this
      ensures forall s: State :: s.indexes == old(indexes) && s.flightOf == old(flightOf) ==>
        Apply(s, Invalidate(slug)) == s.(indexes := indexes, flightOf := flightOf)
    {
      indexes := indexes - {slug};
      flightOf := flightOf - {slug};
    }
  }
}
