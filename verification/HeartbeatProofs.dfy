/** What holds in every run of the heartbeat loop. */
module HeartbeatProofs {
  import opened ActiveHours
  import opened Heartbeat

  function RunningIds(jobs: seq<Job>): seq<nat> {
    if jobs == [] then []
    else RunningIds(jobs[..|jobs| - 1]) + RunningId(jobs[|jobs| - 1], |jobs| - 1)
  }

  function RunningId(job: Job, i: nat): seq<nat> {
    if job.running then [i] else []
  }

  function JobsOf(runs: seq<Run>): seq<nat> {
    seq(|runs|, i requires 0 <= i < |runs| => runs[i].job)
  }

  function RunsOf(cs: seq<Completion>): seq<Run> {
    seq(|cs|, i requires 0 <= i < |cs| => cs[i].run)
  }

  /** Runs that were dispatched and are not applied yet. */
  function Pending(s: State): seq<Run> {
    s.executing + RunsOf(s.buffered)
  }

  function DispatchedBy(e: Entry): seq<Run> {
    if e.Dispatched? then [e.run] else []
  }

  function AppliedBy(e: Entry): seq<Run> {
    if e.Applied? then [e.c.run] else []
  }

  function DispatchedRuns(trace: seq<Entry>): seq<Run> {
    if trace == [] then []
    else DispatchedRuns(trace[..|trace| - 1]) + DispatchedBy(trace[|trace| - 1])
  }

  function AppliedRuns(trace: seq<Entry>): seq<Run> {
    if trace == [] then []
    else AppliedRuns(trace[..|trace| - 1]) + AppliedBy(trace[|trace| - 1])
  }

  function JobIn(e: Entry): nat {
    match e case Dispatched(run) => run.job case Applied(c) => c.run.job
  }

  datatype Last = Nothing | Entry(e: Entry)

  /** The last entry about job j. */
  function LastAbout(trace: seq<Entry>, j: nat): Last {
    if trace == [] then Nothing
    else if JobIn(trace[|trace| - 1]) == j then Last.Entry(trace[|trace| - 1])
    else LastAbout(trace[..|trace| - 1], j)
  }

  /** A dispatch keeps the minimum gap to every earlier one. */
  ghost predicate GapKept(trace: seq<Entry>, minGap: int) {
    forall i, j :: 0 <= i < j < |trace| && trace[i].Dispatched? && trace[j].Dispatched? ==>
      trace[i].run.started + minGap <= trace[j].run.started
  }

  /**
   * How long a job rests behind a run with n OK answers in a row, in nanoseconds. Only an adaptive job backs off: its
   * interval doubles with each answer, up to a maximum. 30 and 120 minutes stand for numbers that are not positive.
   */
  function Rest(cfg: JobConfig, n: int): int {
    var base := if cfg.intervalMinutes <= 0 then 30 else cfg.intervalMinutes;
    var most := if cfg.maxIntervalMinutes <= 0 then 120 else cfg.maxIntervalMinutes;
    var minutes :=
      if !cfg.adaptive then cfg.intervalMinutes
      else if n <= 0 then base
      else if base * Pow2(n) <= most then base * Pow2(n) else most;
    60_000_000_000 * minutes
  }

  lemma IntervalIsRest(cfg: JobConfig, n: int)
    ensures IntervalDuration(cfg, n) == Rest(cfg, n)
  {
    hide Pow2;
  }

  /**
   * A dispatch finds its job idle: never dispatched, or with the last run applied; and it does not come before that
   * run's finish plus the rest its outcome asks for.
   */
  ghost predicate StartsRested(trace: seq<Entry>, jobs: seq<Job>) {
    forall b :: 0 <= b < |trace| && trace[b].Dispatched? ==> RestedAt(trace, jobs, b)
  }

  ghost predicate RestedAt(trace: seq<Entry>, jobs: seq<Job>, b: nat)
    requires b < |trace| && trace[b].Dispatched?
  {
    var run := trace[b].run;
    && run.job < |jobs|
    && match LastAbout(trace[..b], run.job)
       case Nothing => true
       case Entry(e) =>
         e.Applied? && e.c.finished + Rest(jobs[run.job].cfg, e.c.consecutiveOk) <= run.started
  }

  /** What the last entry about a job says is the job's state. */
  ghost predicate TraceTells(trace: seq<Entry>, jobs: seq<Job>) {
    forall j :: 0 <= j < |jobs| ==> TellsOf(trace, jobs, j)
  }

  ghost predicate TellsOf(trace: seq<Entry>, jobs: seq<Job>, j: nat)
    requires j < |jobs|
  {
    match LastAbout(trace, j)
    case Nothing => !jobs[j].running
    case Entry(Dispatched(run)) => jobs[j].running && jobs[j].runStartedAt == run.started
    case Entry(Applied(c)) =>
      && !jobs[j].running && jobs[j].runStartedAt == 0 && jobs[j].consecutiveOk == c.consecutiveOk
      && jobs[j].nextDueAt == c.finished + Rest(jobs[j].cfg, c.consecutiveOk)
  }

  /** The jobs in flight are exactly the running ones, each with one run. */
  ghost predicate Accounted(s: State) {
    multiset(JobsOf(Pending(s))) == multiset(RunningIds(s.jobs)) && s.inFlight == |Pending(s)|
  }

  ghost predicate Conserved(s: State) {
    multiset(DispatchedRuns(s.trace)) == multiset(AppliedRuns(s.trace)) + multiset(Pending(s))
  }

  /** The gap behind the last dispatch, and no later. */
  function AllowedFrom(trace: seq<Entry>, minGap: int): int {
    if trace == [] then 0
    else
      match trace[|trace| - 1]
      case Dispatched(run) => run.started + minGap
      case Applied(_) => AllowedFrom(trace[..|trace| - 1], minGap)
  }

  ghost predicate Paced(s: State, minGap: int) {
    && GapKept(s.trace, minGap) && s.nextAllowedStart == AllowedFrom(s.trace, minGap)
    && forall i :: 0 <= i < |s.trace| && s.trace[i].Dispatched? ==>
      s.trace[i].run.started + minGap <= s.nextAllowedStart
  }

  ghost predicate Inv(s: State, minGap: int) {
    && Accounted(s) && Conserved(s) && Paced(s, minGap)
    && StartsRested(s.trace, s.jobs) && TraceTells(s.trace, s.jobs)
    && (s.phase.Ended? ==> s.inFlight == 0)
  }

  lemma {:induction false} RunningIdsAre(jobs: seq<Job>)
    ensures forall i :: i in RunningIds(jobs) <==> 0 <= i < |jobs| && jobs[i].running
    ensures |RunningIds(jobs)| <= |jobs|
  {
    if jobs != [] {
      var n := |jobs| - 1;
      RunningIdsAre(jobs[..n]);
      var front, last := RunningIds(jobs[..n]), RunningId(jobs[n], n);
      forall i: nat
        ensures i in front + last <==> 0 <= i < |jobs| && jobs[i].running
      {
        assert i in front + last <==> i in front || i in last;
      }
    }
  }

  lemma RunningSnoc(jobs: seq<Job>, job: Job)
    ensures RunningIds(jobs + [job]) == RunningIds(jobs) + RunningId(job, |jobs|)
  {
  }

  lemma AddBoth<T>(a: multiset<T>, x: multiset<T>, b: multiset<T>, y: multiset<T>, l: multiset<T>)
    requires a + x == b + y
    ensures (a + l) + x == (b + l) + y
  {
    assert (a + l) + x == (a + x) + l;
    assert (b + l) + y == (b + y) + l;
  }

  lemma {:induction false} RunningIdsUpdate(jobs: seq<Job>, i: nat, job: Job)
    requires i < |jobs| && jobs[i].running != job.running
    ensures multiset(RunningIds(jobs[i := job])) + multiset(RunningId(jobs[i], i))
      == multiset(RunningIds(jobs)) + multiset(RunningId(job, i))
    decreases |jobs|
  {
    hide RunningIds, RunningId;
    var n := |jobs| - 1;
    var front, last := jobs[..n], jobs[n];
    assert jobs == front + [last];
    RunningSnoc(front, last);
    if i == n {
      assert jobs[i := job] == front + [job];
      RunningSnoc(front, job);
    } else {
      assert jobs[i := job] == front[i := job] + [last];
      RunningSnoc(front[i := job], last);
      assert front[i] == jobs[i];
      RunningIdsUpdate(front, i, job);
      var l := multiset(RunningId(last, n));
      assert multiset(RunningIds(jobs)) == multiset(RunningIds(front)) + l;
      assert multiset(RunningIds(jobs[i := job])) == multiset(RunningIds(front[i := job])) + l;
      AddBoth(multiset(RunningIds(front[i := job])), multiset(RunningId(front[i], i)),
        multiset(RunningIds(front)), multiset(RunningId(job, i)), l);
    }
  }

  lemma MultisetWithout<T>(a: seq<T>, k: nat)
    requires k < |a|
    ensures multiset(a[..k] + a[k + 1..]) + multiset{a[k]} == multiset(a)
  {
    assert a == a[..k] + ([a[k]] + a[k + 1..]);
  }

  lemma JobsOfWithout(runs: seq<Run>, k: nat)
    requires k < |runs|
    ensures multiset(JobsOf(runs[..k] + runs[k + 1..])) + multiset{runs[k].job} == multiset(JobsOf(runs))
  {
    MultisetWithout(JobsOf(runs), k);
    assert JobsOf(runs[..k] + runs[k + 1..]) == JobsOf(runs)[..k] + JobsOf(runs)[k + 1..];
  }

  lemma TraceSnoc(trace: seq<Entry>, e: Entry)
    ensures DispatchedRuns(trace + [e]) == DispatchedRuns(trace) + DispatchedBy(e)
    ensures AppliedRuns(trace + [e]) == AppliedRuns(trace) + AppliedBy(e)
    ensures forall j :: LastAbout(trace + [e], j) == if JobIn(e) == j then Last.Entry(e) else LastAbout(trace, j)
  {
  }

  // Each step

  /** A run finishes: it moves from the executing runs to the channel. */
  lemma FinishKeepsPending(s: State, k: nat, ok: int, minGap: int)
    requires k < |s.executing|
    ensures var t := Step(s, Finish(k, ok), minGap);
      && multiset(Pending(t)) == multiset(Pending(s)) && |Pending(t)| == |Pending(s)|
      && multiset(JobsOf(Pending(t))) == multiset(JobsOf(Pending(s)))
  {
    var t := Step(s, Finish(k, ok), minGap);
    var p, r := Pending(s), s.executing[k];
    assert RunsOf(t.buffered) == RunsOf(s.buffered) + [r];
    var q := p[..k] + p[k + 1..];
    assert Pending(t) == q + [r];
    MultisetWithout(p, k);
    JobsOfWithout(p, k);
    assert JobsOf(q + [r]) == JobsOf(q) + [r.job];
  }

  lemma ReceiveTakesPending(s: State, minGap: int)
    requires s.buffered != []
    ensures var t, r := Step(s, Receive, minGap), s.buffered[0].run;
      && multiset(Pending(t)) + multiset{r} == multiset(Pending(s)) && |Pending(t)| == |Pending(s)| - 1
      && multiset(JobsOf(Pending(t))) + multiset{r.job} == multiset(JobsOf(Pending(s)))
  {
    var t, r, p, k := Step(s, Receive, minGap), s.buffered[0].run, Pending(s), |s.executing|;
    assert RunsOf(s.buffered) == [r] + RunsOf(t.buffered);
    assert p[k] == r && Pending(t) == p[..k] + p[k + 1..];
    MultisetWithout(p, k);
    JobsOfWithout(p, k);
  }

  lemma FireAddsPending(s: State, i: nat, minGap: int)
    ensures var t, r := Step(s, Fire(i), minGap), Run(i, s.now);
      && multiset(Pending(t)) == multiset(Pending(s)) + multiset{r} && |Pending(t)| == |Pending(s)| + 1
      && multiset(JobsOf(Pending(t))) == multiset(JobsOf(Pending(s))) + multiset{i}
  {
    var r, b := Run(i, s.now), RunsOf(s.buffered);
    var p := s.executing + [r] + b;
    assert Pending(Step(s, Fire(i), minGap)) == p;
    MultisetWithout(p, |s.executing|);
    JobsOfWithout(p, |s.executing|);
    assert p[..|s.executing|] + p[|s.executing| + 1..] == Pending(s);
  }

  /** The head of the channel belongs to a running job. */
  lemma CompletionIsExpected(s: State)
    requires Accounted(s) && s.buffered != []
    ensures s.buffered[0].run.job < |s.jobs| && s.jobs[s.buffered[0].run.job].running
  {
    RunningIdsAre(s.jobs);
    ReceiveTakesPending(s, 0);
    hide RunningIds, JobsOf, Pending;
    assert s.buffered[0].run.job in multiset(RunningIds(s.jobs));
    assert s.buffered[0].run.job in RunningIds(s.jobs);
  }

  lemma RestedWithMore(trace: seq<Entry>, e: Entry, jobs: seq<Job>, more: seq<Job>)
    requires StartsRested(trace, jobs) && |more| == |jobs|
    requires forall i :: 0 <= i < |jobs| ==> more[i].cfg == jobs[i].cfg
    requires e.Dispatched? ==> RestedAt(trace + [e], jobs, |trace|)
    ensures StartsRested(trace + [e], more)
  {
    hide LastAbout, Rest;
    var all := trace + [e];
    forall b | 0 <= b < |all| && all[b].Dispatched?
      ensures RestedAt(all, more, b)
    {
      if b < |trace| {
        assert all[b] == trace[b] && all[..b] == trace[..b];
        assert RestedAt(trace, jobs, b);
      } else {
        assert RestedAt(all, jobs, b);
      }
    }
    assert StartsRested(all, more);
  }

  lemma StartedJob(jobs: seq<Job>, i: nat, at: int)
    requires i < |jobs| && !jobs[i].running
    ensures multiset(RunningIds(MarkStarted(jobs, i, at))) == multiset(RunningIds(jobs)) + multiset{i}
  {
    var job := jobs[i].(running := true, runStartedAt := at);
    RunningIdsUpdate(jobs, i, job);
    assert RunningId(jobs[i], i) == [] && RunningId(job, i) == [i];
    hide RunningIds;
    assert multiset(RunningIds(jobs[i := job])) + multiset([]) == multiset(RunningIds(jobs[i := job]));
  }

  lemma FinishedJob(jobs: seq<Job>, c: Completion)
    requires c.run.job < |jobs| && jobs[c.run.job].running
    ensures multiset(RunningIds(MarkFinished(jobs, c))) + multiset{c.run.job} == multiset(RunningIds(jobs))
  {
    var i := c.run.job;
    var job := MarkFinished(jobs, c)[i];
    assert MarkFinished(jobs, c) == jobs[i := job];
    hide MarkFinished;
    RunningIdsUpdate(jobs, i, job);
    assert RunningId(jobs[i], i) == [i] && RunningId(job, i) == [];
    hide RunningIds;
    assert multiset(RunningIds(jobs)) + multiset([]) == multiset(RunningIds(jobs));
  }

  lemma FireKeepsAccounts(s: State, i: nat, minGap: int)
    requires Accounted(s) && Conserved(s) && i < |s.jobs| && !s.jobs[i].running
    ensures Accounted(Step(s, Fire(i), minGap)) && Conserved(Step(s, Fire(i), minGap))
  {
    FireAddsPending(s, i, minGap);
    StartedJob(s.jobs, i, s.now);
    TraceSnoc(s.trace, Dispatched(Run(i, s.now)));
    hide RunningIds, JobsOf, Pending, DispatchedRuns, AppliedRuns, LastAbout, MarkStarted;
  }

  lemma FireKeepsPace(s: State, i: nat, minGap: int)
    requires 0 < minGap && Paced(s, minGap) && s.nextAllowedStart <= s.now
    ensures Paced(Step(s, Fire(i), minGap), minGap)
  {
  }

  lemma FireKeepsRest(s: State, i: nat, minGap: int)
    requires StartsRested(s.trace, s.jobs) && TraceTells(s.trace, s.jobs)
    requires i < |s.jobs| && !s.jobs[i].running && s.jobs[i].nextDueAt <= s.now
    ensures var t := Step(s, Fire(i), minGap); StartsRested(t.trace, t.jobs) && TraceTells(t.trace, t.jobs)
  {
    var t, e := Step(s, Fire(i), minGap), Dispatched(Run(i, s.now));
    var all := s.trace + [e];
    TraceSnoc(s.trace, e);
    hide LastAbout, Rest;
    assert all[..|s.trace|] == s.trace && all[|s.trace|] == e;
    assert TellsOf(s.trace, s.jobs, i);
    RestedWithMore(s.trace, e, s.jobs, t.jobs);
    TellsAfter(s.trace, e, s.jobs, t.jobs);
  }

  lemma TellsAfter(trace: seq<Entry>, e: Entry, jobs: seq<Job>, more: seq<Job>)
    requires TraceTells(trace, jobs) && |more| == |jobs| && JobIn(e) < |jobs|
    requires forall j :: 0 <= j < |jobs| && j != JobIn(e) ==> more[j] == jobs[j]
    requires TellsOf(trace + [e], more, JobIn(e))
    ensures TraceTells(trace + [e], more)
  {
    TraceSnoc(trace, e);
    hide LastAbout, Rest;
    forall j | 0 <= j < |more|
      ensures TellsOf(trace + [e], more, j)
    {
      if j != JobIn(e) {
        assert TellsOf(trace, jobs, j) && more[j] == jobs[j];
        assert LastAbout(trace + [e], j) == LastAbout(trace, j);
      }
    }
  }

  lemma FireKeepsInv(s: State, i: nat, minGap: int)
    requires 0 < minGap && Inv(s, minGap) && Enabled(s, Fire(i))
    ensures Inv(Step(s, Fire(i), minGap), minGap)
  {
    SlotIsLeast(s.jobs[i], s.nextAllowedStart);
    FireKeepsAccounts(s, i, minGap);
    FireKeepsPace(s, i, minGap);
    FireKeepsRest(s, i, minGap);
    hide Slot, InWindow, Accounted, Conserved, Paced, StartsRested, TraceTells;
  }

  lemma Cancel<T>(a: multiset<T>, b: multiset<T>, x: multiset<T>)
    requires a + x == b + x
    ensures a == b
  {
    assert a == (a + x) - x && b == (b + x) - x;
  }

  lemma Move<T>(d: multiset<T>, a: multiset<T>, p: multiset<T>, x: multiset<T>)
    requires d == a + (p + x)
    ensures d == (a + x) + p
  {
  }

  lemma ReceiveKeepsAccounts(s: State, minGap: int)
    requires Accounted(s) && Conserved(s) && s.buffered != []
    ensures Accounted(Step(s, Receive, minGap)) && Conserved(Step(s, Receive, minGap))
  {
    CompletionIsExpected(s);
    var t, c := Step(s, Receive, minGap), s.buffered[0];
    var e := Applied(c);
    assert t.jobs == MarkFinished(s.jobs, c) && t.trace == s.trace + [e] && t.inFlight == s.inFlight - 1;
    assert DispatchedBy(e) == [] && AppliedBy(e) == [c.run];
    ReceiveTakesPending(s, minGap);
    FinishedJob(s.jobs, c);
    TraceSnoc(s.trace, e);
    hide RunningIds, JobsOf, Pending, DispatchedRuns, AppliedRuns, LastAbout, MarkFinished, Step;
    hide DispatchedBy, AppliedBy;
    Cancel(multiset(JobsOf(Pending(t))), multiset(RunningIds(t.jobs)), multiset{c.run.job});
    Move(multiset(DispatchedRuns(s.trace)), multiset(AppliedRuns(s.trace)), multiset(Pending(t)), multiset{c.run});
  }

  lemma ReceiveKeepsRest(s: State, minGap: int)
    requires StartsRested(s.trace, s.jobs) && TraceTells(s.trace, s.jobs)
    requires s.buffered != [] && s.buffered[0].run.job < |s.jobs|
    ensures var t := Step(s, Receive, minGap); StartsRested(t.trace, t.jobs) && TraceTells(t.trace, t.jobs)
  {
    var t, c := Step(s, Receive, minGap), s.buffered[0];
    TraceSnoc(s.trace, Applied(c));
    IntervalIsRest(s.jobs[c.run.job].cfg, c.consecutiveOk);
    hide LastAbout, IntervalDuration, Rest;
    RestedWithMore(s.trace, Applied(c), s.jobs, t.jobs);
    TellsAfter(s.trace, Applied(c), s.jobs, t.jobs);
  }

  lemma ReceiveKeepsPace(s: State, minGap: int)
    requires Paced(s, minGap)
    ensures Paced(Step(s, Receive, minGap), minGap)
  {
  }

  lemma ReceiveKeepsInv(s: State, minGap: int)
    requires Inv(s, minGap) && Enabled(s, Receive)
    ensures Inv(Step(s, Receive, minGap), minGap)
  {
    CompletionIsExpected(s);
    ReceiveKeepsAccounts(s, minGap);
    ReceiveKeepsRest(s, minGap);
    ReceiveKeepsPace(s, minGap);
    hide Accounted, Conserved, Paced, StartsRested, TraceTells;
  }

  /** A step that moves a run to the channel. */
  lemma MoveKeepsInv(s: State, t: State, minGap: int)
    requires Inv(s, minGap)
    requires t == s.(executing := t.executing, buffered := t.buffered)
    requires multiset(Pending(t)) == multiset(Pending(s)) && |Pending(t)| == |Pending(s)|
    requires multiset(JobsOf(Pending(t))) == multiset(JobsOf(Pending(s)))
    ensures Inv(t, minGap)
  {
    SamePace(s, t, minGap);
    hide Pending, JobsOf, RunningIds, StartsRested, TraceTells, Paced, DispatchedRuns, AppliedRuns;
  }

  lemma FinishKeepsInv(s: State, k: nat, ok: int, minGap: int)
    requires Inv(s, minGap) && k < |s.executing|
    ensures Inv(Step(s, Finish(k, ok), minGap), minGap)
  {
    FinishKeepsPending(s, k, ok, minGap);
    hide Inv, Pending, JobsOf;
    MoveKeepsInv(s, Step(s, Finish(k, ok), minGap), minGap);
  }

  lemma SamePace(s: State, t: State, minGap: int)
    requires Paced(s, minGap) && t.trace == s.trace && t.nextAllowedStart == s.nextAllowedStart
    ensures Paced(t, minGap)
  {
  }

  /** Time and phase hardly matter to the invariant. */
  lemma SameInv(s: State, t: State, minGap: int)
    requires Inv(s, minGap) && t == s.(now := t.now, phase := t.phase)
    requires t.phase.Ended? ==> s.phase.Ended? || s.inFlight <= 0
    ensures Inv(t, minGap)
  {
    assert Pending(t) == Pending(s);
    hide Pending, JobsOf, RunningIds, StartsRested, TraceTells, Paced, DispatchedRuns, AppliedRuns;
    SamePace(s, t, minGap);
  }

  lemma OthersKeepInv(s: State, e: Event, minGap: int)
    requires Inv(s, minGap) && Enabled(s, e) && (e.Tick? || e.Stop? || e.Return?)
    ensures Inv(Step(s, e, minGap), minGap)
  {
    hide Inv;
    SameInv(s, Step(s, e, minGap), minGap);
  }

  lemma StepKeepsInv(s: State, e: Event, minGap: int)
    requires 0 < minGap && Inv(s, minGap) && Enabled(s, e)
    ensures Inv(Step(s, e, minGap), minGap)
  {
    hide Inv, Step;
    match e
    case Fire(i) => FireKeepsInv(s, i, minGap);
    case Receive => ReceiveKeepsInv(s, minGap);
    case Finish(k, ok) => FinishKeepsInv(s, k, ok, minGap);
    case _ => OthersKeepInv(s, e, minGap);
  }

  lemma {:induction false} NoneRunning(jobs: seq<Job>)
    requires forall i :: 0 <= i < |jobs| ==> !jobs[i].running
    ensures RunningIds(jobs) == []
  {
    if jobs != [] {
      NoneRunning(jobs[..|jobs| - 1]);
    }
  }

  lemma InitialIsInv(s: State, minGap: int)
    requires Initial(s)
    ensures Inv(s, minGap)
  {
    NoneRunning(s.jobs);
    assert Pending(s) == [] && JobsOf([]) == [];
    hide Rest;
    forall j | 0 <= j < |s.jobs|
      ensures TellsOf(s.trace, s.jobs, j)
    {
    }
  }

  function After(s: State, events: seq<Event>, minGap: int): State {
    if events == [] then s else Step(After(s, events[..|events| - 1], minGap), events[|events| - 1], minGap)
  }

  /** Each event can happen when it does. */
  ghost predicate Possible(s: State, events: seq<Event>, minGap: int) {
    events == []
    || (Possible(s, events[..|events| - 1], minGap)
        && Enabled(After(s, events[..|events| - 1], minGap), events[|events| - 1]))
  }

  /** A run of the loop from its start. */
  ghost predicate IsRun(s: State, events: seq<Event>, minGap: int) {
    Initial(s) && 0 < minGap && Possible(s, events, minGap)
  }

  lemma {:induction false} RunKeepsInv(s: State, events: seq<Event>, minGap: int)
    requires IsRun(s, events, minGap)
    ensures Inv(After(s, events, minGap), minGap)
  {
    hide Inv, Enabled, Step, Initial;
    if events == [] {
      InitialIsInv(s, minGap);
    } else {
      RunKeepsInv(s, events[..|events| - 1], minGap);
      StepKeepsInv(After(s, events[..|events| - 1], minGap), events[|events| - 1], minGap);
    }
  }

  /**
   * In every run: dispatches keep the minimum gap; a job starts only when its last run is applied, and rested; behind
   * a run it is due after its rest and has the run's count; the number in flight is that of the running jobs and that
   * of executing runs plus buffered completions.
   */
  lemma EveryRunIsSafe(s: State, events: seq<Event>, minGap: int)
    requires IsRun(s, events, minGap)
    ensures var t := After(s, events, minGap);
      GapKept(t.trace, minGap) && StartsRested(t.trace, t.jobs) && TraceTells(t.trace, t.jobs)
    ensures var t := After(s, events, minGap); t.nextAllowedStart == AllowedFrom(t.trace, minGap)
    ensures var t := After(s, events, minGap); t.inFlight == |RunningIds(t.jobs)| == |t.executing| + |t.buffered|
    ensures var t := After(s, events, minGap); multiset(JobsOf(Pending(t))) == multiset(RunningIds(t.jobs))
  {
    var t := After(s, events, minGap);
    RunKeepsInv(s, events, minGap);
    hide RunningIds, StartsRested, TraceTells, GapKept, IsRun, After;
    assert |multiset(JobsOf(Pending(t)))| == |multiset(RunningIds(t.jobs))|;
  }

  lemma {:induction false} RunningOnce(jobs: seq<Job>, i: nat)
    ensures multiset(RunningIds(jobs))[i] <= 1
  {
    if jobs != [] {
      var n := |jobs| - 1;
      RunningOnce(jobs[..n], i);
      if i == n {
        RunningIdsAre(jobs[..n]);
        assert i !in RunningIds(jobs[..n]);
      }
    }
  }

  lemma TwiceCounted<T>(s: seq<T>, i: nat, j: nat)
    requires i < j < |s| && s[i] == s[j]
    ensures 2 <= multiset(s)[s[i]]
  {
    MultisetWithout(s, j);
    var rest := s[..j] + s[j + 1..];
    assert rest[i] == s[i] && rest[i] in multiset(rest);
  }

  /** No job has two runs in flight: any two runs that execute or wait in the channel are of different jobs. */
  lemma NoJobRunsTwice(s: State, events: seq<Event>, minGap: int, i: nat, j: nat)
    requires IsRun(s, events, minGap) && i < j < |Pending(After(s, events, minGap))|
    ensures Pending(After(s, events, minGap))[i].job != Pending(After(s, events, minGap))[j].job
  {
    EveryRunIsSafe(s, events, minGap);
    var t := After(s, events, minGap);
    hide After, IsRun, Pending, RunningIds;
    var ids := JobsOf(Pending(t));
    RunningOnce(t.jobs, ids[i]);
    if ids[i] == ids[j] {
      TwiceCounted(ids, i, j);
    }
  }

  /** A run that finishes always finds room in the channel, which has one place per job. */
  lemma SendNeverBlocks(s: State, events: seq<Event>, minGap: int)
    requires IsRun(s, events, minGap)
    ensures var t := After(s, events, minGap); |t.executing| + |t.buffered| <= |t.jobs|
    ensures var t := After(s, events, minGap); t.executing != [] ==> |t.buffered| < |t.jobs|
  {
    var t := After(s, events, minGap);
    EveryRunIsSafe(s, events, minGap);
    RunningIdsAre(t.jobs);
  }

  /** Once the loop has returned, every dispatched run was applied exactly once, and no job runs. */
  lemma EveryDispatchIsApplied(s: State, events: seq<Event>, minGap: int)
    requires IsRun(s, events, minGap) && After(s, events, minGap).phase.Ended?
    ensures var t := After(s, events, minGap); multiset(AppliedRuns(t.trace)) == multiset(DispatchedRuns(t.trace))
    ensures var t := After(s, events, minGap); forall i :: 0 <= i < |t.jobs| ==> !t.jobs[i].running
  {
    var t := After(s, events, minGap);
    RunKeepsInv(s, events, minGap);
    EveryRunIsSafe(s, events, minGap);
    hide StartsRested, TraceTells, GapKept, IsRun, After;
    RunningIdsAre(t.jobs);
    assert Pending(t) == [];
    assert RunningIds(t.jobs) == [];
  }

  lemma SomethingToWaitFor(t: State)
    requires t.phase.Draining? && t.inFlight == |t.executing| + |t.buffered|
    requires t.executing != [] ==> |t.buffered| < |t.jobs|
    ensures Enabled(t, Return) || Enabled(t, Receive) || Enabled(t, Finish(0, 0))
  {
  }

  /** While it waits for runs after a stop, there is always one that executes or has left its completion. */
  lemma DrainIsNeverStuck(s: State, events: seq<Event>, minGap: int)
    requires IsRun(s, events, minGap) && After(s, events, minGap).phase.Draining?
    ensures var t := After(s, events, minGap); Enabled(t, Return) || Enabled(t, Receive) || Enabled(t, Finish(0, 0))
  {
    EveryRunIsSafe(s, events, minGap);
    SendNeverBlocks(s, events, minGap);
    hide *;
    SomethingToWaitFor(After(s, events, minGap));
  }

  // Times

  /** Runs start and finish in the past, and finish behind their start. */
  ghost predicate Timed(s: State) {
    && (forall i :: 0 <= i < |s.executing| ==> s.executing[i].started <= s.now)
    && (forall i :: 0 <= i < |s.buffered| ==> TimedOne(s.buffered[i], s.now))
    && (forall i :: 0 <= i < |s.trace| && s.trace[i].Applied? ==> TimedOne(s.trace[i].c, s.now))
  }

  predicate TimedOne(c: Completion, now: int) {
    c.run.started <= c.finished <= now
  }

  lemma StepStaysTimed(s: State, e: Event, minGap: int)
    requires Timed(s) && Enabled(s, e)
    ensures Timed(Step(s, e, minGap))
  {
    hide Selected, Slot, MarkStarted, MarkFinished;
  }

  /** In every run: each completion that is applied or waits tells a finish behind its start, and not one to come. */
  lemma {:induction false} RunsAreTimed(s: State, events: seq<Event>, minGap: int)
    requires IsRun(s, events, minGap)
    ensures Timed(After(s, events, minGap))
  {
    hide Timed, Enabled, Step;
    if events == [] {
      InitialIsTimed(s);
    } else {
      RunsAreTimed(s, events[..|events| - 1], minGap);
      StepStaysTimed(After(s, events[..|events| - 1], minGap), events[|events| - 1], minGap);
    }
  }

  lemma InitialIsTimed(s: State)
    requires Initial(s)
    ensures Timed(s)
  {
  }
}
