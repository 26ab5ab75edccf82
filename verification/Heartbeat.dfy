/** The heartbeat loop: one goroutine schedules, each run has its own, and completions come back on a channel. */
module Heartbeat {
  import opened ActiveHours

  datatype JobConfig = JobConfig(schedule: Schedule, intervalMinutes: int, maxIntervalMinutes: int, adaptive: bool)

  datatype Job = Job(cfg: JobConfig, consecutiveOk: int, nextDueAt: int, running: bool, runStartedAt: int)

  datatype Run = Run(job: nat, started: int)

  datatype Completion = Completion(run: Run, finished: int, consecutiveOk: int)

  function IntervalDuration(cfg: JobConfig, consecutiveOk: int): int {
    if cfg.adaptive then Backoff(cfg.intervalMinutes, cfg.maxIntervalMinutes, consecutiveOk) * MINUTE
    else cfg.intervalMinutes * MINUTE
  }

  /** When a job may start: due, allowed and, last, in its window. */
  function Slot(job: Job, nextAllowedStart: int): int {
    var due := AdjustToActiveHours(job.cfg.schedule, job.nextDueAt);
    AdjustToActiveHours(job.cfg.schedule, if due < nextAllowedStart then nextAllowedStart else due)
  }

  /** Job i is the idle job with the least slot, the first of them; -1 stands for none. */
  ghost predicate Selected(jobs: seq<Job>, nextAllowedStart: int, i: int, due: int) {
    if i == -1 then forall j :: 0 <= j < |jobs| ==> jobs[j].running
    else
      && 0 <= i < |jobs| && !jobs[i].running && due == Slot(jobs[i], nextAllowedStart)
      && (forall j :: 0 <= j < |jobs| && !jobs[j].running ==> due <= Slot(jobs[j], nextAllowedStart))
      && (forall j :: 0 <= j < i && !jobs[j].running ==> due < Slot(jobs[j], nextAllowedStart))
  }

  method SelectNextJob(jobs: seq<Job>, nextAllowedStart: int) returns (selectedIndex: int, selectedDue: int)
    ensures Selected(jobs, nextAllowedStart, selectedIndex, selectedDue)
  {
    hide AdjustToActiveHours;
    selectedIndex, selectedDue := -1, 0;
    for i := 0 to |jobs|
      invariant Selected(jobs[..i], nextAllowedStart, selectedIndex, selectedDue)
    {
      var job := jobs[i];
      assert jobs[..i + 1] == jobs[..i] + [job];
      if job.running {
        continue;
      }
      var due := AdjustToActiveHours(job.cfg.schedule, job.nextDueAt);
      if due < nextAllowedStart {
        due := nextAllowedStart;
      }
      due := AdjustToActiveHours(job.cfg.schedule, due);
      if selectedIndex == -1 || due < selectedDue {
        selectedIndex := i;
        selectedDue := due;
      }
    }
    assert jobs[..|jobs|] == jobs;
  }

  /** A slot is the least time in the job's window that comes neither before the job is due nor before it is allowed. */
  lemma SlotIsLeast(job: Job, nextAllowedStart: int)
    ensures var slot := Slot(job, nextAllowedStart);
      && job.nextDueAt <= slot && nextAllowedStart <= slot && InWindow(job.cfg.schedule, slot)
      && forall u :: job.nextDueAt <= u && nextAllowedStart <= u < slot ==> !InWindow(job.cfg.schedule, u)
  {
    hide InWindow, AdjustToActiveHours;
    var due := AdjustToActiveHours(job.cfg.schedule, job.nextDueAt);
    AdjustIsLeast(job.cfg.schedule, job.nextDueAt);
    AdjustIsLeast(job.cfg.schedule, if due < nextAllowedStart then nextAllowedStart else due);
  }

  function MarkStarted(jobs: seq<Job>, i: nat, at: int): (r: seq<Job>)
    ensures |r| == |jobs|
  {
    if i < |jobs| then jobs[i := jobs[i].(running := true, runStartedAt := at)] else jobs
  }

  function MarkFinished(jobs: seq<Job>, c: Completion): (r: seq<Job>)
    ensures |r| == |jobs|
  {
    if c.run.job < |jobs| then
      jobs[c.run.job := jobs[c.run.job].(running := false, runStartedAt := 0, consecutiveOk := c.consecutiveOk,
        nextDueAt := c.finished + IntervalDuration(jobs[c.run.job].cfg, c.consecutiveOk))]
    else jobs
  }

  function MarkAll(jobs: seq<Job>, cs: seq<Completion>): seq<Job> {
    if cs == [] then jobs else MarkFinished(MarkAll(jobs, cs[..|cs| - 1]), cs[|cs| - 1])
  }

  /** The scheduling goroutine's own variables. */
  class Loop {
    var jobs: seq<Job>
    var nextAllowedStart: int
    var inFlight: int
    const minGap: int

    constructor (js: seq<Job>, gap: int)
      ensures jobs == js && nextAllowedStart == 0 && inFlight == 0 && minGap == gap
    {
      jobs, nextAllowedStart, inFlight, minGap := js, 0, 0, gap;
    }

    /** The timer fired for the selected job. */
    method Dispatch(jobIndex: nat, runStart: int) returns (started: bool)
      requires jobIndex < |jobs|
      modifies this
      ensures started == !old(jobs)[jobIndex].running
      ensures jobs == if started then MarkStarted(old(jobs), jobIndex, runStart) else old(jobs)
      ensures nextAllowedStart == if started then runStart + minGap else old(nextAllowedStart)
      ensures inFlight == old(inFlight) + if started then 1 else 0
    {
      if jobs[jobIndex].running {
        return false;
      }
      jobs := jobs[jobIndex := jobs[jobIndex].(running := true, runStartedAt := runStart)];
      nextAllowedStart := runStart + minGap;
      inFlight := inFlight + 1;
      return true;
    }

    method ApplyCompletion(c: Completion)
      modifies this`jobs
      ensures jobs == MarkFinished(old(jobs), c)
    {
      if |jobs| <= c.run.job {
        return;
      }
      var job := jobs[c.run.job].(running := false, runStartedAt := 0, consecutiveOk := c.consecutiveOk);
      var interval := job.cfg.intervalMinutes * MINUTE;
      if job.cfg.adaptive {
        interval := AdaptiveInterval(job.cfg.intervalMinutes, job.cfg.maxIntervalMinutes, job.consecutiveOk);
      }
      jobs := jobs[c.run.job := job.(nextDueAt := c.finished + interval)];
    }

    method Receive(c: Completion)
      modifies this
      ensures jobs == MarkFinished(old(jobs), c) && inFlight == old(inFlight) - 1
      ensures nextAllowedStart == old(nextAllowedStart)
    {
      inFlight := inFlight - 1;
      ApplyCompletion(c);
    }

    /** On stop: waits for every run that is still in flight; `arriving` are their completions in order. */
    method DrainInFlightCompletions(arriving: seq<Completion>)
      requires inFlight == |arriving|
      modifies this
      ensures inFlight == 0 && jobs == MarkAll(old(jobs), arriving)
    {
      hide MarkFinished;
      var k := 0;
      while 0 < inFlight
        invariant 0 <= k <= |arriving| && inFlight == |arriving| - k
        invariant jobs == MarkAll(old(jobs), arriving[..k])
      {
        assert arriving[..k + 1][..k] == arriving[..k];
        inFlight := inFlight - 1;
        ApplyCompletion(arriving[k]);
        k := k + 1;
      }
      assert arriving[..k] == arriving;
    }
  }

  datatype Phase = Looping | Draining | Ended

  datatype Entry = Dispatched(run: Run) | Applied(c: Completion)

  /** The loop, the runs that execute, the completions in the channel, and what has happened so far. */
  datatype State = State(
    jobs: seq<Job>, nextAllowedStart: int, inFlight: int, now: int,
    executing: seq<Run>, buffered: seq<Completion>, phase: Phase, trace: seq<Entry>)

  datatype Event =
    | Tick(to: int)
    | Fire(job: nat)
    | Finish(k: nat, consecutiveOk: int)
    | Receive
    | Stop
    | Return

  /** A run sends its completion only while the channel has room; the loop's timer does not fire before the slot. */
  ghost predicate Enabled(s: State, e: Event) {
    match e
    case Tick(t) => s.now <= t
    case Fire(i) =>
      s.phase.Looping? && i < |s.jobs| && Selected(s.jobs, s.nextAllowedStart, i, Slot(s.jobs[i], s.nextAllowedStart))
      && Slot(s.jobs[i], s.nextAllowedStart) <= s.now
    case Finish(k, ok) => k < |s.executing| && |s.buffered| < |s.jobs|
    case Receive => s.buffered != [] && (s.phase.Looping? || (s.phase.Draining? && 0 < s.inFlight))
    case Stop => s.phase.Looping?
    case Return => s.phase.Draining? && s.inFlight <= 0
  }

  function Step(s: State, e: Event, minGap: int): State {
    match e
    case Tick(t) => s.(now := t)
    case Fire(i) =>
      s.(jobs := MarkStarted(s.jobs, i, s.now), nextAllowedStart := s.now + minGap, inFlight := s.inFlight + 1,
         executing := s.executing + [Run(i, s.now)], trace := s.trace + [Dispatched(Run(i, s.now))])
    case Finish(k, ok) =>
      if |s.executing| <= k then s
      else s.(executing := s.executing[..k] + s.executing[k + 1..],
              buffered := s.buffered + [Completion(s.executing[k], s.now, ok)])
    case Receive =>
      if s.buffered == [] then s
      else s.(jobs := MarkFinished(s.jobs, s.buffered[0]), inFlight := s.inFlight - 1,
              buffered := s.buffered[1..], trace := s.trace + [Applied(s.buffered[0])])
    case Stop => s.(phase := Draining)
    case Return => s.(phase := Ended)
  }

  /** No run yet; times are not negative. */
  ghost predicate Initial(s: State) {
    && s.nextAllowedStart == 0 && s.inFlight == 0 && 0 <= s.now
    && s.executing == [] && s.buffered == [] && s.phase == Looping && s.trace == []
    && forall i :: 0 <= i < |s.jobs| ==> !s.jobs[i].running
  }
}
