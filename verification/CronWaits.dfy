/** No job is forgotten: what is still to come waits for its time, and what recurs comes round again. */
module CronWaits {
  import opened Basics
  import opened Cron
  import opened CronProofs

  /** Put up for execution, or with its handler running. */
  predicate Busy(s: State, id: string) {
    id in s.pending || id in s.executing
  }

  /** An enabled job waits for its own time while that is to come; a recurring one is busy or has a next run in time. */
  ghost predicate Waits(s: State, job: Job, ticks: Ticks) {
    job.enabled ==>
      match job.schedule
      case At(at) => at.Some? && s.now < at.value ==> job.nextRun == at
      case Every(every) =>
        every.Some? && 0 < every.value ==>
          Busy(s, job.id) || (job.nextRun.Some? && job.nextRun.value <= s.now + every.value)
      case CronExpr(expr) => expr != "" && (forall t :: ticks(expr, t).Some?) ==> Busy(s, job.id) || job.nextRun.Some?
      case Unknown(_) => true
  }

  ghost predicate AllWait(s: State, ticks: Ticks) {
    s.running ==> forall i :: 0 <= i < |s.jobs| ==> Waits(s, s.jobs[i], ticks)
  }

  /** When each schedule comes next, seen from now. */
  lemma NextRunIs(schedule: Schedule, now: int, ticks: Ticks, next: int)
    ensures ComputeNextRun(schedule, now, ticks) == Some(next) <==>
      || (schedule == At(Some(next)) && now < next)
      || (schedule == Every(Some(next - now)) && now < next)
      || (schedule.CronExpr? && schedule.expr != "" && ticks(schedule.expr, now) == Some(next))
  {
  }

  /** A job that was just computed waits. */
  lemma ComputedWaits(s: State, job: Job, ticks: Ticks)
    requires job.enabled ==> job.nextRun == ComputeNextRun(job.schedule, s.now, ticks)
    ensures Waits(s, job, ticks)
  {
  }

  lemma WaitsOn(s: State, t: State, job: Job, ticks: Ticks)
    requires Waits(s, job, ticks) && s.now <= t.now && (Busy(s, job.id) ==> Busy(t, job.id))
    ensures Waits(t, job, ticks)
  {
  }

  lemma CheckKeepsWaiting(s: State, saves: bool, ticks: Ticks)
    requires Inv(s) && AllWait(s, ticks) && s.running
    ensures AllWait(Step(s, Check(saves), ticks), ticks)
  {
    var due := DueIds(s.jobs, s.now);
    var t := Step(s, Check(saves), ticks);
    DueIdsAre(s.jobs, s.now);
    hide DueIds;
    forall i | 0 <= i < |t.jobs|
      ensures Waits(t, t.jobs[i], ticks)
    {
      var id := s.jobs[i].id;
      assert Waits(s, s.jobs[i], ticks);
      assert id in due ==> Busy(t, id);
      assert s.pending[id] <= t.pending[id];
      if id in due {
        var j :| 0 <= j < |s.jobs| && IsDue(s.jobs[j], s.now) && s.jobs[j].id == id;
        assert j == i;
      }
    }
  }

  lemma HandOffKeepsWaiting(s: State, id: string, ticks: Ticks)
    requires AllWait(s, ticks) && id in s.pending
    ensures AllWait(Step(s, Event.HandOff(id), ticks), ticks)
  {
    var t := Step(s, Event.HandOff(id), ticks);
    hide Waits;
    forall i | s.running && 0 <= i < |t.jobs|
      ensures Waits(t, t.jobs[i], ticks)
    {
      assert Waits(s, s.jobs[i], ticks);
      WaitsOn(s, t, s.jobs[i], ticks);
    }
  }

  /** Each job behind an execution is one of the jobs before, with another id, or is disabled, or was just computed. */
  lemma FinishedAre(jobs: seq<Job>, id: string, now: int, ticks: Ticks, i: nat)
    requires Distinct(jobs) && i < |FinishedIn(jobs, id, now, ticks)|
    ensures var job := FinishedIn(jobs, id, now, ticks)[i];
      || (job in jobs && job.id != id) || (job.enabled ==> job.nextRun == ComputeNextRun(job.schedule, now, ticks))
  {
    WithoutIs(jobs, id);
    hide Without, ComputeNextRun;
  }

  lemma FinishKeepsWaiting(s: State, id: string, saves: bool, ticks: Ticks)
    requires Inv(s) && AllWait(s, ticks)
    ensures AllWait(Step(s, Finish(id, saves), ticks), ticks)
  {
    var t := Step(s, Finish(id, saves), ticks);
    hide FinishedIn, ComputeNextRun, Waits;
    forall i | s.running && 0 <= i < |t.jobs|
      ensures Waits(t, t.jobs[i], ticks)
    {
      FinishedAre(s.jobs, id, s.now, ticks, i);
      var job := t.jobs[i];
      if job in s.jobs && job.id != id {
        assert Waits(s, job, ticks);
        WaitsOn(s, t, job, ticks);
      } else {
        ComputedWaits(t, job, ticks);
      }
    }
  }

  lemma OthersKeepWaiting(s: State, e: Event, ticks: Ticks)
    requires Inv(s) && AllWait(s, ticks) && Possible(s, e) && !e.Check? && !e.HandOff? && !e.Finish?
    ensures AllWait(Step(s, e, ticks), ticks)
  {
    var t := Step(s, e, ticks);
    if e.Remove? {
      WithoutIs(s.jobs, e.id);
    }
    hide ComputeNextRun, Waits, Without, IndexOf;
    forall i | t.running && 0 <= i < |t.jobs|
      ensures Waits(t, t.jobs[i], ticks)
    {
      var job := t.jobs[i];
      if s.running && job in s.jobs {
        assert Waits(s, job, ticks);
        WaitsOn(s, t, job, ticks);
      } else {
        ComputedWaits(t, job, ticks);
      }
    }
  }

  lemma StepKeepsWaiting(s: State, e: Event, ticks: Ticks)
    requires Inv(s) && AllWait(s, ticks) && Possible(s, e)
    ensures AllWait(Step(s, e, ticks), ticks)
  {
    hide Inv, AllWait;
    match e
    case Check(saves) => if s.running { CheckKeepsWaiting(s, saves, ticks); }
    case HandOff(id) => HandOffKeepsWaiting(s, id, ticks);
    case Finish(id, saves) => FinishKeepsWaiting(s, id, saves, ticks);
    case _ => OthersKeepWaiting(s, e, ticks);
  }

  /**
   * In every run, whatever saves fail: while the service runs, an enabled one-shot job that is still to come waits for
   * exactly its time, and an enabled recurring job is being executed or comes round again within its interval.
   */
  lemma {:induction false} NoJobIsForgotten(s: State, events: seq<Event>, ticks: Ticks)
    requires Initial(s) && AllPossible(s, events, ticks)
    ensures AllWait(After(s, events, ticks), ticks)
  {
    hide Inv, Possible, Step, Waits;
    if events != [] {
      NoJobIsForgotten(s, events[..|events| - 1], ticks);
      RunKeepsInv(s, events[..|events| - 1], ticks);
      hide AllWait, Initial;
      StepKeepsWaiting(After(s, events[..|events| - 1], ticks), events[|events| - 1], ticks);
    }
  }

  function Finishes(events: seq<Event>, id: string): nat {
    if events == [] then 0
    else
      var last := events[|events| - 1];
      Finishes(events[..|events| - 1], id) + if last.Finish? && last.id == id then 1 else 0
  }

  lemma StepCounts(s: State, e: Event, ticks: Ticks, id: string)
    requires Possible(s, e) && !e.Crash?
    ensures var t := Step(s, e, ticks);
      multiset(t.handed)[id] + s.executing[id]
      == multiset(s.handed)[id] + t.executing[id] + if e.Finish? && e.id == id then 1 else 0
  {
    hide IndexOf, FinishedIn, Without, EnabledIn, DueIds, Added, Recomputed, Cleared;
  }

  /** Without a crash, every hand-off is executing or has finished: a job is busy no longer than its executions last. */
  lemma {:induction false} HandedIsExecutingOrFinished(s: State, events: seq<Event>, ticks: Ticks, id: string)
    requires Initial(s) && AllPossible(s, events, ticks)
    requires forall i :: 0 <= i < |events| ==> !events[i].Crash?
    ensures var t := After(s, events, ticks); multiset(t.handed)[id] == t.executing[id] + Finishes(events, id)
  {
    if events != [] {
      var n := |events| - 1;
      HandedIsExecutingOrFinished(s, events[..n], ticks, id);
      hide Initial, Step, Possible;
      StepCounts(After(s, events[..n], ticks), events[n], ticks, id);
    }
  }

  // The lists

  /** a is what is left of jobs at the places in `at`, in order. */
  ghost predicate PickedAt(a: seq<Job>, jobs: seq<Job>, at: seq<nat>) {
    && |at| == |a| && (forall x :: 0 <= x < |at| ==> at[x] < |jobs| && a[x] == jobs[at[x]])
    && forall x, y :: 0 <= x < y < |at| ==> at[x] < at[y]
  }

  /** One more job at the end is picked or not. */
  lemma PickedSnoc(a: seq<Job>, jobs: seq<Job>, at: seq<nat>)
    requires jobs != [] && PickedAt(a, jobs[..|jobs| - 1], at)
    ensures PickedAt(a, jobs, at) && PickedAt(a + [jobs[|jobs| - 1]], jobs, at + [|jobs| - 1])
  {
  }

  function Ids(jobs: seq<Job>): seq<string> {
    seq(|jobs|, x requires 0 <= x < |jobs| => jobs[x].id)
  }

  lemma IdsSnoc(jobs: seq<Job>, job: Job)
    ensures Ids(jobs + [job]) == Ids(jobs) + [job.id] && Ids([]) == []
  {
  }

  lemma DueSnoc(jobs: seq<Job>, now: int)
    ensures DueIds([], now) == []
    ensures jobs != [] ==>
      DueIds(jobs, now) == DueIds(jobs[..|jobs| - 1], now) + DueId(jobs[|jobs| - 1], now)
  {
  }

  /** A tick puts up every enabled job whose next run has come, in order, and nothing else. */
  lemma {:induction false} DueInOrder(jobs: seq<Job>, now: int) returns (due: seq<Job>, at: seq<nat>)
    ensures PickedAt(due, jobs, at)
    ensures DueIds(jobs, now) == Ids(due)
    ensures forall i :: 0 <= i < |jobs| ==>
      (i in at <==> jobs[i].enabled && jobs[i].nextRun.Some? && jobs[i].nextRun.value <= now)
  {
    due, at := [], [];
    DueSnoc(jobs, now);
    if jobs != [] {
      var n := |jobs| - 1;
      due, at := DueInOrder(jobs[..n], now);
      PickedSnoc(due, jobs, at);
      IdsSnoc(due, jobs[n]);
      assert n !in at;
      hide PickedAt, Ids, DueIds;
      if IsDue(jobs[n], now) {
        due, at := due + [jobs[n]], at + [n];
      }
    }
  }

  lemma WithoutSnoc(jobs: seq<Job>, id: string)
    ensures Without([], id) == []
    ensures jobs != [] ==> Without(jobs, id) == Without(jobs[..|jobs| - 1], id) + KeptJob(jobs[|jobs| - 1], id)
  {
  }

  /** Removing an id keeps all other jobs in order. */
  lemma {:induction false} WithoutKeepsOthers(jobs: seq<Job>, id: string) returns (at: seq<nat>)
    ensures PickedAt(Without(jobs, id), jobs, at)
    ensures forall i :: 0 <= i < |jobs| ==> (i in at <==> jobs[i].id != id)
  {
    at := [];
    WithoutSnoc(jobs, id);
    if jobs != [] {
      var n := |jobs| - 1;
      at := WithoutKeepsOthers(jobs[..n], id);
      PickedSnoc(Without(jobs[..n], id), jobs, at);
      assert n !in at;
      hide PickedAt, Without;
      assert forall i :: 0 <= i < n ==> jobs[..n][i] == jobs[i];
      if jobs[n].id != id {
        at := at + [n];
      }
    }
  }

  lemma WithoutHas(jobs: seq<Job>, id: string, k: nat)
    requires k < |jobs| && jobs[k].id != id
    ensures jobs[k] in Without(jobs, id)
  {
    var at := WithoutKeepsOthers(jobs, id);
    hide Without;
    assert k in at;
    var x :| 0 <= x < |at| && at[x] == k;
  }

  /** An execution or a switch concerns the named job alone. */
  lemma OthersUntouched(jobs: seq<Job>, id: string, enabled: bool, now: int, ticks: Ticks, k: nat)
    requires k < |jobs| && jobs[k].id != id
    ensures jobs[k] in FinishedIn(jobs, id, now, ticks) && jobs[k] in EnabledIn(jobs, id, enabled, now, ticks)
  {
    WithoutHas(jobs, id, k);
    hide ComputeNextRun, IndexOf, Without;
    assert EnabledIn(jobs, id, enabled, now, ticks)[k] == jobs[k];
    var finished := FinishedIn(jobs, id, now, ticks);
    assert finished != Without(jobs, id) ==> finished[k] == jobs[k];
  }

  /** Switching a job sets its flag; off it has no next run, on it waits as if it were new. */
  lemma SwitchedIs(jobs: seq<Job>, id: string, enabled: bool, now: int, ticks: Ticks, job: Job)
    requires job in EnabledIn(jobs, id, enabled, now, ticks) && job.id == id && Distinct(jobs)
    ensures job.enabled == enabled
    ensures job.nextRun == if enabled then ComputeNextRun(job.schedule, now, ticks) else None
  {
    hide ComputeNextRun;
    var i := IndexOf(jobs, id);
  }

  /** A start recomputes the enabled jobs and leaves the others as they are. */
  lemma DisabledAreLeft(jobs: seq<Job>, now: int, ticks: Ticks, i: nat)
    requires i < |jobs|
    ensures Recomputed(jobs, now, ticks)[i]
      == if jobs[i].enabled then jobs[i].(nextRun := ComputeNextRun(jobs[i].schedule, now, ticks)) else jobs[i]
  {
    hide ComputeNextRun;
  }

  /** A job that is added at `now` is due exactly from its first time on. */
  lemma AddedIsDue(id: string, schedule: Schedule, now: int, ticks: Ticks, t: int)
    ensures IsDue(Added(id, schedule, now, ticks), t) <==>
      match schedule
      case At(at) => at.Some? && now < at.value <= t
      case Every(every) => every.Some? && 0 < every.value && now + every.value <= t
      case CronExpr(expr) => expr != "" && ticks(expr, now).Some? && ticks(expr, now).value <= t
      case Unknown(_) => false
  {
  }

  /** A one-shot job that is to be deleted is gone behind its execution, any other stays and is disabled. */
  lemma OneShotEnds(jobs: seq<Job>, k: nat, now: int, ticks: Ticks)
    requires Distinct(jobs) && k < |jobs| && jobs[k].schedule.At?
    ensures var after := FinishedIn(jobs, jobs[k].id, now, ticks);
      if jobs[k].deleteAfterRun then forall i :: 0 <= i < |after| ==> after[i].id != jobs[k].id
      else |after| == |jobs| && after[k] == jobs[k].(enabled := false, nextRun := None)
  {
    WithoutIs(jobs, jobs[k].id);
    FoundFirst(jobs, k);
    hide Without, IndexOf;
  }

  /** An id is found at its first job. */
  lemma {:induction false} FoundFirst(jobs: seq<Job>, k: nat)
    requires k < |jobs| && forall i :: 0 <= i < k ==> jobs[i].id != jobs[k].id
    ensures IndexOf(jobs, jobs[k].id) == k
  {
    if k != 0 {
      assert forall i :: 0 <= i < k ==> jobs[1..][i] == jobs[i + 1];
      FoundFirst(jobs[1..], k - 1);
    }
  }

  /** An added one-shot job is to be deleted: with a new id, adding it and executing it leaves what was there. */
  lemma AddedOneShotGoes(jobs: seq<Job>, id: string, at: Option<int>, now: int, later: int, ticks: Ticks)
    requires forall i :: 0 <= i < |jobs| ==> jobs[i].id != id
    ensures FinishedIn(jobs + [Added(id, At(at), now, ticks)], id, later, ticks) == jobs
  {
    var all := jobs + [Added(id, At(at), now, ticks)];
    WithoutSnoc(all, id);
    assert all[..|jobs|] == jobs;
    WithoutNothing(jobs, id);
    hide Without;
    FoundFirst(all, |jobs|);
  }

  lemma {:induction false} WithoutNothing(jobs: seq<Job>, id: string)
    requires forall i :: 0 <= i < |jobs| ==> jobs[i].id != id
    ensures Without(jobs, id) == jobs
  {
    if jobs != [] {
      WithoutNothing(jobs[..|jobs| - 1], id);
    }
  }
}
