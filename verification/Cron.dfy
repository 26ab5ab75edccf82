/** The cron service: stored jobs, their next runs, and the hand-off of due jobs. Times are milliseconds. */
module Cron {
  import opened Basics

  datatype Schedule =
    | At(atMS: Option<int>)
    | Every(everyMS: Option<int>)
    | CronExpr(expr: string)
    | Unknown(kind: string)

  datatype Job = Job(id: string, enabled: bool, schedule: Schedule, nextRun: Option<int>, deleteAfterRun: bool)

  /** The cron library: the next tick of an expression after a time, if it can be computed. */
  type Ticks = (string, int) -> Option<int>

  function ComputeNextRun(schedule: Schedule, now: int, ticks: Ticks): Option<int> {
    match schedule
    case At(at) => if at.Some? && now < at.value then at else None
    case Every(every) => if every.None? || every.value <= 0 then None else Some(now + every.value)
    case CronExpr(expr) => if expr == "" then None else ticks(expr, now)
    case Unknown(_) => None
  }

  predicate IsDue(job: Job, now: int) {
    job.enabled && job.nextRun.Some? && job.nextRun.value <= now
  }

  function DueIds(jobs: seq<Job>, now: int): seq<string> {
    if jobs == [] then []
    else DueIds(jobs[..|jobs| - 1], now) + DueId(jobs[|jobs| - 1], now)
  }

  function DueId(job: Job, now: int): seq<string> {
    if IsDue(job, now) then [job.id] else []
  }

  function Cleared(jobs: seq<Job>, ids: seq<string>): (r: seq<Job>)
    ensures |r| == |jobs|
  {
    seq(|jobs|, i requires 0 <= i < |jobs| => if jobs[i].id in ids then jobs[i].(nextRun := None) else jobs[i])
  }

  function Recompute(job: Job, now: int, ticks: Ticks): Job {
    if job.enabled then job.(nextRun := ComputeNextRun(job.schedule, now, ticks)) else job
  }

  function Recomputed(jobs: seq<Job>, now: int, ticks: Ticks): (r: seq<Job>)
    ensures |r| == |jobs|
  {
    seq(|jobs|, i requires 0 <= i < |jobs| => Recompute(jobs[i], now, ticks))
  }

  function Without(jobs: seq<Job>, id: string): seq<Job> {
    if jobs == [] then []
    else Without(jobs[..|jobs| - 1], id) + KeptJob(jobs[|jobs| - 1], id)
  }

  function KeptJob(job: Job, id: string): seq<Job> {
    if job.id != id then [job] else []
  }

  /** Index of the first job with this id, or the number of jobs. */
  function IndexOf(jobs: seq<Job>, id: string): (i: nat)
    ensures i <= |jobs| && (i < |jobs| ==> jobs[i].id == id)
    ensures id !in (set k | 0 <= k < i :: jobs[k].id)
  {
    if jobs == [] then 0 else if jobs[0].id == id then 0
    else
      var i := IndexOf(jobs[1..], id);
      assert forall k :: 1 <= k < 1 + i ==> jobs[k] == jobs[1..][k - 1];
      1 + i
  }

  function Enable(job: Job, enabled: bool, now: int, ticks: Ticks): Job {
    job.(enabled := enabled, nextRun := if enabled then ComputeNextRun(job.schedule, now, ticks) else None)
  }

  function EnabledIn(jobs: seq<Job>, id: string, enabled: bool, now: int, ticks: Ticks): (r: seq<Job>) {
    var i := IndexOf(jobs, id);
    if i < |jobs| then jobs[i := Enable(jobs[i], enabled, now, ticks)] else jobs
  }

  /** After a run: a one-shot job is removed or disabled, any other gets its next run. */
  function FinishedIn(jobs: seq<Job>, id: string, now: int, ticks: Ticks): seq<Job> {
    var i := IndexOf(jobs, id);
    if i == |jobs| then jobs
    else if jobs[i].schedule.At? then
      if jobs[i].deleteAfterRun then Without(jobs, id) else jobs[i := jobs[i].(enabled := false, nextRun := None)]
    else jobs[i := jobs[i].(nextRun := ComputeNextRun(jobs[i].schedule, now, ticks))]
  }

  function Added(id: string, schedule: Schedule, now: int, ticks: Ticks): Job {
    Job(id, true, schedule, ComputeNextRun(schedule, now, ticks), schedule.At?)
  }

  /** The second service is what a step of the state machine makes of the first. */
  ghost predicate Follows(
    jobs: seq<Job>, file: seq<Job>, running: bool, e: Event, now: int, ticks: Ticks,
    jobs': seq<Job>, file': seq<Job>, running': bool)
  {
    var s := Step(State(jobs, file, running, now, multiset{}, multiset{}, [], map[]), e, ticks);
    s.jobs == jobs' && s.file == file' && s.running == running'
  }

  /** The service and its store file. A save may fail; then the file stays as it was. */
  class Service {
    var jobs: seq<Job>
    var file: seq<Job>
    var running: bool
    const ticks: Ticks

    constructor (stored: seq<Job>, library: Ticks)
      ensures jobs == stored && file == stored && !running && ticks == library
    {
      jobs, file, running, ticks := stored, stored, false, library;
    }

    method Save(ok: bool)
      modifies this`file
      ensures file == if ok then jobs else old(file)
    {
      if ok {
        file := jobs;
      }
    }

    method Start(now: int, loads: bool, saves: bool) returns (ok: bool)
      modifies this
      ensures ok == (old(running) || (loads && saves)) && running == ok
      ensures jobs == if old(running) then old(jobs) else if loads then Recomputed(old(file), now, ticks) else []
      ensures file == if old(running) || !loads || !saves then old(file) else jobs
      ensures Follows(old(jobs), old(file), old(running), Event.Start(loads, saves), now, ticks, jobs, file, running)
    {
      if running {
        return true;
      }
      jobs := [];
      if !loads {
        return false;
      }
      jobs := file;
      RecomputeNextRuns(now);
      Save(saves);
      if !saves {
        return false;
      }
      running := true;
      return true;
    }

    method Stop()
      modifies this`running
      ensures !running
    {
      running := false;
    }

    method RecomputeNextRuns(now: int)
      modifies this`jobs
      ensures jobs == Recomputed(old(jobs), now, ticks)
    {
      for i := 0 to |jobs|
        invariant |jobs| == |old(jobs)|
        invariant forall k :: 0 <= k < |jobs| ==>
          jobs[k] == if k < i then Recompute(old(jobs)[k], now, ticks) else old(jobs)[k]
      {
        if jobs[i].enabled {
          jobs := jobs[i := jobs[i].(nextRun := ComputeNextRun(jobs[i].schedule, now, ticks))];
        }
      }
    }

    /** When the loop wakes up next: at the least next run of an enabled job. */
    method NextWake() returns (nextWake: Option<int>)
      ensures nextWake.None? <==> forall i :: 0 <= i < |jobs| ==> !jobs[i].enabled || jobs[i].nextRun.None?
      ensures forall t :: nextWake.Some? ==> (nextWake.value <= t <==> DueIds(jobs, t) != [])
    {
      nextWake := None;
      for i := 0 to |jobs|
        invariant nextWake.None? <==> forall k :: 0 <= k < i ==> !jobs[k].enabled || jobs[k].nextRun.None?
        invariant forall t :: nextWake.Some? ==> (nextWake.value <= t <==> DueIds(jobs[..i], t) != [])
        invariant forall t :: nextWake.None? ==> DueIds(jobs[..i], t) == []
      {
        assert jobs[..i + 1][..i] == jobs[..i];
        var job := jobs[i];
        if job.enabled && job.nextRun.Some? {
          if nextWake.None? || job.nextRun.value < nextWake.value {
            nextWake := job.nextRun;
          }
        }
      }
      assert jobs[..|jobs|] == jobs;
    }

    /** The part of a tick under the lock: the due jobs lose their next run and are returned to be executed. */
    method CheckJobs(now: int, saves: bool) returns (dueJobIDs: seq<string>)
      modifies this
      ensures running == old(running)
      ensures dueJobIDs == if running then DueIds(old(jobs), now) else []
      ensures jobs == if running then Cleared(old(jobs), dueJobIDs) else old(jobs)
      ensures file == if running && saves then jobs else old(file)
      ensures Follows(old(jobs), old(file), old(running), Check(saves), now, ticks, jobs, file, running)
    {
      dueJobIDs := [];
      if !running {
        return;
      }
      for i := 0 to |jobs|
        invariant jobs == old(jobs) && file == old(file) && running
        invariant dueJobIDs == DueIds(jobs[..i], now)
      {
        assert jobs[..i + 1][..i] == jobs[..i];
        var job := jobs[i];
        if job.enabled && job.nextRun.Some? && job.nextRun.value <= now {
          dueJobIDs := dueJobIDs + [job.id];
        }
      }
      assert jobs[..|jobs|] == jobs;
      for i := 0 to |jobs|
        invariant file == old(file) && running && |jobs| == |old(jobs)|
        invariant forall k :: 0 <= k < |jobs| ==>
          jobs[k] == if k < i then Cleared(old(jobs), dueJobIDs)[k] else old(jobs)[k]
      {
        if jobs[i].id in dueJobIDs {
          jobs := jobs[i := jobs[i].(nextRun := None)];
        }
      }
      assert jobs == Cleared(old(jobs), dueJobIDs);
      Save(saves);
    }

    /** The first part of an execution: the handler gets a copy of the job, unless it is gone. */
    method HandOff(jobID: string) returns (callbackJob: Option<Job>)
      ensures var i := IndexOf(jobs, jobID);
        callbackJob == if i < |jobs| then Some(jobs[i]) else None
    {
      var i := Find(jobID);
      return if i < |jobs| then Some(jobs[i]) else None;
    }

    method Find(jobID: string) returns (i: nat)
      ensures i == IndexOf(jobs, jobID)
    {
      i := 0;
      assert jobs[0..] == jobs;
      while i < |jobs|
        invariant i <= |jobs| && IndexOf(jobs, jobID) == i + IndexOf(jobs[i..], jobID)
      {
        if jobs[i].id == jobID {
          return;
        }
        assert jobs[i..][1..] == jobs[i + 1..];
        i := i + 1;
      }
    }

    /** The last part of an execution, once the handler has returned. */
    method FinishJob(jobID: string, now: int, saves: bool)
      modifies this`jobs, this`file
      ensures jobs == FinishedIn(old(jobs), jobID, now, ticks)
      ensures file == if saves && IndexOf(old(jobs), jobID) < |old(jobs)| then jobs else old(file)
      ensures Follows(old(jobs), old(file), old(running), Finish(jobID, saves), now, ticks, jobs, file, running)
    {
      var i := Find(jobID);
      if i == |jobs| {
        return;
      }
      if jobs[i].schedule.At? {
        if jobs[i].deleteAfterRun {
          var removed := RemoveJob(jobID, saves);
        } else {
          jobs := jobs[i := jobs[i].(enabled := false, nextRun := None)];
        }
      } else {
        jobs := jobs[i := jobs[i].(nextRun := ComputeNextRun(jobs[i].schedule, now, ticks))];
      }
      Save(saves);
    }

    method AddJob(id: string, schedule: Schedule, now: int, saves: bool) returns (ok: bool)
      modifies this`jobs, this`file
      ensures jobs == old(jobs) + [Added(id, schedule, now, ticks)] && ok == saves
      ensures file == if saves then jobs else old(file)
      ensures Follows(old(jobs), old(file), old(running), Add(id, schedule, saves), now, ticks, jobs, file, running)
    {
      var deleteAfterRun := schedule.At?;
      jobs := jobs + [Job(id, true, schedule, ComputeNextRun(schedule, now, ticks), deleteAfterRun)];
      Save(saves);
      return saves;
    }

    method RemoveJob(jobID: string, saves: bool) returns (removed: bool)
      modifies this`jobs, this`file
      ensures jobs == Without(old(jobs), jobID) && removed == (|jobs| < |old(jobs)|)
      ensures file == if saves && removed then jobs else old(file)
      ensures forall now ::
        Follows(old(jobs), old(file), old(running), Remove(jobID, saves), now, ticks, jobs, file, running)
    {
      var kept: seq<Job> := [];
      for i := 0 to |jobs|
        invariant jobs == old(jobs) && file == old(file)
        invariant kept == Without(jobs[..i], jobID)
      {
        assert jobs[..i + 1][..i] == jobs[..i];
        if jobs[i].id != jobID {
          kept := kept + [jobs[i]];
        }
      }
      assert jobs[..|jobs|] == jobs;
      removed := |kept| < |jobs|;
      jobs := kept;
      if removed {
        Save(saves);
      }
    }

    method EnableJob(jobID: string, enabled: bool, now: int, saves: bool) returns (found: bool)
      modifies this`jobs, this`file
      ensures jobs == EnabledIn(old(jobs), jobID, enabled, now, ticks)
      ensures found == (IndexOf(old(jobs), jobID) < |old(jobs)|)
      ensures file == if saves && found then jobs else old(file)
      ensures Follows(
        old(jobs), old(file), old(running), Event.Enable(jobID, enabled, saves), now, ticks, jobs, file, running)
    {
      var i := Find(jobID);
      if i == |jobs| {
        return false;
      }
      var job := jobs[i].(enabled := enabled);
      if enabled {
        job := job.(nextRun := ComputeNextRun(job.schedule, now, ticks));
      } else {
        job := job.(nextRun := None);
      }
      jobs := jobs[i := job];
      Save(saves);
      return true;
    }
  }

  /**
   * The service with its clock, the ids that ticks have put up for execution and that are not executed yet, the ids
   * whose handler runs, and every hand-off so far. `known` holds the schedule of every id that was ever given out.
   */
  datatype State = State(
    jobs: seq<Job>, file: seq<Job>, running: bool, now: int,
    pending: multiset<string>, executing: multiset<string>, handed: seq<string>, known: map<string, Schedule>)

  datatype Event =
    | Tick(to: int)
    | Check(saves: bool)
    | HandOff(id: string)
    | Finish(id: string, saves: bool)
    | Add(id: string, schedule: Schedule, saves: bool)
    | Remove(id: string, saves: bool)
    | Enable(id: string, enabled: bool, saves: bool)
    | Start(loads: bool, saves: bool)
    | Stop
    | Crash

  /** The clock does not go back, a new job has a new id. */
  ghost predicate Possible(s: State, e: Event) {
    match e
    case Tick(t) => s.now <= t
    case HandOff(id) => id in s.pending
    case Finish(id, _) => id in s.executing
    case Add(id, _, _) => id !in s.known
    case _ => true
  }

  function Saved(s: State, jobs: seq<Job>, saves: bool): State {
    s.(jobs := jobs, file := if saves then jobs else s.file)
  }

  /** What each event does; after a crash the new process has what the file holds, and is not started yet. */
  function Step(s: State, e: Event, ticks: Ticks): State {
    match e
    case Tick(t) => s.(now := t)
    case Check(saves) =>
      if !s.running then s
      else
        var due := DueIds(s.jobs, s.now);
        Saved(s, Cleared(s.jobs, due), saves).(pending := s.pending + multiset(due))
    case HandOff(id) =>
      var t := s.(pending := s.pending - multiset{id});
      if IndexOf(s.jobs, id) == |s.jobs| then t
      else t.(executing := s.executing + multiset{id}, handed := s.handed + [id])
    case Finish(id, saves) =>
      Saved(s, FinishedIn(s.jobs, id, s.now, ticks), saves && IndexOf(s.jobs, id) < |s.jobs|)
        .(executing := s.executing - multiset{id})
    case Add(id, schedule, saves) =>
      Saved(s, s.jobs + [Added(id, schedule, s.now, ticks)], saves).(known := s.known[id := schedule])
    case Remove(id, saves) => Saved(s, Without(s.jobs, id), saves && |Without(s.jobs, id)| < |s.jobs|)
    case Enable(id, enabled, saves) =>
      Saved(s, EnabledIn(s.jobs, id, enabled, s.now, ticks), saves && IndexOf(s.jobs, id) < |s.jobs|)
    case Start(loads, saves) =>
      if s.running then s
      else if !loads then s.(jobs := [])
      else Saved(s, Recomputed(s.file, s.now, ticks), saves).(running := saves)
    case Stop => s.(running := false)
    case Crash => s.(jobs := s.file, running := false, pending := multiset{}, executing := multiset{})
  }
}
