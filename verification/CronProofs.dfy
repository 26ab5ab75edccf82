/** A one-shot job is handed to its handler at most once, and never early. */
module CronProofs {
  import opened Basics
  import opened Cron

  ghost predicate Distinct(jobs: seq<Job>) {
    forall i, j :: 0 <= i < j < |jobs| ==> jobs[i].id != jobs[j].id
  }

  ghost predicate AllKnown(jobs: seq<Job>, known: map<string, Schedule>) {
    forall i :: 0 <= i < |jobs| ==> jobs[i].id in known && known[jobs[i].id] == jobs[i].schedule
  }

  /** Ids are unique, in memory and in the file, and always stand for the same schedule. */
  ghost predicate Identified(s: State) {
    && Distinct(s.jobs) && AllKnown(s.jobs, s.known)
    && Distinct(s.file) && AllKnown(s.file, s.known)
    && (forall id :: id in s.pending ==> id in s.known)
    && (forall id :: id in s.handed ==> id in s.known)
  }

  /** How often an id was handed off, or is put up for it. */
  function Count(s: State, id: string): nat {
    s.pending[id] + multiset(s.handed)[id]
  }

  /** One-shot ids count at most once, and not before their time. */
  ghost predicate Counted(s: State) {
    forall id :: id in s.known && s.known[id].At? ==> CountedOnce(s, id)
  }

  ghost predicate CountedOnce(s: State, id: string)
    requires id in s.known && s.known[id].At?
  {
    Count(s, id) <= 1 && (Count(s, id) == 1 ==> s.known[id].atMS.Some? && s.known[id].atMS.value <= s.now)
  }

  /** While the service runs, an enabled one-shot job waits for its own time, or for nothing once it counts. */
  ghost predicate Armed(s: State) {
    s.running ==> forall i :: 0 <= i < |s.jobs| ==> ArmedJob(s, s.jobs[i])
  }

  ghost predicate ArmedJob(s: State, job: Job) {
    job.schedule.At? && job.enabled && job.nextRun.Some? ==> job.nextRun == job.schedule.atMS && Count(s, job.id) == 0
  }

  ghost predicate Inv(s: State) {
    Identified(s) && Counted(s) && Armed(s)
  }

  /** The same ids and schedules, place by place. */
  ghost predicate SameIds(a: seq<Job>, b: seq<Job>) {
    |a| == |b| && forall i :: 0 <= i < |a| ==> a[i].id == b[i].id && a[i].schedule == b[i].schedule
  }

  ghost predicate From(a: seq<Job>, b: seq<Job>) {
    forall i :: 0 <= i < |a| ==> a[i] in b
  }

  lemma {:induction false} WithoutIs(jobs: seq<Job>, id: string)
    ensures From(Without(jobs, id), jobs)
    ensures forall i :: 0 <= i < |Without(jobs, id)| ==> Without(jobs, id)[i].id != id
    ensures Distinct(jobs) ==> Distinct(Without(jobs, id))
  {
    if jobs != [] {
      var n := |jobs| - 1;
      WithoutIs(jobs[..n], id);
      var kept := Without(jobs[..n], id);
      assert From(kept, jobs) by {
        assert forall j :: j in jobs[..n] ==> j in jobs;
      }
      if Distinct(jobs) {
        forall i | 0 <= i < |kept|
          ensures kept[i].id != jobs[n].id
        {
          assert kept[i] in jobs[..n];
        }
      }
    }
  }

  lemma FromIsKnown(a: seq<Job>, b: seq<Job>, known: map<string, Schedule>)
    requires From(a, b) && AllKnown(b, known)
    ensures AllKnown(a, known)
  {
  }

  lemma FinishedIs(jobs: seq<Job>, id: string, now: int, ticks: Ticks)
    ensures var r := FinishedIn(jobs, id, now, ticks);
      || SameIds(r, jobs) || r == Without(jobs, id)
  {
  }

  /** What becomes of a list keeps its ids known and distinct. */
  lemma StaysIdentified(a: seq<Job>, b: seq<Job>, known: map<string, Schedule>, id: string)
    requires Distinct(b) && AllKnown(b, known) && (SameIds(a, b) || a == Without(b, id))
    ensures Distinct(a) && AllKnown(a, known)
  {
    hide Without;
    if !SameIds(a, b) {
      WithoutIs(b, id);
      FromIsKnown(a, b, known);
    }
  }

  lemma {:induction false} DueIdsAre(jobs: seq<Job>, now: int)
    ensures forall id :: id in DueIds(jobs, now) <==>
      exists i :: 0 <= i < |jobs| && IsDue(jobs[i], now) && jobs[i].id == id
  {
    hide IsDue;
    if jobs != [] {
      var n := |jobs| - 1;
      DueIdsAre(jobs[..n], now);
      forall id
        ensures id in DueIds(jobs, now) <==> exists i :: 0 <= i < |jobs| && IsDue(jobs[i], now) && jobs[i].id == id
      {
        if id in DueIds(jobs[..n], now) {
          var i :| 0 <= i < n && IsDue(jobs[..n][i], now) && jobs[..n][i].id == id;
          assert jobs[i] == jobs[..n][i];
        }
        if i :| 0 <= i < |jobs| && IsDue(jobs[i], now) && jobs[i].id == id {
          assert i < n ==> jobs[..n][i] == jobs[i];
        }
      }
    }
  }

  lemma {:induction false} DueOnce(jobs: seq<Job>, now: int, id: string)
    requires Distinct(jobs)
    ensures multiset(DueIds(jobs, now))[id] <= 1
  {
    hide IsDue;
    if jobs != [] {
      var n := |jobs| - 1;
      DueOnce(jobs[..n], now, id);
      if jobs[n].id == id {
        DueIdsAre(jobs[..n], now);
        assert id !in DueIds(jobs[..n], now);
      }
    }
  }

  lemma ComputedNext(job: Job, now: int, ticks: Ticks)
    requires job.schedule.At?
    ensures var next := ComputeNextRun(job.schedule, now, ticks);
      next.Some? ==> next == job.schedule.atMS && now < next.value
  {
  }

  // Each event

  lemma CheckKeepsInv(s: State, saves: bool, ticks: Ticks)
    requires Inv(s) && s.running
    ensures Inv(Step(s, Check(saves), ticks))
  {
    var due := DueIds(s.jobs, s.now);
    var t := Step(s, Check(saves), ticks);
    DueIdsAre(s.jobs, s.now);
    hide DueIds;
    assert SameIds(t.jobs, s.jobs);
    StaysIdentified(t.jobs, s.jobs, s.known, "");
    DueAreKnown(s, due);
    forall id | id in t.known && t.known[id].At?
      ensures CountedOnce(t, id)
    {
      assert CountedOnce(s, id);
      CheckCounts(s, id);
    }
    forall i | 0 <= i < |t.jobs|
      ensures ArmedJob(t, t.jobs[i])
    {
      assert ArmedJob(s, s.jobs[i]);
      assert s.jobs[i].id !in due ==> multiset(due)[s.jobs[i].id] == 0;
    }
  }

  lemma DueAreKnown(s: State, due: seq<string>)
    requires Identified(s)
    requires forall id :: id in due ==> exists i :: 0 <= i < |s.jobs| && IsDue(s.jobs[i], s.now) && s.jobs[i].id == id
    ensures forall id :: id in s.pending + multiset(due) ==> id in s.known
  {
    forall id | id in s.pending + multiset(due)
      ensures id in s.known
    {
      assert id in s.pending || id in due;
    }
  }

  lemma CheckCounts(s: State, id: string)
    requires Inv(s) && s.running && id in s.known && s.known[id].At?
    ensures var n := multiset(DueIds(s.jobs, s.now))[id];
      n <= 1 && (n == 1 ==> Count(s, id) == 0 && s.known[id].atMS.Some? && s.known[id].atMS.value <= s.now)
  {
    DueOnce(s.jobs, s.now, id);
    DueIdsAre(s.jobs, s.now);
    hide DueIds;
    if id in DueIds(s.jobs, s.now) {
      var i :| 0 <= i < |s.jobs| && IsDue(s.jobs[i], s.now) && s.jobs[i].id == id;
      assert ArmedJob(s, s.jobs[i]);
    }
  }

  /** When nothing more counts and time runs on, only the jobs are left to look at. */
  lemma CountsCarryOver(s: State, t: State)
    requires Counted(s) && t.known == s.known && s.now <= t.now
    requires forall id :: Count(t, id) <= Count(s, id)
    ensures Counted(t)
  {
  }

  lemma ArmedCarriesOver(s: State, t: State)
    requires Armed(s) && t.jobs == s.jobs && (t.running ==> s.running)
    requires forall id :: Count(t, id) <= Count(s, id)
    ensures Armed(t)
  {
  }

  lemma HandOffCounts(s: State, id: string, ticks: Ticks)
    requires id in s.pending
    ensures var t := Step(s, Event.HandOff(id), ticks); forall x :: Count(t, x) <= Count(s, x)
  {
  }

  lemma HandOffKeepsInv(s: State, id: string, ticks: Ticks)
    requires Inv(s) && id in s.pending
    ensures Inv(Step(s, Event.HandOff(id), ticks))
  {
    var t := Step(s, Event.HandOff(id), ticks);
    HandOffCounts(s, id, ticks);
    CountsCarryOver(s, t);
    ArmedCarriesOver(s, t);
    hide IndexOf;
    assert forall x :: x in t.pending ==> x in s.pending;
  }

  lemma CrashKeepsInv(s: State, ticks: Ticks)
    requires Inv(s)
    ensures Inv(Step(s, Crash, ticks))
  {
  }

  /** Jobs change, but the counts do not: it is enough that each job is armed. */
  lemma JobsChange(s: State, t: State, id: string)
    requires Inv(s) && t.known == s.known && t.now == s.now && t.pending == s.pending && t.handed == s.handed
    requires SameIds(t.jobs, s.jobs) || t.jobs == Without(s.jobs, id) || SameIds(t.jobs, s.file)
    requires t.file == s.file || t.file == t.jobs
    requires t.running ==> forall i :: 0 <= i < |t.jobs| ==> ArmedJob(t, t.jobs[i])
    ensures Inv(t)
  {
    if SameIds(t.jobs, s.file) {
      StaysIdentified(t.jobs, s.file, s.known, id);
    } else {
      StaysIdentified(t.jobs, s.jobs, s.known, id);
    }
    hide Without, SameIds;
    CountsCarryOver(s, t);
  }

  lemma FinishKeepsInv(s: State, id: string, saves: bool, ticks: Ticks)
    requires Inv(s)
    ensures Inv(Step(s, Finish(id, saves), ticks))
  {
    var t := Step(s, Finish(id, saves), ticks);
    FinishedIs(s.jobs, id, s.now, ticks);
    WithoutIs(s.jobs, id);
    hide Without, IndexOf;
    forall i | t.running && 0 <= i < |t.jobs|
      ensures ArmedJob(t, t.jobs[i])
    {
      assert forall j :: 0 <= j < |s.jobs| ==> ArmedJob(s, s.jobs[j]);
      FinishedJobs(s.jobs, id, s.now, ticks, i);
    }
    JobsChange(s, t, id);
  }

  /** Each job that is left was there before, was disabled, or is none of the one-shot jobs. */
  lemma FinishedJobs(jobs: seq<Job>, id: string, now: int, ticks: Ticks, i: nat)
    requires i < |FinishedIn(jobs, id, now, ticks)|
    ensures var job := FinishedIn(jobs, id, now, ticks)[i];
      job in jobs || !job.enabled || !job.schedule.At?
  {
    WithoutIs(jobs, id);
    hide Without, ComputeNextRun;
  }

  lemma EnableKeepsInv(s: State, id: string, enabled: bool, saves: bool, ticks: Ticks)
    requires Inv(s)
    ensures Inv(Step(s, Event.Enable(id, enabled, saves), ticks))
  {
    var t := Step(s, Event.Enable(id, enabled, saves), ticks);
    hide IndexOf, Without;
    forall i | t.running && 0 <= i < |t.jobs|
      ensures ArmedJob(t, t.jobs[i])
    {
      assert ArmedJob(s, s.jobs[i]);
      if s.jobs[i].schedule.At? {
        ComputedArms(s, s.jobs[i], ticks);
      }
    }
    JobsChange(s, t, id);
  }

  lemma ComputedArms(s: State, job: Job, ticks: Ticks)
    requires Counted(s) && job.schedule.At? && job.id in s.known && s.known[job.id] == job.schedule
    ensures var next := ComputeNextRun(job.schedule, s.now, ticks);
      next.Some? ==> next == job.schedule.atMS && Count(s, job.id) == 0
  {
  }

  lemma RecomputedArms(s: State, t: State, ticks: Ticks, i: nat)
    requires Inv(s) && t.pending == s.pending && t.handed == s.handed && i < |s.file|
    ensures ArmedJob(t, Recompute(s.file[i], s.now, ticks))
  {
  }

  lemma StartKeepsInv(s: State, loads: bool, saves: bool, ticks: Ticks)
    requires Inv(s) && !s.running
    ensures Inv(Step(s, Event.Start(loads, saves), ticks))
  {
    var t := Step(s, Event.Start(loads, saves), ticks);
    assert forall x :: Count(t, x) == Count(s, x);
    hide Without, ArmedJob, Recompute, Count;
    if loads {
      assert SameIds(t.jobs, s.file) by {
        RecomputedIds(s.file, s.now, ticks);
      }
      forall i | t.running && 0 <= i < |t.jobs|
        ensures ArmedJob(t, t.jobs[i])
      {
        assert t.jobs[i] == Recompute(s.file[i], s.now, ticks);
        RecomputedArms(s, t, ticks, i);
      }
      hide Inv;
      JobsChange(s, t, "");
    } else {
      CountsCarryOver(s, t);
    }
  }

  lemma RecomputedIds(jobs: seq<Job>, now: int, ticks: Ticks)
    ensures SameIds(Recomputed(jobs, now, ticks), jobs)
  {
  }

  lemma RemoveKeepsInv(s: State, id: string, saves: bool, ticks: Ticks)
    requires Inv(s)
    ensures Inv(Step(s, Remove(id, saves), ticks))
  {
    var t := Step(s, Remove(id, saves), ticks);
    WithoutIs(s.jobs, id);
    hide Without;
    forall i | t.running && 0 <= i < |t.jobs|
      ensures ArmedJob(t, t.jobs[i])
    {
      assert t.jobs[i] in s.jobs;
      assert forall j :: 0 <= j < |s.jobs| ==> ArmedJob(s, s.jobs[j]);
    }
    JobsChange(s, t, id);
  }

  lemma AddKeepsInv(s: State, id: string, schedule: Schedule, saves: bool, ticks: Ticks)
    requires Inv(s) && id !in s.known
    ensures Inv(Step(s, Add(id, schedule, saves), ticks))
  {
    var t := Step(s, Add(id, schedule, saves), ticks);
    var job := Added(id, schedule, s.now, ticks);
    assert Count(s, id) == 0 by {
      assert id !in s.pending && id !in s.handed;
    }
    assert forall x :: Count(t, x) == Count(s, x);
    hide Count;
    forall x | x in t.known && t.known[x].At?
      ensures CountedOnce(t, x)
    {
      assert x != id ==> CountedOnce(s, x);
    }
    forall i | t.running && 0 <= i < |t.jobs|
      ensures ArmedJob(t, t.jobs[i])
    {
      if i < |s.jobs| {
        assert t.jobs[i] == s.jobs[i] && ArmedJob(s, s.jobs[i]);
      } else if schedule.At? {
        ComputedNext(job, s.now, ticks);
      }
    }
  }

  lemma StepKeepsInv(s: State, e: Event, ticks: Ticks)
    requires Inv(s) && Possible(s, e)
    ensures Inv(Step(s, e, ticks))
  {
    hide Inv;
    match e
    case Tick(to) => TimeKeepsInv(s, to, ticks);
    case Check(saves) => if s.running { CheckKeepsInv(s, saves, ticks); }
    case HandOff(id) => HandOffKeepsInv(s, id, ticks);
    case Finish(id, saves) => FinishKeepsInv(s, id, saves, ticks);
    case Add(id, schedule, saves) => AddKeepsInv(s, id, schedule, saves, ticks);
    case Remove(id, saves) => RemoveKeepsInv(s, id, saves, ticks);
    case Enable(id, enabled, saves) => EnableKeepsInv(s, id, enabled, saves, ticks);
    case Start(loads, saves) => if !s.running { StartKeepsInv(s, loads, saves, ticks); }
    case Stop => StopKeepsInv(s, ticks);
    case Crash => CrashKeepsInv(s, ticks);
  }

  lemma TimeKeepsInv(s: State, to: int, ticks: Ticks)
    requires Inv(s) && s.now <= to
    ensures Inv(Step(s, Tick(to), ticks))
  {
  }

  lemma StopKeepsInv(s: State, ticks: Ticks)
    requires Inv(s)
    ensures Inv(Step(s, Event.Stop, ticks))
  {
  }

  // Runs

  /** A service that was just created over a file with distinct ids: nothing was handed off yet. */
  ghost predicate Initial(s: State) {
    && s.jobs == s.file && !s.running && s.pending == multiset{} && s.executing == multiset{} && s.handed == []
    && Distinct(s.file) && AllKnown(s.file, s.known)
  }

  function After(s: State, events: seq<Event>, ticks: Ticks): State {
    if events == [] then s else Step(After(s, events[..|events| - 1], ticks), events[|events| - 1], ticks)
  }

  ghost predicate AllPossible(s: State, events: seq<Event>, ticks: Ticks) {
    events == []
    || (AllPossible(s, events[..|events| - 1], ticks)
        && Possible(After(s, events[..|events| - 1], ticks), events[|events| - 1]))
  }

  lemma InitialIsInv(s: State)
    requires Initial(s)
    ensures Inv(s)
  {
  }

  lemma {:induction false} RunKeepsInv(s: State, events: seq<Event>, ticks: Ticks)
    requires Initial(s) && AllPossible(s, events, ticks)
    ensures Inv(After(s, events, ticks))
  {
    hide Inv, Possible, Step, Initial;
    if events == [] {
      InitialIsInv(s);
    } else {
      RunKeepsInv(s, events[..|events| - 1], ticks);
      StepKeepsInv(After(s, events[..|events| - 1], ticks), events[|events| - 1], ticks);
    }
  }

  /**
   * Whatever is added, enabled, removed, checked, executed, stopped, started or crashed, in whatever order, and
   * whichever saves fail: a one-shot job is handed off at most once, and only when its time has come.
   */
  lemma OneShotRunsAtMostOnce(s: State, events: seq<Event>, ticks: Ticks, id: string)
    requires Initial(s) && AllPossible(s, events, ticks)
    requires id in After(s, events, ticks).known && After(s, events, ticks).known[id].At?
    ensures var t := After(s, events, ticks);
      && multiset(t.handed)[id] <= 1
      && (id in t.handed ==> t.known[id].atMS.Some? && t.known[id].atMS.value <= t.now)
  {
    RunKeepsInv(s, events, ticks);
    assert CountedOnce(After(s, events, ticks), id);
    hide Initial, AllPossible, After;
  }

  /** Once its handler has returned, a one-shot job is gone or disabled for good, until it is enabled again. */
  lemma FinishedOneShotIsOff(jobs: seq<Job>, id: string, now: int, ticks: Ticks, i: nat)
    requires Distinct(jobs) && i < |FinishedIn(jobs, id, now, ticks)|
    requires FinishedIn(jobs, id, now, ticks)[i].id == id && FinishedIn(jobs, id, now, ticks)[i].schedule.At?
    ensures !FinishedIn(jobs, id, now, ticks)[i].enabled && FinishedIn(jobs, id, now, ticks)[i].nextRun == None
  {
    WithoutIs(jobs, id);
    FinishedIs(jobs, id, now, ticks);
    hide Without, ComputeNextRun;
  }
}
