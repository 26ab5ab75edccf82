/** The table of active runs: at most one per channel and chat, with a request to stop. */
module RunControl {
  import opened Basics
  import opened Text

  /** `ctx` stands for the run's context, which its cancel function cancels. */
  datatype Active = Active(runID: string, ctx: Option<nat>, stopRequested: bool, stopReason: string)

  datatype CancelResult = Stopped(runID: string) | NoActiveRun | RunMismatch(active: string)

  datatype CheckResult = Continue | RunCancelled(reason: string) | ContextDone

  const DEFAULT_REASON := "Stopped by user."

  type Table = map<string, Active>

  function RunKey(channel: string, chat: string): string {
    if TrimSpace(channel) == "" || TrimSpace(chat) == "" then "" else TrimSpace(channel) + ":" + TrimSpace(chat)
  }

  function NormalReason(reason: string): string {
    if TrimSpace(reason) == "" then DEFAULT_REASON else TrimSpace(reason)
  }

  /** A cancel request that reaches the run registered under its key: any run, or the one it names. */
  predicate Hits(t: Table, channel: string, chat: string, runID: string) {
    var key := RunKey(channel, chat);
    && key != "" && key in t && TrimSpace(t[key].runID) != ""
    && (TrimSpace(runID) == "" || TrimSpace(runID) == t[key].runID)
  }

  function Registered(t: Table, channel: string, chat: string, runID: string, ctx: Option<nat>): Table {
    if RunKey(channel, chat) == "" || TrimSpace(runID) == "" then t
    else t[RunKey(channel, chat) := Active(runID, ctx, false, "")]
  }

  function Unregistered(t: Table, channel: string, chat: string, runID: string): Table {
    var key := RunKey(channel, chat);
    if key == "" || TrimSpace(runID) == "" then t
    else if key in t && t[key].runID == runID then t - {key} else t
  }

  function CancelRequested(t: Table, channel: string, chat: string, runID: string, reason: string): Table {
    var key := RunKey(channel, chat);
    if !Hits(t, channel, chat, runID) then t
    else t[key := t[key].(stopRequested := true, stopReason := NormalReason(reason))]
  }

  /** The reason to stop, if the run is the registered one and was asked to stop. */
  function StopState(t: Table, channel: string, chat: string, runID: string): Option<string> {
    var key := RunKey(channel, chat);
    if key == "" || TrimSpace(runID) == "" || key !in t || t[key].runID != runID || !t[key].stopRequested then None
    else Some(NormalReason(t[key].stopReason))
  }

  class Controller {
    var activeRuns: Table
    var cancelled: set<nat>

    constructor ()
      ensures activeRuns == map[] && cancelled == {}
    {
      activeRuns, cancelled := map[], {};
    }

    method CancelRun(channel: string, chatID: string, runID: string, reason: string) returns (r: CancelResult)
      modifies this
      ensures activeRuns == CancelRequested(old(activeRuns), channel, chatID, runID, reason)
      ensures r.Stopped? == Hits(old(activeRuns), channel, chatID, runID)
      ensures r.NoActiveRun? <==>
        var key := RunKey(channel, chatID);
        key == "" || key !in old(activeRuns) || TrimSpace(old(activeRuns)[key].runID) == ""
      ensures r.Stopped? ==> r.runID == old(activeRuns)[RunKey(channel, chatID)].runID
      ensures r.RunMismatch? ==> RunKey(channel, chatID) in old(activeRuns)
      ensures r.RunMismatch? ==> r.active == old(activeRuns)[RunKey(channel, chatID)].runID != TrimSpace(runID)
      ensures cancelled == old(cancelled)
        + if r.Stopped? && old(activeRuns)[RunKey(channel, chatID)].ctx.Some?
          then {old(activeRuns)[RunKey(channel, chatID)].ctx.value} else {}
    {
      hide TrimSpace;
      var key := RunKey(channel, chatID);
      if key == "" {
        return NoActiveRun;
      }
      var wanted := TrimSpace(runID);
      if key !in activeRuns || TrimSpace(activeRuns[key].runID) == "" {
        return NoActiveRun;
      }
      var state := activeRuns[key];
      if wanted != "" && wanted != state.runID {
        return RunMismatch(state.runID);
      }
      activeRuns := activeRuns[key := state.(stopRequested := true, stopReason := NormalReason(reason))];
      if state.ctx.Some? {
        cancelled := cancelled + {state.ctx.value};
      }
      return Stopped(state.runID);
    }

    method RegisterActiveRun(channel: string, chatID: string, runID: string, ctx: Option<nat>)
      modifies this`activeRuns
      ensures activeRuns == Registered(old(activeRuns), channel, chatID, runID, ctx)
    {
      var key := RunKey(channel, chatID);
      if key == "" || TrimSpace(runID) == "" {
        return;
      }
      activeRuns := activeRuns[key := Active(runID, ctx, false, "")];
    }

    method UnregisterActiveRun(channel: string, chatID: string, runID: string)
      modifies this`activeRuns
      ensures activeRuns == Unregistered(old(activeRuns), channel, chatID, runID)
    {
      var key := RunKey(channel, chatID);
      if key == "" || TrimSpace(runID) == "" {
        return;
      }
      if key in activeRuns && activeRuns[key].runID == runID {
        activeRuns := activeRuns - {key};
      }
    }

    method RunCancelState(channel: string, chatID: string, runID: string) returns (stopped: bool, reason: string)
      ensures stopped == StopState(activeRuns, channel, chatID, runID).Some?
      ensures reason == if stopped then StopState(activeRuns, channel, chatID, runID).value else ""
    {
      var key := RunKey(channel, chatID);
      if key == "" || TrimSpace(runID) == "" {
        return false, "";
      }
      if key !in activeRuns {
        return false, "";
      }
      var state := activeRuns[key];
      if state.runID != runID || !state.stopRequested {
        return false, "";
      }
      return true, NormalReason(state.stopReason);
    }

    /** A stop request comes before a context that is done for any other reason. */
    method RunCancelCheckpoint(done: bool, channel: string, chatID: string, runID: string) returns (r: CheckResult)
      ensures var stop := StopState(activeRuns, channel, chatID, runID);
        r == if stop.Some? then RunCancelled(stop.value) else if done then ContextDone else Continue
    {
      var stopped, reason := RunCancelState(channel, chatID, runID);
      if stopped {
        return RunCancelled(reason);
      }
      return if done then ContextDone else Continue;
    }
  }
}
