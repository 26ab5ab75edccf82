/** The stages that make a turn's list fit the context budget, and what they keep. */
module Compaction {
  import opened Basics
  import opened Messages
  import opened EmergencyTrim
  import opened Dispatch
  import DispatchProofs

  /** `maxPasses` and `preserveRecent` after defaults. */
  datatype Guard = Guard(enabled: bool, ratio: real, maxPasses: int, preserveRecent: int)

  function StageCount(force: bool): nat {
    if force then 1 else 3
  }

  function Passes(guard: Guard, force: bool): nat {
    if guard.maxPasses < 0 then 0
    else if StageCount(force) < guard.maxPasses then StageCount(force)
    else guard.maxPasses
  }

  /** The list after i stages: pruned, then rebuilt from the summarized session, then cut. */
  function AfterStages(ms: seq<Message>, rebuilt: seq<Message>, guard: Guard, force: bool, i: nat): seq<Message>
    requires i <= StageCount(force)
  {
    if i == 0 then ms
    else if force || i == 3 then
      Trimmed(AfterStages(ms, rebuilt, guard, force, i - 1), guard.ratio, guard.preserveRecent)
    else if i == 1 then Pruned(ms, guard.preserveRecent)
    else rebuilt
  }

  ghost predicate NoneFits(
    ms: seq<Message>, rebuilt: seq<Message>, guard: Guard, force: bool, fits: seq<Message> -> bool, n: nat)
    requires n <= StageCount(force)
  {
    forall i :: 1 <= i <= n ==> !fits(AfterStages(ms, rebuilt, guard, force, i))
  }

  /** r is what stage i gives, and the first that fits. */
  ghost predicate FirstToFit(
    ms: seq<Message>, rebuilt: seq<Message>, guard: Guard, force: bool, fits: seq<Message> -> bool, i: nat,
    r: seq<Message>)
  {
    && 1 <= i <= Passes(guard, force) && r == AfterStages(ms, rebuilt, guard, force, i)
    && fits(r) && NoneFits(ms, rebuilt, guard, force, fits, i - 1)
  }

  /** `fits` tells whether the predicted tokens stay within the limit; None stands for the error that they do not. */
  method CompactToBudget(
    messages: seq<Message>, rebuilt: seq<Message>, guard: Guard, force: bool, fits: seq<Message> -> bool)
    returns (r: Option<seq<Message>>)
    ensures !guard.enabled || (fits(messages) && !force) ==> r == Some(messages)
    ensures guard.enabled && (force || !fits(messages)) ==>
      if r.None? then NoneFits(messages, rebuilt, guard, force, fits, Passes(guard, force))
      else exists i: nat :: FirstToFit(messages, rebuilt, guard, force, fits, i, r.value)
    ensures guard.enabled && force ==>
      var cut := Trimmed(messages, guard.ratio, guard.preserveRecent);
      r == if 1 <= guard.maxPasses && fits(cut) then Some(cut) else None
    ensures guard.enabled && !force && !fits(messages) ==>
      var pruned := Pruned(messages, guard.preserveRecent);
      var cut := Trimmed(rebuilt, guard.ratio, guard.preserveRecent);
      r == if 1 <= guard.maxPasses && fits(pruned) then Some(pruned)
           else if 2 <= guard.maxPasses && fits(rebuilt) then Some(rebuilt)
           else if 3 <= guard.maxPasses && fits(cut) then Some(cut)
           else None
  {
    hide Trimmed, Pruned;
    if !guard.enabled {
      return Some(messages);
    }
    if fits(messages) && !force {
      return Some(messages);
    }
    var working := messages;
    var passes := guard.maxPasses;
    if StageCount(force) < passes {
      passes := StageCount(force);
    }
    var i := 0;
    while i < passes
      invariant 0 <= i <= Passes(guard, force)
      invariant working == AfterStages(messages, rebuilt, guard, force, i)
      invariant NoneFits(messages, rebuilt, guard, force, fits, i)
      invariant 1 <= i && force ==> !fits(Trimmed(messages, guard.ratio, guard.preserveRecent))
      invariant 1 <= i && !force ==> !fits(Pruned(messages, guard.preserveRecent))
      invariant i == 2 ==> working == rebuilt && !fits(rebuilt)
      invariant i == 3 ==> !fits(rebuilt) && !fits(Trimmed(rebuilt, guard.ratio, guard.preserveRecent))
    {
      if force || i == 2 {
        working := EmergencyTrimMessages(working, guard.ratio, guard.preserveRecent);
      } else if i == 0 {
        var changed;
        working, changed := PruneLowValueHistoricalPayloads(working, guard.preserveRecent);
      } else {
        working := rebuilt;
      }
      i := i + 1;
      if fits(working) {
        assert FirstToFit(messages, rebuilt, guard, force, fits, i, working);
        return Some(working);
      }
    }
    return None;
  }

  /** Whatever stage the list comes from, it can be sent: if the first list could be, and the rebuilt one could be. */
  lemma {:induction false} StagesKeepWaiting(ms: seq<Message>, rebuilt: seq<Message>, guard: Guard, force: bool, i: nat)
    requires i <= StageCount(force) && Waiting(ms) && Waiting(rebuilt)
    ensures Waiting(AfterStages(ms, rebuilt, guard, force, i))
    decreases i
  {
    hide Waiting, Trimmed, Pruned;
    if i != 0 {
      var before := AfterStages(ms, rebuilt, guard, force, i - 1);
      StagesKeepWaiting(ms, rebuilt, guard, force, i - 1);
      TrimKeepsWaiting(before, guard.ratio, guard.preserveRecent);
      PruneKeepsWaiting(ms, guard.preserveRecent);
    }
  }

  lemma TrimKeepsWaiting(ms: seq<Message>, ratio: real, recent: int)
    requires Waiting(ms)
    ensures Waiting(Trimmed(ms, ratio, recent))
  {
    hide Ready, TrimStart;
    if Ready(ms) {
      DispatchProofs.EmergencyKeepsReady(ms, ratio, recent);
    }
  }

  lemma PruneKeepsWaiting(ms: seq<Message>, recent: int)
    requires Waiting(ms)
    ensures Waiting(Pruned(ms, recent))
  {
    hide Ready, PruneOne;
    if Ready(ms) {
      DispatchProofs.PruneKeepsReady(ms, recent);
    } else {
      assert Pruned(ms, recent)[0] == ms[0];
    }
  }
}
