/** Which runs a stop request reaches, in any interleaving of calls. */
module RunControlProofs {
  import opened Basics
  import opened Text
  import opened RunControl

  /** The calls that change the table; each holds the lock, so any interleaving is a sequence of them. */
  datatype Call =
    | Register(channel: string, chat: string, runID: string, ctx: Option<nat>)
    | Unregister(channel: string, chat: string, runID: string)
    | Cancel(channel: string, chat: string, runID: string, reason: string)

  function Apply(t: Table, c: Call): Table {
    match c
    case Register(channel, chat, runID, ctx) => Registered(t, channel, chat, runID, ctx)
    case Unregister(channel, chat, runID) => Unregistered(t, channel, chat, runID)
    case Cancel(channel, chat, runID, reason) => CancelRequested(t, channel, chat, runID, reason)
  }

  function After(calls: seq<Call>): Table {
    if calls == [] then map[] else Apply(After(calls[..|calls| - 1]), calls[|calls| - 1])
  }

  function KeyOf(c: Call): string {
    RunKey(c.channel, c.chat)
  }

  /** Call i is a cancel request that reaches this run, which is registered under the key at that moment. */
  ghost predicate HitAt(calls: seq<Call>, i: nat, key: string, runID: string)
    requires i < |calls|
  {
    var t := After(calls[..i]);
    AsksFor(calls[i], key, runID) && key in t && t[key].runID == runID
  }

  /** A request under the key that names this run, or none. */
  predicate AsksFor(c: Call, key: string, runID: string) {
    && c.Cancel? && key != "" && KeyOf(c) == key && !AllSpace(runID)
    && (AllSpace(c.runID) || TrimSpace(c.runID) == runID)
  }

  predicate AllSpace(s: string) {
    forall i :: 0 <= i < |s| ==> IsSpace(s[i])
  }

  lemma BlankIff(s: string)
    ensures TrimSpace(s) == "" <==> AllSpace(s)
  {
    TrimsToNothingIff(s);
  }

  /** The request reaches the registered run exactly if it asks for it. */
  lemma HitsIff(t: Table, c: Call)
    requires c.Cancel?
    ensures var key := KeyOf(c);
      Hits(t, c.channel, c.chat, c.runID) <==> key in t && AsksFor(c, key, t[key].runID)
  {
    var key := KeyOf(c);
    BlankIff(c.runID);
    if key in t {
      BlankIff(t[key].runID);
    }
    hide TrimSpace, RunKey, AllSpace;
  }

  ghost predicate WasHit(calls: seq<Call>, key: string, runID: string) {
    exists i :: 0 <= i < |calls| && HitAt(calls, i, key, runID)
  }

  /** No run id is registered twice. */
  ghost predicate FreshIds(calls: seq<Call>) {
    forall i, j :: 0 <= i < j < |calls| && calls[i].Register? && calls[j].Register? ==> calls[i].runID != calls[j].runID
  }

  ghost predicate RegisteredIn(calls: seq<Call>, key: string, runID: string) {
    exists i :: 0 <= i < |calls| && calls[i].Register? && KeyOf(calls[i]) == key && calls[i].runID == runID
  }

  lemma AfterSnoc(calls: seq<Call>, c: Call)
    ensures After(calls + [c]) == Apply(After(calls), c)
  {
  }

  lemma HitSnoc(calls: seq<Call>, c: Call, key: string, runID: string)
    ensures WasHit(calls + [c], key, runID) <==> WasHit(calls, key, runID) || HitAt(calls + [c], |calls|, key, runID)
  {
    hide After, AsksFor, RunKey;
    var all := calls + [c];
    forall i | 0 <= i < |calls|
      ensures HitAt(all, i, key, runID) == HitAt(calls, i, key, runID)
    {
      assert all[..i] == calls[..i];
    }
  }

  /** The registered run of every key came there by its registration, and its stop flag tells whether it was hit. */
  ghost predicate Honest(calls: seq<Call>) {
    forall key :: key in After(calls) ==> HonestAt(calls, key)
  }

  ghost predicate HonestAt(calls: seq<Call>, key: string)
    requires key in After(calls)
  {
    var a := After(calls)[key];
    && RegisteredIn(calls, key, a.runID) && a.stopRequested == WasHit(calls, key, a.runID)
  }

  lemma RegisteredSnoc(calls: seq<Call>, c: Call, key: string, runID: string)
    requires RegisteredIn(calls, key, runID)
    ensures RegisteredIn(calls + [c], key, runID)
  {
    hide RunKey;
    var i :| 0 <= i < |calls| && calls[i].Register? && KeyOf(calls[i]) == key && calls[i].runID == runID;
    assert (calls + [c])[i] == calls[i];
  }

  /** Only runs that were registered can have been hit. */
  lemma HitsAreRegistered(calls: seq<Call>, i: nat, key: string, runID: string)
    requires i < |calls|
    ensures Honest(calls[..i]) && HitAt(calls, i, key, runID) ==> RegisteredIn(calls, key, runID)
  {
    hide RunKey, AsksFor, After;
    if Honest(calls[..i]) && HitAt(calls, i, key, runID) {
      assert HonestAt(calls[..i], key);
      var j :| 0 <= j < i && calls[..i][j].Register? && KeyOf(calls[..i][j]) == key && calls[..i][j].runID == runID;
      assert calls[j] == calls[..i][j];
    }
  }

  ghost predicate AlwaysHonest(calls: seq<Call>) {
    forall i :: 0 <= i <= |calls| ==> Honest(calls[..i])
  }

  lemma NewIsNotRegistered(calls: seq<Call>, c: Call, key: string)
    requires c.Register? && FreshIds(calls + [c])
    ensures !RegisteredIn(calls, key, c.runID)
  {
    hide RunKey;
    var all := calls + [c];
    assert all[|calls|] == c;
    forall i | 0 <= i < |calls| && calls[i].Register?
      ensures calls[i].runID != c.runID
    {
      assert all[i] == calls[i];
    }
  }

  /** A new id has not been hit before. */
  lemma NewIsNotHit(calls: seq<Call>, c: Call, key: string)
    requires AlwaysHonest(calls) && c.Register? && FreshIds(calls + [c])
    ensures !WasHit(calls, key, c.runID)
  {
    hide Honest, RunKey;
    if WasHit(calls, key, c.runID) {
      var i :| 0 <= i < |calls| && HitAt(calls, i, key, c.runID);
      HitsAreRegistered(calls, i, key, c.runID);
      NewIsNotRegistered(calls, c, key);
    }
  }

  /** An entry behind a call was just registered, or was there before with the flag it had, unless the call hits it. */
  lemma EntryBehind(t: Table, c: Call, key: string)
    requires key in Apply(t, c)
    ensures var a := Apply(t, c)[key];
      || (c.Register? && KeyOf(c) == key && a.runID == c.runID && !a.stopRequested)
      || (key in t && a.runID == t[key].runID
          && a.stopRequested == (t[key].stopRequested || AsksFor(c, key, a.runID))
          && a.stopReason == if AsksFor(c, key, a.runID) then NormalReason(c.reason) else t[key].stopReason)
  {
    if c.Cancel? {
      HitsIff(t, c);
    }
    hide RunKey, TrimSpace, AllSpace, NormalReason;
  }

  lemma HonestStep(calls: seq<Call>, c: Call, key: string)
    requires AlwaysHonest(calls) && FreshIds(calls + [c]) && key in After(calls + [c])
    ensures HonestAt(calls + [c], key)
  {
    var all, t := calls + [c], After(calls);
    AfterSnoc(calls, c);
    assert calls[..|calls|] == calls && all[..|calls|] == calls && all[|calls|] == c;
    assert Honest(calls[..|calls|]);
    EntryBehind(t, c, key);
    var a := After(all)[key];
    HitSnoc(calls, c, key, a.runID);
    hide RunKey, TrimSpace, After, WasHit, NormalReason, AsksFor, Apply, AlwaysHonest, FreshIds;
    if c.Register? && KeyOf(c) == key && a.runID == c.runID && !a.stopRequested {
      NewIsNotHit(calls, c, key);
      assert RegisteredIn(all, key, a.runID);
    } else {
      assert HonestAt(calls, key);
      RegisteredSnoc(calls, c, key, a.runID);
    }
  }

  lemma {:induction false} CallsAreHonest(calls: seq<Call>)
    requires FreshIds(calls)
    ensures AlwaysHonest(calls)
  {
    if calls == [] {
      assert forall i :: 0 <= i <= |calls| ==> calls[..i] == [];
    } else {
      var n := |calls| - 1;
      var before, c := calls[..n], calls[n];
      assert calls == before + [c];
      CallsAreHonest(before);
      hide Honest, After;
      assert Honest(calls) by {
        HonestNow(before, c);
      }
      forall i | 0 <= i <= |calls|
        ensures Honest(calls[..i])
      {
        if i <= n {
          assert calls[..i] == before[..i];
        } else {
          assert calls[..i] == calls;
        }
      }
    }
  }

  lemma HonestNow(calls: seq<Call>, c: Call)
    requires AlwaysHonest(calls) && FreshIds(calls + [c])
    ensures Honest(calls + [c])
  {
    hide AlwaysHonest, HonestAt, After;
    forall key | key in After(calls + [c])
      ensures HonestAt(calls + [c], key)
    {
      HonestStep(calls, c, key);
    }
  }

  /**
   * In every interleaving with fresh run ids, a run is told to stop if and only if it is the one registered under its
   * key and a cancel request reached it while it was.
   */
  lemma StopsIffHit(calls: seq<Call>, channel: string, chat: string, runID: string)
    requires FreshIds(calls)
    ensures var key := RunKey(channel, chat);
      StopState(After(calls), channel, chat, runID).Some?
      <==> key != "" && TrimSpace(runID) != "" && key in After(calls) && After(calls)[key].runID == runID
           && WasHit(calls, key, runID)
  {
    CallsAreHonest(calls);
    assert calls[..|calls|] == calls && Honest(calls[..|calls|]);
    hide RunKey, TrimSpace, After, WasHit, AlwaysHonest, NormalReason;
    var key := RunKey(channel, chat);
    assert key in After(calls) ==> HonestAt(calls, key);
  }

  // Told from the calls alone

  /** The call registers the run; blank keys and ids are ignored. */
  predicate Registers(c: Call, key: string, runID: string) {
    c.Register? && key != "" && KeyOf(c) == key && c.runID == runID && !AllSpace(runID)
  }

  /** Another run takes the key, or this one is unregistered. */
  predicate Ends(c: Call, key: string, runID: string) {
    KeyOf(c) == key && ((c.Register? && !AllSpace(c.runID)) || (c.Unregister? && c.runID == runID))
  }

  ghost predicate RegisteredAt(calls: seq<Call>, i: nat, key: string, runID: string) {
    i < |calls| && Registers(calls[i], key, runID) && forall j :: i < j < |calls| ==> !Ends(calls[j], key, runID)
  }

  /** Call i registered the run, it is registered still, and call j asked for it since. */
  ghost predicate AskedAt(calls: seq<Call>, i: nat, j: nat, key: string, runID: string) {
    RegisteredAt(calls, i, key, runID) && i < j < |calls| && AsksFor(calls[j], key, runID)
  }

  ghost predicate IsRegistered(calls: seq<Call>, key: string, runID: string) {
    exists i :: RegisteredAt(calls, i, key, runID)
  }

  ghost predicate IsAsked(calls: seq<Call>, key: string, runID: string) {
    exists i, j :: AskedAt(calls, i, j, key, runID)
  }

  lemma RegisteredAtSnoc(calls: seq<Call>, c: Call, i: nat, key: string, runID: string)
    ensures RegisteredAt(calls + [c], i, key, runID) <==>
      if i < |calls| then RegisteredAt(calls, i, key, runID) && !Ends(c, key, runID)
      else i == |calls| && Registers(c, key, runID)
  {
    hide Registers, Ends;
    var all := calls + [c];
    assert all[|calls|] == c && forall j :: 0 <= j < |calls| ==> all[j] == calls[j];
  }

  lemma RegisteredIffSnoc(calls: seq<Call>, c: Call, key: string, runID: string)
    ensures IsRegistered(calls + [c], key, runID) <==>
      Registers(c, key, runID) || (IsRegistered(calls, key, runID) && !Ends(c, key, runID))
  {
    hide RegisteredAt, Registers, Ends;
    RegisteredAtSnoc(calls, c, |calls|, key, runID);
    forall i: nat
      ensures RegisteredAt(calls + [c], i, key, runID) <==>
        if i < |calls| then RegisteredAt(calls, i, key, runID) && !Ends(c, key, runID)
        else i == |calls| && Registers(c, key, runID)
    {
      RegisteredAtSnoc(calls, c, i, key, runID);
    }
    assert forall i: nat :: RegisteredAt(calls, i, key, runID) ==> i < |calls| by {
      RegisteredInside(calls, key, runID);
    }
  }

  lemma RegisteredInside(calls: seq<Call>, key: string, runID: string)
    ensures forall i: nat :: RegisteredAt(calls, i, key, runID) ==> i < |calls|
  {
  }

  lemma AskedIffSnoc(calls: seq<Call>, c: Call, key: string, runID: string)
    ensures IsAsked(calls + [c], key, runID) <==>
      && !Ends(c, key, runID)
      && (IsAsked(calls, key, runID) || (IsRegistered(calls, key, runID) && AsksFor(c, key, runID)))
  {
    hide RegisteredAt, Registers, Ends, AsksFor;
    var all := calls + [c];
    RegisteredInside(calls, key, runID);
    RegisteredInside(all, key, runID);
    forall i: nat | i < |calls|
      ensures RegisteredAt(all, i, key, runID) <==> RegisteredAt(calls, i, key, runID) && !Ends(c, key, runID)
    {
      RegisteredAtSnoc(calls, c, i, key, runID);
    }
    if i: nat, j: nat :| AskedAt(calls, i, j, key, runID) {
      assert !Ends(c, key, runID) ==> AskedAt(all, i, j, key, runID);
    }
    if i: nat :| RegisteredAt(calls, i, key, runID) {
      assert !Ends(c, key, runID) && AsksFor(c, key, runID) ==> AskedAt(all, i, |calls|, key, runID);
    }
    if i: nat, j: nat :| AskedAt(all, i, j, key, runID) {
      assert j < |calls| ==> AskedAt(calls, i, j, key, runID);
    }
  }

  ghost predicate IsIn(t: Table, key: string, runID: string) {
    key in t && t[key].runID == runID
  }

  lemma EntryIs(t: Table, c: Call, key: string, runID: string)
    requires IsIn(t, key, runID) ==> key != "" && !AllSpace(runID)
    ensures IsIn(Apply(t, c), key, runID) <==> Registers(c, key, runID) || (IsIn(t, key, runID) && !Ends(c, key, runID))
    ensures IsIn(Apply(t, c), key, runID) ==>
      (Apply(t, c)[key].stopRequested <==>
       !Ends(c, key, runID) && (t[key].stopRequested || AsksFor(c, key, runID)))
  {
    BlankIff(c.runID);
    BlankIff(runID);
    if c.Cancel? {
      HitsIff(t, c);
    }
    hide TrimSpace, AllSpace, NormalReason, RunKey;
  }

  /** The table holds the runs that are registered, and marks those that were asked for. */
  lemma {:induction false} TableIs(calls: seq<Call>, key: string, runID: string)
    ensures IsIn(After(calls), key, runID) <==> IsRegistered(calls, key, runID)
    ensures IsIn(After(calls), key, runID) ==> (After(calls)[key].stopRequested <==> IsAsked(calls, key, runID))
  {
    if calls == [] {
      RegisteredInside([], key, runID);
    } else {
      var before, c := calls[..|calls| - 1], calls[|calls| - 1];
      assert calls == before + [c];
      TableIs(before, key, runID);
      RegisteredIffSnoc(before, c, key, runID);
      AskedIffSnoc(before, c, key, runID);
      assert IsRegistered(before, key, runID) ==> key != "" && !AllSpace(runID);
      EntryIs(After(before), c, key, runID);
      hide Registers, Ends, AsksFor, Apply, IsRegistered, IsAsked;
    }
  }

  /**
   * In every interleaving: a run is told to stop if and only if one of the calls registered it, it was not unregistered
   * or replaced since, and a request for it came in since.
   */
  lemma StopsIffAsked(calls: seq<Call>, channel: string, chat: string, runID: string)
    ensures StopState(After(calls), channel, chat, runID).Some? <==> IsAsked(calls, RunKey(channel, chat), runID)
  {
    var key := RunKey(channel, chat);
    TableIs(calls, key, runID);
    BlankIff(runID);
    hide After, RunKey, TrimSpace;
    if i: nat, j: nat :| AskedAt(calls, i, j, key, runID) {
      assert IsRegistered(calls, key, runID);
    }
  }

  /** The key of a channel and a chat is made of both without the white space around them; a blank one gives none. */
  lemma KeyIs(channel: string, chat: string)
    ensures RunKey(channel, chat) == "" <==> AllSpace(channel) || AllSpace(chat)
    ensures RunKey(channel, chat) != "" ==>
      exists a, b :: Trims(channel, a) && Trims(chat, b) && RunKey(channel, chat) == a + ":" + b
  {
    BlankIff(channel);
    BlankIff(chat);
    TrimSpaceTrims(channel);
    TrimSpaceTrims(chat);
    hide TrimSpace, Trims, AllSpace;
  }

  /** The reason that is told: the request's own without white space around it, or a fixed one for none. */
  lemma ReasonIs(reason: string)
    ensures if AllSpace(reason) then NormalReason(reason) == "Stopped by user." else Trims(reason, NormalReason(reason))
  {
    BlankIff(reason);
    TrimSpaceTrims(reason);
    hide TrimSpace, Trims, AllSpace;
  }

  /** A request that names a run changes no entry of another run. */
  lemma NamedCancelSparesOthers(t: Table, channel: string, chat: string, runID: string, reason: string, key: string)
    requires key in t && TrimSpace(runID) != "" && t[key].runID != TrimSpace(runID)
    ensures var u := CancelRequested(t, channel, chat, runID, reason); key in u && u[key] == t[key]
    ensures Hits(t, channel, chat, runID) ==> RunKey(channel, chat) != key
  {
  }

  /** Unregistering removes its own run and nothing else, in particular not a successor under the same key. */
  lemma UnregisterRemovesOnlyItsRun(t: Table, channel: string, chat: string, runID: string, key: string)
    requires key in t
    ensures key !in Unregistered(t, channel, chat, runID)
      <==> key != "" && key == RunKey(channel, chat) && TrimSpace(runID) != "" && t[key].runID == runID
    ensures key in Unregistered(t, channel, chat, runID) ==> Unregistered(t, channel, chat, runID)[key] == t[key]
  {
  }

  // Keys

  predicate Trimmed(s: string) {
    s != "" && TrimSpace(s) == s
  }

  lemma KeyOfTrimmed(channel: string, chat: string)
    requires Trimmed(channel) && Trimmed(chat)
    ensures RunKey(channel, chat) == channel + ":" + chat
  {
  }

  ghost predicate ColonMoved(channel: string, chat: string, channel': string, chat': string) {
    exists p :: channel' == channel + ":" + p && chat == p + ":" + chat'
  }

  lemma SameFront(a: string, b: string, c: string)
    requires a + b == a + c
    ensures b == c
  {
    assert (a + b)[|a|..] == b && (a + c)[|a|..] == c;
  }

  /** When two pairs share a key: they are equal, or a colon moved from one channel to the other chat. */
  lemma SameKeyIff(channel: string, chat: string, channel': string, chat': string)
    requires Trimmed(channel) && Trimmed(chat) && Trimmed(channel') && Trimmed(chat') && |channel| <= |channel'|
    ensures RunKey(channel, chat) == RunKey(channel', chat') <==>
      (channel == channel' && chat == chat') || ColonMoved(channel, chat, channel', chat')
  {
    KeyOfTrimmed(channel, chat);
    KeyOfTrimmed(channel', chat');
    hide RunKey, Trimmed;
    var k, k' := channel + ":" + chat, channel' + ":" + chat';
    if k == k' {
      SplitAtColon(channel, chat, channel', chat');
    }
    if ColonMoved(channel, chat, channel', chat') {
      var p :| channel' == channel + ":" + p && chat == p + ":" + chat';
      assert k == k';
    }
  }

  lemma SplitAtColon(a: string, b: string, a': string, b': string)
    requires a + ":" + b == a' + ":" + b' && |a| <= |a'|
    ensures (a == a' && b == b') || ColonMoved(a, b, a', b')
  {
    var n := |a|;
    var k := a + ":" + b;
    assert a == k[..n] == a'[..n];
    if n == |a'| {
      SameFront(a + ":", b, b');
    } else {
      assert k[n] == ':' == a'[n];
      var p := a'[n + 1..];
      assert a' == a + ":" + p;
      assert (a + ":") + b == (a + ":") + (p + ":" + b');
      SameFront(a + ":", b, p + ":" + b');
    }
  }

  /** Between channels without a colon, a key stands for one channel and chat. */
  lemma KeysAreUnique(channel: string, chat: string, channel': string, chat': string)
    requires Trimmed(channel) && Trimmed(chat) && Trimmed(channel') && Trimmed(chat')
    requires ':' !in channel && ':' !in channel' && RunKey(channel, chat) == RunKey(channel', chat')
    ensures channel == channel' && chat == chat'
  {
    hide RunKey, Trimmed;
    if |channel| <= |channel'| {
      SameKeyIff(channel, chat, channel', chat');
    } else {
      SameKeyIff(channel', chat', channel, chat);
    }
    assert forall c: string, p: string :: ':' in c + ":" + p;
  }

  /** Whenever a colon can move, a request for one chat stops the run of another. */
  lemma ColonsCollide(channel: string, p: string, chat: string, runID: string, wanted: string, reason: string)
    requires Trimmed(channel) && Trimmed(chat) && Trimmed(runID)
    requires Trimmed(channel + ":" + p) && Trimmed(p + ":" + chat)
    requires TrimSpace(wanted) == ""
    ensures var calls :=
        [Register(channel + ":" + p, chat, runID, None), Cancel(channel, p + ":" + chat, wanted, reason)];
      StopState(After(calls), channel + ":" + p, chat, runID).Some?
  {
    var first := Register(channel + ":" + p, chat, runID, None);
    var second := Cancel(channel, p + ":" + chat, wanted, reason);
    assert [first, second] == [first] + [second] && [first] == [] + [first];
    AfterSnoc([], first);
    AfterSnoc([first], second);
    KeyOfTrimmed(channel + ":" + p, chat);
    KeyOfTrimmed(channel, p + ":" + chat);
    assert (channel + ":" + p) + ":" + chat == channel + ":" + (p + ":" + chat);
    assert After([]) == map[];
    hide RunKey, TrimSpace, After, NormalReason;
  }

  /** Between channels without a colon, the request that stopped a run was made for its channel and chat. */
  lemma StopNamesItsChat(c: Call, channel: string, chat: string)
    requires c.Cancel? && KeyOf(c) == RunKey(channel, chat) != ""
    requires ':' !in TrimSpace(channel) && ':' !in TrimSpace(c.channel)
    ensures TrimSpace(c.channel) == TrimSpace(channel) && TrimSpace(c.chat) == TrimSpace(chat)
  {
    TrimSpaceTwice(channel);
    TrimSpaceTwice(chat);
    TrimSpaceTwice(c.channel);
    TrimSpaceTwice(c.chat);
    hide TrimSpace;
    KeysAreUnique(TrimSpace(channel), TrimSpace(chat), TrimSpace(c.channel), TrimSpace(c.chat));
  }

  /** Call i reached the run, and no later call did. */
  ghost predicate LastHit(calls: seq<Call>, i: nat, key: string, runID: string) {
    && i < |calls| && HitAt(calls, i, key, runID)
    && forall j :: i < j < |calls| ==> !HitAt(calls, j, key, runID)
  }

  lemma LastHitSnoc(calls: seq<Call>, c: Call, i: nat, key: string, runID: string)
    requires LastHit(calls, i, key, runID) && !HitAt(calls + [c], |calls|, key, runID)
    ensures LastHit(calls + [c], i, key, runID)
  {
    hide After, AsksFor, RunKey;
    var all := calls + [c];
    forall j | 0 <= j < |calls|
      ensures HitAt(all, j, key, runID) == HitAt(calls, j, key, runID)
    {
      assert all[..j] == calls[..j];
    }
  }

  /** A run that was asked to stop holds the reason of the last request that reached it. */
  lemma {:induction false} HoldsLastReason(calls: seq<Call>, key: string) returns (i: nat)
    requires key in After(calls) && After(calls)[key].stopRequested
    ensures LastHit(calls, i, key, After(calls)[key].runID)
    ensures After(calls)[key].stopReason == NormalReason(calls[i].reason)
    decreases |calls|
  {
    var before, c := calls[..|calls| - 1], calls[|calls| - 1];
    assert calls == before + [c];
    AfterSnoc(before, c);
    var t := After(before);
    EntryBehind(t, c, key);
    hide RunKey, TrimSpace, After, NormalReason, AsksFor, Apply;
    assert calls[..|before|] == before;
    if AsksFor(c, key, After(calls)[key].runID) {
      i := |before|;
    } else {
      i := HoldsLastReason(before, key);
      LastHitSnoc(before, c, i, key, After(calls)[key].runID);
    }
  }

  /** The run is told the reason of the request that reached it last, whatever calls came before and since. */
  lemma StopTellsLastReason(calls: seq<Call>, channel: string, chat: string, runID: string, i: nat)
    requires LastHit(calls, i, RunKey(channel, chat), runID)
    ensures var stop := StopState(After(calls), channel, chat, runID);
      stop.Some? ==> stop.value == NormalReason(calls[i].reason)
  {
    var stop, key := StopState(After(calls), channel, chat, runID), RunKey(channel, chat);
    if stop.Some? {
      NormalReasonTwice(calls[i].reason);
      assert stop.value == NormalReason(After(calls)[key].stopReason);
      hide RunKey, TrimSpace, After, NormalReason, HitAt, StopState;
      var j := HoldsLastReason(calls, key);
      assert i == j;
    }
  }

  lemma NormalReasonTwice(reason: string)
    ensures NormalReason(NormalReason(reason)) == NormalReason(reason)
  {
    TrimSpaceTwice(reason);
    var d := DEFAULT_REASON;
    assert d[0] == 'S' && d[|d| - 1] == '.';
    NoSpaceAround(d);
    hide TrimSpace;
  }
}
