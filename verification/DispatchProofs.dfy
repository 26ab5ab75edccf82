/** Every list a turn sends is well-formed and waits for the assistant. */
module DispatchProofs {
  import opened Basics
  import opened Text
  import opened Messages
  import opened Sanitizer
  import opened Coherence
  import opened SanitizerResults
  import opened EmergencyTrim
  import opened Dispatch

  /** Equal but for the text. */
  ghost predicate SameShape(a: seq<Message>, b: seq<Message>) {
    |a| == |b| && forall i :: 0 <= i < |a| ==> SameButText(a[i], b[i])
  }

  predicate SameButText(m: Message, n: Message) {
    m.(content := "") == n.(content := "")
  }

  lemma {:induction false} SameToolRun(a: seq<Message>, b: seq<Message>)
    requires SameShape(a, b)
    ensures ToolRun(a) == ToolRun(b)
  {
    if a != [] {
      assert SameButText(a[0], b[0]);
      SameToolRun(a[1..], b[1..]);
    }
  }

  lemma SameAnswers(calls: seq<string>, a: seq<Message>, b: seq<Message>)
    requires SameShape(a, b) && Answers(calls, a)
    ensures Answers(calls, b)
  {
    SameAnswerIds(a, b);
    hide AnswerId, AnswerIds, SameShape;
  }

  lemma SameAnswerIds(a: seq<Message>, b: seq<Message>)
    requires SameShape(a, b)
    ensures AnswerIds(a) == AnswerIds(b)
    ensures forall i :: 0 <= i < |a| ==> AnswerId(a[i]) == AnswerId(b[i])
  {
    assert forall i :: 0 <= i < |a| ==> SameButText(a[i], b[i]) && AnswerId(a[i]) == AnswerId(b[i]);
    hide AnswerId, SameShape;
    SomeAnswerIds(a, b);
    SomeAnswerIds(b, a);
  }

  lemma SomeAnswerIds(a: seq<Message>, b: seq<Message>)
    requires |a| == |b| && forall i :: 0 <= i < |a| ==> AnswerId(a[i]) == AnswerId(b[i])
    ensures AnswerIds(a) <= AnswerIds(b)
  {
    AnswerIdsHas(a);
    AnswerIdsHas(b);
    hide AnswerId, AnswerIds;
    forall x | x in AnswerIds(a)
      ensures x in AnswerIds(b)
    {
      var i :| 0 <= i < |a| && AnswerId(a[i]) == x;
      assert AnswerId(b[i]) in AnswerIds(b);
    }
  }

  lemma ShapeSlice(a: seq<Message>, b: seq<Message>, i: nat, j: nat)
    requires SameShape(a, b) && i <= j <= |a|
    ensures SameShape(a[i..j], b[i..j]) && SameShape(a[i..], b[i..])
  {
  }

  /** Whether a list is well-formed does not depend on its texts. */
  lemma ShapeKeepsWellFormed(a: seq<Message>, b: seq<Message>)
    requires SameShape(a, b) && WellFormed(a)
    ensures WellFormed(b)
  {
    forall i | 0 <= i < |b|
      ensures WellFormedAt(b, i)
    {
      assert WellFormedAt(a, i) && SameButText(a[i], b[i]) && (0 < i ==> SameButText(a[i - 1], b[i - 1]));
      ShapeSlice(a, b, i + 1, |a|);
      var x, y := a[i + 1..], b[i + 1..];
      SameToolRun(x, y);
      ShapeSlice(x, y, 0, ToolRun(x));
      hide SameShape, Answers, ToolRun;
      assert x[0..ToolRun(x)] == x[..ToolRun(x)] && y[0..ToolRun(x)] == y[..ToolRun(x)];
      if CallTurn(a[i]) {
        SameAnswers(a[i].calls, x[..ToolRun(x)], y[..ToolRun(x)]);
      }
    }
  }

  lemma PruneKeepsShape(m: Message)
    ensures SameButText(m, PruneOne(m))
  {
  }

  lemma {:induction false} LatestUserExists(ms: seq<Message>)
    ensures 0 < LatestUser(ms) <==> exists i :: 0 < i < |ms| && ms[i].role.User?
  {
    LatestUserIs(ms);
    hide LatestUser;
  }

  lemma PruneKeepsReady(ms: seq<Message>, recent: int)
    requires Ready(ms)
    ensures Ready(Pruned(ms, recent))
  {
    var r := Pruned(ms, recent);
    forall i | 0 <= i < |ms|
      ensures SameButText(ms[i], r[i])
    {
      PruneKeepsShape(ms[i]);
    }
    LatestUserExists(ms);
    LatestUserExists(r);
    hide Pruned, LatestUser, WellFormed;
    ShapeSlice(ms, r, 1, |ms|);
    ShapeKeepsWellFormed(ms[1..], r[1..]);
    var u :| 0 < u < |ms| && ms[u].role.User?;
    assert SameButText(ms[u], r[u]) && SameButText(ms[|ms| - 1], r[|ms| - 1]) && SameButText(ms[0], r[0]);
  }

  lemma WellFormedFromUser(ms: seq<Message>, k: nat)
    requires k < |ms| && WellFormed(ms) && ms[k].role.User?
    ensures WellFormed(ms[k..])
  {
    forall i | 0 <= i < |ms| - k
      ensures WellFormedAt(ms[k..], i)
    {
      assert WellFormedAt(ms, k + i);
      assert AnsweredAt(ms, k + i);
      AnsweredShift(ms, k, i);
      if 0 < i {
        DraftedShift(ms, k, i);
      }
    }
  }

  lemma EmergencyKeepsReady(ms: seq<Message>, ratio: real, recent: int)
    requires Ready(ms)
    ensures Ready(Trimmed(ms, ratio, recent))
  {
    hide Trimmed, LatestUser, WellFormed, Subsequence;
    if 2 < |ms| {
      var u := LatestUser(ms);
      LatestUserIs(ms);
      WellFormedFromUserAt(ms, u);
      TrimmedIsWellFormed(ms, ratio, recent);
      TrimmedKeepsLatest(ms, ratio, recent);
      var t := Trimmed(ms, ratio, recent);
      var before :| t == before + ms[u..];
      assert t[|before|] == ms[u] && t[|t| - 1] == ms[|ms| - 1];
      LatestUserExists(t);
    } else {
      ShortIsKept(ms, ratio, recent);
    }
  }

  lemma ShortIsKept(ms: seq<Message>, ratio: real, recent: int)
    requires |ms| <= 2
    ensures Trimmed(ms, ratio, recent) == ms
  {
  }

  lemma WellFormedFromUserAt(ms: seq<Message>, u: nat)
    requires 0 < u < |ms| && WellFormed(ms[1..]) && ms[u].role.User?
    ensures WellFormed(ms[u..])
  {
    hide WellFormed;
    assert ms[1..][u - 1..] == ms[u..] && ms[1..][u - 1] == ms[u];
    WellFormedFromUser(ms[1..], u - 1);
  }

  lemma {:induction false} WithoutBlankConcat(a: seq<Message>, b: seq<Message>)
    ensures WithoutBlankReplies(a + b) == WithoutBlankReplies(a) + WithoutBlankReplies(b)
    decreases |b|
  {
    hide IsBlankReply;
    if b == [] {
      assert a + b == a;
    } else {
      var n := |b| - 1;
      assert (a + b)[..|a + b| - 1] == a + b[..n] && (a + b)[|a + b| - 1] == b[n];
      WithoutBlankConcat(a, b[..n]);
      assert (WithoutBlankReplies(a) + WithoutBlankReplies(b[..n])) + [b[n]]
          == WithoutBlankReplies(a) + (WithoutBlankReplies(b[..n]) + [b[n]]);
    }
  }

  lemma {:induction false} NoBlankReplies(ms: seq<Message>)
    requires forall i :: 0 <= i < |ms| ==> !IsBlankReply(ms[i])
    ensures WithoutBlankReplies(ms) == ms
  {
    if ms != [] {
      NoBlankReplies(ms[..|ms| - 1]);
    }
  }

  lemma CoherentAnyway(ms: seq<Message>)
    requires Coherent(false, ms)
    ensures Coherent(true, ms)
  {
  }

  lemma BlockWithoutBlank(ok: bool, ms: seq<Message>, rest: seq<Message>)
    requires ms != [] && Coherent(ok, ms)
    requires Coherent(if CallTurn(ms[0]) then true else ms[0].role.User?, rest)
    ensures Coherent(ok, WithoutBlankReplies(ms[..Width(ms)]) + rest)
  {
    var block := ms[..Width(ms)];
    if CallTurn(ms[0]) {
      var tools := ms[1..Width(ms)];
      ToolRunIs(ms[1..]);
      assert forall i :: 0 <= i < |tools| ==> tools[i] == ms[1..][i];
      assert [ms[0]] + tools == block;
      hide WithoutBlankReplies, Answers, ToolRun;
      NoBlankReplies(block);
      CoherentBlock(ms[0], tools, rest);
    } else {
      assert block == [ms[0]];
      BlankOrKept(ms[0]);
      hide WithoutBlankReplies, IsBlankReply;
      if WithoutBlankReplies([ms[0]]) == [] {
        assert [] + rest == rest;
        if ok {
          CoherentAnyway(rest);
        }
      } else {
        CoherentFree(ms[0], rest);
      }
    }
  }

  /** Leaving out replies that say nothing keeps a list coherent. */
  lemma {:induction false} WithoutBlankCoheres(ok: bool, ms: seq<Message>)
    requires Coherent(ok, ms)
    ensures Coherent(ok, WithoutBlankReplies(ms))
    decreases |ms|
  {
    if ms == [] {
      assert WithoutBlankReplies(ms) == [];
    } else {
      CoherentKeptBlock(ok, ms);
      var w := Width(ms);
      hide *;
      WithoutBlankCoheres(if CallTurn(ms[0]) then true else ms[0].role.User?, ms[w..]);
      BlockWithoutBlank(ok, ms, WithoutBlankReplies(ms[w..]));
      WithoutBlankConcat(ms[..w], ms[w..]);
      assert ms[..w] + ms[w..] == ms;
    }
  }

  lemma BlankOrKept(m: Message)
    ensures WithoutBlankReplies([m]) == [m] || (m.role.Assistant? && WithoutBlankReplies([m]) == [])
    ensures !m.role.Assistant? ==> WithoutBlankReplies([m]) == [m]
  {
  }

  lemma {:induction false} WithoutBlankKeepsUser(ms: seq<Message>, i: nat) returns (k: nat)
    requires i < |ms| && ms[i].role.User?
    ensures k < |WithoutBlankReplies(ms)| && WithoutBlankReplies(ms)[k].role.User?
    decreases |ms|
  {
    var n := |ms| - 1;
    if i == n {
      k := |WithoutBlankReplies(ms[..n])|;
    } else {
      k := WithoutBlankKeepsUser(ms[..n], i);
    }
  }

  lemma SendKeepsReady(ms: seq<Message>, fallback: string)
    requires Ready(ms)
    ensures Ready(Sent(ms, fallback))
  {
    var tail := ms[1..];
    var out := WithoutBlankReplies(tail);
    var u := LatestUser(ms);
    LatestUserIs(ms);
    hide LatestUser, WellFormed;
    assert [ms[0]] + tail == ms;
    WithoutBlankConcat([ms[0]], tail);
    BlankOrKept(ms[0]);
    CoherentIsWellFormed(tail);
    WithoutBlankCoheres(false, tail);
    CoherentIsWellFormed(out);
    assert tail[u - 1] == ms[u];
    var k := WithoutBlankKeepsUser(tail, u - 1);
    var r := WithoutBlankReplies(ms);
    assert r == [ms[0]] + out && r[1..] == out;
    assert out[|out| - 1] == ms[|ms| - 1] by {
      assert tail[|tail| - 1] == ms[|ms| - 1];
    }
    assert r[k + 1] == out[k];
    LatestUserExists(r);
  }

  lemma ResultIds(calls: seq<string>, results: seq<string>)
    requires |results| == |calls|
    ensures var r := Results(calls, results); forall i :: 0 <= i < |r| ==> AnswerId(r[i]) == TrimSpace(calls[i])
  {
  }

  lemma AnsweringIdsAreGood(calls: seq<string>, results: seq<string>)
    requires |results| == |calls| && Answers(calls, Results(calls, results))
    ensures GoodIds(calls)
  {
    var r := Results(calls, results);
    ResultIds(calls, results);
    AnswerIdsHas(r);
    hide AnswerIds, AnswerId, Results, TrimSpace;
    forall i | 0 <= i < |calls|
      ensures TrimSpace(calls[i]) == calls[i]
    {
      assert calls[i] in AnswerIds(r);
      var j :| 0 <= j < |r| && AnswerId(r[j]) == calls[i];
      TrimSpaceTwice(calls[j]);
    }
    forall i, j | 0 <= i < j < |calls|
      ensures calls[i] != calls[j]
    {
      assert AnswerId(r[i]) != AnswerId(r[j]);
    }
  }

  lemma GoodIdsAnswer(calls: seq<string>, results: seq<string>)
    requires |results| == |calls| && GoodIds(calls)
    ensures Answers(calls, Results(calls, results))
  {
    var r := Results(calls, results);
    ResultIds(calls, results);
    AnswerIdsHas(r);
    hide AnswerIds, AnswerId, Results, TrimSpace;
    forall c | c in calls
      ensures c in AnswerIds(r)
    {
      var i :| 0 <= i < |calls| && calls[i] == c;
      assert AnswerId(r[i]) == c;
    }
    forall a | a in AnswerIds(r)
      ensures a in calls
    {
      var i :| 0 <= i < |r| && AnswerId(r[i]) == a;
      assert calls[i] == a;
    }
  }

  lemma ToolRunAll(ms: seq<Message>)
    requires forall i :: 0 <= i < |ms| ==> ms[i].role.Tool?
    ensures ToolRun(ms) == |ms|
  {
  }

  /** In front of an appended call turn nothing changes. */
  lemma FrontOfTurn(ms: seq<Message>, turn: seq<Message>, i: nat)
    requires i < |ms| && turn != [] && !turn[0].role.Tool?
    ensures WellFormedAt(ms + turn, i) == WellFormedAt(ms, i)
  {
    assert (ms + turn)[i + 1..] == ms[i + 1..] + turn;
    ToolRunStops(ms[i + 1..], turn);
    var n := ToolRun(ms[i + 1..]);
    assert (ms[i + 1..] + turn)[..n] == ms[i + 1..][..n];
    hide Answers, ToolRun;
  }

  lemma ResultsAreTools(calls: seq<string>, results: seq<string>)
    requires |results| == |calls|
    ensures var r := Results(calls, results);
      ToolRun(r) == |r| && forall k :: 0 <= k < |r| ==> r[k].role.Tool? && !CallTurn(r[k])
  {
    ToolRunAll(Results(calls, results));
  }

  /** The appended call turn itself. */
  lemma AppendedCalls(ms: seq<Message>, call: Message, r: seq<Message>)
    requires ms != [] && MayPrecedeCalls(ms[|ms| - 1]) && CallTurn(call) && ToolRun(r) == |r|
    ensures WellFormedAt(ms + ([call] + r), |ms|) == Answers(call.calls, r)
  {
    var all := ms + ([call] + r);
    assert all[|ms|] == call && all[|ms| - 1] == ms[|ms| - 1];
    assert all[|ms| + 1..] == r && r[..|r|] == r;
    hide Answers, ToolRun;
  }

  lemma AppendedResult(ms: seq<Message>, call: Message, r: seq<Message>, i: nat)
    requires CallTurn(call) && i < |r| && (forall k :: 0 <= k < |r| ==> r[k].role.Tool? && !CallTurn(r[k]))
    ensures WellFormedAt(ms + ([call] + r), |ms| + 1 + i)
  {
  }

  /** Behind a list that waits for the assistant, a call turn is well-formed if and only if its ids are good. */
  lemma TurnIsWellFormedIff(ms: seq<Message>, text: string, reasoning: string, calls: seq<string>, results: seq<string>)
    requires ms != [] && WellFormed(ms) && MayPrecedeCalls(ms[|ms| - 1]) && calls != [] && |results| == |calls|
    ensures WellFormed(ms + Turn(text, reasoning, calls, results)) <==> GoodIds(calls)
  {
    var call, r := Message(Assistant, text, [], reasoning, calls, ""), Results(calls, results);
    var turn := [call] + r;
    var all := ms + turn;
    assert Turn(text, reasoning, calls, results) == turn;
    ResultsAreTools(calls, results);
    AppendedCalls(ms, call, r);
    hide WellFormedAt, Answers, Results, ToolRun, Turn, MayPrecedeCalls;
    if WellFormed(all) {
      assert WellFormedAt(all, |ms|);
      AnsweringIdsAreGood(calls, results);
    }
    if GoodIds(calls) {
      GoodIdsAnswer(calls, results);
      forall i | 0 <= i < |all|
        ensures WellFormedAt(all, i)
      {
        if i < |ms| {
          FrontOfTurn(ms, turn, i);
          assert WellFormedAt(ms, i);
        } else if |ms| < i {
          AppendedResult(ms, call, r, i - |ms| - 1);
        }
      }
    }
  }

  /** One call whose id starts with a blank: its own result, appended by the loop, does not answer it. */
  lemma BlankIdsAreNotAnswered(user: Message, id: string, result: string)
    requires user.role.User? && id != "" && TrimSpace(id) == id
    ensures WellFormed([user]) && !WellFormed([user] + Turn("", "", [" " + id], [result]))
  {
    var calls := [" " + id];
    hide TrimSpace;
    assert WellFormed([user]);
    TurnIsWellFormedIff([user], "", "", calls, [result]);
    hide WellFormed, Turn;
    if GoodIds(calls) {
      assert calls[0] == " " + id && TrimSpace(calls[0]) == calls[0];
      TrimmedStartsInInk(" " + id);
    }
  }

  lemma TurnShape(text: string, reasoning: string, calls: seq<string>, results: seq<string>)
    requires |results| == |calls| && calls != []
    ensures var turn := Turn(text, reasoning, calls, results);
      turn != [] && MayPrecedeCalls(turn[|turn| - 1]) && TurnsOnly(turn)
  {
  }

  lemma LatestUserOfConcat(ms: seq<Message>, more: seq<Message>)
    requires 0 < LatestUser(ms)
    ensures 0 < LatestUser(ms + more)
  {
    LatestUserIs(ms);
    LatestUserExists(ms + more);
    hide LatestUser;
    assert (ms + more)[LatestUser(ms)] == ms[LatestUser(ms)];
  }

  lemma CallToolsKeepsReady(ms: seq<Message>, text: string, reasoning: string, calls: seq<string>, results: seq<string>)
    requires Ready(ms) && calls != [] && |results| == |calls| && GoodIds(calls)
    ensures Ready(ms + Turn(text, reasoning, calls, results))
  {
    hide LatestUser, WellFormed, Turn, MayPrecedeCalls, GoodIds, TurnsOnly;
    var turn := Turn(text, reasoning, calls, results);
    LatestUserOfConcat(ms, turn);
    TurnIsWellFormedIff(ms[1..], text, reasoning, calls, results);
    TurnShape(text, reasoning, calls, results);
    assert (ms + turn)[1..] == ms[1..] + turn;
  }

  /** Nothing but call turns and tool messages. */
  ghost predicate TurnsOnly(ms: seq<Message>) {
    forall i :: 0 <= i < |ms| ==> ms[i].role.Tool? || CallTurn(ms[i])
  }

  /** The first list of a turn with a user message that says something is ready, whatever the stored history. */
  lemma BuiltIsReady(system: Message, history: seq<Message>, current: string, media: seq<string>)
    requires system.role.System? && TrimSpace(current) != ""
    ensures Ready(BuildMessages(system, history, current, media))
  {
    var user := UserMessage(current, media);
    var h := Sanitize(history);
    var ms := BuildMessages(system, history, current, media);
    hide TrimSpace, Sanitize;
    assert ms[1..] == h + [user];
    SanitizeIsWellFormed(history);
    forall i | 0 <= i <= |h|
      ensures WellFormedAt(h + [user], i)
    {
      if i < |h| {
        FrontOfTurn(h, [user], i);
        assert WellFormedAt(h, i);
      }
    }
    hide WellFormed;
    LatestUserExists(ms);
    assert ms[|ms| - 1] == user;
  }

  /** A user message with well-formed call turns behind it. */
  ghost predicate Asked(ms: seq<Message>) {
    && ms != [] && ms[0].role.User? && WellFormed(ms)
    && TurnsOnly(ms[1..]) && MayPrecedeCalls(ms[|ms| - 1])
  }

  /** The stored history during a turn: the latest user message has only call turns behind it, or is gone. */
  ghost predicate SessionInTurn(s: seq<Message>) {
    TurnsOnly(s) || exists k :: 0 <= k < |s| && Asked(s[k..])
  }

  lemma DropKeepsSession(s: seq<Message>, d: nat)
    requires SessionInTurn(s) && d <= |s|
    ensures SessionInTurn(s[d..])
  {
    hide WellFormed;
    if !TurnsOnly(s) {
      var k :| 0 <= k < |s| && Asked(s[k..]);
      if d <= k {
        assert s[d..][k - d..] == s[k..];
      } else {
        assert forall i :: d <= i < |s| ==> s[i] == s[k..][1..][i - k - 1];
      }
    }
  }

  lemma {:induction false} TurnsAloneAreDropped(s: seq<Message>)
    requires TurnsOnly(s)
    ensures Sanitize(s) == []
  {
    TurnsAloneAreNotAdmitted(s);
  }

  lemma {:induction false} TurnsAloneAreNotAdmitted(s: seq<Message>)
    requires TurnsOnly(s)
    ensures FirstPass(s) == []
  {
    if s != [] {
      TurnsAloneAreNotAdmitted(s[..|s| - 1]);
      assert s[|s| - 1].role.Tool? || CallTurn(s[|s| - 1]);
    }
  }

  lemma RebuiltUnfolds(system: Message, s: seq<Message>)
    ensures BuildMessages(system, s, "", []) == [system] + Sanitize(s)
  {
  }

  /** From the user message on, the stored history of a turn is sent as it is. */
  lemma RebuiltFromUser(system: Message, a: seq<Message>, b: seq<Message>)
    requires system.role.System? && Asked(b)
    ensures Ready([system] + Sanitize(a + b))
  {
    var ms := [system] + Sanitize(a + b);
    hide Sanitize, WellFormed, TurnsOnly, LatestUser;
    SanitizeAtUser(a, b);
    SanitizeFixedPoints(b);
    SanitizeIsWellFormed(a + b);
    assert ms[1..] == Sanitize(a + b);
    assert ms[1 + |Sanitize(a)|] == b[0];
    assert ms[|ms| - 1] == b[|b| - 1];
    LatestUserExists(ms);
  }

  /** What is rebuilt from the stored history of a turn is ready, or nothing but the system message. */
  lemma RebuiltIsWaiting(system: Message, s: seq<Message>)
    requires system.role.System? && SessionInTurn(s)
    ensures Waiting(BuildMessages(system, s, "", []))
  {
    hide Sanitize, BuildMessages, Ready, Asked, TurnsOnly;
    RebuiltUnfolds(system, s);
    if TurnsOnly(s) {
      TurnsAloneAreDropped(s);
    } else {
      var k :| 0 <= k < |s| && Asked(s[k..]);
      assert s[..k] + s[k..] == s;
      RebuiltFromUser(system, s[..k], s[k..]);
    }
  }

  lemma TurnsOnlyConcat(a: seq<Message>, b: seq<Message>)
    requires TurnsOnly(a) && TurnsOnly(b)
    ensures TurnsOnly(a + b)
  {
  }

  lemma CallToolsKeepsAsked(s: seq<Message>, text: string, reasoning: string, calls: seq<string>, results: seq<string>)
    requires Asked(s) && calls != [] && |results| == |calls| && GoodIds(calls)
    ensures Asked(s + Turn(text, reasoning, calls, results))
  {
    hide WellFormed, Turn, MayPrecedeCalls, GoodIds, TurnsOnly;
    var turn := Turn(text, reasoning, calls, results);
    TurnIsWellFormedIff(s, text, reasoning, calls, results);
    TurnShape(text, reasoning, calls, results);
    TurnsOnlyConcat(s[1..], turn);
    assert (s + turn)[1..] == s[1..] + turn;
  }

  lemma CallToolsKeepsSession(
    s: seq<Message>, text: string, reasoning: string, calls: seq<string>, results: seq<string>)
    requires SessionInTurn(s) && calls != [] && |results| == |calls| && GoodIds(calls)
    ensures SessionInTurn(s + Turn(text, reasoning, calls, results))
  {
    hide Asked, Turn, GoodIds, TurnsOnly, MayPrecedeCalls;
    var turn := Turn(text, reasoning, calls, results);
    TurnShape(text, reasoning, calls, results);
    if TurnsOnly(s) {
      TurnsOnlyConcat(s, turn);
    } else {
      var k :| 0 <= k < |s| && Asked(s[k..]);
      CallToolsKeepsAsked(s[k..], text, reasoning, calls, results);
      assert (s + turn)[k..] == s[k..] + turn;
    }
  }

  lemma OnlySystemStays(ms: seq<Message>, op: Op, session: seq<Message>)
    requires |ms| == 1 && ms[0].role.System? && (op.Prune? || op.Emergency?)
    ensures Apply(State(ms, session), op).messages == ms
  {
  }

  lemma OnlySystemIsSent(ms: seq<Message>, fallback: string)
    requires |ms| == 1 && ms[0].role.System?
    ensures Ready(Sent(ms, fallback))
  {
    var user := UserMessage(FallbackText(fallback), []);
    assert ms == [ms[0]];
    BlankOrKept(ms[0]);
    assert Sent(ms, fallback) == ms + [user];
    LatestUserExists(ms + [user]);
    hide FallbackText, LatestUser;
    assert (ms + [user])[1] == user && (ms + [user])[1..] == [user];
    assert WellFormed([user]);
  }

  lemma SentIsReady(ms: seq<Message>, fallback: string)
    requires Waiting(ms)
    ensures Ready(Sent(ms, fallback))
  {
    hide Ready, Sent;
    if Ready(ms) {
      SendKeepsReady(ms, fallback);
    } else {
      OnlySystemIsSent(ms, fallback);
    }
  }

  ghost predicate InTurn(s: State) {
    Waiting(s.messages) && SessionInTurn(s.session)
  }

  lemma StepKeepsTurn(s: State, ops: seq<Op>, i: nat)
    requires i < |ops| && Legal(ops, i) && InTurn(s) && (ops[i].CallTools? ==> Ready(s.messages))
    ensures InTurn(Apply(s, ops[i]))
  {
    hide Ready, SessionInTurn, GoodIds;
    var ms := s.messages;
    match ops[i]
    case Prune(recent) => if Ready(ms) { PruneKeepsReady(ms, recent); } else { OnlySystemStays(ms, ops[i], s.session); }
    case Emergency(ratio, recent) =>
      if Ready(ms) { EmergencyKeepsReady(ms, ratio, recent); } else { OnlySystemStays(ms, ops[i], s.session); }
    case Summarize(system, dropped) =>
      var d := Min(dropped, |s.session|);
      DropKeepsSession(s.session, d);
      RebuiltIsWaiting(system, s.session[d..]);
    case Send(fallback) => SentIsReady(ms, fallback);
    case CallTools(text, reasoning, calls, results) =>
      CallToolsKeepsReady(ms, text, reasoning, calls, results);
      CallToolsKeepsSession(s.session, text, reasoning, calls, results);
  }

  lemma StartIsInTurn(system: Message, history: seq<Message>, current: string, media: seq<string>)
    requires system.role.System? && TrimSpace(current) != ""
    ensures InTurn(Start(system, history, current, media))
  {
    BuiltIsReady(system, history, current, media);
    hide TrimSpace, Ready;
    var user := UserMessage(current, []);
    assert (history + [user])[|history|..] == [user];
    assert Asked([user]);
  }

  ghost predicate AllLegal(ops: seq<Op>) {
    forall i :: 0 <= i < |ops| ==> Legal(ops, i)
  }

  /** The state after the first n steps. */
  ghost function Current(s: State, ops: seq<Op>, n: nat): State
    requires n <= |ops| && AllLegal(ops)
  {
    if n == 0 then s
    else
      assert Legal(ops, n - 1);
      Apply(Current(s, ops, n - 1), ops[n - 1])
  }

  lemma SendMakesReady(s: State, op: Op)
    requires InTurn(s) && op.Send?
    ensures Ready(Apply(s, op).messages)
  {
    hide Ready, SessionInTurn, Waiting;
    SentIsReady(s.messages, op.fallback);
  }

  lemma {:induction false} EveryStateIsInTurn(s: State, ops: seq<Op>, n: nat)
    requires InTurn(s) && n <= |ops| && AllLegal(ops)
    ensures InTurn(Current(s, ops, n))
    ensures 0 < n && ops[n - 1].Send? ==> Ready(Current(s, ops, n).messages)
  {
    hide Ready, Apply, InTurn, GoodIds;
    if n != 0 {
      EveryStateIsInTurn(s, ops, n - 1);
      assert Legal(ops, n - 1);
      StepKeepsTurn(Current(s, ops, n - 1), ops, n - 1);
      if ops[n - 1].Send? {
        SendMakesReady(Current(s, ops, n - 1), ops[n - 1]);
      }
    }
  }

  /**
   * Through any mix of pruning, emergency trimming, summarizing, sending and appended call turns, and whatever the
   * stored history was, every list that is sent is well-formed behind its system message and ends in a user or tool
   * message.
   */
  lemma EverySentListIsReady(
    system: Message, history: seq<Message>, current: string, media: seq<string>, ops: seq<Op>, n: nat)
    requires system.role.System? && TrimSpace(current) != ""
    requires 0 < n <= |ops| && AllLegal(ops) && ops[n - 1].Send?
    ensures Ready(Current(Start(system, history, current, media), ops, n).messages)
  {
    StartIsInTurn(system, history, current, media);
    hide *;
    EveryStateIsInTurn(Start(system, history, current, media), ops, n);
  }
}
