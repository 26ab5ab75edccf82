/** The sanitizer returns well-formed lists, changes only what is not, and loses no free message. */
module Coherence {
  import opened Messages
  import opened Sanitizer

  /** WellFormed read from the front; `ok` tells whether a call turn may come first. */
  ghost predicate Coherent(ok: bool, ms: seq<Message>)
    decreases |ms|
  {
    if ms == [] then true
    else if CallTurn(ms[0]) then
      ok && Answers(ms[0].calls, ms[1..Width(ms)]) && Coherent(true, ms[Width(ms)..])
    else Free(ms[0]) && Coherent(ms[0].role.User?, ms[1..])
  }

  /** What the first pass establishes. */
  ghost predicate Drafted(ms: seq<Message>) {
    forall i :: 0 <= i < |ms| ==> DraftedAt(ms, i)
  }

  /** A suffix of a drafted list that does not start in the middle of a block. */
  ghost predicate DraftedFrom(ok: bool, ms: seq<Message>) {
    && (ms != [] ==> !ms[0].role.System? && !ms[0].role.Tool? && (CallTurn(ms[0]) ==> ok))
    && forall i :: 1 <= i < |ms| ==> DraftedAt(ms, i)
  }

  lemma {:induction false} OpenTurnEndsSo(s: seq<Message>)
    requires s != []
    ensures OpenTurn(s) ==> s[|s| - 1].role.Tool? || CallTurn(s[|s| - 1])
    ensures Drafted(s) && (s[|s| - 1].role.Tool? || CallTurn(s[|s| - 1])) ==> OpenTurn(s)
  {
    var last := |s| - 1;
    if s[last].role.Tool? && Drafted(s) {
      assert DraftedAt(s, last);
      assert forall i :: 0 <= i < last && DraftedAt(s, i) ==> DraftedAt(s[..last], i);
      OpenTurnEndsSo(s[..last]);
    }
  }

  lemma {:induction false} FirstPassDrafts(h: seq<Message>)
    ensures Drafted(FirstPass(h))
  {
    if h != [] {
      var kept := FirstPass(h[..|h| - 1]);
      var m := h[|h| - 1];
      FirstPassDrafts(h[..|h| - 1]);
      if Admits(kept, m) {
        forall i | 0 <= i < |kept| + 1
          ensures DraftedAt(kept + [m], i)
        {
          if i < |kept| {
            assert DraftedAt(kept, i);
          } else if m.role.Tool? {
            OpenTurnEndsSo(kept);
          }
        }
      }
    }
  }

  lemma {:induction false} FirstPassKeepsDrafted(h: seq<Message>)
    requires Drafted(h)
    ensures FirstPass(h) == h
  {
    if h != [] {
      var n := |h| - 1;
      assert forall i :: 0 <= i < n && DraftedAt(h, i) ==> DraftedAt(h[..n], i);
      FirstPassKeepsDrafted(h[..n]);
      assert DraftedAt(h, n);
      if n != 0 {
        OpenTurnEndsSo(h[..n]);
      }
    }
  }

  /** Tool messages that answer calls, each a different one. */
  ghost predicate DistinctResults(calls: seq<string>, r: seq<Message>) {
    && (forall i :: 0 <= i < |r| ==> r[i].role.Tool? && AnswerId(r[i]) in calls)
    && (forall i, j :: 0 <= i < j < |r| ==> AnswerId(r[i]) != AnswerId(r[j]))
  }

  lemma {:induction false} FirstResultsAreTools(calls: seq<string>, tools: seq<Message>)
    requires forall i :: 0 <= i < |tools| ==> tools[i].role.Tool?
    ensures DistinctResults(calls, FirstResults(calls, tools))
  {
    hide AnswerId, AnswerIds;
    if tools != [] {
      var kept := FirstResults(calls, tools[..|tools| - 1]);
      FirstResultsAreTools(calls, tools[..|tools| - 1]);
      AnswerIdsHas(kept);
    }
  }

  lemma AnswerIdsHas(ms: seq<Message>)
    ensures forall i :: 0 <= i < |ms| ==> AnswerId(ms[i]) in AnswerIds(ms)
    ensures forall a :: a in AnswerIds(ms) ==> exists i :: 0 <= i < |ms| && AnswerId(ms[i]) == a
  {
  }

  lemma FirstResultsAnswer(calls: seq<string>, tools: seq<Message>)
    requires forall i :: 0 <= i < |tools| ==> tools[i].role.Tool?
    ensures var r := FirstResults(calls, tools); Complete(calls, r) ==> Answers(calls, r)
  {
    FirstResultsAreTools(calls, tools);
    hide AnswerId, FirstResults;
  }

  /** The first results among complete results are all of them. */
  lemma {:induction false} FirstResultsOfAnswers(calls: seq<string>, tools: seq<Message>)
    requires forall i, j :: 0 <= i < j < |tools| ==> AnswerId(tools[i]) != AnswerId(tools[j])
    requires forall i :: 0 <= i < |tools| ==> AnswerId(tools[i]) in calls
    ensures FirstResults(calls, tools) == tools
  {
    hide AnswerId, AnswerIds;
    if tools != [] {
      var n := |tools| - 1;
      assert forall i :: 0 <= i < n ==> tools[..n][i] == tools[i];
      FirstResultsOfAnswers(calls, tools[..n]);
      AnswerIdsHas(tools[..n]);
      assert tools[..n] + [tools[n]] == tools;
    }
  }

  lemma DraftedRest(ok: bool, s: seq<Message>)
    requires DraftedFrom(ok, s) && s != []
    ensures DraftedFrom(if CallTurn(s[0]) then true else s[0].role.User?, s[Width(s)..])
    ensures forall i :: 1 <= i < Width(s) ==> s[i].role.Tool?
  {
    var w := Width(s);
    ToolRunIs(s[1..]);
    assert forall i :: 1 <= i < w ==> s[i] == s[1..][i - 1];
    var rest := s[w..];
    if rest != [] {
      assert DraftedAt(s, w);
      assert w < |s| ==> s[w] == s[1..][w - 1];
    }
    forall i | 1 <= i < |rest|
      ensures DraftedAt(rest, i)
    {
      assert DraftedAt(s, w + i);
    }
  }

  lemma CoherentBlock(calls: Message, results: seq<Message>, rest: seq<Message>)
    requires CallTurn(calls) && Answers(calls.calls, results) && Coherent(true, rest)
    requires forall i :: 0 <= i < |results| ==> results[i].role.Tool?
    ensures Coherent(true, [calls] + results + rest)
  {
    var ms := [calls] + results + rest;
    assert ms[1..] == results + rest;
    ToolRunOf(results, rest);
    assert ms[1..Width(ms)] == results && ms[Width(ms)..] == rest;
  }

  lemma CoherentFree(m: Message, rest: seq<Message>)
    requires Free(m) && Coherent(m.role.User?, rest)
    ensures Coherent(true, [m] + rest) && Coherent(false, [m] + rest)
  {
  }

  lemma KeptBlockCoheres(ok: bool, s: seq<Message>, rest: seq<Message>)
    requires s != [] && DraftedFrom(ok, s)
    requires Coherent(if CallTurn(s[0]) then true else s[0].role.User?, rest)
    ensures Coherent(ok, KeptBlock(s) + rest)
  {
    DraftedRest(ok, s);
    if CallTurn(s[0]) {
      var tools := s[1..Width(s)];
      var results := FirstResults(s[0].calls, tools);
      assert forall i :: 0 <= i < |tools| ==> tools[i] == s[1 + i];
      FirstResultsAreTools(s[0].calls, tools);
      FirstResultsAnswer(s[0].calls, tools);
      hide Coherent, Complete, FirstResults, Width, DraftedFrom;
      if Complete(s[0].calls, results) {
        CoherentBlock(s[0], results, rest);
      } else {
        assert [] + rest == rest;
      }
    } else {
      CoherentFree(s[0], rest);
    }
  }

  /** The second pass turns a drafted list into a coherent one. */
  lemma {:induction false} SecondPassCoheres(ok: bool, s: seq<Message>)
    requires DraftedFrom(ok, s)
    ensures Coherent(ok, SecondPass(s))
    decreases |s|
  {
    if s != [] {
      DraftedRest(ok, s);
      SecondPassCoheres(if CallTurn(s[0]) then true else s[0].role.User?, s[Width(s)..]);
      hide Coherent, Width, DraftedFrom;
      KeptBlockCoheres(ok, s, SecondPass(s[Width(s)..]));
    }
  }

  lemma FirstPassDraftsFromStart(h: seq<Message>)
    requires Drafted(h)
    ensures DraftedFrom(false, h)
  {
    assert h != [] ==> DraftedAt(h, 0);
  }

  /** A block that is answered already is kept as it is. */
  lemma CoherentKeptBlock(ok: bool, s: seq<Message>)
    requires s != [] && Coherent(ok, s)
    ensures KeptBlock(s) == s[..Width(s)]
    ensures Coherent(if CallTurn(s[0]) then true else s[0].role.User?, s[Width(s)..])
  {
    if CallTurn(s[0]) {
      var tools := s[1..Width(s)];
      AnswersOnlyCalls(s[0].calls, tools);
      hide FirstResults, Answers, Width;
      FirstResultsOfAnswers(s[0].calls, tools);
      assert [s[0]] + tools == s[..Width(s)];
    }
  }

  lemma AnswersOnlyCalls(calls: seq<string>, results: seq<Message>)
    requires Answers(calls, results)
    ensures forall i, j :: 0 <= i < j < |results| ==> AnswerId(results[i]) != AnswerId(results[j])
    ensures forall i :: 0 <= i < |results| ==> AnswerId(results[i]) in calls
    ensures Complete(calls, results)
  {
    hide AnswerId, AnswerIds;
    AnswerIdsHas(results);
  }

  lemma {:induction false} SecondPassKeepsCoherent(ok: bool, s: seq<Message>)
    requires Coherent(ok, s)
    ensures SecondPass(s) == s
    decreases |s|
  {
    if s != [] {
      CoherentKeptBlock(ok, s);
      hide Coherent, KeptBlock;
      SecondPassKeepsCoherent(if CallTurn(s[0]) then true else s[0].role.User?, s[Width(s)..]);
      var w := Width(s);
      hide Width;
      assert SecondPass(s) == s[..w] + s[w..];
    }
  }

  lemma WellFormedIsDrafted(ms: seq<Message>)
    requires WellFormed(ms)
    ensures Drafted(ms)
  {
    forall i | 0 <= i < |ms|
      ensures DraftedAt(ms, i)
    {
      assert WellFormedAt(ms, i);
    }
  }

  /** Every call turn has exactly its results behind it. */
  ghost predicate Answered(ms: seq<Message>) {
    forall i :: 0 <= i < |ms| ==> AnsweredAt(ms, i)
  }

  ghost predicate AnsweredAt(ms: seq<Message>, i: nat)
    requires i < |ms|
  {
    CallTurn(ms[i]) ==> Answers(ms[i].calls, ms[i + 1..][..ToolRun(ms[i + 1..])])
  }

  lemma AnsweredShift(ms: seq<Message>, k: nat, i: nat)
    requires k + i < |ms|
    ensures AnsweredAt(ms, k + i) == AnsweredAt(ms[k..], i)
  {
  }

  lemma AnsweredSuffix(ms: seq<Message>, k: nat)
    requires k <= |ms| && Answered(ms)
    ensures Answered(ms[k..])
  {
    hide AnsweredAt;
    forall i | 0 <= i < |ms| - k
      ensures AnsweredAt(ms[k..], i)
    {
      assert AnsweredAt(ms, k + i);
      AnsweredShift(ms, k, i);
    }
  }

  lemma AnsweredJoin(ms: seq<Message>, k: nat)
    requires k <= |ms| && Answered(ms[k..]) && forall i :: 0 <= i < k ==> AnsweredAt(ms, i)
    ensures Answered(ms)
  {
    hide AnsweredAt;
    forall i | k <= i < |ms|
      ensures AnsweredAt(ms, i)
    {
      assert AnsweredAt(ms[k..], i - k);
      AnsweredShift(ms, k, i - k);
    }
  }

  /** Read from the front, a drafted and answered list is coherent. */
  lemma {:induction false} AnsweredIsCoherent(ok: bool, ms: seq<Message>)
    requires DraftedFrom(ok, ms) && Answered(ms)
    ensures Coherent(ok, ms)
    decreases |ms|
  {
    if ms != [] {
      DraftedRest(ok, ms);
      AnsweredSuffix(ms, Width(ms));
      AnsweredIsCoherent(if CallTurn(ms[0]) then true else ms[0].role.User?, ms[Width(ms)..]);
      assert AnsweredAt(ms, 0);
      assert CallTurn(ms[0]) ==> ms[1..Width(ms)] == ms[1..][..ToolRun(ms[1..])];
    }
  }

  lemma {:induction false} CoherentIsAnswered(ok: bool, ms: seq<Message>)
    requires Coherent(ok, ms)
    ensures DraftedFrom(ok, ms) && Answered(ms)
    decreases |ms|
  {
    if ms != [] {
      var w := Width(ms);
      CoherentIsAnswered(if CallTurn(ms[0]) then true else ms[0].role.User?, ms[w..]);
      BlockIsWellFormed(ok, ms);
      hide AnsweredAt, Coherent, DraftedAt;
      AnsweredJoin(ms, w);
      forall i | 1 <= i < |ms|
        ensures DraftedAt(ms, i)
      {
        if w < i {
          assert DraftedAt(ms[w..], i - w);
          DraftedShift(ms, w, i - w);
        }
      }
    }
  }

  lemma DraftedShift(ms: seq<Message>, k: nat, i: nat)
    requires k + i < |ms| && 0 < i
    ensures DraftedAt(ms, k + i) == DraftedAt(ms[k..], i)
  {
  }

  /** The first block of a coherent list, and the message behind it, are well-formed. */
  lemma BlockIsWellFormed(ok: bool, ms: seq<Message>)
    requires ms != [] && Coherent(ok, ms)
    requires DraftedFrom(if CallTurn(ms[0]) then true else ms[0].role.User?, ms[Width(ms)..])
    ensures forall i :: 0 <= i < Width(ms) ==> AnsweredAt(ms, i)
    ensures forall i :: 1 <= i <= Width(ms) && i < |ms| ==> DraftedAt(ms, i)
    ensures !ms[0].role.System? && !ms[0].role.Tool? && (CallTurn(ms[0]) ==> ok)
  {
    var w := Width(ms);
    ToolRunIs(ms[1..]);
    assert forall i :: 1 <= i < w ==> ms[i] == ms[1..][i - 1];
    assert CallTurn(ms[0]) ==> ms[1..w] == ms[1..][..ToolRun(ms[1..])];
    assert CallTurn(ms[0]) ==> 1 < w by {
      if CallTurn(ms[0]) {
        SomeAnswer(ms[0].calls, ms[1..w]);
      }
    }
    hide Answers, ToolRun, Coherent;
    assert w < |ms| ==> ms[w] == ms[w..][0];
  }

  lemma SomeAnswer(calls: seq<string>, results: seq<Message>)
    requires calls != [] && Answers(calls, results)
    ensures results != []
  {
    assert calls[0] in AnswerIds(results);
  }

  lemma FirstIsDrafted(ms: seq<Message>, i: nat)
    requires i < |ms| && DraftedFrom(false, ms)
    ensures DraftedAt(ms, i)
  {
  }

  /** Coherent is WellFormed read from the front. */
  lemma CoherentIsWellFormed(ms: seq<Message>)
    ensures Coherent(false, ms) <==> WellFormed(ms)
  {
    if Coherent(false, ms) {
      CoherentIsAnswered(false, ms);
      hide Coherent, DraftedAt, Answers;
      forall i | 0 <= i < |ms|
        ensures WellFormedAt(ms, i)
      {
        assert AnsweredAt(ms, i);
        FirstIsDrafted(ms, i);
      }
    }
    if WellFormed(ms) {
      WellFormedIsDrafted(ms);
      FirstPassDraftsFromStart(ms);
      assert Answered(ms) by {
        forall i | 0 <= i < |ms|
          ensures AnsweredAt(ms, i)
        {
          assert WellFormedAt(ms, i);
        }
      }
      AnsweredIsCoherent(false, ms);
    }
  }
}
