/** What the sanitizer promises, for every history. */
module SanitizerResults {
  import opened Messages
  import opened Sanitizer
  import opened Coherence

  /** Whatever the history, the result is well-formed. */
  lemma SanitizeIsWellFormed(h: seq<Message>)
    ensures WellFormed(Sanitize(h))
  {
    hide WellFormed, Coherent, FirstPass, SecondPass;
    FirstPassDrafts(h);
    FirstPassDraftsFromStart(FirstPass(h));
    SecondPassCoheres(false, FirstPass(h));
    CoherentIsWellFormed(Sanitize(h));
  }

  /** The well-formed lists are exactly the fixed points. */
  lemma SanitizeFixedPoints(h: seq<Message>)
    ensures Sanitize(h) == h <==> WellFormed(h)
  {
    hide WellFormed, Coherent, FirstPass, SecondPass;
    SanitizeIsWellFormed(h);
    if WellFormed(h) {
      WellFormedIsDrafted(h);
      FirstPassKeepsDrafted(h);
      CoherentIsWellFormed(h);
      SecondPassKeepsCoherent(false, h);
    }
  }

  lemma SanitizeIsIdempotent(h: seq<Message>)
    ensures Sanitize(Sanitize(h)) == Sanitize(h)
  {
    hide Sanitize;
    SanitizeIsWellFormed(h);
    SanitizeFixedPoints(Sanitize(h));
  }

  lemma {:induction false} FirstPassIsSubsequence(h: seq<Message>)
    ensures Subsequence(FirstPass(h), h) && FreeOnly(FirstPass(h)) == FreeOnly(h)
  {
    hide *;
    if h == [] {
      SubsequenceSelf([]);
      FirstPassSnoc([], Message(User, "", [], "", [], ""));
    } else {
      var before, m := h[..|h| - 1], h[|h| - 1];
      SplitLast(h);
      FirstPassIsSubsequence(before);
      FirstPassSnoc(before, m);
      SubsequenceSnoc(FirstPass(before), before, m);
      FreeOnlyConcat(FirstPass(before), [m]);
      FreeOnlyConcat(before, [m]);
      OnlyFreeAdmitted(FirstPass(before), m);
    }
  }

  lemma OnlyFreeAdmitted(kept: seq<Message>, m: Message)
    ensures Admits(kept, m) || FreeOnly([m]) == []
  {
  }

  lemma FirstPassSnoc(h: seq<Message>, m: Message)
    ensures FirstPass(h + [m]) == if Admits(FirstPass(h), m) then FirstPass(h) + [m] else FirstPass(h)
    ensures m.role.User? ==> FirstPass(h + [m]) == FirstPass(h) + [m]
    ensures FirstPass([]) == []
  {
  }

  lemma FirstResultsSnoc(calls: seq<string>, tools: seq<Message>, m: Message)
    ensures var r := FirstResults(calls, tools);
            FirstResults(calls, tools + [m]) == r + [m] || FirstResults(calls, tools + [m]) == r
    ensures FirstResults(calls, []) == []
  {
  }

  lemma {:induction false} FirstResultsAreSubsequence(calls: seq<string>, tools: seq<Message>)
    ensures Subsequence(FirstResults(calls, tools), tools)
  {
    hide *;
    if tools == [] {
      SubsequenceSelf([]);
      FirstResultsSnoc(calls, [], Message(User, "", [], "", [], ""));
    } else {
      var before, m := tools[..|tools| - 1], tools[|tools| - 1];
      SplitLast(tools);
      FirstResultsAreSubsequence(calls, before);
      FirstResultsSnoc(calls, before, m);
      SubsequenceSnoc(FirstResults(calls, before), before, m);
    }
  }

  /** A call turn and tool messages: none of them is free, whichever are kept. */
  lemma TurnIsSubsequence(call: Message, tools: seq<Message>)
    requires CallTurn(call) && forall i :: 0 <= i < |tools| ==> tools[i].role.Tool?
    ensures var kept := [call] + FirstResults(call.calls, tools);
            Subsequence(kept, [call] + tools) && FreeOnly(kept) == [] && FreeOnly([call] + tools) == []
  {
    hide FirstResults, AnswerId, Subsequence, FreeOnly;
    var results := FirstResults(call.calls, tools);
    FirstResultsAreTools(call.calls, tools);
    TurnHasNothingFree(call, tools);
    TurnHasNothingFree(call, results);
    FirstResultsAreSubsequence(call.calls, tools);
    SubsequenceSelf([call]);
    SubsequenceConcat([call], [call], results, tools);
  }

  lemma TurnHasNothingFree(call: Message, tools: seq<Message>)
    requires CallTurn(call) && forall i :: 0 <= i < |tools| ==> tools[i].role.Tool?
    ensures FreeOnly([call] + tools) == []
  {
    NothingFree([call] + tools);
  }

  /** The second pass drops no free message. */
  lemma KeptBlockIsSubsequence(s: seq<Message>)
    requires s != []
    ensures Subsequence(KeptBlock(s), s[..Width(s)]) && FreeOnly(KeptBlock(s)) == FreeOnly(s[..Width(s)])
  {
    var block := s[..Width(s)];
    if CallTurn(s[0]) {
      var tools := s[1..Width(s)];
      ToolRunIs(s[1..]);
      assert forall i :: 0 <= i < |tools| ==> tools[i] == s[1..][i];
      TurnIsSubsequence(s[0], tools);
      assert [s[0]] + tools == block;
      SubsequenceSelf(block);
      hide Subsequence, FirstResults, Complete, ToolRun;
    } else {
      assert block == [s[0]];
      SubsequenceSelf(block);
    }
  }

  lemma SecondPassUnfolds(s: seq<Message>)
    ensures SecondPass(s) == if s == [] then [] else KeptBlock(s) + SecondPass(s[Width(s)..])
  {
  }

  lemma {:induction false} SecondPassIsSubsequence(s: seq<Message>)
    ensures Subsequence(SecondPass(s), s) && FreeOnly(SecondPass(s)) == FreeOnly(s)
    decreases |s|
  {
    hide *;
    SecondPassUnfolds(s);
    if s == [] {
      SubsequenceSelf([]);
    } else {
      var block, rest := s[..Width(s)], s[Width(s)..];
      KeptBlockIsSubsequence(s);
      SecondPassIsSubsequence(rest);
      SubsequenceConcat(KeptBlock(s), block, SecondPass(rest), rest);
      FreeOnlyConcat(KeptBlock(s), SecondPass(rest));
      FreeOnlyConcat(block, rest);
      assert block + rest == s;
    }
  }

  /** Messages are only left out, and never a user message, a plain assistant message or one of unknown role. */
  lemma SanitizeKeepsFree(h: seq<Message>)
    ensures Subsequence(Sanitize(h), h) && FreeOnly(Sanitize(h)) == FreeOnly(h)
  {
    hide Subsequence, FreeOnly, FirstPass, SecondPass;
    FirstPassIsSubsequence(h);
    SecondPassIsSubsequence(FirstPass(h));
    SubsequenceTransitive(Sanitize(h), FirstPass(h), h);
  }

  lemma {:induction false} OpenTurnBehindUser(a: seq<Message>, b: seq<Message>)
    requires b != [] && !b[0].role.Tool?
    ensures OpenTurn(a + b) == OpenTurn(b)
    decreases |b|
  {
    var n := |b| - 1;
    assert (a + b)[..|a + b| - 1] == a + b[..n];
    assert (a + b)[|a + b| - 1] == b[n];
    if n != 0 {
      OpenTurnBehindUser(a, b[..n]);
    }
  }

  /** Nothing in front of a user message matters to the first pass behind it. */
  lemma {:induction false} FirstPassAtUser(a: seq<Message>, b: seq<Message>)
    requires b != [] && b[0].role.User?
    ensures FirstPass(a + b) == FirstPass(a) + FirstPass(b)
    ensures FirstPass(b) != [] && FirstPass(b)[0] == b[0]
    decreases |b|
  {
    hide *;
    var before, m := b[..|b| - 1], b[|b| - 1];
    SplitLast(b);
    FirstPassSnoc(a + before, m);
    FirstPassSnoc(before, m);
    assert (a + before) + [m] == a + b;
    if before == [] {
      assert a + before == a;
    } else {
      FirstPassAtUser(a, before);
      AdmitsBehindUser(FirstPass(a), FirstPass(before), m);
      assert FirstPass(a) + (FirstPass(before) + [m]) == (FirstPass(a) + FirstPass(before)) + [m];
    }
  }

  lemma AdmitsBehindUser(p: seq<Message>, q: seq<Message>, m: Message)
    requires q != [] && q[0].role.User?
    ensures Admits(p + q, m) == Admits(q, m)
  {
    OpenTurnBehindUser(p, q);
    hide OpenTurn;
  }

  lemma {:induction false} ToolRunStops(a: seq<Message>, b: seq<Message>)
    requires b != [] && !b[0].role.Tool?
    ensures ToolRun(a + b) == ToolRun(a)
  {
    if a == [] {
      assert a + b == b;
    } else {
      assert (a + b)[1..] == a[1..] + b;
      ToolRunStops(a[1..], b);
    }
  }

  lemma BlockInFront(a: seq<Message>, b: seq<Message>)
    requires a != [] && b != [] && !b[0].role.Tool?
    ensures Width(a + b) == Width(a) && KeptBlock(a + b) == KeptBlock(a)
  {
    assert (a + b)[1..] == a[1..] + b;
    ToolRunStops(a[1..], b);
    assert (a + b)[1..Width(a)] == a[1..Width(a)];
    hide FirstResults, Complete, ToolRun;
  }

  lemma {:induction false} SecondPassAtUser(a: seq<Message>, b: seq<Message>)
    requires b != [] && b[0].role.User?
    ensures SecondPass(a + b) == SecondPass(a) + SecondPass(b)
    decreases |a|
  {
    hide *;
    SecondPassUnfolds(a);
    SecondPassUnfolds(a + b);
    if a == [] {
      assert a + b == b;
    } else {
      BlockInFront(a, b);
      var w := Width(a);
      assert (a + b)[w..] == a[w..] + b;
      SecondPassAtUser(a[w..], b);
    }
  }

  /** A history is sanitized independently in front of a user message and from it on. */
  lemma SanitizeAtUser(a: seq<Message>, b: seq<Message>)
    requires b != [] && b[0].role.User?
    ensures Sanitize(a + b) == Sanitize(a) + Sanitize(b)
  {
    hide FirstPass, SecondPass;
    FirstPassAtUser(a, b);
    SecondPassAtUser(FirstPass(a), FirstPass(b));
  }
}
