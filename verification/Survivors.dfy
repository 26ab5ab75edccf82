/** Which messages of a history survive the sanitizer, told by their places in it. */
module Survivors {
  import opened Messages
  import opened Sanitizer
  import opened Coherence
  import opened SanitizerResults

  /** Message j opens the turn that i belongs to: only tool messages are kept between them. */
  ghost predicate InTurn(h: seq<Message>, j: nat, i: nat)
    requires i < |h|
    decreases i, 0
  {
    && j < i && CallTurn(h[j]) && Admitted(h, j)
    && forall k :: j < k < i && Admitted(h, k) ==> h[k].role.Tool?
  }

  /** The first pass keeps message i. */
  ghost predicate Admitted(h: seq<Message>, i: nat)
    requires i < |h|
    decreases i, 2
  {
    match h[i].role
    case System => false
    case Tool => InSomeTurn(h, i)
    case Assistant => h[i].calls != [] ==> MayCall(h, i)
    case _ => true
  }

  ghost predicate InSomeTurn(h: seq<Message>, i: nat)
    requires i < |h|
    decreases i, 1
  {
    exists j :: 0 <= j < i && InTurn(h, j, i)
  }

  /** The last message that is kept in front of i is a user or tool message. */
  ghost predicate MayCall(h: seq<Message>, i: nat)
    requires i < |h|
    decreases i, 1
  {
    exists p :: 0 <= p < i && Precedes(h, p, i) && MayPrecedeCalls(h[p])
  }

  /** p is the last message that is kept in front of i. */
  ghost predicate Precedes(h: seq<Message>, p: nat, i: nat)
    requires i < |h|
    decreases i, 0
  {
    p < i && Admitted(h, p) && forall k :: p < k < i ==> !Admitted(h, k)
  }

  /** Tool message j answers call c of the turn that i opens. */
  ghost predicate AnswersIn(h: seq<Message>, i: nat, j: nat, c: string) {
    i < j < |h| && h[j].role.Tool? && InTurn(h, i, j) && AnswerId(h[j]) == c
  }

  /** Each call of turn i is answered. */
  ghost predicate FullyAnswered(h: seq<Message>, i: nat)
    requires i < |h|
  {
    forall c :: c in h[i].calls ==> AnsweredIn(h, i, c)
  }

  ghost predicate AnsweredIn(h: seq<Message>, i: nat, c: string) {
    exists j :: AnswersIn(h, i, j, c)
  }

  /** Tool message i is the first answer to a call of the turn that t opens. */
  ghost predicate FirstAnswer(h: seq<Message>, t: nat, i: nat)
    requires i < |h|
  {
    && InTurn(h, t, i) && AnswerId(h[i]) in h[t].calls
    && forall k :: t < k < i ==> !AnswersIn(h, t, k, AnswerId(h[i]))
  }

  /** Message i is in the result. */
  ghost predicate Survives(h: seq<Message>, i: nat)
    requires i < |h|
  {
    && Admitted(h, i)
    && (CallTurn(h[i]) ==> FullyAnswered(h, i))
    && (h[i].role.Tool? ==> exists t :: 0 <= t < i && FirstAnswer(h, t, i) && FullyAnswered(h, t))
  }

  // The first pass

  /** The places of a list's messages, exactly those below n that satisfy Admitted. */
  ghost predicate Places(h: seq<Message>, n: nat, kept: seq<Message>, at: seq<nat>) {
    && n <= |h| && Embeds(kept, h, at) && (forall x :: 0 <= x < |at| ==> at[x] < n)
    && forall i :: 0 <= i < n ==> (i in at <==> Admitted(h, i))
  }

  lemma {:induction false} OpenTurnIs(s: seq<Message>)
    ensures OpenTurn(s) <==> exists q :: 0 <= q < |s| && CallTurn(s[q]) && OnlyTools(s, q, |s|)
  {
    if s != [] && s[|s| - 1].role.Tool? {
      var n := |s| - 1;
      OpenTurnIs(s[..n]);
      assert forall q :: 0 <= q < n ==> (OnlyTools(s, q, |s|) <==> OnlyTools(s[..n], q, n));
    } else if s != [] {
      assert OnlyTools(s, |s| - 1, |s|);
      var last := |s| - 1;
      assert forall q :: 0 <= q < last ==> !OnlyTools(s, q, |s|);
    }
  }

  ghost predicate OnlyTools(s: seq<Message>, q: nat, p: nat)
    requires p <= |s|
  {
    forall k :: q < k < p ==> s[k].role.Tool?
  }

  lemma TurnOpens(h: seq<Message>, n: nat, kept: seq<Message>, at: seq<nat>, q: nat)
    requires n < |h| && Places(h, n, kept, at) && q < |kept|
    ensures CallTurn(kept[q]) && OnlyTools(kept, q, |kept|) <==> InTurn(h, at[q], n)
  {
    hide Embeds;
    PlaceOrder(kept, h, at);
    assert at[q] in at && Admitted(h, at[q]);
    if OnlyTools(kept, q, |kept|) {
      forall k | at[q] < k < n && Admitted(h, k)
        ensures h[k].role.Tool?
      {
        assert k in at;
        var x :| 0 <= x < |at| && at[x] == k;
        assert q < x;
      }
    }
    if InTurn(h, at[q], n) {
      forall x | q < x < |kept|
        ensures kept[x].role.Tool?
      {
        assert at[x] in at && Admitted(h, at[x]);
      }
    }
  }

  lemma PlaceOrder(a: seq<Message>, b: seq<Message>, at: seq<nat>)
    requires Embeds(a, b, at)
    ensures |at| == |a| && forall x :: 0 <= x < |at| ==> at[x] < |b| && a[x] == b[at[x]]
    ensures forall x, y :: 0 <= x < |at| && 0 <= y < |at| ==> (x < y <==> at[x] < at[y])
  {
    assert forall x, y :: 0 <= x < y < |at| ==> at[x] < at[y];
  }

  /** The list so far decides as the places do. */
  lemma AdmitsIs(h: seq<Message>, n: nat, kept: seq<Message>, at: seq<nat>)
    requires n < |h| && Places(h, n, kept, at)
    ensures Admits(kept, h[n]) <==> Admitted(h, n)
  {
    ToolAdmitted(h, n, kept, at);
    CallsAdmitted(h, n, kept, at);
    hide Places, OpenTurn, InSomeTurn, MayCall, MayPrecedeCalls;
  }

  lemma ToolAdmitted(h: seq<Message>, n: nat, kept: seq<Message>, at: seq<nat>)
    requires n < |h| && Places(h, n, kept, at)
    ensures OpenTurn(kept) <==> InSomeTurn(h, n)
  {
    OpenTurnIs(kept);
    hide Embeds, OnlyTools, OpenTurn;
    PlaceOrder(kept, h, at);
    if q :| 0 <= q < |kept| && CallTurn(kept[q]) && OnlyTools(kept, q, |kept|) {
      TurnOpens(h, n, kept, at, q);
      assert InTurn(h, at[q], n);
    }
    if j :| 0 <= j < n && InTurn(h, j, n) {
      assert j in at;
      var q :| 0 <= q < |at| && at[q] == j;
      TurnOpens(h, n, kept, at, q);
    }
  }

  lemma CallsAdmitted(h: seq<Message>, n: nat, kept: seq<Message>, at: seq<nat>)
    requires n < |h| && Places(h, n, kept, at)
    ensures (kept != [] && MayPrecedeCalls(kept[|kept| - 1]))
      <==> MayCall(h, n)
  {
    hide Embeds;
    PlaceOrder(kept, h, at);
    if kept != [] {
      var p := at[|kept| - 1];
      assert p in at && Admitted(h, p);
      forall k | p < k < n
        ensures !Admitted(h, k)
      {
        assert forall x :: 0 <= x < |at| ==> at[x] <= p;
        assert k !in at;
      }
      assert Precedes(h, p, n);
    }
    if r :| 0 <= r < n && Precedes(h, r, n) && MayPrecedeCalls(h[r]) {
      assert r in at;
      var p := at[|kept| - 1];
      assert p in at && Admitted(h, p);
      assert r == p;
    }
  }

  lemma {:induction false} FirstPassPlaces(h: seq<Message>, n: nat) returns (at: seq<nat>)
    requires n <= |h|
    ensures Places(h, n, FirstPass(h[..n]), at)
  {
    if n == 0 {
      at := [];
    } else {
      var m := n - 1;
      at := FirstPassPlaces(h, m);
      var kept := FirstPass(h[..m]);
      AdmitsIs(h, m, kept, at);
      assert h[..n][..m] == h[..m];
      hide Admits, Admitted;
      if Admits(kept, h[m]) {
        at := at + [m];
      }
    }
  }

  // The second pass

  /** Message q opens the turn of p, told in the list the second pass works on. */
  ghost predicate Leads(s: seq<Message>, q: nat, p: nat) {
    q < p < |s| && CallTurn(s[q]) && OnlyTools(s, q, p)
  }

  ghost predicate AnswersAt(s: seq<Message>, q: nat, p: nat, c: string) {
    Leads(s, q, p) && s[p].role.Tool? && AnswerId(s[p]) == c
  }

  ghost predicate Full(s: seq<Message>, q: nat)
    requires q < |s|
  {
    forall c :: c in s[q].calls ==> Answered(s, q, c)
  }

  ghost predicate Answered(s: seq<Message>, q: nat, c: string) {
    exists p :: AnswersAt(s, q, p, c)
  }

  ghost predicate First(s: seq<Message>, q: nat, p: nat)
    requires p < |s|
  {
    Leads(s, q, p) && AnswerId(s[p]) in s[q].calls && forall k :: q < k < p ==> !AnswersAt(s, q, k, AnswerId(s[p]))
  }

  ghost predicate Stays(s: seq<Message>, p: nat)
    requires p < |s|
  {
    && (CallTurn(s[p]) ==> Full(s, p))
    && (s[p].role.Tool? ==> exists q :: 0 <= q < p && First(s, q, p) && Full(s, q))
  }

  ghost predicate IsFirst(calls: seq<string>, tools: seq<Message>, x: nat)
    requires x < |tools|
  {
    AnswerId(tools[x]) in calls && forall y :: 0 <= y < x ==> AnswerId(tools[y]) != AnswerId(tools[x])
  }

  lemma {:induction false} FirstResultsIds(calls: seq<string>, tools: seq<Message>)
    ensures AnswerIds(FirstResults(calls, tools)) == set a | a in AnswerIds(tools) && a in calls
  {
    hide AnswerId;
    if tools != [] {
      var n := |tools| - 1;
      FirstResultsIds(calls, tools[..n]);
      SplitLast(tools);
      AnswerIdsSnoc(tools[..n], tools[n]);
      AnswerIdsSnoc(FirstResults(calls, tools[..n]), tools[n]);
      hide AnswerIds;
    }
  }

  lemma {:induction false} FirstResultsPlaces(calls: seq<string>, tools: seq<Message>) returns (at: seq<nat>)
    ensures Embeds(FirstResults(calls, tools), tools, at)
    ensures forall x :: 0 <= x < |tools| ==> (x in at <==> IsFirst(calls, tools, x))
  {
    hide AnswerId;
    if tools == [] {
      at := [];
    } else {
      var n := |tools| - 1;
      var before := tools[..n];
      at := FirstResultsPlaces(calls, before);
      FirstResultsIds(calls, before);
      IsFirstPrefix(calls, tools, n);
      hide AnswerIds, IsFirst;
      if IsFirst(calls, tools, n) {
        at := at + [n];
      }
    }
  }

  lemma IsFirstPrefix(calls: seq<string>, tools: seq<Message>, n: nat)
    requires n < |tools|
    ensures forall x :: 0 <= x < n ==> (IsFirst(calls, tools, x) <==> IsFirst(calls, tools[..n], x))
    ensures IsFirst(calls, tools, n) <==> AnswerId(tools[n]) in calls && AnswerId(tools[n]) !in AnswerIds(tools[..n])
  {
    hide AnswerId;
    AnswerIdsHas(tools[..n]);
    hide AnswerIds;
  }

  /** The first block of a list: its kept results by their places. */
  lemma BlockPlaces(s: seq<Message>) returns (at: seq<nat>)
    requires s != [] && DraftedFrom(true, s)
    ensures Embeds(KeptBlock(s), s[..Width(s)], at)
    ensures forall p :: 0 <= p < Width(s) ==> (p in at <==> Stays(s, p))
  {
    DraftedRest(true, s);
    hide DraftedFrom;
    if CallTurn(s[0]) {
      at := TurnPlaces(s);
    } else {
      at := [0];
    }
  }

  lemma TurnPlaces(s: seq<Message>) returns (at: seq<nat>)
    requires s != [] && CallTurn(s[0]) && forall p :: 1 <= p < Width(s) ==> s[p].role.Tool?
    ensures Embeds(KeptBlock(s), s[..Width(s)], at)
    ensures forall p :: 0 <= p < Width(s) ==> (p in at <==> Stays(s, p))
  {
    var w, calls := Width(s), s[0].calls;
    var tools := s[1..w];
    var results := FirstResults(calls, tools);
    var r := FirstResultsPlaces(calls, tools);
    FullIsComplete(s);
    TurnMembers(s);
    hide FirstResults, Width, Stays, Full, IsFirst, Complete;
    if Complete(calls, results) {
      at := BehindFirst(s, w, results, r);
    } else {
      at := [];
    }
  }

  function Moved(q: seq<nat>, n: nat): (r: seq<nat>)
    ensures |r| == |q| && forall x :: 0 <= x < |q| ==> r[x] == n + q[x]
  {
    seq(|q|, x requires 0 <= x < |q| => n + q[x])
  }

  lemma MovedHas(q: seq<nat>, n: nat)
    ensures forall i :: n <= i ==> (i in Moved(q, n) <==> i - n in q)
  {
    forall i: nat | n <= i
      ensures i in Moved(q, n) <==> i - n in q
    {
      if i - n in q {
        var x :| 0 <= x < |q| && q[x] == i - n;
        assert Moved(q, n)[x] == i;
      }
    }
  }

  /** The places in two lists are the places in both together, the second ones moved on. */
  lemma JoinPlaces(a: seq<Message>, b: seq<Message>, p: seq<nat>, c: seq<Message>, d: seq<Message>, q: seq<nat>)
    returns (at: seq<nat>)
    requires Embeds(a, b, p) && Embeds(c, d, q)
    ensures Embeds(a + c, b + d, at)
    ensures forall i :: 0 <= i < |b| ==> (i in at <==> i in p)
    ensures forall i :: |b| <= i < |b| + |d| ==> (i in at <==> i - |b| in q)
  {
    at := p + Moved(q, |b|);
    JoinEmbeds(a, b, p, c, d, q);
    MovedHas(q, |b|);
    PlaceOrder(a, b, p);
    hide Embeds;
    assert forall i :: i in at <==> i in p || i in Moved(q, |b|);
  }

  lemma JoinEmbeds(a: seq<Message>, b: seq<Message>, p: seq<nat>, c: seq<Message>, d: seq<Message>, q: seq<nat>)
    requires Embeds(a, b, p) && Embeds(c, d, q)
    ensures Embeds(a + c, b + d, p + Moved(q, |b|))
  {
    hide Moved;
  }

  /** The first message, and the places of a list behind it moved on by one. */
  lemma BehindFirst(s: seq<Message>, w: nat, results: seq<Message>, r: seq<nat>) returns (at: seq<nat>)
    requires 0 < w <= |s| && Embeds(results, s[1..w], r)
    ensures Embeds([s[0]] + results, s[..w], at)
    ensures 0 in at && forall p :: 1 <= p < w ==> (p in at <==> p - 1 in r)
  {
    assert Embeds([s[0]], [s[0]], [0]);
    at := JoinPlaces([s[0]], [s[0]], [0], results, s[1..w], r);
    assert [s[0]] + s[1..w] == s[..w];
    assert 0 in [0];
  }

  /** The tool messages of the first block belong to its turn. */
  lemma TurnMembers(s: seq<Message>)
    requires s != [] && CallTurn(s[0]) && forall p :: 1 <= p < Width(s) ==> s[p].role.Tool?
    ensures forall p :: 1 <= p < Width(s) ==>
      (Stays(s, p) <==> Full(s, 0) && IsFirst(s[0].calls, s[1..Width(s)], p - 1))
    ensures Stays(s, 0) <==> Full(s, 0)
  {
    var w := Width(s);
    var tools := s[1..w];
    hide Width, Full, AnswerId;
    forall p | 1 <= p < w
      ensures Stays(s, p) <==> Full(s, 0) && IsFirst(s[0].calls, tools, p - 1)
    {
      assert Leads(s, 0, p);
      assert forall q :: 0 < q < p ==> !Leads(s, q, p);
      FirstIs(s, w, p);
    }
  }

  lemma FirstIs(s: seq<Message>, w: nat, p: nat)
    requires 1 <= p < w <= |s| && CallTurn(s[0]) && forall k :: 1 <= k < w ==> s[k].role.Tool?
    ensures First(s, 0, p) <==> IsFirst(s[0].calls, s[1..w], p - 1)
  {
    hide AnswerId;
    var tools := s[1..w];
    forall k | 1 <= k < w
      ensures Leads(s, 0, k) && tools[k - 1] == s[k]
    {
    }
    if IsFirst(s[0].calls, tools, p - 1) {
      forall k | 0 < k < p
        ensures !AnswersAt(s, 0, k, AnswerId(s[p]))
      {
        assert AnswerId(tools[k - 1]) != AnswerId(tools[p - 1]);
      }
    }
    if First(s, 0, p) {
      forall y | 0 <= y < p - 1
        ensures AnswerId(tools[y]) != AnswerId(tools[p - 1])
      {
        assert !AnswersAt(s, 0, y + 1, AnswerId(s[p]));
      }
    }
  }

  lemma FullIsComplete(s: seq<Message>)
    requires s != [] && CallTurn(s[0])
    ensures Full(s, 0) <==> Complete(s[0].calls, FirstResults(s[0].calls, s[1..Width(s)]))
  {
    var calls, tools := s[0].calls, s[1..Width(s)];
    FirstResultsIds(calls, tools);
    hide FirstResults, AnswerIds, AnswerId, Width, AnswersAt;
    forall c
      ensures c in AnswerIds(tools) <==> Answered(s, 0, c)
    {
      AnsweredIs(s, c);
    }
  }

  lemma AnsweredIs(s: seq<Message>, c: string)
    requires s != [] && CallTurn(s[0])
    ensures c in AnswerIds(s[1..Width(s)]) <==> Answered(s, 0, c)
  {
    var w := Width(s);
    var tools := s[1..w];
    AnswerIdsHas(tools);
    BlockTools(s);
    hide AnswerIds, AnswerId, Width, AnswersAt;
    if c in AnswerIds(tools) {
      var x: nat :| 0 <= x < |tools| && AnswerId(tools[x]) == c;
      BlockAnswer(s, w, x + 1, c);
    }
    if p: nat :| AnswersAt(s, 0, p, c) {
      BlockAnswer(s, w, p, c);
    }
  }

  lemma BlockAnswer(s: seq<Message>, w: nat, p: nat, c: string)
    requires 1 <= p && 1 <= w <= |s| && CallTurn(s[0]) && (w < |s| ==> !s[w].role.Tool?)
    requires forall k :: 1 <= k < w ==> s[k].role.Tool?
    ensures AnswersAt(s, 0, p, c) <==> p < w && AnswerId(s[1..w][p - 1]) == c
  {
    hide AnswerId;
  }

  lemma BlockTools(s: seq<Message>)
    requires s != [] && CallTurn(s[0])
    ensures forall k :: 1 <= k < Width(s) ==> s[k].role.Tool?
    ensures Width(s) < |s| ==> !s[Width(s)].role.Tool?
  {
    ToolRunIs(s[1..]);
    hide ToolRun;
    assert forall k :: 1 <= k < |s| ==> s[k] == s[1..][k - 1];
  }

  lemma LeadsShift(s: seq<Message>, w: nat, q: nat, p: nat)
    requires w <= |s| && w <= p && (w < |s| ==> !s[w].role.Tool?)
    ensures w <= q ==> (Leads(s, q, p) <==> Leads(s[w..], q - w, p - w))
    ensures q < w && Leads(s, q, p) ==> !s[p].role.Tool?
  {
    if w <= q < p < |s| && OnlyTools(s[w..], q - w, p - w) {
      forall k | q < k < p
        ensures s[k].role.Tool?
      {
        assert s[k] == s[w..][k - w];
      }
    }
  }

  lemma AnswersShift(s: seq<Message>, w: nat, q: nat, p: nat, c: string)
    requires w <= q < |s| && !s[w].role.Tool? && w <= p
    ensures AnswersAt(s, q, p, c) <==> AnswersAt(s[w..], q - w, p - w, c)
  {
    hide AnswerId, Leads;
    LeadsShift(s, w, q, p);
    LeadsInside(s, q, p);
    LeadsInside(s[w..], q - w, p - w);
  }

  lemma FullShift(s: seq<Message>, w: nat, q: nat)
    requires w <= q < |s| && !s[w].role.Tool?
    ensures Full(s, q) <==> Full(s[w..], q - w)
  {
    hide AnswersAt;
    var r, u := s[w..], q - w;
    forall c: string
      ensures Answered(s, q, c) <==> Answered(r, u, c)
    {
      if p: nat :| AnswersAt(s, q, p, c) {
        AnswersInside(s, q, p, c);
        AnswersShift(s, w, q, p, c);
      }
      if p: nat :| AnswersAt(r, u, p, c) {
        AnswersShift(s, w, q, p + w, c);
      }
    }
    hide Answered;
  }

  lemma AnswersInside(s: seq<Message>, q: nat, p: nat, c: string)
    ensures AnswersAt(s, q, p, c) ==> q < p < |s|
  {
  }

  lemma LeadsInside(s: seq<Message>, q: nat, p: nat)
    ensures Leads(s, q, p) ==> q < p < |s|
  {
  }

  lemma FirstShift(s: seq<Message>, w: nat, q: nat, p: nat)
    requires w <= q < p < |s| && !s[w].role.Tool?
    ensures First(s, q, p) <==> First(s[w..], q - w, p - w)
  {
    hide AnswerId, Leads;
    LeadsShift(s, w, q, p);
    var r, u, id := s[w..], q - w, AnswerId(s[p]);
    if First(s, q, p) {
      forall k | u < k < p - w
        ensures !AnswersAt(r, u, k, id)
      {
        AnswersShift(s, w, q, k + w, id);
      }
    }
    if First(r, q - w, p - w) {
      forall k | q < k < p
        ensures !AnswersAt(s, q, k, id)
      {
        AnswersShift(s, w, q, k, id);
      }
    }
  }

  /** Whether a message stays is told from its block on. */
  lemma StaysShift(s: seq<Message>, w: nat, p: nat)
    requires w <= p < |s| && !s[w].role.Tool?
    ensures Stays(s, p) <==> Stays(s[w..], p - w)
  {
    hide AnswerId, Leads;
    FullShift(s, w, p);
    forall q | w <= q < p
      ensures First(s, q, p) && Full(s, q) <==> First(s[w..], q - w, p - w) && Full(s[w..], q - w)
    {
      FirstShift(s, w, q, p);
      FullShift(s, w, q);
    }
    forall q | 0 <= q < w
      ensures s[p].role.Tool? ==> !First(s, q, p)
    {
      LeadsShift(s, w, q, p);
    }
    hide First, Full;
    if s[p].role.Tool? {
      if q: nat :| q < p && First(s, q, p) && Full(s, q) {
        assert First(s[w..], q - w, p - w);
      }
      if q: nat :| q < p - w && First(s[w..], q, p - w) && Full(s[w..], q) {
        assert First(s, q + w, p);
      }
    }
  }

  lemma {:induction false} SecondPassPlaces(ok: bool, s: seq<Message>) returns (at: seq<nat>)
    requires DraftedFrom(ok, s)
    ensures Embeds(SecondPass(s), s, at) && forall p :: 0 <= p < |s| ==> (p in at <==> Stays(s, p))
    decreases |s|
  {
    hide Embeds, KeptBlock, Width, Stays;
    SecondPassUnfolds(s);
    if s == [] {
      at := [];
      SubsequenceSelfAt(s);
    } else {
      var w := Width(s);
      var rest := s[w..];
      DraftedRest(ok, s);
      var block := BlockPlaces(s);
      var behind := SecondPassPlaces(if CallTurn(s[0]) then true else s[0].role.User?, rest);
      at := JoinPlaces(KeptBlock(s), s[..w], block, SecondPass(rest), rest, behind);
      assert s[..w] + rest == s;
      hide SecondPass;
      forall p | w <= p < |s|
        ensures p in at <==> Stays(s, p)
      {
        assert rest[0] == s[w];
        StaysShift(s, w, p);
      }
    }
  }

  lemma SubsequenceSelfAt(a: seq<Message>)
    ensures Embeds([], a, [])
  {
  }

  // Both passes

  /** The turns of the second pass are those of the history. */
  lemma LeadsIs(h: seq<Message>, s: seq<Message>, at: seq<nat>, q: nat, p: nat)
    requires Places(h, |h|, s, at) && q < |s| && p < |s|
    ensures Leads(s, q, p) <==> InTurn(h, at[q], at[p])
  {
    hide Embeds;
    PlaceOrder(s, h, at);
    assert at[q] in at && Admitted(h, at[q]);
    if Leads(s, q, p) {
      forall k | at[q] < k < at[p] && Admitted(h, k)
        ensures h[k].role.Tool?
      {
        assert k in at;
        var x :| 0 <= x < |at| && at[x] == k;
        assert q < x < p;
      }
    }
    if InTurn(h, at[q], at[p]) {
      forall x | q < x < p
        ensures s[x].role.Tool?
      {
        assert at[x] in at && Admitted(h, at[x]);
      }
    }
  }

  lemma AnswersIs(h: seq<Message>, s: seq<Message>, at: seq<nat>, q: nat, p: nat, c: string)
    requires Places(h, |h|, s, at) && q < |s| && p < |s|
    ensures AnswersAt(s, q, p, c) <==> AnswersIn(h, at[q], at[p], c)
  {
    LeadsIs(h, s, at, q, p);
    PlaceOrder(s, h, at);
    LeadsInside(s, q, p);
    hide Embeds, Leads, InTurn, AnswerId;
  }

  /** An answer has a place: it is a tool message of a turn. */
  lemma AnswerHasPlace(h: seq<Message>, s: seq<Message>, at: seq<nat>, i: nat, j: nat, c: string) returns (p: nat)
    requires Places(h, |h|, s, at) && AnswersIn(h, i, j, c)
    ensures p < |at| && at[p] == j
  {
    hide InTurn, AnswerId, Embeds;
    assert InSomeTurn(h, j);
    assert Admitted(h, j);
    assert j in at;
    p :| p < |at| && at[p] == j;
  }

  lemma FullIs(h: seq<Message>, s: seq<Message>, at: seq<nat>, q: nat)
    requires Places(h, |h|, s, at) && q < |s|
    ensures at[q] < |h| && s[q] == h[at[q]] && (Full(s, q) <==> FullyAnswered(h, at[q]))
  {
    PlaceOrder(s, h, at);
    hide Places, AnswersIn, AnswersAt;
    forall c: string
      ensures Answered(s, q, c) <==> AnsweredIn(h, at[q], c)
    {
      if p: nat :| AnswersAt(s, q, p, c) {
        AnswersInside(s, q, p, c);
        AnswersIs(h, s, at, q, p, c);
      }
      if j: nat :| AnswersIn(h, at[q], j, c) {
        var p := AnswerHasPlace(h, s, at, at[q], j, c);
        AnswersIs(h, s, at, q, p, c);
      }
    }
  }

  lemma FirstAnswerIs(h: seq<Message>, s: seq<Message>, at: seq<nat>, q: nat, p: nat)
    requires Places(h, |h|, s, at) && q < |s| && p < |s|
    ensures at[p] < |h| && (First(s, q, p) <==> FirstAnswer(h, at[q], at[p]))
  {
    PlaceOrder(s, h, at);
    LeadsIs(h, s, at, q, p);
    var id := AnswerId(s[p]);
    hide Places, AnswersIn, AnswersAt, Leads, InTurn, AnswerId;
    if First(s, q, p) {
      forall k | at[q] < k < at[p]
        ensures !AnswersIn(h, at[q], k, id)
      {
        if AnswersIn(h, at[q], k, id) {
          var x := AnswerHasPlace(h, s, at, at[q], k, id);
          AnswersIs(h, s, at, q, x, id);
        }
      }
    }
    if FirstAnswer(h, at[q], at[p]) {
      forall x | q < x < p
        ensures !AnswersAt(s, q, x, id)
      {
        AnswersIs(h, s, at, q, x, id);
      }
    }
  }

  lemma StaysIs(h: seq<Message>, s: seq<Message>, at: seq<nat>, p: nat)
    requires Places(h, |h|, s, at) && p < |s|
    ensures at[p] < |h| && (Stays(s, p) <==> Survives(h, at[p]))
  {
    PlaceOrder(s, h, at);
    FullIs(h, s, at, p);
    assert at[p] in at && Admitted(h, at[p]);
    forall q | 0 <= q < p
      ensures First(s, q, p) && Full(s, q) <==> FirstAnswer(h, at[q], at[p]) && FullyAnswered(h, at[q])
    {
      FullIs(h, s, at, q);
      FirstAnswerIs(h, s, at, q, p);
    }
    hide Full, FullyAnswered, First, FirstAnswer, Admitted, Embeds;
    if t: nat :| t < at[p] && FirstAnswer(h, t, at[p]) && FullyAnswered(h, t) {
      assert Admitted(h, t) by {
        OpenerIsAdmitted(h, t, at[p]);
      }
      assert t in at;
      var q :| 0 <= q < |at| && at[q] == t;
      assert q < p;
    }
  }

  lemma OpenerIsAdmitted(h: seq<Message>, t: nat, i: nat)
    requires i < |h| && FirstAnswer(h, t, i)
    ensures t < |h| && Admitted(h, t)
  {
  }

  /** The sanitizer returns the messages that survive, in order. */
  lemma SanitizeKeepsSurvivors(h: seq<Message>) returns (at: seq<nat>)
    ensures Embeds(Sanitize(h), h, at) && forall i :: 0 <= i < |h| ==> (i in at <==> Survives(h, i))
  {
    var s := FirstPass(h);
    assert h[..|h|] == h;
    var first := FirstPassPlaces(h, |h|);
    FirstPassDrafts(h);
    FirstPassDraftsFromStart(s);
    var second := SecondPassPlaces(false, s);
    hide FirstPass, SecondPass, Drafted, DraftedFrom, Survives, Stays, Admitted;
    at := ComposePlaces(Sanitize(h), s, h, second, first);
    forall i | 0 <= i < |h|
      ensures i in at <==> Survives(h, i)
    {
      assert Survives(h, i) ==> Admitted(h, i) by {
        SurvivorIsAdmitted(h, i);
      }
      if i in first {
        var p: nat :| p < |first| && first[p] == i;
        StaysIs(h, s, first, p);
        PlaceOrder(s, h, first);
      }
    }
  }

  lemma SurvivorIsAdmitted(h: seq<Message>, i: nat)
    requires i < |h|
    ensures Survives(h, i) ==> Admitted(h, i)
  {
  }

  /** Places of places. */
  lemma ComposePlaces(a: seq<Message>, b: seq<Message>, c: seq<Message>, p: seq<nat>, q: seq<nat>)
    returns (at: seq<nat>)
    requires Embeds(a, b, p) && Embeds(b, c, q)
    ensures Embeds(a, c, at) && forall i :: i in at ==> i in q
    ensures forall x :: 0 <= x < |q| ==> (q[x] in at <==> x in p)
  {
    at := seq(|p|, x requires 0 <= x < |p| => q[p[x]]);
    forall x: nat | x < |q|
      ensures q[x] in at <==> x in p
    {
      if x in p {
        var y :| 0 <= y < |p| && p[y] == x;
        assert at[y] == q[x];
      }
      if q[x] in at {
        var y :| 0 <= y < |at| && at[y] == q[x];
        assert q[p[y]] == q[x];
      }
    }
  }
}
