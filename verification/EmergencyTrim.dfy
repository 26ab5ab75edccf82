/** The last compaction stage: cut the conversation down to its recent part and make it coherent again. */
module EmergencyTrim {
  import opened Basics
  import opened Messages
  import opened Sanitizer
  import opened SanitizerResults

  const DEFAULT_EMERGENCY_RATIO: real := 0.60
  const DEFAULT_PRESERVE_RECENT: int := 6

  function Ceil(x: real): int {
    if x.Floor as real == x then x.Floor else x.Floor + 1
  }

  /** Index of the last user message, or -1. */
  function LatestUser(ms: seq<Message>): (r: int)
    ensures -1 <= r < |ms|
  {
    if ms == [] then -1 else if ms[|ms| - 1].role.User? then |ms| - 1 else LatestUser(ms[..|ms| - 1])
  }

  /** A call turn with at least one non-empty id, all of whose non-empty ids are answered right behind it. */
  predicate IsBoundary(ms: seq<Message>, i: nat)
    requires i < |ms|
  {
    var results := ms[i + 1..][..ToolRun(ms[i + 1..])];
    && ms[i].role.Assistant?
    && (exists c :: c in ms[i].calls && c != "")
    && (forall c :: c in ms[i].calls && c != "" ==> c in RawIds(results))
  }

  function RawIds(results: seq<Message>): set<string> {
    set m | m in results :: m.resultId
  }

  /** The last boundary at or below index i, never index 0, or -1. */
  function BoundaryUpTo(ms: seq<Message>, i: int): (r: int)
    requires i < |ms|
    ensures r == -1 || (1 <= r <= i && IsBoundary(ms, r))
    decreases i + 1
  {
    if i < 1 then -1 else if IsBoundary(ms, i) then i else BoundaryUpTo(ms, i - 1)
  }

  function LatestBoundary(ms: seq<Message>): (r: int)
    ensures r == -1 || (1 <= r < |ms| && IsBoundary(ms, r))
  {
    BoundaryUpTo(ms, |ms| - 1)
  }

  /** Index of the last user or tool message below n and from `low` on, or -1. */
  function LatestBridge(ms: seq<Message>, low: nat, n: nat): (r: int)
    requires n <= |ms|
    ensures r == -1 || (low <= r < n && MayPrecedeCalls(ms[r]))
    ensures r == -1 ==> forall i :: low <= i < n ==> !MayPrecedeCalls(ms[i])
  {
    if n <= low then -1 else if MayPrecedeCalls(ms[n - 1]) then n - 1 else LatestBridge(ms, low, n - 1)
  }

  /** How many of `count` messages the ratio keeps: at least one. */
  function KeepCount(count: nat, ratio: real): (k: int)
    ensures 1 <= k
  {
    var r := if ratio <= 0.0 || 1.0 < ratio then DEFAULT_EMERGENCY_RATIO else ratio;
    Max(Ceil(count as real * r), 1)
  }

  function TrimStart(ms: seq<Message>, ratio: real, preserveRecent: int): (start: nat)
    requires 2 < |ms|
    ensures 1 <= start < |ms|
    ensures 0 < LatestUser(ms) ==> start <= LatestUser(ms)
    ensures 0 < LatestBoundary(ms) ==> start <= LatestBoundary(ms)
  {
    var preserve := if preserveRecent <= 0 then DEFAULT_PRESERVE_RECENT else preserveRecent;
    var keep := KeepCount(|ms| - 1, ratio);
    var start := Min(Max(|ms| - keep, 1), Max(|ms| - preserve, 1));
    var u := LatestUser(ms);
    var afterUser := if 0 < u < start then u else start;
    var b := LatestBoundary(ms);
    if 0 < b < afterUser then b else afterUser
  }

  /** The messages from start on, with a user or tool message put right in front of the latest tool boundary. */
  function Conversation(ms: seq<Message>, start: nat): seq<Message>
    requires 1 <= start < |ms|
    requires LatestBoundary(ms) == -1 || start <= LatestBoundary(ms)
  {
    var b := LatestBoundary(ms);
    if b == -1 || (start < b && MayPrecedeCalls(ms[b - 1])) then ms[start..]
    else
      var bridge := LatestBridge(ms, start, b);
      if 0 <= bridge then ms[start..bridge + 1] + ms[b..]
      else
        var i := LatestBridge(ms, 1, b);
        if 0 <= i then [ms[i]] + ms[start..] else ms[start..]
  }

  function Trimmed(ms: seq<Message>, ratio: real, preserveRecent: int): seq<Message> {
    if |ms| <= 2 then ms
    else [ms[0]] + Sanitize([ms[0]] + Conversation(ms, TrimStart(ms, ratio, preserveRecent)))
  }

  method FindLatestUserMessageIndex(messages: seq<Message>) returns (r: int)
    ensures r == LatestUser(messages)
  {
    var i := |messages| - 1;
    assert messages[..i + 1] == messages;
    while 0 <= i
      invariant -1 <= i < |messages|
      invariant LatestUser(messages) == LatestUser(messages[..i + 1])
    {
      if messages[i].role.User? {
        return i;
      }
      assert messages[..i + 1][..i] == messages[..i];
      i := i - 1;
    }
    return -1;
  }

  method AnswersAllCalls(messages: seq<Message>, i: nat) returns (all: bool)
    requires i < |messages| && messages[i].role.Assistant?
    ensures all == IsBoundary(messages, i)
  {
    ghost var after := messages[i + 1..];
    ghost var n := ToolRun(after);
    ToolRunIs(after);
    var expected := set c | c in messages[i].calls && c != "";
    if expected == {} {
      assert forall c :: c in messages[i].calls && c != "" ==> c in expected;
      return false;
    }
    var c0 :| c0 in expected;
    ghost var before := expected;
    var j := i + 1;
    while j < |messages|
      invariant i + 1 <= j <= i + 1 + n
      invariant expected == before - RawIds(after[..j - i - 1])
    {
      var next := messages[j];
      assert after[j - i - 1] == next;
      if !next.role.Tool? {
        break;
      }
      assert after[..j - i] == after[..j - i - 1] + [next];
      expected := expected - {next.resultId};
      j := j + 1;
    }
    assert j == i + 1 + n;
    all := expected == {};
    assert forall c :: c in before && c !in RawIds(after[..n]) ==> c in expected;
    assert IsBoundary(messages, i) <==> before <= RawIds(after[..n]);
  }

  method FindLatestToolBoundaryStart(messages: seq<Message>) returns (r: int)
    ensures r == LatestBoundary(messages)
  {
    hide IsBoundary;
    var i := |messages| - 1;
    while 1 <= i
      invariant -1 <= i < |messages|
      invariant LatestBoundary(messages) == BoundaryUpTo(messages, i)
    {
      var msg := messages[i];
      if msg.role.Assistant? && |msg.calls| != 0 {
        var all := AnswersAllCalls(messages, i);
        if all {
          return i;
        }
      } else {
        NoBoundary(messages, i);
      }
      i := i - 1;
    }
    return -1;
  }

  lemma NoBoundary(ms: seq<Message>, i: nat)
    requires i < |ms| && (!ms[i].role.Assistant? || |ms[i].calls| == 0)
    ensures !IsBoundary(ms, i)
  {
  }

  method FindBridge(messages: seq<Message>, low: nat, n: nat) returns (r: int)
    requires n <= |messages|
    ensures r == LatestBridge(messages, low, n)
  {
    var i := n - 1;
    while low <= i
      invariant -1 <= i < n
      invariant LatestBridge(messages, low, n) == LatestBridge(messages, low, i + 1)
    {
      if messages[i].role.User? || messages[i].role.Tool? {
        return i;
      }
      i := i - 1;
    }
    return -1;
  }

  method BuildConversation(messages: seq<Message>, start: nat, boundary: int) returns (conversation: seq<Message>)
    requires 1 <= start < |messages| && boundary == LatestBoundary(messages)
    requires boundary == -1 || start <= boundary
    ensures conversation == Conversation(messages, start)
  {
    hide LatestBoundary, LatestBridge, IsBoundary, ToolRun;
    conversation := messages[start..];
    if start <= boundary {
      var localBoundary := boundary - start;
      var prevValid := 0 < localBoundary
        && (messages[boundary - 1].role.User? || messages[boundary - 1].role.Tool?);
      if !prevValid {
        var bridge := FindBridge(messages, start, boundary);
        if 0 <= bridge {
          conversation := messages[start..bridge + 1] + messages[boundary..];
        } else {
          var i := FindBridge(messages, 1, boundary);
          if 0 <= i {
            conversation := [messages[i]] + conversation;
          }
        }
      }
    }
  }

  lemma BoundaryIsCallTurn(ms: seq<Message>)
    ensures LatestBoundary(ms) == -1 || CallTurn(ms[LatestBoundary(ms)])
  {
  }

  method FindKeepCount(conversationCount: nat, ratio: real) returns (keepConversation: int)
    ensures keepConversation == KeepCount(conversationCount, ratio)
  {
    var retentionRatio := ratio;
    if retentionRatio <= 0.0 || 1.0 < retentionRatio {
      retentionRatio := DEFAULT_EMERGENCY_RATIO;
    }
    keepConversation := Ceil(conversationCount as real * retentionRatio);
    if keepConversation < 1 {
      keepConversation := 1;
    }
  }

  /** Where the kept part starts: by ratio, by recency, at the latest user message and at the latest boundary. */
  method FindStart(messages: seq<Message>, ratio: real, recent: int) returns (start: int, boundary: int)
    requires 2 < |messages|
    ensures start == TrimStart(messages, ratio, recent) && boundary == LatestBoundary(messages)
  {
    hide LatestUser, LatestBoundary, KeepCount;
    var preserveRecent := recent;
    if preserveRecent <= 0 {
      preserveRecent := DEFAULT_PRESERVE_RECENT;
    }
    var keepConversation := FindKeepCount(|messages| - 1, ratio);
    start := |messages| - keepConversation;
    if start < 1 {
      start := 1;
    }
    var recentStart := |messages| - preserveRecent;
    if recentStart < 1 {
      recentStart := 1;
    }
    if recentStart < start {
      start := recentStart;
    }
    var idx := FindLatestUserMessageIndex(messages);
    if 0 < idx && idx < start {
      start := idx;
    }
    boundary := FindLatestToolBoundaryStart(messages);
    if 0 < boundary && boundary < start {
      start := boundary;
    }
  }

  method EmergencyTrimMessages(messages: seq<Message>, ratio: real, recent: int) returns (trimmed: seq<Message>)
    ensures trimmed == Trimmed(messages, ratio, recent)
  {
    hide TrimStart, Conversation, Sanitize, LatestBoundary;
    if |messages| <= 2 {
      return messages;
    }
    var system := messages[0];
    var start, boundary := FindStart(messages, ratio, recent);
    var conversation := BuildConversation(messages, start, boundary);
    trimmed := SanitizeHistoryForProvider([system] + conversation);
    SanitizedHasNoSystem([system] + conversation);
    if |trimmed| == 0 {
      return [system];
    }
    if !trimmed[0].role.System? {
      trimmed := [system] + trimmed;
    }
  }

  lemma SanitizedHasNoSystem(h: seq<Message>)
    ensures Sanitize(h) != [] ==> !Sanitize(h)[0].role.System?
  {
    hide Sanitize;
    SanitizeIsWellFormed(h);
    assert Sanitize(h) != [] ==> WellFormedAt(Sanitize(h), 0);
  }

  /** A leading system message does not matter to the sanitizer. */
  lemma {:induction false} FirstPassSkipsSystem(m: Message, h: seq<Message>)
    requires m.role.System?
    ensures FirstPass([m] + h) == FirstPass(h)
    decreases |h|
  {
    hide *;
    if h == [] {
      FirstPassSnoc([], m);
      SystemIsNotAdmitted(FirstPass([]), m);
      assert [] + [m] == [m] + h;
    } else {
      var before, last := h[..|h| - 1], h[|h| - 1];
      SplitLast(h);
      FirstPassSkipsSystem(m, before);
      FirstPassSnoc(before, last);
      FirstPassSnoc([m] + before, last);
      assert ([m] + before) + [last] == [m] + h;
    }
  }

  lemma SystemIsNotAdmitted(kept: seq<Message>, m: Message)
    requires m.role.System?
    ensures !Admits(kept, m)
  {
  }

  lemma TwoSlicesAreSubsequence(ms: seq<Message>, low: nat, i: nat, j: nat, k: nat)
    requires low <= i <= j <= k <= |ms|
    ensures Subsequence(ms[i..j] + ms[k..], ms[low..])
  {
    var at := seq(j - i, x requires 0 <= x < j - i => i - low + x)
      + seq(|ms| - k, x requires 0 <= x < |ms| - k => k - low + x);
    var a, b := ms[i..j] + ms[k..], ms[low..];
    forall x | 0 <= x < |a|
      ensures at[x] < |b| && a[x] == b[at[x]]
    {
      if x < j - i {
        assert a[x] == ms[i + x] && at[x] == i - low + x;
      } else {
        assert a[x] == ms[k + (x - (j - i))] && at[x] == k - low + (x - (j - i));
      }
    }
    assert Embeds(a, b, at);
  }

  predicate NeedsBridge(ms: seq<Message>, start: nat) {
    var b := LatestBoundary(ms);
    b != -1 && !(start < b && MayPrecedeCalls(ms[b - 1]))
  }

  /** The conversation is two slices of the list: one in front, and all from index k on. */
  lemma ConversationShape(ms: seq<Message>, start: nat) returns (i: nat, j: nat, k: nat)
    requires 1 <= start < |ms| && (LatestBoundary(ms) == -1 || start <= LatestBoundary(ms))
    ensures 1 <= i <= j <= k <= |ms| && Conversation(ms, start) == ms[i..j] + ms[k..]
    ensures k == start || (k == LatestBoundary(ms) && NeedsBridge(ms, start))
  {
    var b := LatestBoundary(ms);
    var bridge := if b == -1 then -1 else LatestBridge(ms, start, b);
    var first := if b == -1 then -1 else LatestBridge(ms, 1, b);
    hide LatestBoundary, LatestBridge, MayPrecedeCalls;
    if !NeedsBridge(ms, start) {
      i, j, k := start, start, start;
      assert Conversation(ms, start) == ms[start..];
    } else if 0 <= bridge {
      i, j, k := start, bridge + 1, b;
    } else if 0 <= first {
      i, j, k := first, first + 1, start;
      assert ms[first..first + 1] == [ms[first]];
    } else {
      i, j, k := start, start, start;
      assert Conversation(ms, start) == ms[start..];
    }
  }

  lemma ConversationIsSubsequence(ms: seq<Message>, start: nat)
    requires 1 <= start < |ms| && (LatestBoundary(ms) == -1 || start <= LatestBoundary(ms))
    ensures Subsequence(Conversation(ms, start), ms[1..])
  {
    hide *;
    var i, j, k := ConversationShape(ms, start);
    TwoSlicesAreSubsequence(ms, 1, i, j, k);
  }

  lemma {:induction false} LatestUserIs(ms: seq<Message>)
    ensures var u := LatestUser(ms);
            (0 <= u ==> ms[u].role.User?) && forall i :: u < i < |ms| && 0 <= i ==> !ms[i].role.User?
  {
    if ms != [] && !ms[|ms| - 1].role.User? {
      LatestUserIs(ms[..|ms| - 1]);
    }
  }

  lemma CutAt(ms: seq<Message>, i: nat, u: nat)
    requires i <= u <= |ms|
    ensures ms[i..] == ms[i..u] + ms[u..]
  {
  }

  /** In a well-formed rest, a boundary stands behind a user or tool message. */
  lemma BoundaryHasPredecessor(ms: seq<Message>, u: nat)
    requires u < LatestBoundary(ms) && WellFormed(ms[u..])
    ensures MayPrecedeCalls(ms[LatestBoundary(ms) - 1])
  {
    var b := LatestBoundary(ms);
    BoundaryIsCallTurn(ms);
    hide LatestBoundary;
    assert ms[u..][b - u] == ms[b] && ms[u..][b - u - 1] == ms[b - 1];
    assert WellFormedAt(ms[u..], b - u);
  }

  /** From the latest user message on, the conversation is untouched. */
  lemma ConversationKeepsLatest(ms: seq<Message>, start: nat, u: nat) returns (before: seq<Message>)
    requires 1 <= start <= u < |ms| && (LatestBoundary(ms) == -1 || start <= LatestBoundary(ms))
    requires ms[u].role.User? && WellFormed(ms[u..])
    ensures Conversation(ms, start) == before + ms[u..]
  {
    var b := LatestBoundary(ms);
    hide LatestBoundary, WellFormed, Conversation;
    if u < b {
      BoundaryHasPredecessor(ms, u);
    }
    var i, j, k := ConversationShape(ms, start);
    BoundaryIsCallTurn(ms);
    assert k <= u;
    before := ms[i..j] + ms[k..u];
    CutAt(ms, k, u);
  }

  /** The trimmed list keeps the system message; behind it stands a well-formed part of the conversation. */
  lemma TrimmedIsWellFormed(ms: seq<Message>, ratio: real, recent: int)
    requires 2 < |ms| && ms[0].role.System?
    ensures var t := Trimmed(ms, ratio, recent);
            t != [] && t[0] == ms[0] && WellFormed(t[1..]) && Subsequence(t[1..], ms[1..])
  {
    hide TrimStart, LatestBoundary, FirstPass, SecondPass, WellFormed, Subsequence;
    var c := Conversation(ms, TrimStart(ms, ratio, recent));
    var t := Trimmed(ms, ratio, recent);
    assert t[1..] == Sanitize([ms[0]] + c);
    FirstPassSkipsSystem(ms[0], c);
    SanitizeIsWellFormed(c);
    SanitizeKeepsFree(c);
    ConversationIsSubsequence(ms, TrimStart(ms, ratio, recent));
    SubsequenceTransitive(t[1..], c, ms[1..]);
  }

  /** A user message behind the cut, with a well-formed rest, starts a part that is kept to the letter. */
  lemma TrimmedKeepsBehind(ms: seq<Message>, ratio: real, recent: int, u: nat)
    requires ms != [] && ms[0].role.System? && (2 < |ms| ==> TrimStart(ms, ratio, recent) <= u)
    requires 0 < u < |ms| && ms[u].role.User? && WellFormed(ms[u..])
    ensures exists before :: Trimmed(ms, ratio, recent) == before + ms[u..]
  {
    hide LatestUser, LatestBoundary, TrimStart, FirstPass, SecondPass, WellFormed, Conversation;
    if |ms| <= 2 {
      assert ms == ms[..u] + ms[u..];
    } else {
      var start := TrimStart(ms, ratio, recent);
      var before := ConversationKeepsLatest(ms, start, u);
      FirstPassSkipsSystem(ms[0], before + ms[u..]);
      SanitizeAtUser(before, ms[u..]);
      SanitizeFixedPoints(ms[u..]);
      assert [ms[0]] + (Sanitize(before) + ms[u..]) == ([ms[0]] + Sanitize(before)) + ms[u..];
    }
  }

  /** If what follows the latest user message is well-formed, all of it is kept to the letter, with that message. */
  lemma TrimmedKeepsLatest(ms: seq<Message>, ratio: real, recent: int)
    requires ms != [] && ms[0].role.System? && 0 < LatestUser(ms) && WellFormed(ms[LatestUser(ms)..])
    ensures var t := Trimmed(ms, ratio, recent);
            exists before :: t == before + ms[LatestUser(ms)..]
  {
    LatestUserIs(ms);
    hide LatestUser, TrimStart, WellFormed, Trimmed;
    TrimmedKeepsBehind(ms, ratio, recent, LatestUser(ms));
  }

  /** Without a leading system message, a user message in front is put in front of itself once more. */
  lemma TrimmedRepeatsUser(ms: seq<Message>, ratio: real, recent: int)
    requires 2 < |ms| && ms[0].role.User?
    ensures var t := Trimmed(ms, ratio, recent); 2 <= |t| && t[0] == ms[0] && t[1] == ms[0]
  {
    hide TrimStart, LatestBoundary, Conversation, FirstPass, SecondPass;
    var b := [ms[0]] + Conversation(ms, TrimStart(ms, ratio, recent));
    FirstPassAtUser([], b);
    var s := FirstPass(b);
    SecondPassUnfolds(s);
    assert KeptBlock(s) == [ms[0]];
  }
}
