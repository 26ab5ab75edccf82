/** What emergency trimming keeps, told by the places of the messages and by numbers alone. */
module TrimResults {
  import opened Basics
  import opened Messages
  import opened Sanitizer
  import opened SanitizerResults
  import opened EmergencyTrim

  /** Message i is among the last ceil(ratio * conversation) messages, or the last; 0.60 stands for a bad ratio. */
  predicate WithinRatio(ms: seq<Message>, ratio: real, i: nat) {
    var r := if 0.0 < ratio <= 1.0 then ratio else 0.60;
    i < |ms| && (i == |ms| - 1 || (|ms| - 1 - i) as real < r * (|ms| - 1) as real)
  }

  /** Message i is among the last `recent` ones; 6 stands for a number that is not positive. */
  predicate WithinRecent(ms: seq<Message>, recent: int, i: nat) {
    |ms| - i <= (if 0 < recent then recent else 6) && i < |ms|
  }

  ghost predicate LastUserAt(ms: seq<Message>, u: nat) {
    u < |ms| && ms[u].role.User? && forall i :: u < i < |ms| ==> !ms[i].role.User?
  }

  /** Only tool messages from i to j, and j answers call c; ids are compared as they are. */
  ghost predicate AnsweredBy(ms: seq<Message>, i: nat, j: nat, c: string) {
    i < j < |ms| && ms[j].resultId == c && forall k :: i < k <= j ==> ms[k].role.Tool?
  }

  ghost predicate HasAnswer(ms: seq<Message>, i: nat, c: string) {
    exists j :: AnsweredBy(ms, i, j, c)
  }

  /** An assistant message with a call that has an id, all of whose calls that have one are answered behind it. */
  ghost predicate CompleteTurn(ms: seq<Message>, i: nat)
    requires i < |ms|
  {
    && ms[i].role.Assistant? && (exists c :: c in ms[i].calls && c != "")
    && forall c :: c in ms[i].calls && c != "" ==> HasAnswer(ms, i, c)
  }

  ghost predicate LastTurnAt(ms: seq<Message>, b: nat) {
    1 <= b < |ms| && CompleteTurn(ms, b) && forall i :: b < i < |ms| ==> !CompleteTurn(ms, i)
  }

  ghost predicate Wanted(ms: seq<Message>, ratio: real, recent: int, i: nat) {
    1 <= i && (WithinRatio(ms, ratio, i) || WithinRecent(ms, recent, i) || LastUserAt(ms, i) || LastTurnAt(ms, i))
  }

  /** The first message that is wanted for any of the four reasons. */
  ghost predicate FirstWanted(ms: seq<Message>, ratio: real, recent: int, start: nat) {
    Wanted(ms, ratio, recent, start) && forall i :: Wanted(ms, ratio, recent, i) ==> start <= i
  }

  /** q is the last user or tool message from low on and in front of b. */
  ghost predicate BridgeAt(ms: seq<Message>, low: nat, b: nat, q: nat) {
    low <= q < b <= |ms| && MayPrecedeCalls(ms[q]) && forall i :: q < i < b ==> !MayPrecedeCalls(ms[i])
  }

  ghost predicate NoBridge(ms: seq<Message>, low: nat, b: nat) {
    b <= |ms| && forall i :: low <= i < b ==> !MayPrecedeCalls(ms[i])
  }

  ghost predicate BridgedFromFront(ms: seq<Message>, start: nat, b: nat, q: nat) {
    LastTurnAt(ms, b) && NoBridge(ms, start, b) && BridgeAt(ms, 1, b, q)
  }

  /**
   * The part of the list from start on, but nothing between the latest complete turn and the last user or tool
   * message in front of it; if there is none in that part, the last one in front of it is put first.
   */
  ghost predicate Bridged(ms: seq<Message>, start: nat, c: seq<Message>)
    requires start <= |ms|
  {
    || (c == ms[start..] && forall b: nat :: !LastTurnAt(ms, b))
    || (exists b: nat, q: nat :: LastTurnAt(ms, b) && BridgeAt(ms, start, b, q) && c == ms[start..q + 1] + ms[b..])
    || (exists b: nat, q: nat :: BridgedFromFront(ms, start, b, q) && c == [ms[q]] + ms[start..])
    || (exists b: nat :: LastTurnAt(ms, b) && NoBridge(ms, start, b) && NoBridge(ms, 1, b) && c == ms[start..])
  }

  lemma RawIdsHas(ms: seq<Message>, c: string)
    ensures c in RawIds(ms) <==> exists i :: 0 <= i < |ms| && ms[i].resultId == c
  {
  }

  lemma HasAnswerIs(ms: seq<Message>, i: nat, c: string)
    requires i < |ms|
    ensures HasAnswer(ms, i, c) <==> c in RawIds(ms[i + 1..][..ToolRun(ms[i + 1..])])
  {
    var after := ms[i + 1..];
    var n := ToolRun(after);
    ToolRunIs(after);
    RawIdsHas(after[..n], c);
    hide RawIds, ToolRun;
    if j: nat :| AnsweredBy(ms, i, j, c) {
      assert n < |after| ==> after[n] == ms[i + 1 + n];
      assert j - i - 1 < n;
      assert after[..n][j - i - 1] == ms[j];
    }
    if x :| 0 <= x < n && after[..n][x].resultId == c {
      assert forall k :: i < k <= i + 1 + x ==> ms[k] == after[k - i - 1];
      assert AnsweredBy(ms, i, i + 1 + x, c);
    }
  }

  lemma BoundaryIsTurn(ms: seq<Message>, i: nat)
    requires i < |ms|
    ensures IsBoundary(ms, i) <==> CompleteTurn(ms, i)
  {
    hide HasAnswer, RawIds, ToolRun;
    forall c: string
      ensures HasAnswer(ms, i, c) <==> c in RawIds(ms[i + 1..][..ToolRun(ms[i + 1..])])
    {
      HasAnswerIs(ms, i, c);
    }
  }

  lemma {:induction false} BoundaryUpToIs(ms: seq<Message>, i: int)
    requires i < |ms|
    ensures var b := BoundaryUpTo(ms, i); forall k :: b < k <= i && 1 <= k ==> !CompleteTurn(ms, k)
    ensures var b := BoundaryUpTo(ms, i); b != -1 ==> CompleteTurn(ms, b)
    decreases i + 1
  {
    hide IsBoundary, CompleteTurn;
    if 1 <= i {
      BoundaryIsTurn(ms, i);
      if !IsBoundary(ms, i) {
        BoundaryUpToIs(ms, i - 1);
      }
    }
  }

  lemma LatestBoundaryIs(ms: seq<Message>)
    ensures forall b: nat :: LastTurnAt(ms, b) <==> b == LatestBoundary(ms)
  {
    BoundaryUpToIs(ms, |ms| - 1);
    hide BoundaryUpTo, CompleteTurn;
  }

  lemma LatestUserIsLast(ms: seq<Message>)
    ensures forall u: nat :: LastUserAt(ms, u) <==> u == LatestUser(ms)
  {
    LatestUserIs(ms);
    hide LatestUser;
  }

  lemma CeilIs(x: real, k: int)
    ensures k as real < x <==> k + 1 <= Ceil(x)
  {
  }

  lemma CountedFromEnd(n: nat, i: nat, x: real)
    requires i < n
    ensures i == n - 1 || (n - 1 - i) as real < x <==> n - Max(Ceil(x), 1) <= i
  {
    CeilIs(x, n - 1 - i);
    hide Ceil;
  }

  /** The start by ratio is the first message within the ratio. */
  lemma RatioStart(ms: seq<Message>, ratio: real, i: nat)
    requires 2 < |ms| && 1 <= i
    ensures WithinRatio(ms, ratio, i) <==> i < |ms| && |ms| - KeepCount(|ms| - 1, ratio) <= i
  {
    if i < |ms| {
      hide Ceil, Max, KeepCount, WithinRatio, Share;
      CountedFromEnd(|ms|, i, Share(ms, ratio));
      ShareIs(ms, ratio, i);
    }
  }

  function Share(ms: seq<Message>, ratio: real): real {
    (|ms| - 1) as real * if 0.0 < ratio <= 1.0 then ratio else 0.60
  }

  lemma ShareIs(ms: seq<Message>, ratio: real, i: nat)
    requires i < |ms|
    ensures KeepCount(|ms| - 1, ratio) == Max(Ceil(Share(ms, ratio)), 1)
    ensures WithinRatio(ms, ratio, i) <==> i == |ms| - 1 || (|ms| - 1 - i) as real < Share(ms, ratio)
  {
  }

  lemma StartIsFirstWanted(ms: seq<Message>, ratio: real, recent: int)
    requires 2 < |ms|
    ensures FirstWanted(ms, ratio, recent, TrimStart(ms, ratio, recent))
  {
    var start := TrimStart(ms, ratio, recent);
    LatestBoundaryIs(ms);
    LatestUserIsLast(ms);
    forall i: nat | 1 <= i
      ensures WithinRatio(ms, ratio, i) <==> i < |ms| && |ms| - KeepCount(|ms| - 1, ratio) <= i
    {
      RatioStart(ms, ratio, i);
    }
    hide WithinRatio, LastUserAt, LastTurnAt, LatestUser, LatestBoundary, KeepCount;
  }

  lemma {:induction false} BridgeIs(ms: seq<Message>, low: nat, b: nat)
    requires b <= |ms|
    ensures var q := LatestBridge(ms, low, b); if q == -1 then NoBridge(ms, low, b) else BridgeAt(ms, low, b, q)
    decreases b
  {
    if low < b && !MayPrecedeCalls(ms[b - 1]) {
      BridgeIs(ms, low, b - 1);
    }
  }

  lemma BridgesNow(ms: seq<Message>, start: nat, b: nat)
    requires start < b <= |ms| && MayPrecedeCalls(ms[b - 1])
    ensures BridgeAt(ms, start, b, b - 1) && ms[start..b - 1 + 1] + ms[b..] == ms[start..]
  {
  }

  lemma ConversationIsBridged(ms: seq<Message>, start: nat)
    requires 1 <= start < |ms| && (LatestBoundary(ms) == -1 || start <= LatestBoundary(ms))
    ensures Bridged(ms, start, Conversation(ms, start))
  {
    LatestBoundaryIs(ms);
    hide LatestBoundary, LatestBridge, LastTurnAt, NoBridge, BridgeAt, MayPrecedeCalls;
    if LatestBoundary(ms) != -1 {
      BridgesTurn(ms, start, LatestBoundary(ms));
      hide Conversation, Bridged;
    }
  }

  lemma BridgesTurn(ms: seq<Message>, start: nat, b: nat)
    requires 1 <= start <= b < |ms| && LatestBoundary(ms) == b && LastTurnAt(ms, b)
    ensures Bridged(ms, start, Conversation(ms, start))
  {
    var c, q, f := Conversation(ms, start), LatestBridge(ms, start, b), LatestBridge(ms, 1, b);
    BridgeIs(ms, start, b);
    BridgeIs(ms, 1, b);
    if start < b && MayPrecedeCalls(ms[b - 1]) {
      BridgesNow(ms, start, b);
    }
    hide LatestBoundary, LatestBridge, LastTurnAt, NoBridge, BridgeAt, MayPrecedeCalls;
    if start < b && MayPrecedeCalls(ms[b - 1]) {
      assert c == ms[start..b - 1 + 1] + ms[b..];
    } else if q != -1 {
      assert c == ms[start..q + 1] + ms[b..];
    } else if f != -1 {
      assert BridgedFromFront(ms, start, b, f);
      assert c == [ms[f]] + ms[start..];
    } else {
      assert c == ms[start..];
    }
  }

  /** The trimmed list, for every list and all numbers. */
  lemma TrimmedIs(ms: seq<Message>, ratio: real, recent: int) returns (start: nat, c: seq<Message>)
    requires 2 < |ms|
    ensures FirstWanted(ms, ratio, recent, start) && start < |ms| && Bridged(ms, start, c)
    ensures Trimmed(ms, ratio, recent) == [ms[0]] + Sanitize([ms[0]] + c)
    ensures ms[0].role.System? ==> Trimmed(ms, ratio, recent) == [ms[0]] + Sanitize(c)
  {
    start := TrimStart(ms, ratio, recent);
    c := Conversation(ms, start);
    StartIsFirstWanted(ms, ratio, recent);
    ConversationIsBridged(ms, start);
    hide TrimStart, Conversation, FirstPass, SecondPass, Bridged, FirstWanted;
    if ms[0].role.System? {
      FirstPassSkipsSystem(ms[0], c);
    }
  }

  /**
   * Every user message that is not in front of all that is wanted, and has a well-formed rest, starts a part that is
   * kept to the letter.
   */
  lemma TrimmedKeepsFrom(ms: seq<Message>, ratio: real, recent: int, w: nat, u: nat)
    requires ms != [] && ms[0].role.System?
    requires Wanted(ms, ratio, recent, w) && w <= u < |ms| && ms[u].role.User? && WellFormed(ms[u..])
    ensures exists before :: Trimmed(ms, ratio, recent) == before + ms[u..]
  {
    if 2 < |ms| {
      StartIsFirstWanted(ms, ratio, recent);
    }
    hide Wanted, TrimStart, Trimmed, WellFormed;
    TrimmedKeepsBehind(ms, ratio, recent, u);
  }

  /** Of what stands in front of all that is wanted, at most one user or tool message is kept. */
  lemma TrimmedDropsBefore(ms: seq<Message>, ratio: real, recent: int, start: nat)
    requires 2 < |ms| && ms[0].role.System? && FirstWanted(ms, ratio, recent, start)
    ensures start < |ms|
    ensures exists bridge ::
      && |bridge| <= 1 && (forall m :: m in bridge ==> m in ms[1..start] && MayPrecedeCalls(m))
      && Subsequence(Trimmed(ms, ratio, recent)[1..], bridge + ms[start..])
  {
    var s, c := TrimmedIs(ms, ratio, recent);
    assert s == start;
    hide FirstWanted, Sanitize, Trimmed;
    SanitizeKeepsFree(c);
    var t := Trimmed(ms, ratio, recent);
    assert t[1..] == Sanitize(c);
    var bridge := BridgedHasOne(ms, start, c);
    SubsequenceTransitive(t[1..], c, bridge + ms[start..]);
  }

  lemma BridgedHasOne(ms: seq<Message>, start: nat, c: seq<Message>) returns (bridge: seq<Message>)
    requires 1 <= start < |ms| && Bridged(ms, start, c)
    ensures |bridge| <= 1 && (forall m :: m in bridge ==> m in ms[1..start] && MayPrecedeCalls(m))
    ensures Subsequence(c, bridge + ms[start..])
  {
    hide Subsequence, LastTurnAt, NoBridge;
    bridge := [];
    assert [] + ms[start..] == ms[start..];
    SubsequenceSelf(ms[start..]);
    if b: nat, q: nat :| LastTurnAt(ms, b) && BridgeAt(ms, start, b, q) && c == ms[start..q + 1] + ms[b..] {
      TwoSlicesAreSubsequence(ms, start, start, q + 1, b);
    } else if b: nat, q: nat :| BridgedFromFront(ms, start, b, q) && c == [ms[q]] + ms[start..] {
      NotInside(ms, start, b, q);
      bridge := [ms[q]];
      assert ms[1..start][q - 1] == ms[q];
      SubsequenceSelf(c);
    }
  }

  lemma NotInside(ms: seq<Message>, start: nat, b: nat, q: nat)
    requires NoBridge(ms, start, b) && BridgeAt(ms, 1, b, q)
    ensures q < start
  {
  }
}
