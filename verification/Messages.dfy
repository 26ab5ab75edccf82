/** Conversation messages, and what a provider accepts as a conversation. */
module Messages {
  import opened Text

  datatype Role = System | User | Assistant | Tool | Other(name: string)

  /** `calls` are the ids of an assistant's tool calls; `resultId` is the call a tool message answers. */
  datatype Message = Message(
    role: Role, content: string, media: seq<string>, reasoning: string, calls: seq<string>, resultId: string)

  predicate CallTurn(m: Message) {
    m.role.Assistant? && m.calls != []
  }

  predicate MayPrecedeCalls(m: Message) {
    m.role.User? || m.role.Tool?
  }

  /** Messages that no sanitizer rule speaks about: users, plain assistants, unknown roles. */
  predicate Free(m: Message) {
    !m.role.System? && !m.role.Tool? && !CallTurn(m)
  }

  function AnswerId(m: Message): string {
    TrimSpace(m.resultId)
  }

  function AnswerIds(ms: seq<Message>): set<string> {
    set m | m in ms :: AnswerId(m)
  }

  /** Number of tool messages at the front. */
  function ToolRun(ms: seq<Message>): (n: nat)
    ensures n <= |ms|
  {
    if ms == [] || !ms[0].role.Tool? then 0 else 1 + ToolRun(ms[1..])
  }

  /** Exactly one result for every distinct call id, and no other. */
  ghost predicate Answers(calls: seq<string>, results: seq<Message>) {
    && (forall i, j :: 0 <= i < j < |results| ==> AnswerId(results[i]) != AnswerId(results[j]))
    && AnswerIds(results) == (set c | c in calls)
  }

  /**
   * What a provider accepts after the system message: no further system message, tool messages only behind a call
   * turn, and every call turn behind a user or tool message and followed at once by exactly its results.
   */
  ghost predicate WellFormed(ms: seq<Message>) {
    forall i :: 0 <= i < |ms| ==> WellFormedAt(ms, i)
  }

  ghost predicate WellFormedAt(ms: seq<Message>, i: nat)
    requires i < |ms|
  {
    && DraftedAt(ms, i)
    && (CallTurn(ms[i]) ==> Answers(ms[i].calls, ms[i + 1..][..ToolRun(ms[i + 1..])]))
  }

  /** The part of WellFormedAt that does not look at the results. */
  predicate DraftedAt(ms: seq<Message>, i: nat)
    requires i < |ms|
  {
    && !ms[i].role.System?
    && (ms[i].role.Tool? ==> 0 < i && (ms[i - 1].role.Tool? || CallTurn(ms[i - 1])))
    && (CallTurn(ms[i]) ==> 0 < i && MayPrecedeCalls(ms[i - 1]))
  }

  ghost predicate Embeds(a: seq<Message>, b: seq<Message>, at: seq<nat>) {
    && |at| == |a|
    && (forall i :: 0 <= i < |a| ==> at[i] < |b| && a[i] == b[at[i]])
    && (forall i, j :: 0 <= i < j < |a| ==> at[i] < at[j])
  }

  ghost predicate Subsequence(a: seq<Message>, b: seq<Message>) {
    exists at :: Embeds(a, b, at)
  }

  lemma SubsequenceSelf(a: seq<Message>)
    ensures Subsequence(a, a) && Subsequence([], a)
  {
    assert Embeds(a, a, seq(|a|, i => i));
    assert Embeds([], a, []);
  }

  lemma SubsequenceConcat(a: seq<Message>, b: seq<Message>, c: seq<Message>, d: seq<Message>)
    requires Subsequence(a, b) && Subsequence(c, d)
    ensures Subsequence(a + c, b + d)
  {
    var p :| Embeds(a, b, p);
    var q :| Embeds(c, d, q);
    assert Embeds(a + c, b + d, p + seq(|q|, i requires 0 <= i < |q| => |b| + q[i]));
  }

  lemma EmbedsSnoc(a: seq<Message>, b: seq<Message>, at: seq<nat>, m: Message)
    requires Embeds(a, b, at)
    ensures Embeds(a, b + [m], at) && Embeds(a + [m], b + [m], at + [|b|]) && |b| !in at
  {
  }

  lemma SubsequenceSnoc(a: seq<Message>, b: seq<Message>, m: Message)
    requires Subsequence(a, b)
    ensures Subsequence(a, b + [m]) && Subsequence(a + [m], b + [m])
  {
    var p: seq<nat> :| Embeds(a, b, p);
    EmbedsSnoc(a, b, p, m);
  }

  lemma SplitLast(ms: seq<Message>)
    requires ms != []
    ensures ms[..|ms| - 1] + [ms[|ms| - 1]] == ms
  {
  }

  lemma SubsequenceTransitive(a: seq<Message>, b: seq<Message>, c: seq<Message>)
    requires Subsequence(a, b) && Subsequence(b, c)
    ensures Subsequence(a, c)
  {
    var p :| Embeds(a, b, p);
    var q :| Embeds(b, c, q);
    assert Embeds(a, c, seq(|p|, i requires 0 <= i < |p| => q[p[i]]));
  }

  /** The free messages of a list, in order. */
  function FreeOnly(ms: seq<Message>): seq<Message> {
    if ms == [] then [] else FreeOf(ms[0]) + FreeOnly(ms[1..])
  }

  function FreeOf(m: Message): seq<Message> {
    if Free(m) then [m] else []
  }

  lemma {:induction false} FreeOnlyConcat(a: seq<Message>, b: seq<Message>)
    ensures FreeOnly(a + b) == FreeOnly(a) + FreeOnly(b)
  {
    if a == [] {
      assert a + b == b;
    } else {
      hide FreeOf;
      assert (a + b)[1..] == a[1..] + b;
      FreeOnlyConcat(a[1..], b);
      assert FreeOf(a[0]) + (FreeOnly(a[1..]) + FreeOnly(b)) == (FreeOf(a[0]) + FreeOnly(a[1..])) + FreeOnly(b);
    }
  }

  lemma {:induction false} NothingFree(a: seq<Message>)
    requires forall i :: 0 <= i < |a| ==> !Free(a[i])
    ensures FreeOnly(a) == []
  {
    if a != [] {
      NothingFree(a[1..]);
    }
  }

  lemma {:induction false} ToolRunIs(ms: seq<Message>)
    ensures var n := ToolRun(ms);
            (forall i :: 0 <= i < n ==> ms[i].role.Tool?) && (n < |ms| ==> !ms[n].role.Tool?)
  {
    if ms != [] && ms[0].role.Tool? {
      ToolRunIs(ms[1..]);
    }
  }

  lemma {:induction false} ToolRunOf(tools: seq<Message>, rest: seq<Message>)
    requires forall i :: 0 <= i < |tools| ==> tools[i].role.Tool?
    requires rest != [] ==> !rest[0].role.Tool?
    ensures ToolRun(tools + rest) == |tools|
  {
    if tools == [] {
      assert tools + rest == rest;
    } else {
      assert (tools + rest)[1..] == tools[1..] + rest;
      ToolRunOf(tools[1..], rest);
    }
  }
}
