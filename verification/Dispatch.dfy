/** The message list of one turn, from its construction to every request that is sent. */
module Dispatch {
  import opened Basics
  import opened Text
  import opened Messages
  import opened Sanitizer
  import opened EmergencyTrim

  const TOOL_SUFFIX := "\n[tool output truncated for context budget]"
  const ASSISTANT_SUFFIX := "\n[assistant content truncated for context budget]"
  const PREFACE_SUFFIX := "\n[assistant tool preface truncated]"
  const FALLBACK := "Continue with the previous request."

  /** Bytes of a rune in UTF-8. */
  function RuneBytes(c: char): nat {
    var n := c as int;
    if n < 0x80 then 1 else if n < 0x800 then 2 else if n < 0x10000 then 3 else 4
  }

  /** len of a Go string: its bytes. */
  function ByteLength(s: string): nat {
    if s == "" then 0 else RuneBytes(s[0]) + ByteLength(s[1..])
  }

  function CompactText(text: string, keepRunes: int, suffix: string): string {
    var keep := Max(keepRunes, 0);
    if |text| <= keep then text else TrimSpace(text[..keep]) + suffix
  }

  /** A payload over its limit in bytes. */
  predicate TooLong(m: Message) {
    || (m.role.Tool? && 1200 < ByteLength(m.content))
    || (m.role.Assistant? && m.calls == [] && 1800 < ByteLength(m.content))
    || (CallTurn(m) && 800 < ByteLength(m.content))
  }

  function PruneOne(m: Message): Message {
    if !TooLong(m) then m
    else if m.role.Tool? then m.(content := CompactText(m.content, 450, TOOL_SUFFIX))
    else if m.calls == [] then m.(content := CompactText(m.content, 800, ASSISTANT_SUFFIX))
    else m.(content := CompactText(m.content, 300, PREFACE_SUFFIX))
  }

  function TrimBefore(count: nat, preserveRecent: int): int {
    Max(count - (if preserveRecent <= 0 then DEFAULT_PRESERVE_RECENT else preserveRecent), 1)
  }

  function Pruned(ms: seq<Message>, preserveRecent: int): (r: seq<Message>)
    ensures |r| == |ms|
  {
    seq(|ms|, i requires 0 <= i < |ms| =>
      if 1 <= i < TrimBefore(|ms|, preserveRecent) then PruneOne(ms[i]) else ms[i])
  }

  method PruneLowValueHistoricalPayloads(messages: seq<Message>, recent: int)
    returns (updated: seq<Message>, changed: bool)
    ensures updated == Pruned(messages, recent)
    ensures changed <==> exists i :: 1 <= i < TrimBefore(|messages|, recent) && i < |messages| && TooLong(messages[i])
  {
    hide PruneOne, TooLong;
    if |messages| == 0 {
      return messages, false;
    }
    var preserveRecent := recent;
    if preserveRecent <= 0 {
      preserveRecent := DEFAULT_PRESERVE_RECENT;
    }
    var trimBefore := |messages| - preserveRecent;
    if trimBefore < 1 {
      trimBefore := 1;
    }
    updated := messages;
    changed := false;
    var i := 1;
    while i < trimBefore
      invariant 1 <= i <= trimBefore && |updated| == |messages|
      invariant forall k :: 0 <= k < |messages| ==>
        updated[k] == if 1 <= k < i then PruneOne(messages[k]) else messages[k]
      invariant changed <==> exists k :: 1 <= k < i && TooLong(messages[k])
    {
      var msg, cut := PruneMessage(updated[i]);
      changed := changed || cut;
      updated := updated[i := msg];
      i := i + 1;
    }
  }

  method PruneMessage(m: Message) returns (msg: Message, changed: bool)
    ensures msg == PruneOne(m) && changed == TooLong(m)
  {
    msg, changed := m, true;
    if msg.role.Tool? && 1200 < ByteLength(msg.content) {
      msg := msg.(content := CompactText(msg.content, 450, TOOL_SUFFIX));
    } else if msg.role.Assistant? && |msg.calls| == 0 && 1800 < ByteLength(msg.content) {
      msg := msg.(content := CompactText(msg.content, 800, ASSISTANT_SUFFIX));
    } else if msg.role.Assistant? && 0 < |msg.calls| && 800 < ByteLength(msg.content) {
      msg := msg.(content := CompactText(msg.content, 300, PREFACE_SUFFIX));
    } else {
      changed := false;
    }
  }

  /** A plain assistant message that says nothing. */
  predicate IsBlankReply(m: Message) {
    m.role.Assistant? && m.calls == [] && m.media == [] && TrimSpace(m.content) == "" && TrimSpace(m.reasoning) == ""
  }

  function WithoutBlankReplies(ms: seq<Message>): seq<Message> {
    if ms == [] then []
    else (if IsBlankReply(ms[|ms| - 1]) then WithoutBlankReplies(ms[..|ms| - 1])
          else WithoutBlankReplies(ms[..|ms| - 1]) + [ms[|ms| - 1]])
  }

  method SanitizeDispatchMessages(messages: seq<Message>) returns (out: seq<Message>)
    ensures out == WithoutBlankReplies(messages)
  {
    out := [];
    for i := 0 to |messages|
      invariant out == WithoutBlankReplies(messages[..i])
    {
      assert messages[..i + 1][..i] == messages[..i];
      var msg := messages[i];
      if !(msg.role.Assistant? && |msg.calls| == 0 && |msg.media| == 0
           && TrimSpace(msg.content) == "" && TrimSpace(msg.reasoning) == "") {
        out := out + [msg];
      }
    }
    assert messages[..|messages|] == messages;
  }

  function UserMessage(text: string, media: seq<string>): Message {
    Message(User, text, media, "", [], "")
  }

  ghost predicate OnlySystem(ms: seq<Message>) {
    forall i :: 0 <= i < |ms| ==> ms[i].role.System?
  }

  method EnsureNonSystemDispatchMessage(messages: seq<Message>, fallback: string)
    returns (out: seq<Message>, injected: bool)
    ensures injected == OnlySystem(messages)
    ensures out == if injected then messages + [UserMessage(FallbackText(fallback), [])] else messages
  {
    for i := 0 to |messages|
      invariant forall k :: 0 <= k < i ==> messages[k].role.System?
    {
      if !messages[i].role.System? {
        return messages, false;
      }
    }
    return messages + [UserMessage(FallbackText(fallback), [])], true;
  }

  function FallbackText(fallback: string): string {
    if TrimSpace(fallback) == "" then FALLBACK else TrimSpace(fallback)
  }

  /** The list a turn starts from. */
  function BuildMessages(system: Message, history: seq<Message>, current: string, media: seq<string>): seq<Message> {
    [system] + Sanitize(history) + if TrimSpace(current) == "" then [] else [UserMessage(current, media)]
  }

  /** A complete call turn: the assistant's message and one result per call, in the order of the calls. */
  function Turn(text: string, reasoning: string, calls: seq<string>, results: seq<string>): seq<Message>
    requires |results| == |calls|
  {
    [Message(Assistant, text, [], reasoning, calls, "")] + Results(calls, results)
  }

  function Results(calls: seq<string>, results: seq<string>): (r: seq<Message>)
    requires |results| == |calls|
    ensures |r| == |calls|
  {
    seq(|calls|, i requires 0 <= i < |calls| => Message(Tool, results[i], [], "", [], calls[i]))
  }

  /** Call ids a provider can match results with: distinct, and free of surrounding white space. */
  ghost predicate GoodIds(calls: seq<string>) {
    && (forall i, j :: 0 <= i < j < |calls| ==> calls[i] != calls[j])
    && (forall i :: 0 <= i < |calls| ==> TrimSpace(calls[i]) == calls[i])
  }

  /** What a turn works on: the list it sends, and the stored history of its session. */
  datatype State = State(messages: seq<Message>, session: seq<Message>)

  /**
   * What a turn does. Summarizing drops a front part of the stored history and rebuilds the list from the rest; a
   * call turn is appended to the list and to the stored history.
   */
  datatype Op =
    | Prune(preserveRecent: int)
    | Emergency(ratio: real, preserveRecent: int)
    | Summarize(system: Message, dropped: nat)
    | Send(fallback: string)
    | CallTools(text: string, reasoning: string, calls: seq<string>, results: seq<string>)

  function Sent(ms: seq<Message>, fallback: string): seq<Message> {
    var out := WithoutBlankReplies(ms);
    if forall i :: 0 <= i < |out| ==> out[i].role.System? then out + [UserMessage(FallbackText(fallback), [])] else out
  }

  function Apply(s: State, op: Op): State
    requires op.CallTools? ==> |op.results| == |op.calls|
  {
    match op
    case Prune(recent) => s.(messages := Pruned(s.messages, recent))
    case Emergency(ratio, recent) => s.(messages := Trimmed(s.messages, ratio, recent))
    case Summarize(system, dropped) =>
      var rest := s.session[Min(dropped, |s.session|)..];
      State(BuildMessages(system, rest, "", []), rest)
    case Send(fallback) => s.(messages := Sent(s.messages, fallback))
    case CallTools(text, reasoning, calls, results) =>
      State(s.messages + Turn(text, reasoning, calls, results), s.session + Turn(text, reasoning, calls, results))
  }

  /** The state in which a turn starts: the user's message is sent and stored. */
  function Start(system: Message, history: seq<Message>, current: string, media: seq<string>): State {
    State(BuildMessages(system, history, current, media), history + [UserMessage(current, [])])
  }

  /** Tool calls carry good ids and answer a list that was just sent. */
  ghost predicate Legal(ops: seq<Op>, i: nat)
    requires i < |ops|
  {
    match ops[i]
    case CallTools(text, reasoning, calls, results) =>
      calls != [] && |results| == |calls| && GoodIds(calls) && 0 < i && ops[i - 1].Send?
    case Summarize(system, dropped) => system.role.System?
    case _ => true
  }

  /** A list that may be sent: well-formed behind its system message, and waiting for the assistant. */
  ghost predicate Ready(ms: seq<Message>) {
    && 1 < |ms| && ms[0].role.System? && WellFormed(ms[1..])
    && MayPrecedeCalls(ms[|ms| - 1]) && 0 < LatestUser(ms)
  }

  /** Ready, or nothing but the system message. */
  ghost predicate Waiting(ms: seq<Message>) {
    Ready(ms) || (|ms| == 1 && ms[0].role.System?)
  }
}
