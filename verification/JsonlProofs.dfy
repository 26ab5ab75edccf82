/** What the session store promises: it behaves like a list, and a crash loses nothing that was visible. */
module JsonlProofs {
  import opened Text
  import opened Messages
  import opened JsonlStore

  /** The skip offset stays within the lines of the log. */
  ghost predicate InRange(s: Session) {
    Readable(s) && 0 <= MetaOf(s).skip <= |Records(s.log)|
  }

  ghost predicate EndsWith(a: seq<Message>, b: seq<Message>) {
    |b| <= |a| && a[|a| - |b|..] == b
  }

  lemma {:induction false} DecodedConcat(a: seq<Line>, b: seq<Line>)
    ensures Decoded(a + b) == Decoded(a) + Decoded(b)
    decreases |b|
  {
    hide DecodedLine;
    if b == [] {
      assert a + b == a;
    } else {
      var n := |b| - 1;
      assert (a + b)[..|a + b| - 1] == a + b[..n] && (a + b)[|a + b| - 1] == b[n];
      DecodedConcat(a, b[..n]);
    }
  }

  lemma {:induction false} DecodedEncoded(msgs: seq<Message>)
    ensures Decoded(Encoded(msgs)) == msgs && Records(Encoded(msgs)) == Encoded(msgs)
  {
    if msgs != [] {
      var n := |msgs| - 1;
      assert Encoded(msgs)[..n] == Encoded(msgs[..n]);
      DecodedEncoded(msgs[..n]);
      assert msgs[..n] + [msgs[n]] == msgs;
    }
  }

  lemma RecordsSnoc(log: seq<Line>, line: Line)
    ensures Records(log + [line]) == if line.Blank? then Records(log) else Records(log) + [line]
  {
  }

  lemma VisibleEncoded(msgs: seq<Message>)
    ensures Visible(Encoded(msgs), 0) == msgs
  {
    DecodedEncoded(msgs);
  }

  lemma VisibleSnoc(log: seq<Line>, m: Message, skip: int)
    requires skip <= |Records(log)|
    ensures Visible(log + [Good(m)], skip) == Visible(log, skip) + [m]
  {
    RecordsSnoc(log, Good(m));
    ReadStep(Records(log), Good(m), skip);
  }

  /** With a smaller offset more becomes visible, in front. */
  lemma VisibleFromZero(log: seq<Line>, skip: int)
    ensures EndsWith(Visible(log, 0), Visible(log, skip))
  {
    var r := Records(log);
    var d := Drop(r, skip);
    assert r[..|r| - |d|] + d == r;
    hide Records, Decoded;
    DecodedConcat(r[..|r| - |d|], d);
  }

  lemma WriteKeepsRange(s: Session, op: Op, i: nat)
    requires InRange(s) && i < |Writes(s, op)|
    ensures InRange(Writes(s, op)[i])
  {
  }

  /** Whatever takes effect of an operation, the offset stays within the log. */
  lemma StepKeepsRange(s: Session, op: Op, n: nat)
    requires InRange(s)
    ensures InRange(After(s, op, n))
  {
  }

  /** All writes of the operation. */
  function Done(s: Session, op: Op): Session {
    After(s, op, |Writes(s, op)|)
  }

  lemma ReplacedIsSafe(s: Session, h: seq<Message>)
    requires InRange(s)
    ensures var w := Replaced(s, h);
      |w| == 2 && Readable(w[0]) && Readable(w[1]) && EndsWith(History(w[0]), History(s)) && History(w[1]) == h
  {
    VisibleFromZero(s.log, MetaOf(s).skip);
    VisibleEncoded(h);
    hide Visible;
  }

  lemma EachWriteIsSafe(s: Session, op: Op, i: nat)
    requires InRange(s) && i < |Writes(s, op)|
    ensures var w := Writes(s, op);
      && InRange(w[i]) && InRange(w[|w| - 1])
      && (History(w[i]) == History(w[|w| - 1]) || EndsWith(History(w[i]), History(s)))
  {
    WriteKeepsRange(s, op, i);
    WriteKeepsRange(s, op, |Writes(s, op)| - 1);
    hide Visible, InRange, Replaced, NormalTools;
    match op
    case SetHistory(h) => ReplacedIsSafe(s, h);
    case Compact => ReplacedIsSafe(s, Visible(s.log, MetaOf(s).skip));
    case _ =>
  }

  /**
   * After a crash between any two writes, the visible history is the one the completed operation gives, or a list
   * that ends with the history from before it.
   */
  lemma CrashLosesNothing(s: Session, op: Op, n: nat)
    requires InRange(s)
    ensures InRange(After(s, op, n)) && InRange(Done(s, op))
    ensures History(After(s, op, n)) == History(Done(s, op)) || EndsWith(History(After(s, op, n)), History(s))
  {
    StepKeepsRange(s, op, n);
    StepKeepsRange(s, op, |Writes(s, op)|);
    hide Writes, History, Readable;
    var w := Writes(s, op);
    if After(s, op, n) == s {
      assert EndsWith(History(s), History(s));
    } else {
      EachWriteIsSafe(s, op, if n < |w| then n - 1 else |w| - 1);
    }
  }

  // The store as a plain list

  function LastOf(l: seq<Message>, k: int): (r: seq<Message>)
  {
    if k <= 0 then [] else if |l| <= k then l else l[|l| - k..]
  }

  /** The operation on a plain list. */
  function OnList(l: seq<Message>, op: Op): seq<Message> {
    match op
    case Add(m) => l + [m]
    case SetHistory(h) => h
    case Truncate(k) => LastOf(l, k)
    case _ => l
  }

  ghost predicate NoCorrupt(lines: seq<Line>) {
    forall i :: 0 <= i < |lines| ==> !lines[i].Corrupt?
  }

  /** Adding, replacing and compacting act as on a plain list, with or without corrupt lines. */
  lemma ActsOnList(s: Session, op: Op)
    requires InRange(s) && !op.Truncate?
    ensures InRange(Done(s, op)) && History(Done(s, op)) == OnList(History(s), op)
  {
    StepKeepsRange(s, op, |Writes(s, op)|);
    match op
    case Add(m) => VisibleSnoc(s.log, m, MetaOf(s).skip); hide Visible;
    case SetHistory(h) => VisibleEncoded(h); hide Visible, Encoded;
    case Compact => VisibleEncoded(Visible(s.log, MetaOf(s).skip)); hide Visible, Encoded;
    case _ =>
  }

  /** Compacting changes the file: what is left is the visible history, one line a message. */
  lemma CompactedFile(s: Session)
    requires InRange(s)
    ensures InRange(Done(s, Compact)) && MetaOf(Done(s, Compact)).skip == 0
    ensures MetaOf(s).skip != 0 ==> Done(s, Compact).log == Encoded(History(s))
    ensures MetaOf(s).skip == 0 ==> Done(s, Compact) == s
  {
  }

  /** The visible lines. */
  function Shown(s: Session): seq<Line>
    requires Readable(s)
  {
    Drop(Records(s.log), MetaOf(s).skip)
  }

  lemma {:induction false} DecodedLength(lines: seq<Line>)
    ensures |Decoded(lines)| <= |lines|
    ensures |Decoded(lines)| == 0 <==> forall i :: 0 <= i < |lines| ==> !lines[i].Good?
    ensures |Decoded(lines)| == |lines| <==> forall i :: 0 <= i < |lines| ==> lines[i].Good?
  {
    if lines != [] {
      DecodedLength(lines[..|lines| - 1]);
    }
  }

  lemma TruncatedShown(s: Session, k: int)
    requires InRange(s)
    ensures InRange(Done(s, Truncate(k)))
    ensures var v := Shown(s);
      Shown(Done(s, Truncate(k))) == if k <= 0 then [] else if |v| <= k then v else v[|v| - k..]
  {
  }

  lemma {:induction false} RecordsHaveNoBlank(log: seq<Line>)
    ensures forall i :: 0 <= i < |Records(log)| ==> !Records(log)[i].Blank?
    ensures NoCorrupt(log) ==> NoCorrupt(Records(log))
  {
    if log != [] {
      RecordsHaveNoBlank(log[..|log| - 1]);
    }
  }

  /** When truncating keeps too few messages: a corrupt line among the last k, and a message in front of them. */
  ghost predicate CorruptTakesAPlace(v: seq<Line>, k: int) {
    && 0 < k < |v|
    && (exists i :: |v| - k <= i < |v| && v[i].Corrupt?)
    && (exists i :: 0 <= i < |v| - k && v[i].Good?)
  }

  lemma LinesKeptIff(v: seq<Line>, k: int)
    requires forall i :: 0 <= i < |v| ==> !v[i].Blank?
    ensures Decoded(if k <= 0 then [] else if |v| <= k then v else v[|v| - k..]) == LastOf(Decoded(v), k)
      <==> !CorruptTakesAPlace(v, k)
  {
    if 0 < k < |v| {
      hide *;
      TailIff(v[..|v| - k], v[|v| - k..]);
      assert v[..|v| - k] + v[|v| - k..] == v;
      PlacesIff(v, k);
      LastWithin(v, k);
    } else {
      DecodedLength(v);
    }
  }

  lemma LastWithin(v: seq<Line>, k: int)
    requires 0 < k < |v|
    ensures LastOf(Decoded(v), k) == LastOf(Decoded(v[..|v| - k] + v[|v| - k..]), |v[|v| - k..]|)
  {
    assert v[..|v| - k] + v[|v| - k..] == v;
  }

  lemma ShownHasNoBlank(s: Session)
    requires Readable(s)
    ensures forall i :: 0 <= i < |Shown(s)| ==> !Shown(s)[i].Blank?
  {
    RecordsHaveNoBlank(s.log);
  }

  lemma DoneInRange(s: Session, op: Op)
    requires InRange(s)
    ensures Readable(s) && InRange(Done(s, op)) && Readable(Done(s, op))
  {
  }

  /** The offset counts lines and not messages: the last k messages are kept unless a corrupt line takes a place. */
  lemma TruncateKeepsLastIff(s: Session, k: int)
    requires InRange(s)
    ensures InRange(Done(s, Truncate(k)))
    ensures History(Done(s, Truncate(k))) == LastOf(History(s), k) <==> !CorruptTakesAPlace(Shown(s), k)
  {
    hide *;
    DoneInRange(s, Truncate(k));
    TruncatedShown(s, k);
    ShownHasNoBlank(s);
    HistoryIsShown(s);
    HistoryIsShown(Done(s, Truncate(k)));
    LinesKeptIff(Shown(s), k);
  }

  lemma HistoryIsShown(s: Session)
    requires Readable(s)
    ensures History(s) == Decoded(Shown(s))
  {
  }

  lemma TailIff(a: seq<Line>, b: seq<Line>)
    requires b != []
    requires forall i :: 0 <= i < |b| ==> !b[i].Blank?
    ensures Decoded(b) == LastOf(Decoded(a + b), |b|)
      <==> (forall i :: 0 <= i < |b| ==> !b[i].Corrupt?) || (forall i :: 0 <= i < |a| ==> !a[i].Good?)
  {
    DecodedConcat(a, b);
    DecodedLength(a);
    DecodedLength(b);
    hide Decoded;
    var x, y := Decoded(a), Decoded(b);
    var l := x + y;
    if |y| == |b| {
      assert l[|l| - |b|..] == y;
    } else if |x| == 0 {
      assert l == y;
    }
  }

  lemma PlacesIff(v: seq<Line>, k: int)
    requires 0 < k < |v|
    ensures var a, b := v[..|v| - k], v[|v| - k..];
      CorruptTakesAPlace(v, k)
      <==> !((forall i :: 0 <= i < |b| ==> !b[i].Corrupt?) || (forall i :: 0 <= i < |a| ==> !a[i].Good?))
  {
    var a, b := v[..|v| - k], v[|v| - k..];
    assert forall i :: 0 <= i < |a| ==> a[i] == v[i];
    forall i | |v| - k <= i < |v|
      ensures b[i - (|v| - k)] == v[i]
    {
    }
    assert forall i :: 0 <= i < |b| ==> b[i] == v[|v| - k + i];
  }

  lemma RecordsOfThree(m: Message)
    ensures Records([Good(m), Good(m), Corrupt]) == [Good(m), Good(m), Corrupt]
  {
    assert [Good(m)] == [] + [Good(m)] && [Good(m), Good(m)] == [Good(m)] + [Good(m)];
    assert [Good(m), Good(m), Corrupt] == [Good(m), Good(m)] + [Corrupt];
    RecordsSnoc([], Good(m));
    RecordsSnoc([Good(m)], Good(m));
    RecordsSnoc([Good(m), Good(m)], Corrupt);
  }

  /** Of two messages with a corrupt line behind them, truncating to the last two does not leave the two. */
  lemma TruncateCanKeepTooFew(m: Message)
    ensures var s := Session([Good(m), Good(m), Corrupt], Absent);
      InRange(s) && InRange(Done(s, Truncate(2))) && History(Done(s, Truncate(2))) != LastOf(History(s), 2)
  {
    var log := [Good(m), Good(m), Corrupt];
    var s := Session(log, Absent);
    RecordsOfThree(m);
    assert Shown(s) == log && InRange(s);
    assert log[2].Corrupt? && log[0].Good?;
    assert CorruptTakesAPlace(log, 2);
    hide History, Done, LastOf, Shown, InRange, CorruptTakesAPlace;
    TruncateKeepsLastIff(s, 2);
  }

  // Runs

  /** An operation of which the first `writes` writes take effect; the process goes on, or crashes and restarts. */
  datatype Event = Event(op: Op, writes: nat)

  function Run(s: Session, events: seq<Event>): Session {
    if events == [] then s
    else After(Run(s, events[..|events| - 1]), events[|events| - 1].op, events[|events| - 1].writes)
  }

  /** Through any run with any crashes, the offset stays within the log. */
  lemma {:induction false} RunKeepsRange(s: Session, events: seq<Event>)
    requires InRange(s)
    ensures InRange(Run(s, events))
  {
    hide InRange, After;
    if events != [] {
      var before := events[..|events| - 1];
      RunKeepsRange(s, before);
      StepKeepsRange(Run(s, before), events[|events| - 1].op, events[|events| - 1].writes);
    }
  }

  /** In any run, each operation, crashed or not, gives its result or leaves a history that ends with the one before. */
  lemma RunLosesNothing(s: Session, events: seq<Event>, last: Event)
    requires InRange(s)
    ensures InRange(Run(s, events)) && InRange(Run(s, events + [last])) && InRange(Done(Run(s, events), last.op))
    ensures var after := History(Run(s, events + [last]));
      after == History(Done(Run(s, events), last.op)) || EndsWith(after, History(Run(s, events)))
  {
    RunKeepsRange(s, events);
    assert (events + [last])[..|events|] == events;
    hide InRange, After, Done, EndsWith;
    CrashLosesNothing(Run(s, events), last.op, last.writes);
  }

  function RunAll(s: Session, ops: seq<Op>): Session {
    if ops == [] then s else Done(RunAll(s, ops[..|ops| - 1]), ops[|ops| - 1])
  }

  function ListRun(l: seq<Message>, ops: seq<Op>): seq<Message> {
    if ops == [] then l else OnList(ListRun(l, ops[..|ops| - 1]), ops[|ops| - 1])
  }

  ghost predicate Intact(s: Session) {
    InRange(s) && NoCorrupt(s.log)
  }

  lemma WritesStayIntact(s: Session, op: Op, n: nat)
    requires Intact(s)
    ensures Intact(After(s, op, n))
  {
    StepKeepsRange(s, op, n);
    hide InRange, Visible, Records;
  }

  lemma IntactIsAList(s: Session, op: Op)
    requires Intact(s)
    ensures Intact(Done(s, op)) && History(Done(s, op)) == OnList(History(s), op)
  {
    WritesStayIntact(s, op, |Writes(s, op)|);
    if op.Truncate? {
      RecordsHaveNoBlank(s.log);
      assert NoCorrupt(Shown(s));
      hide Records, Done, Visible, InRange;
      TruncateKeepsLastIff(s, op.keepLast);
    } else {
      ActsOnList(s, op);
    }
  }

  /** Without corrupt lines the store is a plain list; crashes before do not matter. */
  lemma {:induction false} StoreRefinesList(s: Session, ops: seq<Op>)
    requires Intact(s)
    ensures Intact(RunAll(s, ops)) && History(RunAll(s, ops)) == ListRun(History(s), ops)
  {
    hide History, Done, OnList;
    IntactReadable(s);
    if ops != [] {
      StoreRefinesList(s, ops[..|ops| - 1]);
      IntactIsAList(RunAll(s, ops[..|ops| - 1]), ops[|ops| - 1]);
    }
  }

  lemma IntactReadable(s: Session)
    requires Intact(s)
    ensures Readable(s)
  {
  }

  /** Summary and tools change only through their own operation, whatever crashes. */
  lemma OthersKeepSummaryAndTools(s: Session, op: Op, n: nat)
    requires InRange(s)
    ensures InRange(After(s, op, n))
    ensures MetaOf(After(s, op, n)).summary == if op.SetSummary? && 0 < n then op.summary else MetaOf(s).summary
    ensures MetaOf(After(s, op, n)).tools == if op.SetTools? && 0 < n then NormalTools(op.names) else MetaOf(s).tools
  {
    StepKeepsRange(s, op, n);
    hide Visible, Records, NormalTools;
  }

  /** A session without files has no messages, no summary and no tools. */
  lemma NewSessionIsEmpty()
    ensures InRange(EMPTY) && History(EMPTY) == [] && MetaOf(EMPTY) == Meta("", {}, 0, 0)
  {
  }

  /** Every completed operation keeps the stored count that of the lines, and truncating sets it right. */
  lemma CountIsKept(s: Session, op: Op)
    requires InRange(s) && (MetaOf(s).count == |Records(s.log)| || (op.Truncate? || op.SetHistory?))
    ensures InRange(Done(s, op)) && MetaOf(Done(s, op)).count == |Records(Done(s, op).log)|
  {
    StepKeepsRange(s, op, |Writes(s, op)|);
    match op
    case Add(m) => RecordsSnoc(s.log, Good(m));
    case SetHistory(h) => DecodedEncoded(h);
    case Compact => DecodedEncoded(Visible(s.log, MetaOf(s).skip)); hide Visible;
    case _ =>
  }

  /** The tools on file: names without white space around them, each given with or without it, and no empty one. */
  lemma StoredTools(names: seq<string>, tool: string)
    ensures tool in NormalTools(names) <==> tool != "" && exists n :: n in names && TrimSpace(n) == tool
    ensures tool in NormalTools(names) ==> TrimSpace(tool) == tool
  {
    if n :| n in names && TrimSpace(n) == tool {
      TrimSpaceTwice(n);
    }
    hide TrimSpace;
  }

  // Keys

  /** Characters that are the same in a file name. */
  predicate Alike(a: char, b: char) {
    a == b || (a in ":/\\_" && b in ":/\\_")
  }

  /** Two keys share their files if and only if they differ in nothing but colons, slashes, backslashes, underscores. */
  lemma KeysShareFilesIff(a: string, b: string)
    ensures SanitizeKey(a) == SanitizeKey(b) <==> |a| == |b| && forall i :: 0 <= i < |a| ==> Alike(a[i], b[i])
  {
    if SanitizeKey(a) == SanitizeKey(b) {
      assert |SanitizeKey(a)| == |SanitizeKey(b)|;
      forall i | 0 <= i < |a|
        ensures Alike(a[i], b[i])
      {
        assert SanitizeKey(a)[i] == SanitizeKey(b)[i];
      }
    }
  }

  /** An operation on one key changes the files of the keys that share them, and of no other. */
  lemma OnlySharersChange(disk: map<string, Session>, key: string, other: string, op: Op, n: nat)
    ensures var a, b := SanitizeKey(key), SanitizeKey(other);
      SessionAt(Put(disk, a, After(SessionAt(disk, a), op, n)), b)
        == if a == b then After(SessionAt(disk, b), op, n) else SessionAt(disk, b)
    ensures SanitizeKey(key) != SanitizeKey(other) <==>
      |key| != |other| || exists i :: 0 <= i < |key| && !Alike(key[i], other[i])
  {
    KeysShareFilesIff(key, other);
    hide After, SanitizeKey;
  }
}
