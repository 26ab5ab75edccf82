/** The session store: per session an append-only log and a small metadata file with a skip offset. */
module JsonlStore {
  import opened Basics
  import opened Text
  import opened Messages

  /** One line of a log; a corrupt line does not decode. */
  datatype Line = Blank | Corrupt | Good(msg: Message)

  /** `tools` stands for its sorted list. */
  datatype Meta = Meta(summary: string, tools: set<string>, skip: int, count: int)

  /** Garbled metadata is reset when read; unreadable metadata is an error. */
  datatype MetaFile = Absent | Garbled | Unreadable | Stored(meta: Meta)

  /** The two files of a session. */
  datatype Session = Session(log: seq<Line>, meta: MetaFile)

  const NO_META := Meta("", {}, 0, 0)
  const EMPTY := Session([], Absent)

  datatype Op =
    | Add(msg: Message)
    | SetHistory(history: seq<Message>)
    | Truncate(keepLast: int)
    | Compact
    | SetSummary(summary: string)
    | SetTools(names: seq<string>)

  function LoadMeta(f: MetaFile): Option<Meta> {
    match f
    case Stored(m) => Some(m)
    case Unreadable => None
    case _ => Some(NO_META)
  }

  predicate Readable(s: Session) {
    !s.meta.Unreadable?
  }

  function MetaOf(s: Session): Meta
    requires Readable(s)
  {
    LoadMeta(s.meta).value
  }

  /** The lines that count: those that are not empty. */
  function Records(log: seq<Line>): seq<Line> {
    if log == [] then []
    else
      var before := Records(log[..|log| - 1]);
      if log[|log| - 1].Blank? then before else before + [log[|log| - 1]]
  }

  /** The messages on lines that decode. */
  function Decoded(lines: seq<Line>): seq<Message> {
    if lines == [] then [] else Decoded(lines[..|lines| - 1]) + DecodedLine(lines[|lines| - 1])
  }

  function DecodedLine(line: Line): seq<Message> {
    if line.Good? then [line.msg] else []
  }

  function Drop(lines: seq<Line>, n: int): seq<Line> {
    if n <= 0 then lines else if |lines| <= n then [] else lines[n..]
  }

  function Visible(log: seq<Line>, skip: int): seq<Message> {
    Decoded(Drop(Records(log), skip))
  }

  function History(s: Session): seq<Message>
    requires Readable(s)
  {
    Visible(s.log, MetaOf(s).skip)
  }

  function Encoded(msgs: seq<Message>): (r: seq<Line>)
    ensures |r| == |msgs|
  {
    seq(|msgs|, i requires 0 <= i < |msgs| => Good(msgs[i]))
  }

  function NewSkip(count: int, skip: int, keepLast: int): int {
    if keepLast <= 0 then count else if keepLast < count - skip then count - keepLast else skip
  }

  function NormalTools(names: seq<string>): set<string> {
    (set n | n in names :: TrimSpace(n)) - {""}
  }

  /** The states of the two files after each atomic write of an operation. */
  function Writes(s: Session, op: Op): seq<Session> {
    if op.Add? then
      var appended := s.(log := s.log + [Good(op.msg)]);
      if !Readable(s) then [appended]
      else [appended, appended.(meta := Stored(MetaOf(s).(count := MetaOf(s).count + 1)))]
    else if !Readable(s) then []
    else
      var m := MetaOf(s);
      match op
      case SetHistory(h) => Replaced(s, h)
      case Truncate(k) =>
        var n := |Records(s.log)|;
        [s.(meta := Stored(m.(count := n, skip := NewSkip(n, m.skip, k))))]
      case Compact => if m.skip == 0 then [] else Replaced(s, Visible(s.log, m.skip))
      case SetSummary(text) => [s.(meta := Stored(m.(summary := text)))]
      case SetTools(names) => [s.(meta := Stored(m.(tools := NormalTools(names))))]
  }

  /** The metadata is written before the log. */
  function Replaced(s: Session, h: seq<Message>): seq<Session>
    requires Readable(s)
  {
    var first := s.(meta := Stored(MetaOf(s).(skip := 0, count := |h|)));
    [first, first.(log := Encoded(h))]
  }

  /** The files when only the first n writes of an operation take effect. */
  function After(s: Session, op: Op, n: nat): Session {
    var w := Writes(s, op);
    if n == 0 || w == [] then s else if n < |w| then w[n - 1] else w[|w| - 1]
  }

  function SessionAt(disk: map<string, Session>, name: string): Session {
    if name in disk then disk[name] else EMPTY
  }

  /** A session without files stays without files. */
  function Put(disk: map<string, Session>, name: string, s: Session): map<string, Session> {
    if s == EMPTY && name !in disk then disk else disk[name := s]
  }

  function SanitizeKey(key: string): string {
    seq(|key|, i requires 0 <= i < |key| =>
      if key[i] == ':' || key[i] == '/' || key[i] == '\\' then '_' else key[i])
  }

  method NormalizeDiscoveredTools(names: seq<string>) returns (out: set<string>)
    ensures out == NormalTools(names)
  {
    hide TrimSpace;
    out := {};
    for i := 0 to |names|
      invariant out == NormalTools(names[..i])
    {
      var trimmed := TrimSpace(names[i]);
      assert names[..i + 1] == names[..i] + [names[i]];
      if trimmed == "" {
        continue;
      }
      out := out + {trimmed};
    }
    assert names[..|names|] == names;
  }

  lemma ReadStep(lines: seq<Line>, line: Line, skip: int)
    ensures Decoded(Drop(lines + [line], skip))
      == Decoded(Drop(lines, skip)) + if skip < |lines| + 1 then DecodedLine(line) else []
  {
    hide DecodedLine;
    if skip < |lines| + 1 {
      assert Drop(lines + [line], skip) == Drop(lines, skip) + [line];
    }
  }

  method ReadMessages(log: seq<Line>, skip: int) returns (msgs: seq<Message>)
    ensures msgs == Visible(log, skip)
  {
    hide Decoded, Drop;
    msgs := [];
    var lineNum := 0;
    assert Decoded(Drop([], skip)) == [] by {
      NothingDecoded(skip);
    }
    for i := 0 to |log|
      invariant lineNum == |Records(log[..i])|
      invariant msgs == Visible(log[..i], skip)
    {
      var line := log[i];
      assert log[..i + 1][..i] == log[..i];
      if line.Blank? {
        continue;
      }
      ReadStep(Records(log[..i]), line, skip);
      lineNum := lineNum + 1;
      if lineNum <= skip {
        continue;
      }
      if line.Corrupt? {
        continue;
      }
      msgs := msgs + [line.msg];
    }
    assert log[..|log|] == log;
  }

  lemma NothingDecoded(skip: int)
    ensures Decoded(Drop([], skip)) == []
  {
  }

  method CountLines(log: seq<Line>) returns (n: nat)
    ensures n == |Records(log)|
  {
    n := 0;
    for i := 0 to |log|
      invariant n == |Records(log[..i])|
    {
      assert log[..i + 1][..i] == log[..i];
      if !log[i].Blank? {
        n := n + 1;
      }
    }
    assert log[..|log|] == log;
  }

  /**
   * The store over its disk. `writesLeft` is how many writes still succeed: a write behind the last one fails, as
   * every write does once the process has crashed.
   */
  class Store {
    var disk: map<string, Session>
    var writesLeft: nat

    constructor (files: map<string, Session>, writes: nat)
      ensures disk == files && writesLeft == writes
    {
      disk := files;
      writesLeft := writes;
    }

    ghost function At(key: string): Session
      reads this`disk
    {
      SessionAt(disk, SanitizeKey(key))
    }

    method Load(key: string) returns (s: Session)
      ensures s == At(key)
    {
      return SessionAt(disk, SanitizeKey(key));
    }

    method AppendLine(key: string, line: Line) returns (ok: bool)
      modifies this
      ensures ok == (0 < old(writesLeft)) && writesLeft == old(writesLeft) - (if ok then 1 else 0)
      ensures ok ==> disk == old(disk)[SanitizeKey(key) := old(At(key)).(log := old(At(key)).log + [line])]
      ensures !ok ==> disk == old(disk)
    {
      if writesLeft == 0 {
        return false;
      }
      var s := Load(key);
      disk := disk[SanitizeKey(key) := s.(log := s.log + [line])];
      writesLeft := writesLeft - 1;
      return true;
    }

    method WriteMeta(key: string, meta: Meta) returns (ok: bool)
      modifies this
      ensures ok == (0 < old(writesLeft)) && writesLeft == old(writesLeft) - (if ok then 1 else 0)
      ensures disk == if ok then old(disk)[SanitizeKey(key) := old(At(key)).(meta := Stored(meta))] else old(disk)
    {
      if writesLeft == 0 {
        return false;
      }
      var s := Load(key);
      disk := disk[SanitizeKey(key) := s.(meta := Stored(meta))];
      writesLeft := writesLeft - 1;
      return true;
    }

    method RewriteLog(key: string, msgs: seq<Message>) returns (ok: bool)
      modifies this
      ensures ok == (0 < old(writesLeft)) && writesLeft == old(writesLeft) - (if ok then 1 else 0)
      ensures disk == if ok then old(disk)[SanitizeKey(key) := old(At(key)).(log := Encoded(msgs))] else old(disk)
    {
      if writesLeft == 0 {
        return false;
      }
      var buf: seq<Line> := [];
      for i := 0 to |msgs|
        invariant buf == Encoded(msgs[..i])
        invariant disk == old(disk) && writesLeft == old(writesLeft)
      {
        assert msgs[..i + 1] == msgs[..i] + [msgs[i]];
        buf := buf + [Good(msgs[i])];
      }
      assert msgs[..|msgs|] == msgs;
      var s := Load(key);
      disk := disk[SanitizeKey(key) := s.(log := buf)];
      writesLeft := writesLeft - 1;
      return true;
    }

    /** This operation took place, up to the first write that failed, on the files of this key and on no others. */
    twostate predicate Performed(key: string, op: Op, ok: bool)
      reads this
    {
      var s := old(At(key));
      && disk == Put(old(disk), SanitizeKey(key), After(s, op, old(writesLeft)))
      && ok == (Readable(s) && |Writes(s, op)| <= old(writesLeft))
      && writesLeft == old(writesLeft) - if |Writes(s, op)| < old(writesLeft) then |Writes(s, op)| else old(writesLeft)
    }

    method AddMsg(key: string, msg: Message) returns (ok: bool)
      modifies this
      ensures Performed(key, Add(msg), ok)
    {
      ok := AppendLine(key, Good(msg));
      if !ok {
        return;
      }
      var s := Load(key);
      var loaded := LoadMeta(s.meta);
      if loaded.None? {
        return false;
      }
      ok := WriteMeta(key, loaded.value.(count := loaded.value.count + 1));
    }

    method GetHistory(key: string) returns (r: Option<seq<Message>>)
      ensures r == if Readable(At(key)) then Some(History(At(key))) else None
    {
      var s := Load(key);
      var loaded := LoadMeta(s.meta);
      if loaded.None? {
        return None;
      }
      var msgs := ReadMessages(s.log, loaded.value.skip);
      return Some(msgs);
    }

    method TruncateHistory(key: string, keepLast: int) returns (ok: bool)
      modifies this
      ensures Performed(key, Truncate(keepLast), ok)
    {
      var s := Load(key);
      var loaded := LoadMeta(s.meta);
      if loaded.None? {
        return false;
      }
      var meta := loaded.value;
      var n := CountLines(s.log);
      meta := meta.(count := n);
      if keepLast <= 0 {
        meta := meta.(skip := meta.count);
      } else {
        var effective := meta.count - meta.skip;
        if keepLast < effective {
          meta := meta.(skip := meta.count - keepLast);
        }
      }
      ok := WriteMeta(key, meta);
    }

    method ReplaceHistory(key: string, history: seq<Message>) returns (ok: bool)
      modifies this
      ensures Performed(key, SetHistory(history), ok)
    {
      var s := Load(key);
      var loaded := LoadMeta(s.meta);
      if loaded.None? {
        return false;
      }
      ok := WriteMeta(key, loaded.value.(skip := 0, count := |history|));
      if !ok {
        return;
      }
      ok := RewriteLog(key, history);
    }

    method CompactLog(key: string) returns (ok: bool)
      modifies this
      ensures Performed(key, Compact, ok)
    {
      var s := Load(key);
      var loaded := LoadMeta(s.meta);
      if loaded.None? {
        return false;
      }
      var meta := loaded.value;
      if meta.skip == 0 {
        return true;
      }
      var active := ReadMessages(s.log, meta.skip);
      ok := WriteMeta(key, meta.(skip := 0, count := |active|));
      if !ok {
        return;
      }
      ok := RewriteLog(key, active);
    }

    method PutSummary(key: string, summary: string) returns (ok: bool)
      modifies this
      ensures Performed(key, SetSummary(summary), ok)
    {
      var s := Load(key);
      var loaded := LoadMeta(s.meta);
      if loaded.None? {
        return false;
      }
      ok := WriteMeta(key, loaded.value.(summary := summary));
    }

    method PutDiscoveredTools(key: string, names: seq<string>) returns (ok: bool)
      modifies this
      ensures Performed(key, SetTools(names), ok)
    {
      var s := Load(key);
      var loaded := LoadMeta(s.meta);
      if loaded.None? {
        return false;
      }
      var tools := NormalizeDiscoveredTools(names);
      ok := WriteMeta(key, loaded.value.(tools := tools));
    }
  }
}
