/** The heartbeat history: a bounded log in memory, an index by id, and a copy on disk. */
module HistoryStore {
  import opened Basics
  import opened Text

  datatype Status = Sent | OkToken | OkEmpty | Skipped | Failed | OtherStatus(name: string)

  datatype Record = Record(id: string, ts: int, status: Status, agentID: string, preview: string)

  /** One line of the file; a bad line does not decode. */
  datatype Line = Blank | Bad | Rec(r: Record)

  datatype Filter = Filter(agentID: string, status: Option<Status>, beforeTs: int, afterTs: int, limit: int)

  const DEFAULT_LIMIT: nat := 100
  const MAX_RECORDS: nat := 5000

  predicate ValidRecord(r: Record) {
    r.id != "" && 0 < r.ts && !r.status.OtherStatus? && TrimSpace(r.agentID) != ""
  }

  /** The records of a file, if every line that is not blank holds a valid one. */
  function Decoded(file: seq<Line>): Option<seq<Record>> {
    if file == [] then Some([])
    else
      var before := Decoded(file[..|file| - 1]);
      match file[|file| - 1]
      case Blank => before
      case Bad => None
      case Rec(r) => if before.Some? && ValidRecord(r) then Some(before.value + [r]) else None
  }

  function Encoded(records: seq<Record>): (r: seq<Line>)
    ensures |r| == |records|
  {
    seq(|records|, i requires 0 <= i < |records| => Rec(records[i]))
  }

  /** The file holds these records, one line each, and nothing else but blank lines. */
  predicate Holds(file: seq<Line>, records: seq<Record>) {
    if file == [] then records == []
    else if file[|file| - 1].Blank? then Holds(file[..|file| - 1], records)
    else
      && records != [] && file[|file| - 1] == Rec(records[|records| - 1])
      && Holds(file[..|file| - 1], records[..|records| - 1])
  }

  function LastN(records: seq<Record>, n: nat): seq<Record> {
    if |records| <= n then records else records[|records| - n..]
  }

  /** The last position of every id. */
  function Index(records: seq<Record>): map<string, nat> {
    if records == [] then map[] else Index(records[..|records| - 1])[records[|records| - 1].id := |records| - 1]
  }

  function Matches(f: Filter, r: Record): bool {
    && (f.agentID == "" || r.agentID == f.agentID)
    && (f.status.None? || r.status == f.status.value)
    && !(0 < f.beforeTs && f.beforeTs <= r.ts)
    && !(0 < f.afterTs && r.ts <= f.afterTs)
  }

  function Limit(f: Filter): nat {
    if f.limit <= 0 then DEFAULT_LIMIT else if MAX_RECORDS < f.limit then MAX_RECORDS else f.limit
  }

  /** The last matching records, the newest first, at most n of them. */
  function Newest(records: seq<Record>, f: Filter, n: nat): seq<Record> {
    if records == [] || n == 0 then []
    else
      var front, last := records[..|records| - 1], records[|records| - 1];
      if Matches(f, last) then [last] + Newest(front, f, n - 1) else Newest(front, f, n)
  }

  method LoadFile(file: seq<Line>) returns (records: Option<seq<Record>>)
    ensures records == Decoded(file)
  {
    hide ValidRecord;
    var rs: seq<Record> := [];
    for i := 0 to |file|
      invariant Decoded(file[..i]) == Some(rs)
    {
      assert file[..i + 1][..i] == file[..i];
      match file[i] {
        case Blank =>
        case Bad =>
          BadPrefix(file, i + 1);
          return None;
        case Rec(r) =>
          if !ValidRecord(r) {
            BadPrefix(file, i + 1);
            return None;
          }
          rs := rs + [r];
      }
    }
    assert file[..|file|] == file;
    return Some(rs);
  }

  /** A file whose front does not decode does not decode. */
  lemma {:induction false} BadPrefix(file: seq<Line>, i: nat)
    requires i <= |file| && Decoded(file[..i]) == None
    ensures Decoded(file) == None
    decreases |file| - i
  {
    hide ValidRecord;
    if i < |file| {
      assert file[..i + 1][..i] == file[..i];
      BadPrefix(file, i + 1);
    } else {
      assert file[..i] == file;
    }
  }

  lemma SnocIs(a: seq<Record>, r: Record, records: seq<Record>)
    ensures a + [r] == records <==>
      records != [] && a == records[..|records| - 1] && r == records[|records| - 1]
  {
    if records != [] && a == records[..|records| - 1] && r == records[|records| - 1] {
      assert a + [r] == records;
    }
  }

  ghost predicate AllValid(records: seq<Record>) {
    forall i :: 0 <= i < |records| ==> ValidRecord(records[i])
  }

  lemma AllValidSnoc(records: seq<Record>)
    requires records != []
    ensures var n := |records| - 1; AllValid(records) <==> AllValid(records[..n]) && ValidRecord(records[n])
  {
    hide ValidRecord;
    var n := |records| - 1;
    assert AllValid(records[..n]) ==> forall i :: 0 <= i < n ==> ValidRecord(records[..n][i]);
  }

  /** What decodes is what the file holds, and valid; and what a file holds decodes if and only if it is valid. */
  lemma {:induction false} DecodedIffHolds(file: seq<Line>, records: seq<Record>)
    ensures Decoded(file) == Some(records) <==> Holds(file, records) && AllValid(records)
  {
    hide ValidRecord;
    if file != [] {
      var n := |file| - 1;
      if file[n].Blank? {
        DecodedIffHolds(file[..n], records);
      } else if records != [] {
        DecodedIffHolds(file[..n], records[..|records| - 1]);
        AllValidSnoc(records);
        hide AllValid;
        if file[n].Rec? && Decoded(file[..n]).Some? {
          SnocIs(Decoded(file[..n]).value, file[n].r, records);
        }
      }
    }
  }

  lemma {:induction false} EncodedHolds(records: seq<Record>)
    ensures Holds(Encoded(records), records)
  {
    if records != [] {
      var n := |records| - 1;
      assert Encoded(records)[..n] == Encoded(records[..n]);
      EncodedHolds(records[..n]);
    }
  }

  lemma HoldsAppended(file: seq<Line>, records: seq<Record>, r: Record)
    requires Holds(file, records)
    ensures Holds(file + [Rec(r)], records + [r])
  {
  }

  /** Position i is the last with this id. */
  ghost predicate LastAt(records: seq<Record>, id: string, i: nat) {
    i < |records| && records[i].id == id && forall j :: i < j < |records| ==> records[j].id != id
  }

  ghost predicate Occurs(records: seq<Record>, id: string) {
    exists i :: 0 <= i < |records| && records[i].id == id
  }

  /** The index gives the last position of every id that occurs, and nothing else. */
  lemma {:induction false} IndexIs(records: seq<Record>, id: string)
    ensures id in Index(records) <==> Occurs(records, id)
    ensures id in Index(records) ==> LastAt(records, id, Index(records)[id])
  {
    if records != [] {
      var n := |records| - 1;
      var front := records[..n];
      IndexIs(front, id);
      assert forall i :: 0 <= i < n ==> records[i] == front[i];
      if records[n].id == id {
        assert LastAt(records, id, n);
      } else if i :| 0 <= i < |records| && records[i].id == id {
        assert front[i].id == id;
      }
    }
  }

  /** The oldest record makes room for a new one. */
  lemma LastNIs(records: seq<Record>, r: Record)
    requires records != []
    ensures LastN(records + [r], |records|) == records[1..] + [r]
  {
  }

  lemma IndexSnoc(records: seq<Record>, r: Record)
    ensures Index(records + [r]) == Index(records)[r.id := |records|]
  {
  }

  /** Memory, whether the store runs, the file, and whether memory was ever read from it or written to it. */
  datatype Log = Log(records: seq<Record>, running: bool, file: seq<Line>, synced: bool)

  /** A call, and whether its write succeeds. */
  datatype Op =
    | Append(r: Record, writes: bool)
    | Remove(id: string, writes: bool)
    | Wipe(writes: bool)
    | Begin(writes: bool)
    | End

  function Rewritten(s: Log, records: seq<Record>): Log {
    s.(records := records, file := Encoded(records), synced := true)
  }

  function WithoutAt(records: seq<Record>, i: nat): seq<Record> {
    if i < |records| then records[..i] + records[i + 1..] else records
  }

  function Step(s: Log, op: Op, cap: nat): Log {
    match op
    case Append(r, writes) =>
      if !s.running || !writes then s
      else if |s.records| < cap then s.(records := s.records + [r], file := s.file + [Rec(r)])
      else Rewritten(s, LastN(s.records + [r], cap))
    case Remove(id, writes) =>
      if id !in Index(s.records) || !writes then s else Rewritten(s, WithoutAt(s.records, Index(s.records)[id]))
    case Wipe(writes) => if writes then Rewritten(s, []) else s
    case Begin(writes) =>
      if s.running then s
      else
        var loaded := Decoded(s.file);
        if loaded.None? || (cap < |loaded.value| && !writes) then s
        else if cap < |loaded.value| then Rewritten(s, LastN(loaded.value, cap)).(running := true)
        else s.(records := loaded.value, running := true, synced := true)
    case End => s.(running := false)
  }

  class Store {
    var records: seq<Record>
    var recordsByID: map<string, nat>
    var running: bool
    var file: seq<Line>
    /** Whether memory was ever read from, or written to, the file. */
    ghost var synced: bool
    const maxRecords: nat

    ghost function State(): Log
      reads this
    {
      Log(records, running, file, synced)
    }

    /** Memory is within the cap and indexed, and the file holds what memory holds. */
    ghost predicate Valid()
      reads this
    {
      && 0 < maxRecords && |records| <= maxRecords && recordsByID == Index(records)
      && (synced ==> Holds(file, records)) && (!synced ==> records == [] && !running)
    }

    constructor (stored: seq<Line>, cap: nat)
      requires 0 < cap
      ensures Valid() && State() == Log([], false, stored, false) && maxRecords == cap
    {
      records, recordsByID, running, file, synced, maxRecords := [], map[], false, stored, false, cap;
    }

    method RebuildIndex()
      modifies this`recordsByID
      ensures recordsByID == Index(records)
    {
      var index: map<string, nat> := map[];
      for i := 0 to |records|
        invariant index == Index(records[..i])
      {
        assert records[..i + 1][..i] == records[..i];
        index := index[records[i].id := i];
      }
      assert records[..|records|] == records;
      recordsByID := index;
    }

    /** Reads the file back; a file with too many records is cut to its newest ones. */
    method Start(writes: bool) returns (ok: bool)
      requires Valid()
      modifies this
      ensures Valid() && State() == Step(old(State()), Begin(writes), maxRecords) && ok == running
    {
      hide Decoded, Holds, Index, AllValid;
      if running {
        return true;
      }
      var loaded := LoadFile(file);
      if loaded.None? {
        return false;
      }
      var rs := loaded.value;
      DecodedIffHolds(file, rs);
      if maxRecords < |rs| {
        rs := rs[|rs| - maxRecords..];
        if !writes {
          return false;
        }
        EncodedHolds(rs);
        file := Encoded(rs);
      }
      records := rs;
      RebuildIndex();
      running := true;
      synced := true;
      return true;
    }

    method Stop()
      requires Valid()
      modifies this`running
      ensures Valid() && State() == Step(old(State()), End, maxRecords)
    {
      running := false;
    }

    /** An event that comes in while the store runs; it is dropped when its write fails. `r` has a new id. */
    method AppendEvent(r: Record, writes: bool)
      requires Valid()
      modifies this
      ensures Valid() && State() == Step(old(State()), Append(r, writes), maxRecords)
    {
      hide Decoded, Holds, Index, LastN;
      if !running || !writes {
        return;
      }
      if |records| < maxRecords {
        HoldsAppended(file, records, r);
        IndexSnoc(records, r);
        file := file + [Rec(r)];
        records := records + [r];
        recordsByID := recordsByID[r.id := |records| - 1];
      } else {
        var newRecords := records[1..] + [r];
        LastNIs(records, r);
        EncodedHolds(newRecords);
        file := Encoded(newRecords);
        records := newRecords;
        RebuildIndex();
        synced := true;
      }
    }

    method Delete(id: string, writes: bool) returns (deleted: bool)
      requires Valid()
      modifies this
      ensures Valid() && State() == Step(old(State()), Remove(id, writes), maxRecords)
      ensures deleted == (Occurs(old(records), id) && writes)
    {
      IndexIs(records, id);
      hide Index, Holds;
      if id !in recordsByID || |records| <= recordsByID[id] {
        return false;
      }
      var idx := recordsByID[id];
      var newRecords := records[..idx] + records[idx + 1..];
      if !writes {
        return false;
      }
      EncodedHolds(newRecords);
      file := Encoded(newRecords);
      records := newRecords;
      RebuildIndex();
      synced := true;
      return true;
    }

    method Clear(writes: bool) returns (ok: bool)
      requires Valid()
      modifies this
      ensures Valid() && State() == Step(old(State()), Wipe(writes), maxRecords) && ok == writes
    {
      if !writes {
        return false;
      }
      file := [];
      records := [];
      RebuildIndex();
      synced := true;
      return true;
    }

    method Get(id: string) returns (r: Option<Record>)
      requires Valid()
      ensures r.Some? <==> Occurs(records, id)
      ensures r.Some? ==> r.value in records && r.value.id == id
    {
      IndexIs(records, id);
      hide Index, Holds;
      if id !in recordsByID || |records| <= recordsByID[id] {
        return None;
      }
      return Some(records[recordsByID[id]]);
    }

    method List(f: Filter) returns (result: seq<Record>)
      ensures result == Newest(records, f, Limit(f))
    {
      hide Matches, Newest;
      var limit := f.limit;
      if limit <= 0 {
        limit := DEFAULT_LIMIT;
      }
      if MAX_RECORDS < limit {
        limit := MAX_RECORDS;
      }
      result := [];
      var i := |records| - 1;
      assert records[..i + 1] == records;
      while 0 <= i
        invariant -1 <= i < |records| && |result| < limit == Limit(f)
        invariant Newest(records, f, limit) == result + Newest(records[..i + 1], f, limit - |result|)
        decreases i
      {
        var record := records[i];
        NewestStep(records, f, limit - |result|, i);
        if !MatchesFilter(f, record) {
          i := i - 1;
          continue;
        }
        result := result + [record];
        if limit <= |result| {
          NewestEnds(records[..i], f, 0);
          return;
        }
        i := i - 1;
      }
      NewestEnds(records[..0], f, limit - |result|);
    }
  }

  lemma NewestStep(records: seq<Record>, f: Filter, n: nat, i: nat)
    requires i < |records| && 0 < n
    ensures Newest(records[..i + 1], f, n)
      == if Matches(f, records[i]) then [records[i]] + Newest(records[..i], f, n - 1) else Newest(records[..i], f, n)
  {
    hide Matches;
    assert records[..i + 1][..i] == records[..i];
  }

  lemma NewestEnds(records: seq<Record>, f: Filter, n: nat)
    ensures records == [] || n == 0 ==> Newest(records, f, n) == []
  {
  }

  predicate MatchesFilter(f: Filter, record: Record)
    ensures MatchesFilter(f, record) == Matches(f, record)
  {
    if f.agentID != "" && record.agentID != f.agentID then false
    else if f.status.Some? && record.status != f.status.value then false
    else if f.beforeTs > 0 && record.ts >= f.beforeTs then false
    else if f.afterTs > 0 && record.ts <= f.afterTs then false
    else true
  }

  // What the specification functions mean

  function Matching(records: seq<Record>, f: Filter): seq<Record> {
    if records == [] then []
    else
      var front, last := Matching(records[..|records| - 1], f), records[|records| - 1];
      if Matches(f, last) then front + [last] else front
  }

  function Reversed(s: seq<Record>): (r: seq<Record>)
    ensures |r| == |s|
  {
    seq(|s|, i requires 0 <= i < |s| => s[|s| - 1 - i])
  }

  /** The list is the newest part of all matching records, up to the limit, newest first. */
  lemma {:induction false} NewestIsNewest(records: seq<Record>, f: Filter, n: nat)
    ensures var all := Reversed(Matching(records, f)); Newest(records, f, n) == all[..Min(n, |all|)]
  {
    hide Matches;
    if records != [] && n != 0 {
      var front, last := records[..|records| - 1], records[|records| - 1];
      if Matches(f, last) {
        NewestIsNewest(front, f, n - 1);
        assert Reversed(Matching(records, f)) == [last] + Reversed(Matching(front, f));
      } else {
        NewestIsNewest(front, f, n);
        assert Matching(records, f) == Matching(front, f);
      }
    }
  }

  /** What a filter asks for: an agent, a status, and a time between two bounds, each only if it is set. */
  predicate Wanted(f: Filter, r: Record) {
    && (f.agentID != "" ==> r.agentID == f.agentID)
    && (f.status.Some? ==> f.status == Some(r.status))
    && (0 < f.beforeTs ==> r.ts < f.beforeTs)
    && (0 < f.afterTs ==> f.afterTs < r.ts)
  }

  /** The places of a list's records, from the newest on. */
  ghost predicate Backwards(list: seq<Record>, records: seq<Record>, at: seq<nat>) {
    && |at| == |list| && (forall x :: 0 <= x < |at| ==> at[x] < |records| && list[x] == records[at[x]])
    && (forall x, y :: 0 <= x < y < |at| ==> at[y] < at[x])
  }

  lemma {:induction false} NewestPlaces(records: seq<Record>, f: Filter, n: nat) returns (at: seq<nat>)
    ensures Backwards(Newest(records, f, n), records, at) && |at| <= n
    ensures forall x :: 0 <= x < |at| ==> Wanted(f, records[at[x]])
    ensures forall i :: 0 <= i < |records| && Wanted(f, records[i]) && i !in at ==>
      |at| == n && forall x :: 0 <= x < |at| ==> i < at[x]
  {
    at := [];
    if records != [] && n != 0 {
      var front, last := records[..|records| - 1], records[|records| - 1];
      assert Matches(f, last) <==> Wanted(f, last);
      hide Wanted, Matches;
      if Matches(f, last) {
        var before := NewestPlaces(front, f, n - 1);
        at := [|front|] + before;
      } else {
        at := NewestPlaces(front, f, n);
      }
    }
  }

  /** A list holds the newest wanted records, from the newest on: 100 if no limit is set, never more than 5000. */
  lemma ListedAre(records: seq<Record>, f: Filter) returns (at: seq<nat>)
    ensures Backwards(Newest(records, f, Limit(f)), records, at)
    ensures forall x :: 0 <= x < |at| ==> Wanted(f, records[at[x]])
    ensures var most := if f.limit <= 0 then 100 else Min(f.limit, 5000);
      && |at| <= most
      && forall i :: 0 <= i < |records| && Wanted(f, records[i]) && i !in at ==>
        |at| == most && forall x :: 0 <= x < |at| ==> i < at[x]
  {
    at := NewestPlaces(records, f, Limit(f));
  }

  /** A record is valid if it has an id, a time, one of five states and an agent that is not all white space. */
  lemma ValidIff(r: Record)
    ensures ValidRecord(r) <==>
      && r.id != "" && 1 <= r.ts && r.status in {Sent, OkToken, OkEmpty, Skipped, Failed}
      && exists i :: 0 <= i < |r.agentID| && !IsSpace(r.agentID[i])
  {
    TrimsToNothingIff(r.agentID);
    hide TrimSpace, IsSpace;
  }

  /** With distinct ids the index is the position of each record. */
  lemma IndexIsPosition(records: seq<Record>, i: nat)
    requires i < |records| && forall j, k :: 0 <= j < k < |records| ==> records[j].id != records[k].id
    ensures records[i].id in Index(records) && Index(records)[records[i].id] == i
  {
    IndexIs(records, records[i].id);
    hide Index;
    assert Occurs(records, records[i].id);
  }

  /** A restart brings back what was in memory, if and only if every record in memory is valid. */
  lemma RestartIffValid(file: seq<Line>, records: seq<Record>)
    requires Holds(file, records)
    ensures Decoded(file).Some? <==> AllValid(records)
    ensures Decoded(file).Some? ==> Decoded(file).value == records
  {
    hide ValidRecord, Decoded, Holds;
    DecodedIffHolds(file, records);
    if Decoded(file).Some? {
      DecodedIffHolds(file, Decoded(file).value);
      HeldOnce(file, records, Decoded(file).value);
    }
  }

  /** A file holds one list only. */
  lemma {:induction false} HeldOnce(file: seq<Line>, a: seq<Record>, b: seq<Record>)
    requires Holds(file, a) && Holds(file, b)
    ensures a == b
  {
    if file != [] {
      var n := |file| - 1;
      if file[n].Blank? {
        HeldOnce(file[..n], a, b);
      } else {
        HeldOnce(file[..n], a[..|a| - 1], b[..|b| - 1]);
        assert a == a[..|a| - 1] + [a[|a| - 1]];
        assert b == b[..|b| - 1] + [b[|b| - 1]];
      }
    }
  }
}
