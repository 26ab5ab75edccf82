/** What holds after any run of appended events, deletions, clears, stops and starts of the heartbeat history. */
module HistoryRuns {
  import opened Basics
  import opened HistoryStore

  /** The store before its first start, over a file with anything in it. */
  function Fresh(file: seq<Line>): Log {
    Log([], false, file, false)
  }

  function After(file: seq<Line>, ops: seq<Op>, cap: nat): Log {
    if ops == [] then Fresh(file) else Step(After(file, ops[..|ops| - 1], cap), ops[|ops| - 1], cap)
  }

  lemma AfterSnoc(file: seq<Line>, ops: seq<Op>, op: Op, cap: nat)
    ensures After(file, ops + [op], cap) == Step(After(file, ops, cap), op, cap)
  {
    assert (ops + [op])[..|ops|] == ops;
  }

  /** The file holds what memory holds, once there was any exchange between the two. */
  ghost predicate Synced(file: seq<Line>, s: Log, cap: nat) {
    && |s.records| <= cap
    && (if s.synced then Holds(s.file, s.records) else s.records == [] && !s.running && s.file == file)
  }

  lemma StepStaysSynced(file: seq<Line>, s: Log, op: Op, cap: nat)
    requires 0 < cap && Synced(file, s, cap)
    ensures Synced(file, Step(s, op, cap), cap)
  {
    hide Decoded, Holds, Index;
    var t := Step(s, op, cap);
    EncodedHolds(t.records);
    match op
    case Append(r, writes) =>
      if s.running {
        HoldsAppended(s.file, s.records, r);
      }
    case Begin(writes) =>
      if Decoded(s.file).Some? {
        DecodedIffHolds(s.file, Decoded(s.file).value);
      }
    case Remove(id, writes) => IndexIs(s.records, id);
    case _ =>
  }

  lemma {:induction false} RunStaysSynced(file: seq<Line>, ops: seq<Op>, cap: nat)
    requires 0 < cap
    ensures Synced(file, After(file, ops, cap), cap)
  {
    hide Synced, Step;
    if ops == [] {
      assert Synced(file, Fresh(file), cap) by {
        FreshIsSynced(file, cap);
      }
    } else {
      RunStaysSynced(file, ops[..|ops| - 1], cap);
      StepStaysSynced(file, After(file, ops[..|ops| - 1], cap), ops[|ops| - 1], cap);
    }
  }

  lemma FreshIsSynced(file: seq<Line>, cap: nat)
    ensures Synced(file, Fresh(file), cap)
  {
  }

  // Valid events

  /** Event i comes in while the store runs, and its write succeeds. */
  ghost predicate Taken(file: seq<Line>, ops: seq<Op>, cap: nat, i: nat)
    requires i < |ops|
  {
    ops[i].Append? && ops[i].writes && After(file, ops[..i], cap).running
  }

  ghost predicate TakenAreValid(file: seq<Line>, ops: seq<Op>, cap: nat) {
    forall i :: 0 <= i < |ops| && Taken(file, ops, cap, i) ==> ValidRecord(ops[i].r)
  }

  lemma StepStaysValid(s: Log, op: Op, cap: nat)
    requires AllValid(s.records) && (op.Append? && op.writes && s.running ==> ValidRecord(op.r))
    ensures AllValid(Step(s, op, cap).records)
  {
    hide ValidRecord, Decoded, Index;
    if op.Begin? && Decoded(s.file).Some? {
      DecodedIffHolds(s.file, Decoded(s.file).value);
    }
  }

  lemma FrontIsTaken(file: seq<Line>, ops: seq<Op>, cap: nat)
    requires ops != [] && TakenAreValid(file, ops, cap)
    ensures TakenAreValid(file, ops[..|ops| - 1], cap)
  {
    hide After, ValidRecord;
    var front := ops[..|ops| - 1];
    forall i | 0 <= i < |front| && Taken(file, front, cap, i)
      ensures ValidRecord(front[i].r)
    {
      assert front[..i] == ops[..i] && Taken(file, ops, cap, i);
    }
  }

  lemma {:induction false} RunStaysValid(file: seq<Line>, ops: seq<Op>, cap: nat)
    requires TakenAreValid(file, ops, cap)
    ensures AllValid(After(file, ops, cap).records)
  {
    hide Step, ValidRecord;
    if ops != [] {
      var n := |ops| - 1;
      FrontIsTaken(file, ops, cap);
      RunStaysValid(file, ops[..n], cap);
      assert Taken(file, ops, cap, n) ==> ValidRecord(ops[n].r);
      hide AllValid;
      StepStaysValid(After(file, ops[..n], cap), ops[n], cap);
    }
  }

  /** With valid events, the decoded file equals memory after any run. */
  lemma FileEqualsMemory(file: seq<Line>, ops: seq<Op>, cap: nat)
    requires 0 < cap && TakenAreValid(file, ops, cap)
    ensures var s := After(file, ops, cap); s.synced ==> Decoded(s.file) == Some(s.records)
  {
    RunStaysSynced(file, ops, cap);
    RunStaysValid(file, ops, cap);
    hide After, ValidRecord, Decoded, Holds, TakenAreValid;
    var s := After(file, ops, cap);
    DecodedIffHolds(s.file, s.records);
  }

  ghost predicate ReadableAfter(file: seq<Line>, ops: seq<Op>, cap: nat, n: nat)
    requires n <= |ops|
  {
    var s := After(file, ops[..n], cap);
    s.synced ==> Decoded(s.file).Some?
  }

  /** An event that is taken is the newest record. */
  lemma TakenIsLast(s: Log, r: Record, cap: nat)
    requires 0 < cap && s.running
    ensures var t := Step(s, Append(r, true), cap); t.records != [] && t.records[|t.records| - 1] == r
  {
  }

  lemma InvalidMakesUnreadable(file: seq<Line>, ops: seq<Op>, cap: nat, i: nat)
    requires 0 < cap && i < |ops| && Taken(file, ops, cap, i) && !ValidRecord(ops[i].r)
    ensures !ReadableAfter(file, ops, cap, i + 1)
  {
    RunStaysSynced(file, ops[..i + 1], cap);
    RunStaysSynced(file, ops[..i], cap);
    assert ops[..i + 1] == ops[..i] + [ops[i]];
    AfterSnoc(file, ops[..i], ops[i], cap);
    var s, t := After(file, ops[..i], cap), After(file, ops[..i + 1], cap);
    TakenIsLast(s, ops[i].r, cap);
    assert t.synced;
    hide After, ValidRecord, Decoded, Holds, Step;
    RestartIffValid(t.file, t.records);
  }

  /**
   * The file can be read back at every point of a run if and only if every event that was taken is valid; the store
   * does not check that.
   */
  lemma ReadableIffValidEvents(file: seq<Line>, ops: seq<Op>, cap: nat)
    requires 0 < cap
    ensures (forall n :: 0 <= n <= |ops| ==> ReadableAfter(file, ops, cap, n)) <==> TakenAreValid(file, ops, cap)
  {
    hide After, ValidRecord, Decoded;
    if TakenAreValid(file, ops, cap) {
      forall n | 0 <= n <= |ops|
        ensures ReadableAfter(file, ops, cap, n)
      {
        PrefixIsTaken(file, ops, cap, n);
        FileEqualsMemory(file, ops[..n], cap);
      }
    } else {
      var i :| 0 <= i < |ops| && Taken(file, ops, cap, i) && !ValidRecord(ops[i].r);
      InvalidMakesUnreadable(file, ops, cap, i);
    }
  }

  lemma PrefixIsTaken(file: seq<Line>, ops: seq<Op>, cap: nat, n: nat)
    requires n <= |ops| && TakenAreValid(file, ops, cap)
    ensures TakenAreValid(file, ops[..n], cap)
  {
    hide After, ValidRecord;
    forall i | 0 <= i < n && Taken(file, ops[..n], cap, i)
      ensures ValidRecord(ops[..n][i].r)
    {
      assert ops[..n][..i] == ops[..i] && Taken(file, ops, cap, i);
    }
  }

  /** An event without a time is taken, and after a stop the store does not start again. */
  lemma InvalidEventBlocksRestart(r: Record, cap: nat)
    requires 0 < cap && r.ts == 0
    ensures var ops := [Begin(true), Append(r, true), End, Begin(true)]; !After([], ops, cap).running
  {
    var b: Op, a: Op, e: Op := Begin(true), Append(r, true), End;
    assert [b, a, e, b] == (([b] + [a]) + [e]) + [b] && [b] == [] + [b];
    AfterSnoc([], [], b, cap);
    AfterSnoc([], [b], a, cap);
    AfterSnoc([], [b] + [a], e, cap);
    AfterSnoc([], ([b] + [a]) + [e], b, cap);
    assert Decoded([]) == Some([]);
    hide After;
    var s := After([], ([b] + [a]) + [e], cap);
    assert s.file == [Rec(r)] && !s.running;
    assert [Rec(r)][..0] == [];
    assert Decoded([Rec(r)]) == None;
  }

  // Fresh ids

  function Ids(records: seq<Record>): (r: seq<string>)
    ensures |r| == |records|
  {
    seq(|records|, i requires 0 <= i < |records| => records[i].id)
  }

  function Appends(ops: seq<Op>): seq<string> {
    if ops == [] then []
    else Appends(ops[..|ops| - 1]) + AppendedId(ops[|ops| - 1])
  }

  function AppendedId(op: Op): seq<string> {
    if op.Append? then [op.r.id] else []
  }

  function StoredIds(file: seq<Line>): seq<string> {
    if Decoded(file).Some? then Ids(Decoded(file).value) else []
  }

  ghost predicate Distinct(ids: seq<string>) {
    forall i, j :: 0 <= i < j < |ids| ==> ids[i] != ids[j]
  }

  /** The ids in the file at first and those of all events are different. */
  ghost predicate FreshIds(file: seq<Line>, ops: seq<Op>) {
    Distinct(StoredIds(file) + Appends(ops))
  }

  /** Memory has distinct ids, all of them from the first file or from an event. */
  ghost predicate Known(records: seq<Record>, ids: seq<string>) {
    Distinct(Ids(records)) && forall i :: 0 <= i < |records| ==> records[i].id in ids
  }

  lemma KnownPart(records: seq<Record>, ids: seq<string>, i: nat, j: nat)
    requires Known(records, ids) && i <= j <= |records|
    ensures Known(records[i..j], ids) && Known(records[..i] + records[j..], ids)
  {
    var a, b := records[i..j], records[..i] + records[j..];
    assert forall k :: 0 <= k < |a| ==> Ids(a)[k] == Ids(records)[i + k];
    assert forall k :: 0 <= k < |b| ==> Ids(b)[k] == Ids(records)[if k < i then k else k + (j - i)];
  }

  lemma KnownMore(records: seq<Record>, ids: seq<string>, r: Record)
    requires Known(records, ids) && r.id !in ids
    ensures Known(records + [r], ids + [r.id])
  {
    var all := records + [r];
    assert forall k :: 0 <= k < |all| ==> Ids(all)[k] == if k < |records| then Ids(records)[k] else r.id;
    assert forall k :: 0 <= k < |records| ==> Ids(records)[k] in ids;
  }

  lemma KnownWider(records: seq<Record>, ids: seq<string>, more: seq<string>)
    requires Known(records, ids)
    ensures Known(records, ids + more)
  {
  }

  lemma StoredAreKnown(file: seq<Line>, ids: seq<string>)
    requires Decoded(file).Some? && Distinct(StoredIds(file))
    ensures Known(Decoded(file).value, StoredIds(file) + ids)
  {
    var rs := Decoded(file).value;
    assert forall i :: 0 <= i < |rs| ==> rs[i].id == Ids(rs)[i] && rs[i].id in Ids(rs);
  }

  lemma KnownLast(records: seq<Record>, ids: seq<string>, cap: nat)
    requires Known(records, ids)
    ensures Known(LastN(records, cap), ids)
  {
    hide Known;
    if cap < |records| {
      KnownPart(records, ids, |records| - cap, |records|);
      assert records[|records| - cap..|records|] == LastN(records, cap);
    }
  }

  lemma AppendStaysKnown(s: Log, r: Record, writes: bool, cap: nat, ids: seq<string>)
    requires Known(s.records, ids) && |s.records| <= cap && Distinct(ids + [r.id])
    ensures Known(Step(s, Append(r, writes), cap).records, ids + [r.id])
  {
    NotIn(ids, r.id);
    KnownMore(s.records, ids, r);
    KnownWider(s.records, ids, [r.id]);
    KnownLast(s.records + [r], ids + [r.id], cap);
    hide Known, Encoded;
  }

  lemma BeginStaysKnown(file: seq<Line>, s: Log, writes: bool, cap: nat, ids: seq<string>)
    requires Synced(file, s, cap) && Known(s.records, ids)
    requires Decoded(file).Some? ==> Known(Decoded(file).value, ids)
    ensures Known(Step(s, Begin(writes), cap).records, ids)
  {
    hide Decoded, Known;
    LoadedIsKnown(file, s, cap, ids);
    if Decoded(s.file).Some? {
      KnownLast(Decoded(s.file).value, ids, cap);
    }
  }

  lemma RemoveStaysKnown(s: Log, id: string, writes: bool, cap: nat, ids: seq<string>)
    requires Known(s.records, ids)
    ensures Known(Step(s, Remove(id, writes), cap).records, ids)
  {
    hide Known, Index;
    IndexIs(s.records, id);
    if id in Index(s.records) {
      KnownPart(s.records, ids, Index(s.records)[id], Index(s.records)[id] + 1);
    }
  }

  lemma StepStaysKnown(file: seq<Line>, s: Log, op: Op, cap: nat, ids: seq<string>)
    requires Synced(file, s, cap) && Known(s.records, ids) && Distinct(ids + AppendedId(op))
    requires Decoded(file).Some? ==> Known(Decoded(file).value, ids)
    ensures Known(Step(s, op, cap).records, ids + AppendedId(op))
  {
    assert |s.records| <= cap && ids + [] == ids;
    NothingIsKnown(ids);
    hide Decoded, Known, Distinct, Synced, Index;
    match op
    case Append(r, writes) => AppendStaysKnown(s, r, writes, cap, ids);
    case Remove(id, writes) => RemoveStaysKnown(s, id, writes, cap, ids);
    case Begin(writes) => BeginStaysKnown(file, s, writes, cap, ids);
    case _ =>
  }

  lemma NothingIsKnown(ids: seq<string>)
    ensures Known([], ids)
  {
  }

  lemma NotIn(ids: seq<string>, id: string)
    requires Distinct(ids + [id])
    ensures id !in ids
  {
    var all := ids + [id];
    forall i | 0 <= i < |ids|
      ensures ids[i] != id
    {
      assert all[i] == ids[i] && all[|ids|] == id;
    }
  }

  /** What a start reads: the first file, or what memory held. */
  lemma LoadedIsKnown(file: seq<Line>, s: Log, cap: nat, ids: seq<string>)
    requires Synced(file, s, cap) && Known(s.records, ids)
    requires Decoded(file).Some? ==> Known(Decoded(file).value, ids)
    ensures Decoded(s.file).Some? ==> Known(Decoded(s.file).value, ids)
  {
    hide Decoded, Holds, Known, ValidRecord;
    if s.synced && Decoded(s.file).Some? {
      RestartIffValid(s.file, s.records);
    }
  }

  lemma DistinctFront(a: seq<string>, b: seq<string>, c: seq<string>)
    requires Distinct(a + (b + c))
    ensures Distinct(a + b) && Distinct(a) && a + (b + c) == (a + b) + c
  {
    assert a + (b + c) == (a + b) + c;
    assert forall i :: 0 <= i < |a + b| ==> (a + b)[i] == (a + (b + c))[i];
    assert forall i :: 0 <= i < |a| ==> a[i] == (a + (b + c))[i];
  }

  lemma {:induction false} RunStaysKnown(file: seq<Line>, ops: seq<Op>, cap: nat)
    requires 0 < cap && FreshIds(file, ops)
    ensures Known(After(file, ops, cap).records, StoredIds(file) + Appends(ops))
  {
    hide Known, Distinct, StoredIds, Step, Synced;
    if ops == [] {
      NothingIsKnown(StoredIds(file) + []);
    } else {
      var before, op := ops[..|ops| - 1], ops[|ops| - 1];
      DistinctFront(StoredIds(file), Appends(before), AppendedId(op));
      RunStaysKnown(file, before, cap);
      RunStaysSynced(file, before, cap);
      if Decoded(file).Some? {
        StoredAreKnown(file, Appends(before));
      }
      StepStaysKnown(file, After(file, before, cap), op, cap, StoredIds(file) + Appends(before));
    }
  }

  /** With fresh ids, the index gives the position of every record after any run. */
  lemma RunIndexIsExact(file: seq<Line>, ops: seq<Op>, cap: nat, i: nat)
    requires 0 < cap && FreshIds(file, ops) && i < |After(file, ops, cap).records|
    ensures var rs := After(file, ops, cap).records; rs[i].id in Index(rs) && Index(rs)[rs[i].id] == i
  {
    RunStaysKnown(file, ops, cap);
    var rs := After(file, ops, cap).records;
    hide After, Index, FreshIds;
    forall j, k | 0 <= j < k < |rs|
      ensures rs[j].id != rs[k].id
    {
      assert Ids(rs)[j] != Ids(rs)[k];
    }
    IndexIsPosition(rs, i);
  }

  // The store as a plain list

  /** A list, whether it runs, and what a start would read. */
  datatype Plain = Plain(list: seq<Record>, running: bool, stored: Option<seq<Record>>)

  function Dropped(l: seq<Record>, id: string): seq<Record> {
    if l == [] then []
    else Dropped(l[..|l| - 1], id) + if l[|l| - 1].id == id then [] else [l[|l| - 1]]
  }

  function Keeps(p: Plain, l: seq<Record>): Plain {
    p.(list := l, stored := Some(l))
  }

  ghost function PlainStep(p: Plain, op: Op, cap: nat): Plain {
    match op
    case Append(r, writes) => if p.running && writes then Keeps(p, LastN(p.list + [r], cap)) else p
    case Remove(id, writes) => if Occurs(p.list, id) && writes then Keeps(p, Dropped(p.list, id)) else p
    case Wipe(writes) => if writes then Keeps(p, []) else p
    case Begin(writes) =>
      if p.running || p.stored.None? || (cap < |p.stored.value| && !writes) then p
      else Keeps(p, LastN(p.stored.value, cap)).(running := true)
    case End => p.(running := false)
  }

  ghost function PlainAfter(file: seq<Line>, ops: seq<Op>, cap: nat): Plain {
    if ops == [] then Plain([], false, Decoded(file))
    else PlainStep(PlainAfter(file, ops[..|ops| - 1], cap), ops[|ops| - 1], cap)
  }

  function View(s: Log): Plain {
    Plain(s.records, s.running, Decoded(s.file))
  }

  lemma {:induction false} DroppedNowhere(l: seq<Record>, id: string)
    requires forall i :: 0 <= i < |l| ==> l[i].id != id
    ensures Dropped(l, id) == l
  {
    if l != [] {
      DroppedNowhere(l[..|l| - 1], id);
    }
  }

  lemma DistinctIdsFront(l: seq<Record>)
    requires l != [] && Distinct(Ids(l))
    ensures Distinct(Ids(l[..|l| - 1])) && forall k :: 0 <= k < |l| - 1 ==> l[k].id != l[|l| - 1].id
  {
    var front := l[..|l| - 1];
    assert forall k :: 0 <= k < |front| ==> Ids(front)[k] == Ids(l)[k] == l[k].id;
    assert Ids(l)[|l| - 1] == l[|l| - 1].id;
  }

  lemma WithoutFront(l: seq<Record>, i: nat)
    requires i < |l| - 1
    ensures WithoutAt(l, i) == WithoutAt(l[..|l| - 1], i) + [l[|l| - 1]]
  {
  }

  lemma {:induction false} DroppedAt(l: seq<Record>, i: nat)
    requires i < |l| && Distinct(Ids(l))
    ensures Dropped(l, l[i].id) == WithoutAt(l, i)
    decreases |l|
  {
    var n := |l| - 1;
    var front := l[..n];
    DistinctIdsFront(l);
    if i == n {
      DroppedNowhere(front, l[i].id);
      assert WithoutAt(l, n) == front;
    } else {
      hide Distinct, Ids, WithoutAt;
      DroppedAt(front, i);
      WithoutFront(l, i);
    }
  }

  lemma RemoveIsDrop(s: Log, id: string, writes: bool, cap: nat)
    requires Distinct(Ids(s.records))
    ensures Step(s, Remove(id, writes), cap).records
      == if Occurs(s.records, id) && writes then Dropped(s.records, id) else s.records
  {
    IndexIs(s.records, id);
    hide Index, Distinct, Ids, Dropped;
    if id in Index(s.records) {
      DroppedAt(s.records, Index(s.records)[id]);
    }
  }

  lemma StepRefines(file: seq<Line>, s: Log, op: Op, cap: nat)
    requires 0 < cap && Synced(file, s, cap) && Distinct(Ids(s.records)) && AllValid(s.records)
    requires op.Append? && op.writes && s.running ==> ValidRecord(op.r)
    ensures View(Step(s, op, cap)) == PlainStep(View(s), op, cap)
  {
    var t := Step(s, op, cap);
    StepStaysSynced(file, s, op, cap);
    StepStaysValid(s, op, cap);
    DecodedIffHolds(t.file, t.records);
    DecodedIffHolds(s.file, s.records);
    hide Decoded, Holds, Index, Ids, Distinct, ValidRecord, Dropped, AllValid;
    match op
    case Remove(id, writes) =>
      RemoveIsDrop(s, id, writes, cap);
      IndexIs(s.records, id);
    case _ =>
  }

  /**
   * With valid events and fresh ids, the store is the drop-oldest list through any run of events, deletions, clears,
   * stops, starts and failed writes, and a start would read that list.
   */
  lemma {:induction false} StoreRefinesPlain(file: seq<Line>, ops: seq<Op>, cap: nat)
    requires 0 < cap && FreshIds(file, ops) && TakenAreValid(file, ops, cap)
    ensures View(After(file, ops, cap)) == PlainAfter(file, ops, cap)
  {
    if ops != [] {
      var n := |ops| - 1;
      var before := ops[..n];
      DistinctFront(StoredIds(file), Appends(before), AppendedId(ops[n]));
      FrontIsTaken(file, ops, cap);
      hide Step, PlainStep, View, Distinct, ValidRecord;
      StoreRefinesPlain(file, before, cap);
      RunStaysKnown(file, before, cap);
      RunStaysSynced(file, before, cap);
      RunStaysValid(file, before, cap);
      assert Taken(file, ops, cap, n) ==> ValidRecord(ops[n].r);
      StepRefines(file, After(file, before, cap), ops[n], cap);
    }
  }

  /** Appending one by one and dropping the oldest at the cap keeps the last ones of everything that was appended. */
  function Appended(records: seq<Record>, events: seq<Record>, cap: nat): seq<Record> {
    if events == [] then records
    else LastN(Appended(records, events[..|events| - 1], cap) + [events[|events| - 1]], cap)
  }

  lemma LastOfLast(all: seq<Record>, r: Record, cap: nat)
    requires 0 < cap
    ensures LastN(LastN(all, cap) + [r], cap) == LastN(all + [r], cap)
  {
  }

  lemma {:induction false} DropsOldest(records: seq<Record>, events: seq<Record>, cap: nat)
    requires 0 < cap && |records| <= cap
    ensures Appended(records, events, cap) == LastN(records + events, cap)
  {
    if events == [] {
      assert records + events == records;
    } else {
      var n := |events| - 1;
      DropsOldest(records, events[..n], cap);
      var all := records + events[..n];
      assert records + events == all + [events[n]];
      assert Appended(records, events, cap) == LastN(LastN(all, cap) + [events[n]], cap);
      hide Appended, LastN;
      LastOfLast(all, events[n], cap);
    }
  }
}
