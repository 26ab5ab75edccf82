/** Import of legacy session files into the session store, one file after the other. */
module Migration {
  import opened Messages
  import opened JsonlStore

  datatype Content = Unparsable | Saved(key: string, messages: seq<Message>, summary: string, tools: seq<string>)

  datatype Entry = Entry(name: string, isDir: bool, content: Content)

  /** The legacy directory and the store's files. */
  datatype World = World(entries: seq<Entry>, disk: map<string, Session>)

  predicate HasSuffix(s: string, suffix: string) {
    |suffix| <= |s| && s[|s| - |suffix|..] == suffix
  }

  predicate Importable(e: Entry) {
    && !e.isDir && HasSuffix(e.name, ".json") && !HasSuffix(e.name, ".meta.json") && !HasSuffix(e.name, ".migrated")
    && e.content.Saved?
  }

  function KeyOf(e: Entry): string
    requires Importable(e)
  {
    if e.content.key == "" then e.name[..|e.name| - 5] else e.content.key
  }

  function Renamed(e: Entry): Entry {
    e.(name := e.name + ".migrated")
  }

  /** The store operations that import one file. */
  function Ops(c: Content): seq<Op>
    requires c.Saved?
  {
    [SetHistory(c.messages)]
    + (if c.summary != "" then [SetSummary(c.summary)] else [])
    + (if c.tools != [] then [SetTools(c.tools)] else [])
  }

  /** A session after operations of which only the first n writes take effect, and how many writes are left. */
  datatype Progress = Progress(session: Session, left: nat, ok: bool)

  function Step(s: Session, op: Op, n: nat): Progress {
    var w := |Writes(s, op)|;
    Progress(After(s, op, n), if w < n then n - w else 0, Readable(s) && w <= n)
  }

  function Import(s: Session, ops: seq<Op>, n: nat): Progress
    decreases |ops|
  {
    if ops == [] then Progress(s, n, true)
    else
      var p := Step(s, ops[0], n);
      if p.ok then Import(p.session, ops[1..], p.left) else p
  }

  datatype Outcome = Outcome(world: World, left: nat, migrated: nat, ok: bool)

  /** The migration from entry i on, when only n writes and renames take effect. */
  function Migrate(w: World, i: nat, n: nat): Outcome
    decreases |w.entries| - i
  {
    if |w.entries| <= i then Outcome(w, n, 0, true)
    else if !Importable(w.entries[i]) then Migrate(w, i + 1, n)
    else
      var e := w.entries[i];
      var name := SanitizeKey(KeyOf(e));
      var p := Import(SessionAt(w.disk, name), Ops(e.content), n);
      var imported := w.(disk := Put(w.disk, name, p.session));
      if !p.ok then Outcome(imported, p.left, 0, false)
      else
        var rest := if p.left == 0 then Migrate(imported, i + 1, 0)
          else Migrate(imported.(entries := w.entries[i := Renamed(e)]), i + 1, p.left - 1);
        rest.(migrated := rest.migrated + 1)
  }

  class LegacyDir {
    var entries: seq<Entry>

    constructor (es: seq<Entry>)
      ensures entries == es
    {
      entries := es;
    }
  }

  lemma PutTwice(disk: map<string, Session>, name: string, s: Session, t: Session)
    requires t != EMPTY || s == EMPTY
    ensures Put(Put(disk, name, s), name, t) == Put(disk, name, t)
    ensures t != EMPTY || name !in disk ==> SessionAt(Put(disk, name, t), name) == t
    ensures Put(disk, name, SessionAt(disk, name)) == disk
  {
  }

  lemma WritesAreFiles(s: Session, op: Op, n: nat)
    ensures After(s, op, n) != EMPTY || After(s, op, n) == s
  {
  }

  lemma {:induction false} ImportIsFiles(s: Session, ops: seq<Op>, n: nat)
    ensures Import(s, ops, n).session != EMPTY || Import(s, ops, n).session == s
    decreases |ops|
  {
    hide After, Writes;
    if ops != [] {
      WritesAreFiles(s, ops[0], n);
      ImportIsFiles(Step(s, ops[0], n).session, ops[1..], Step(s, ops[0], n).left);
    }
  }

  method ImportSession(store: Store, key: string, c: Content) returns (ok: bool)
    requires c.Saved?
    modifies store
    ensures var p := Import(old(store.At(key)), Ops(c), old(store.writesLeft));
      && store.disk == Put(old(store.disk), SanitizeKey(key), p.session)
      && store.writesLeft == p.left && ok == p.ok
  {
    hide Writes, After;
    ghost var name, disk, s0, n0 := SanitizeKey(key), store.disk, store.At(key), store.writesLeft;
    ok := store.ReplaceHistory(key, c.messages);
    ghost var p1 := Step(s0, SetHistory(c.messages), n0);
    WritesAreFiles(s0, SetHistory(c.messages), n0);
    PutTwice(disk, name, s0, p1.session);
    ghost var ops1, ops2 := Ops(c)[1..], if c.tools != [] then [SetTools(c.tools)] else [];
    ImportStep(s0, Ops(c), n0);
    if !ok {
      return;
    }
    assert store.At(key) == p1.session;
    ghost var p2 := p1;
    if c.summary != "" {
      ok := store.PutSummary(key, c.summary);
      p2 := Step(p1.session, SetSummary(c.summary), p1.left);
      WritesAreFiles(p1.session, SetSummary(c.summary), p1.left);
      PutTwice(disk, name, p1.session, p2.session);
      ImportStep(p1.session, ops1, p1.left);
      assert ops1[1..] == ops2;
      if !ok {
        return;
      }
    }
    assert Import(s0, Ops(c), n0) == Import(p2.session, ops2, p2.left);
    if |c.tools| != 0 {
      ok := store.PutDiscoveredTools(key, c.tools);
      ghost var p3 := Step(p2.session, SetTools(c.tools), p2.left);
      WritesAreFiles(p2.session, SetTools(c.tools), p2.left);
      PutTwice(disk, name, p2.session, p3.session);
      ImportStep(p2.session, ops2, p2.left);
      ImportNothing(p3.session, ops2[1..], p3.left);
    } else {
      ImportNothing(p2.session, ops2, p2.left);
    }
  }

  lemma ImportStep(s: Session, ops: seq<Op>, n: nat)
    requires ops != []
    ensures var p := Step(s, ops[0], n);
      Import(s, ops, n) == if p.ok then Import(p.session, ops[1..], p.left) else p
  {
  }

  lemma ImportNothing(s: Session, ops: seq<Op>, n: nat)
    requires ops == []
    ensures Import(s, ops, n) == Progress(s, n, true)
  {
  }

  method MigrateFromJSON(dir: LegacyDir, store: Store) returns (migrated: nat, ok: bool)
    modifies dir, store
    ensures var o := Migrate(World(old(dir.entries), old(store.disk)), 0, old(store.writesLeft));
      World(dir.entries, store.disk) == o.world && store.writesLeft == o.left && migrated == o.migrated && ok == o.ok
  {
    hide Import, Ops, Put, SessionAt, SanitizeKey;
    var entries := dir.entries;
    migrated, ok := 0, true;
    ghost var all := Migrate(World(dir.entries, store.disk), 0, store.writesLeft);
    var i := 0;
    while i < |entries|
      invariant 0 <= i <= |entries| == |dir.entries| && dir.entries[i..] == entries[i..] && ok
      invariant var o := Migrate(World(dir.entries, store.disk), i, store.writesLeft);
        all == o.(migrated := o.migrated + migrated)
    {
      var e := entries[i];
      assert dir.entries[i] == dir.entries[i..][0] == e;
      assert dir.entries[i + 1..] == dir.entries[i..][1..];
      if e.isDir || !HasSuffix(e.name, ".json") || HasSuffix(e.name, ".meta.json") || HasSuffix(e.name, ".migrated")
         || e.content.Unparsable? {
        i := i + 1;
        continue;
      }
      var key := if e.content.key == "" then e.name[..|e.name| - 5] else e.content.key;
      ok := ImportSession(store, key, e.content);
      if !ok {
        return;
      }
      if store.writesLeft != 0 {
        dir.entries := dir.entries[i := Renamed(e)];
        store.writesLeft := store.writesLeft - 1;
      }
      assert dir.entries[i + 1..] == entries[i + 1..];
      migrated := migrated + 1;
      i := i + 1;
    }
  }
}
