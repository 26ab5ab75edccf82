/** A migration that is interrupted, any number of times, ends as if it had not been. */
module MigrationProofs {
  import opened JsonlStore
  import opened JsonlProofs
  import opened Migration

  /** A session after all of a file has been imported. */
  function Imported(s: Session, c: Content): Session
    requires Readable(s) && c.Saved?
  {
    var m := MetaOf(s);
    Session(Encoded(c.messages), Stored(Meta(
      if c.summary != "" then c.summary else m.summary,
      if c.tools != [] then NormalTools(c.tools) else m.tools,
      0, |c.messages|)))
  }

  /** How many writes it takes. */
  function Cost(c: Content): (n: nat)
    requires c.Saved?
    ensures 2 <= n <= 4
  {
    2 + (if c.summary != "" then 1 else 0) + if c.tools != [] then 1 else 0
  }

  /** A state between the start of an import and its end. */
  ghost predicate OnTheWay(s: Session, c: Content, p: Progress, cost: nat, n: nat)
    requires Readable(s) && c.Saved?
  {
    && Readable(p.session) && Imported(p.session, c) == Imported(s, c)
    && p.ok == (cost <= n) && p.left == if cost < n then n - cost else 0
  }

  lemma HistoryStep(s: Session, c: Content, n: nat)
    requires Readable(s) && c.Saved?
    ensures var p := Step(s, SetHistory(c.messages), n);
      && OnTheWay(s, c, p, 2, n)
      && (p.ok ==> p.session == Session(Encoded(c.messages), Stored(MetaOf(s).(skip := 0, count := |c.messages|))))
  {
  }

  lemma SummaryStep(s: Session, c: Content, n: nat)
    requires Readable(s) && c.Saved? && c.summary != ""
    ensures var p := Step(s, SetSummary(c.summary), n);
      && OnTheWay(s, c, p, 1, n)
      && (p.ok ==> p.session == s.(meta := Stored(MetaOf(s).(summary := c.summary))))
  {
  }

  /** The operations behind the first. */
  lemma ImportRest(s: Session, c: Content, n: nat)
    requires s.meta.Stored? && c.Saved?
    ensures var p := Import(s, Ops(c)[1..], n);
      && OnTheWay(s, c, p, Cost(c) - 2, n)
      && (p.ok ==> p.session == s.(meta := Stored(MetaOf(s).(
           summary := if c.summary != "" then c.summary else MetaOf(s).summary,
           tools := if c.tools != [] then NormalTools(c.tools) else MetaOf(s).tools))))
  {
    var ops := Ops(c)[1..];
    hide Step, NormalTools, Encoded, Ops;
    if c.summary != "" {
      assert ops == [SetSummary(c.summary)] + ops[1..]
        && ops[1..] == if c.tools != [] then [SetTools(c.tools)] else [] by {
        OpsAre(c);
      }
      SummaryStep(s, c, n);
      ImportStep(s, ops, n);
      var p := Step(s, SetSummary(c.summary), n);
      if p.ok {
        ImportTools(p.session, c, ops[1..], p.left);
      }
    } else {
      OpsAre(c);
      ImportTools(s, c, ops, n);
    }
  }

  lemma OpsAre(c: Content)
    requires c.Saved?
    ensures var tools := if c.tools != [] then [SetTools(c.tools)] else [];
      && Ops(c) != [] && Ops(c)[0] == SetHistory(c.messages)
      && Ops(c)[1..] == if c.summary != "" then [SetSummary(c.summary)] + tools else tools
  {
  }

  lemma ImportTools(s: Session, c: Content, ops: seq<Op>, n: nat)
    requires Readable(s) && c.Saved? && ops == if c.tools != [] then [SetTools(c.tools)] else []
    ensures var p := Import(s, ops, n);
      && OnTheWay(s, c, p, |ops|, n)
      && (p.ok && c.tools != [] ==> p.session == s.(meta := Stored(MetaOf(s).(tools := NormalTools(c.tools)))))
      && (p.ok && c.tools == [] ==> p.session == s)
  {
  }

  /**
   * An import is complete exactly when there are enough writes, and one that is cut short leaves a session from which
   * the whole import gives the same.
   */
  lemma ImportIs(s: Session, c: Content, n: nat)
    requires Readable(s) && c.Saved?
    ensures var p := Import(s, Ops(c), n);
      && OnTheWay(s, c, p, Cost(c), n) && (p.ok ==> p.session == Imported(s, c))
  {
    hide Step, NormalTools, Encoded, Ops;
    OpsAre(c);
    HistoryStep(s, c, n);
    ImportStep(s, Ops(c), n);
    var p := Step(s, SetHistory(c.messages), n);
    if p.ok {
      ImportRest(p.session, c, p.left);
    }
  }

  lemma UnreadableStays(s: Session, c: Content, n: nat)
    requires !Readable(s) && c.Saved?
    ensures Import(s, Ops(c), n) == Progress(s, n, false)
  {
  }

  lemma MigrateUnfolds(w: World, i: nat, n: nat)
    ensures Migrate(w, i, n) ==
      if |w.entries| <= i then Outcome(w, n, 0, true)
      else if !Importable(w.entries[i]) then Migrate(w, i + 1, n)
      else
        var e := w.entries[i];
        var name := SanitizeKey(KeyOf(e));
        var p := Import(SessionAt(w.disk, name), Ops(e.content), n);
        var imported := w.(disk := Put(w.disk, name, p.session));
        if !p.ok then Outcome(imported, p.left, 0, false)
        else
          var rest := if p.left == 0 then Migrate(imported, i + 1, 0)
            else Migrate(imported.(entries := w.entries[i := Renamed(e)]), i + 1, p.left - 1);
          rest.(migrated := rest.migrated + 1)
  {
  }

  lemma IsSaved(e: Entry)
    requires Importable(e)
    ensures e.content.Saved?
  {
  }

  /** The world right behind the import of entry i. */
  function WithSession(w: World, i: nat, s: Session): World
    requires i < |w.entries| && Importable(w.entries[i])
  {
    w.(disk := Put(w.disk, SanitizeKey(KeyOf(w.entries[i])), s))
  }

  function SessionOf(w: World, i: nat): Session
    requires i < |w.entries| && Importable(w.entries[i])
  {
    SessionAt(w.disk, SanitizeKey(KeyOf(w.entries[i])))
  }

  function Next(w: World, i: nat, s: Session): World
    requires i < |w.entries| && Importable(w.entries[i])
  {
    WithSession(w, i, s).(entries := w.entries[i := Renamed(w.entries[i])])
  }

  /** The migration at an importable entry. */
  lemma AtImportable(w: World, i: nat, n: nat)
    requires i < |w.entries| && Importable(w.entries[i])
    ensures var s, c := SessionOf(w, i), w.entries[i].content;
      var p := Import(s, Ops(c), n);
      && (!Readable(s) ==> p == Progress(s, n, false))
      && (Readable(s) ==> OnTheWay(s, c, p, Cost(c), n) && (p.ok ==> p.session == Imported(s, c)))
      && var o := Migrate(w, i, n);
         if !p.ok then o == Outcome(WithSession(w, i, p.session), p.left, 0, false)
         else
           var rest := if p.left == 0 then Migrate(WithSession(w, i, p.session), i + 1, 0)
             else Migrate(Next(w, i, p.session), i + 1, p.left - 1);
           o == rest.(migrated := rest.migrated + 1)
  {
    var s, c := SessionOf(w, i), w.entries[i].content;
    MigrateUnfolds(w, i, n);
    hide Migrate, Import, Ops, Put, SessionAt, KeyOf, SanitizeKey;
    if Readable(s) {
      ImportIs(s, c, n);
    } else {
      UnreadableStays(s, c, n);
    }
  }

  lemma WithSameSession(w: World, i: nat)
    requires i < |w.entries| && Importable(w.entries[i])
    ensures WithSession(w, i, SessionOf(w, i)) == w
  {
  }

  /** Once nothing takes effect any more, nothing changes. */
  lemma {:induction false} NothingLeft(w: World, i: nat)
    ensures Migrate(w, i, 0).world == w
    decreases |w.entries| - i
  {
    hide *;
    MigrateUnfolds(w, i, 0);
    if i < |w.entries| {
      if !Importable(w.entries[i]) {
        NothingLeft(w, i + 1);
      } else {
        AtImportable(w, i, 0);
        NoWriteNoChange(w, i);
        WithSameSession(w, i);
      }
    }
  }

  lemma NoWriteNoChange(w: World, i: nat)
    requires i < |w.entries| && Importable(w.entries[i])
    ensures var p := Import(SessionOf(w, i), Ops(w.entries[i].content), 0);
      p.session == SessionOf(w, i) && !p.ok
  {
  }

  /** Entries in front of i are not touched. */
  lemma {:induction false} FrontStays(w: World, i: nat, n: nat)
    ensures var r := Migrate(w, i, n).world;
      |r.entries| == |w.entries| && forall j :: 0 <= j < i && j < |w.entries| ==> r.entries[j] == w.entries[j]
    decreases |w.entries| - i
  {
    MigrateUnfolds(w, i, n);
    hide Migrate, Import, Importable;
    if i < |w.entries| {
      if !Importable(w.entries[i]) {
        FrontStays(w, i + 1, n);
      } else {
        IsSaved(w.entries[i]);
        AtImportable(w, i, n);
        var p := Import(SessionOf(w, i), Ops(w.entries[i].content), n);
        FrontStays(WithSession(w, i, p.session), i + 1, 0);
        if 0 < p.left {
          FrontStays(Next(w, i, p.session), i + 1, p.left - 1);
        }
      }
    }
  }

  /** Writes and renames that are enough for the entries from i on. */
  ghost predicate Enough(w: World, i: nat, n: nat) {
    5 * (|w.entries| - i) <= n
  }

  /** Beyond what is enough, the number of writes that would take effect does not matter. */
  lemma {:induction false} EnoughIsEnough(w: World, i: nat, m: nat, n: nat)
    requires Enough(w, i, m) && Enough(w, i, n)
    ensures Migrate(w, i, m).world == Migrate(w, i, n).world && Migrate(w, i, m).migrated == Migrate(w, i, n).migrated
    ensures Migrate(w, i, m).ok == Migrate(w, i, n).ok
    decreases |w.entries| - i
  {
    MigrateUnfolds(w, i, m);
    MigrateUnfolds(w, i, n);
    hide Migrate, Import, Importable;
    if i < |w.entries| {
      if !Importable(w.entries[i]) {
        EnoughIsEnough(w, i + 1, m, n);
      } else {
        IsSaved(w.entries[i]);
        AtImportable(w, i, m);
        AtImportable(w, i, n);
        var s, c := SessionOf(w, i), w.entries[i].content;
        if Readable(s) {
          EnoughIsEnough(Next(w, i, Imported(s, c)), i + 1, m - Cost(c) - 1, n - Cost(c) - 1);
        }
      }
    }
  }

  lemma RenamedIsNotImportable(e: Entry)
    ensures !Importable(Renamed(e)) && Renamed(e) == e.(name := e.name + ".migrated")
  {
  }

  /** A session that was left on the way is imported to the same end. */
  lemma ResumeImport(w: World, i: nat, n: nat)
    requires i < |w.entries| && Importable(w.entries[i])
    ensures var s, c := SessionOf(w, i), w.entries[i].content;
      var p := Import(s, Ops(c), n);
      var w1 := WithSession(w, i, p.session);
      && SessionOf(w1, i) == p.session
      && (Readable(s) ==> Readable(p.session) && Imported(p.session, c) == Imported(s, c))
      && (Readable(s) ==> Next(w1, i, Imported(s, c)) == Next(w, i, Imported(s, c)))
      && (!Readable(s) ==> w1 == w)
  {
    var s, c := SessionOf(w, i), w.entries[i].content;
    var name := SanitizeKey(KeyOf(w.entries[i]));
    var p := Import(s, Ops(c), n);
    AtImportable(w, i, n);
    ImportIsFiles(s, Ops(c), n);
    hide Import, Ops, SanitizeKey, KeyOf, Migrate;
    PutTwice(w.disk, name, s, p.session);
    if Readable(s) {
      PutTwice(w.disk, name, p.session, Imported(s, c));
    } else {
      WithSameSession(w, i);
    }
  }

  /** From a world with entry i importable, a full run is a full run from the next entry on. */
  lemma FullAtImportable(w: World, i: nat, m: nat)
    requires i < |w.entries| && Importable(w.entries[i]) && Enough(w, i, m) && Readable(SessionOf(w, i))
    ensures Cost(w.entries[i].content) < m
    ensures var n := m - Cost(w.entries[i].content) - 1;
      var x := Next(w, i, Imported(SessionOf(w, i), w.entries[i].content));
      var rest := Migrate(x, i + 1, n);
      Migrate(w, i, m) == rest.(left := Migrate(w, i, m).left, migrated := rest.migrated + 1) && Enough(x, i + 1, n)
  {
    AtImportable(w, i, m);
    hide Migrate, Import;
  }

  lemma FullAtUnreadable(w: World, i: nat, m: nat)
    requires i < |w.entries| && Importable(w.entries[i]) && !Readable(SessionOf(w, i))
    ensures Migrate(w, i, m).world == w
  {
  }

  /** After a run from entry i that was cut short, a full run from i ends as it would have in the first place. */
  lemma {:induction false} ResumeFrom(w: World, i: nat, n: nat, m: nat)
    requires Enough(w, i, m)
    ensures Migrate(Migrate(w, i, n).world, i, m).world == Migrate(w, i, m).world
    decreases |w.entries| - i, 1
  {
    MigrateUnfolds(w, i, n);
    FrontStays(w, i + 1, n);
    hide Migrate, Importable;
    if i < |w.entries| {
      if !Importable(w.entries[i]) {
        MigrateUnfolds(w, i, m);
        MigrateUnfolds(Migrate(w, i, n).world, i, m);
        ResumeFrom(w, i + 1, n, m);
      } else {
        ResumeAtImportable(w, i, n, m);
      }
    }
  }

  lemma RenamedIsSkipped(x: World, e: Entry, i: nat, n: nat, m: nat)
    requires i < |x.entries| && x.entries[i] == Renamed(e)
    ensures var r := Migrate(x, i + 1, n).world; Migrate(r, i, m) == Migrate(r, i + 1, m)
  {
    hide *;
    var r := Migrate(x, i + 1, n).world;
    FrontStays(x, i + 1, n);
    RenamedIsNotImportable(e);
    assert r.entries[i] == Renamed(e);
    MigrateUnfolds(r, i, m);
  }

  lemma ResumeAtImportable(w: World, i: nat, n: nat, m: nat)
    requires i < |w.entries| && Importable(w.entries[i]) && Enough(w, i, m)
    ensures Migrate(Migrate(w, i, n).world, i, m).world == Migrate(w, i, m).world
    decreases |w.entries| - i, 0
  {
    var s, c := SessionOf(w, i), w.entries[i].content;
    AtImportable(w, i, n);
    ResumeImport(w, i, n);
    hide Import, Migrate, Importable, SessionOf, Imported;
    var p := Import(s, Ops(c), n);
    var w1 := WithSession(w, i, p.session);
    if !Readable(s) {
      FullAtUnreadable(w, i, m);
    } else {
      FullAtImportable(w, i, m);
      var x, k := Next(w, i, Imported(s, c)), m - Cost(c) - 1;
      if p.ok && 0 < p.left {
        ResumeFrom(x, i + 1, p.left - 1, m);
        RenamedIsSkipped(x, w.entries[i], i, p.left - 1, m);
        EnoughIsEnough(x, i + 1, m, k);
      } else {
        NothingLeft(w1, i + 1);
        assert Migrate(w, i, n).world == w1;
        FullAtImportable(w1, i, m);
      }
    }
  }

  /** The worlds that runs with crashes leave behind, one after the other. */
  function Interrupted(w: World, runs: seq<nat>): World {
    if runs == [] then w else Migrate(Interrupted(w, runs[..|runs| - 1]), 0, runs[|runs| - 1]).world
  }

  /**
   * However often the migration is cut off, and after whichever write or rename, running it again to its end gives
   * the same files as one run without interruption.
   */
  lemma {:induction false} InterruptionsDoNotMatter(w: World, runs: seq<nat>, m: nat)
    requires Enough(w, 0, m)
    ensures Migrate(Interrupted(w, runs), 0, m).world == Migrate(w, 0, m).world
    ensures |Interrupted(w, runs).entries| == |w.entries|
  {
    hide Migrate;
    if runs != [] {
      var before := Interrupted(w, runs[..|runs| - 1]);
      InterruptionsDoNotMatter(w, runs[..|runs| - 1], m);
      FrontStays(before, 0, runs[|runs| - 1]);
      ResumeFrom(before, 0, runs[|runs| - 1], m);
    }
  }

  // What a full run does

  ghost predicate AllReadable(w: World) {
    forall name :: name in w.disk ==> Readable(w.disk[name])
  }

  ghost predicate ImportsInto(e: Entry, name: string) {
    Importable(e) && SanitizeKey(KeyOf(e)) == name
  }

  lemma NextIsReadable(w: World, i: nat)
    requires i < |w.entries| && Importable(w.entries[i]) && AllReadable(w)
    ensures Readable(SessionOf(w, i)) && AllReadable(Next(w, i, Imported(SessionOf(w, i), w.entries[i].content)))
  {
  }

  function ImportableFrom(entries: seq<Entry>, i: nat): nat
    decreases |entries| - i
  {
    if |entries| <= i then 0 else (if Importable(entries[i]) then 1 else 0) + ImportableFrom(entries, i + 1)
  }

  lemma {:induction false} SameImportable(a: seq<Entry>, b: seq<Entry>, i: nat)
    requires |a| == |b| && forall j :: i <= j < |a| ==> a[j] == b[j]
    ensures ImportableFrom(a, i) == ImportableFrom(b, i)
    decreases |a| - i
  {
    if i < |a| {
      SameImportable(a, b, i + 1);
    }
  }

  /** A full run succeeds, counts the files it imports, renames each of them and leaves all others. */
  lemma {:induction false} FullRun(w: World, i: nat, m: nat)
    requires Enough(w, i, m) && AllReadable(w)
    ensures var o := Migrate(w, i, m);
      && o.ok && o.migrated == ImportableFrom(w.entries, i) && |o.world.entries| == |w.entries|
      && forall j :: 0 <= j < |w.entries| ==>
        o.world.entries[j] == if i <= j && Importable(w.entries[j]) then Renamed(w.entries[j]) else w.entries[j]
    decreases |w.entries| - i
  {
    hide Migrate, Importable, SanitizeKey, KeyOf, Renamed;
    MigrateUnfolds(w, i, m);
    if i < |w.entries| {
      if !Importable(w.entries[i]) {
        FullRun(w, i + 1, m);
      } else {
        IsSaved(w.entries[i]);
        NextIsReadable(w, i);
        FullAtImportable(w, i, m);
        hide Imported, AllReadable;
        var x := Next(w, i, Imported(SessionOf(w, i), w.entries[i].content));
        SameImportable(w.entries, x.entries, i + 1);
        FullRun(x, i + 1, m - Cost(w.entries[i].content) - 1);
      }
    }
  }

  /** Sessions that no file is imported into keep their files. */
  lemma {:induction false} OthersStay(w: World, i: nat, m: nat, name: string)
    requires Enough(w, i, m) && AllReadable(w)
    requires forall j :: i <= j < |w.entries| ==> !ImportsInto(w.entries[j], name)
    ensures SessionAt(Migrate(w, i, m).world.disk, name) == SessionAt(w.disk, name)
    decreases |w.entries| - i
  {
    hide Migrate, Importable, SanitizeKey, KeyOf;
    MigrateUnfolds(w, i, m);
    if i < |w.entries| {
      if !Importable(w.entries[i]) {
        OthersStay(w, i + 1, m, name);
      } else {
        IsSaved(w.entries[i]);
        NextIsReadable(w, i);
        FullAtImportable(w, i, m);
        assert !ImportsInto(w.entries[i], name);
        hide Imported, AllReadable;
        var x := Next(w, i, Imported(SessionOf(w, i), w.entries[i].content));
        assert forall j :: i + 1 <= j < |x.entries| ==> x.entries[j] == w.entries[j];
        OthersStay(x, i + 1, m - Cost(w.entries[i].content) - 1, name);
      }
    }
  }

  /** After a full run, the history of a session is that of the last file imported into it, and the file is renamed. */
  lemma {:induction false} LastFileWins(w: World, i: nat, m: nat, last: nat)
    requires Enough(w, i, m) && AllReadable(w)
    requires i <= last < |w.entries| && Importable(w.entries[last])
    requires forall j :: last < j < |w.entries| ==> !ImportsInto(w.entries[j], SanitizeKey(KeyOf(w.entries[last])))
    ensures var r := Migrate(w, i, m).world;
      var s := SessionAt(r.disk, SanitizeKey(KeyOf(w.entries[last])));
      && Readable(s) && w.entries[last].content.Saved? && History(s) == w.entries[last].content.messages
      && last < |r.entries| && r.entries[last] == Renamed(w.entries[last])
    decreases |w.entries| - i
  {
    hide Migrate, Importable, SanitizeKey, KeyOf, Visible;
    MigrateUnfolds(w, i, m);
    if !Importable(w.entries[i]) {
      LastFileWins(w, i + 1, m, last);
    } else {
      IsSaved(w.entries[i]);
      NextIsReadable(w, i);
      FullAtImportable(w, i, m);
      var c, n := w.entries[i].content, m - Cost(w.entries[i].content) - 1;
      var name := SanitizeKey(KeyOf(w.entries[i]));
      var t := Imported(SessionOf(w, i), c);
      var x := Next(w, i, t);
      assert t.meta.Stored? && t.meta.meta.skip == 0 && t.log == Encoded(c.messages);
      hide Imported, AllReadable, Encoded;
      assert forall j :: i + 1 <= j < |x.entries| ==> x.entries[j] == w.entries[j];
      if i == last {
        VisibleEncoded(c.messages);
        OthersStay(x, i + 1, n, name);
        FrontStays(x, i + 1, n);
        assert SessionAt(x.disk, name) == t;
      } else {
        LastFileWins(x, i + 1, n, last);
      }
    }
  }

  // Names

  lemma SuffixIs(s: string, suffix: string)
    ensures HasSuffix(s, suffix) <==> exists base :: s == base + suffix
  {
    if HasSuffix(s, suffix) {
      assert s == s[..|s| - |suffix|] + suffix;
    }
  }

  /** Exactly the files that decode and are named .json are imported, except metadata files of the store. */
  lemma ImportableIff(e: Entry)
    ensures Importable(e) <==>
      && !e.isDir && e.content.Saved?
      && (exists base :: e.name == base + ".json") && !exists base :: e.name == base + ".meta.json"
  {
    SuffixIs(e.name, ".json");
    SuffixIs(e.name, ".meta.json");
    assert HasSuffix(e.name, ".json") ==> e.name[|e.name| - 1] == 'n';
    assert HasSuffix(e.name, ".migrated") ==> e.name[|e.name| - 1] == 'd';
  }

  /** A file goes to the session it names, or to that of its own name without .json. */
  lemma KeyIs(e: Entry, base: string)
    requires Importable(e) && e.name == base + ".json"
    ensures e.content.Saved? && KeyOf(e) == if e.content.key != "" then e.content.key else base
  {
    assert e.name[..|e.name| - 5] == base;
  }
}
