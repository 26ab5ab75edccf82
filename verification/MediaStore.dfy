/** The in-memory media store: entries by reference, and references by scope and back. */
module MediaStore {
  import opened Basics

  datatype Meta = Meta(filename: string, contentType: string, source: string)

  datatype Entry = Entry(path: string, meta: Meta, storedAt: int)

  /** What the store means: every live reference with its entry and its scope. */
  datatype Item = Item(entry: Entry, scope: string)

  /** The references of every scope that has any. */
  function Inverse(refToScope: map<string, string>): map<string, set<string>> {
    map s | s in refToScope.Values :: set r | r in refToScope && refToScope[r] == s
  }

  function Items(refs: map<string, Entry>, refToScope: map<string, string>): map<string, Item>
    requires refs.Keys == refToScope.Keys
  {
    map r | r in refs :: Item(refs[r], refToScope[r])
  }

  function Without<V>(m: map<string, V>, r: string): map<string, V> {
    m - {r}
  }

  /** scopeToRefs after `delete`, which drops a scope with its last reference. */
  function Dropped(scopeToRefs: map<string, set<string>>, scope: string, ref: string): map<string, set<string>> {
    if scope !in scopeToRefs then scopeToRefs
    else if scopeToRefs[scope] - {ref} == {} then scopeToRefs - {scope}
    else scopeToRefs[scope := scopeToRefs[scope] - {ref}]
  }

  /** Exactly the scopes of live references have a set, and no set is empty. */
  lemma InverseIs(refToScope: map<string, string>)
    ensures var inv := Inverse(refToScope);
      && (forall r, s :: r in refToScope && refToScope[r] == s <==> s in inv && r in inv[s])
      && (forall s :: s in inv ==> inv[s] != {})
  {
  }

  /** There is only one such map. */
  lemma InverseIsUnique(refToScope: map<string, string>, inv: map<string, set<string>>)
    requires forall r, s :: r in refToScope && refToScope[r] == s <==> s in inv && r in inv[s]
    requires forall s :: s in inv ==> inv[s] != {}
    ensures inv == Inverse(refToScope)
  {
    var other := Inverse(refToScope);
    InverseIs(refToScope);
    hide Inverse;
    forall s
      ensures s in inv <==> s in other
    {
      if s in inv {
        var r :| r in inv[s];
        assert r in refToScope && refToScope[r] == s;
      }
      if s in other {
        var r :| r in other[s];
        assert r in refToScope && refToScope[r] == s;
      }
    }
    forall s | s in inv
      ensures inv[s] == other[s]
    {
      forall r
        ensures r in inv[s] <==> r in other[s]
      {
        assert r in inv[s] <==> r in refToScope && refToScope[r] == s;
      }
    }
  }

  lemma InverseInsert(refToScope: map<string, string>, ref: string, scope: string)
    requires ref !in refToScope
    ensures var inv := Inverse(refToScope);
      Inverse(refToScope[ref := scope]) == inv[scope := (if scope in inv then inv[scope] else {}) + {ref}]
  {
    var inv := Inverse(refToScope);
    InverseIs(refToScope);
    hide Inverse;
    InverseIsUnique(refToScope[ref := scope], inv[scope := (if scope in inv then inv[scope] else {}) + {ref}]);
  }

  lemma InverseRemove(refToScope: map<string, string>, ref: string)
    requires ref in refToScope
    ensures Inverse(Without(refToScope, ref)) == Dropped(Inverse(refToScope), refToScope[ref], ref)
  {
    InverseIs(refToScope);
    hide Inverse;
    InverseIsUnique(Without(refToScope, ref), Dropped(Inverse(refToScope), refToScope[ref], ref));
  }

  lemma InverseRelease(refToScope: map<string, string>, scope: string)
    requires scope in Inverse(refToScope)
    ensures Inverse(refToScope - Inverse(refToScope)[scope]) == Inverse(refToScope) - {scope}
  {
    InverseIs(refToScope);
    hide Inverse;
    var inv, gone := Inverse(refToScope), Inverse(refToScope)[scope];
    var left := refToScope - gone;
    forall r, s
      ensures r in left && left[r] == s <==> s in inv - {scope} && r in (inv - {scope})[s]
    {
      assert r in refToScope && refToScope[r] == s <==> s in inv && r in inv[s];
      assert r in refToScope && refToScope[r] == scope <==> r in gone;
    }
    InverseIsUnique(left, inv - {scope});
  }

  /** What a call does to the contents. */
  datatype Op = Stored(ref: string, item: Item) | Released(scope: string) | Cleaned(now: int)

  function Apply(c: map<string, Item>, op: Op, maxAge: int): map<string, Item> {
    match op
    case Stored(ref, item) => c[ref := item]
    case Released(scope) => map r | r in c && c[r].scope != scope :: c[r]
    case Cleaned(now) => map r | r in c && !(0 < maxAge && c[r].entry.storedAt < now - maxAge) :: c[r]
  }

  function AsSet(paths: seq<string>): set<string> {
    set p | p in paths
  }

  function Paths(refs: map<string, Entry>, some: set<string>): set<string> {
    set r | r in some && r in refs :: refs[r].path
  }

  lemma PathsAdd(refs: map<string, Entry>, some: set<string>, ref: string)
    requires ref in refs
    ensures Paths(refs, some + {ref}) == Paths(refs, some) + {refs[ref].path}
  {
  }

  /** The paths of the items that are gone, one for each. */
  ghost predicate PathsOfRemoved(paths: seq<string>, before: map<string, Item>, after: map<string, Item>) {
    && |paths| == |before| - |after|
    && AsSet(paths) == set r | r in before && r !in after :: before[r].entry.path
  }

  lemma NothingRemoved(c: map<string, Item>)
    ensures PathsOfRemoved([], c, c)
  {
  }

  /** Items and paths once some references are gone from the maps. */
  lemma Forgotten(refs: map<string, Entry>, refToScope: map<string, string>, gone: set<string>, paths: seq<string>)
    requires refs.Keys == refToScope.Keys && gone <= refs.Keys
    requires |paths| == |gone| && AsSet(paths) == Paths(refs, gone)
    ensures (refs - gone).Keys == (refToScope - gone).Keys
    ensures Items(refs - gone, refToScope - gone) == Items(refs, refToScope) - gone
    ensures PathsOfRemoved(paths, Items(refs, refToScope), Items(refs, refToScope) - gone)
  {
  }

  lemma ItemsInsert(refs: map<string, Entry>, refToScope: map<string, string>, ref: string, item: Item)
    requires refs.Keys == refToScope.Keys
    ensures refs[ref := item.entry].Keys == refToScope[ref := item.scope].Keys
    ensures Items(refs[ref := item.entry], refToScope[ref := item.scope]) == Items(refs, refToScope)[ref := item]
  {
  }

  /** Releasing a scope takes its set of references away, if it has one. */
  lemma ReleasedIs(refs: map<string, Entry>, refToScope: map<string, string>, scope: string, maxAge: int)
    requires refs.Keys == refToScope.Keys
    ensures var inv, items := Inverse(refToScope), Items(refs, refToScope);
      && (scope in inv ==> inv[scope] <= refs.Keys)
      && Apply(items, Released(scope), maxAge) == if scope in inv then items - inv[scope] else items
  {
    InverseIs(refToScope);
    hide Inverse;
  }

  class FileMediaStore {
    var refs: map<string, Entry>
    var scopeToRefs: map<string, set<string>>
    var refToScope: map<string, string>
    const maxAge: int

    ghost predicate Valid()
      reads this
    {
      refs.Keys == refToScope.Keys && scopeToRefs == Inverse(refToScope)
    }

    ghost function Contents(): map<string, Item>
      reads this
      requires Valid()
    {
      Items(refs, refToScope)
    }

    constructor (age: int)
      ensures Valid() && Contents() == map[] && maxAge == age
    {
      refs, scopeToRefs, refToScope, maxAge := map[], map[], map[], age;
    }

    /** `ref` is a new reference; a file that does not exist is refused. */
    method Store(fileExists: bool, localPath: string, meta: Meta, scope: string, ref: string, now: int)
      returns (r: Option<string>)
      requires Valid() && ref !in refs
      modifies this
      ensures Valid()
      ensures r == if fileExists then Some(ref) else None
      ensures fileExists ==>
        Contents() == Apply(old(Contents()), Stored(ref, Item(Entry(localPath, meta, now), scope)), maxAge)
      ensures !fileExists ==> Contents() == old(Contents())
    {
      if !fileExists {
        return None;
      }
      InverseInsert(refToScope, ref, scope);
      ItemsInsert(refs, refToScope, ref, Item(Entry(localPath, meta, now), scope));
      hide Inverse, Items;
      refs := refs[ref := Entry(localPath, meta, now)];
      if scope !in scopeToRefs {
        scopeToRefs := scopeToRefs[scope := {}];
      }
      scopeToRefs := scopeToRefs[scope := scopeToRefs[scope] + {ref}];
      refToScope := refToScope[ref := scope];
      return Some(ref);
    }

    method ResolveWithMeta(ref: string) returns (r: Option<Entry>)
      requires Valid()
      ensures r == if ref in Contents() then Some(Contents()[ref].entry) else None
    {
      if ref !in refs {
        return None;
      }
      return Some(refs[ref]);
    }

    /** The files of the returned paths are deleted outside the lock. */
    method ReleaseAll(scope: string) returns (paths: seq<string>)
      requires Valid()
      modifies this
      ensures Valid()
      ensures Contents() == Apply(old(Contents()), Released(scope), maxAge)
      ensures PathsOfRemoved(paths, old(Contents()), Contents())
    {
      hide Inverse, PathsOfRemoved, Apply, Items, AsSet, Paths;
      ReleasedIs(refs, refToScope, scope, maxAge);
      if scope !in scopeToRefs {
        NothingRemoved(Contents());
        return [];
      }
      paths := ReleaseScope(scope);
    }

    method ReleaseScope(scope: string) returns (paths: seq<string>)
      requires Valid() && scope in scopeToRefs && scopeToRefs[scope] <= refs.Keys
      modifies this
      ensures Valid() && Contents() == old(Contents()) - old(scopeToRefs)[scope]
      ensures PathsOfRemoved(paths, old(Contents()), Contents())
    {
      InverseRelease(refToScope, scope);
      ghost var all := scopeToRefs[scope];
      hide Inverse, PathsOfRemoved, Items, AsSet, Paths;
      paths := RemoveFromMaps(scopeToRefs[scope]);
      scopeToRefs := scopeToRefs - {scope};
      Forgotten(old(refs), old(refToScope), all, paths);
    }

    method RemoveFromMaps(all: set<string>) returns (paths: seq<string>)
      requires refs.Keys == refToScope.Keys && all <= refs.Keys
      modifies this`refs, this`refToScope
      ensures refs == old(refs) - all && refToScope == old(refToScope) - all
      ensures |paths| == |all| && AsSet(paths) == Paths(old(refs), all)
    {
      paths := [];
      var todo := all;
      while todo != {}
        invariant todo <= all
        invariant refs == old(refs) - (all - todo) && refToScope == old(refToScope) - (all - todo)
        invariant |paths| + |todo| == |all|
        invariant AsSet(paths) == Paths(old(refs), all - todo)
        decreases todo
      {
        var ref :| ref in todo;
        PathsAdd(old(refs), all - todo, ref);
        assert all - (todo - {ref}) == (all - todo) + {ref};
        hide Paths;
        if ref in refs {
          paths := paths + [refs[ref].path];
        }
        refs := refs - {ref};
        refToScope := refToScope - {ref};
        todo := todo - {ref};
      }
      assert all - {} == all;
    }

    /** Removes the entries stored before now - maxAge; the files of the returned paths are deleted outside the lock. */
    method CleanExpired(now: int) returns (expired: seq<string>)
      requires Valid()
      modifies this
      ensures Valid()
      ensures Contents() == Apply(old(Contents()), Cleaned(now), maxAge)
      ensures PathsOfRemoved(expired, old(Contents()), Contents())
    {
      hide Inverse, PathsOfRemoved;
      ghost var before := Contents();
      if maxAge <= 0 {
        assert Contents() == Apply(before, Cleaned(now), maxAge);
        NothingRemoved(before);
        return [];
      }
      ghost var gone;
      expired, gone := RemoveOlder(now - maxAge);
      Forgotten(old(refs), old(refToScope), gone, expired);
      hide AsSet, Paths;
      assert before - gone == Apply(before, Cleaned(now), maxAge);
    }

    method RemoveOlder(cutoff: int) returns (expired: seq<string>, ghost gone: set<string>)
      requires Valid()
      modifies this
      ensures Valid() && gone == (set r | r in old(refs) && old(refs)[r].storedAt < cutoff)
      ensures refs == old(refs) - gone && refToScope == old(refToScope) - gone
      ensures |expired| == |gone| && AsSet(expired) == Paths(old(refs), gone)
    {
      hide Inverse;
      expired, gone := [], {};
      var todo := refs.Keys;
      while todo != {}
        invariant Valid() && todo <= refs.Keys
        invariant gone == (set r | r in old(refs) && r !in todo && old(refs)[r].storedAt < cutoff)
        invariant refs == old(refs) - gone && refToScope == old(refToScope) - gone
        invariant |expired| == |gone| && AsSet(expired) == Paths(old(refs), gone)
        decreases todo
      {
        var ref :| ref in todo;
        var entry := refs[ref];
        if entry.storedAt < cutoff {
          PathsAdd(old(refs), gone, ref);
          hide Paths;
          expired := expired + [entry.path];
          gone := gone + {ref};
          Remove(ref);
        }
        todo := todo - {ref};
      }
    }

    method Remove(ref: string)
      requires Valid() && ref in refs
      modifies this
      ensures Valid() && refs == old(refs) - {ref} && refToScope == old(refToScope) - {ref}
    {
      InverseRemove(refToScope, ref);
      hide Inverse;
      if ref in refToScope {
        var scope := refToScope[ref];
        if scope in scopeToRefs {
          var scopeRefs := scopeToRefs[scope] - {ref};
          scopeToRefs := scopeToRefs[scope := scopeRefs];
          if |scopeRefs| == 0 {
            scopeToRefs := scopeToRefs - {scope};
          }
        }
      }
      refs := refs - {ref};
      refToScope := refToScope - {ref};
    }
  }

  // Runs

  function After(ops: seq<Op>, maxAge: int): map<string, Item> {
    if ops == [] then map[] else Apply(After(ops[..|ops| - 1], maxAge), ops[|ops| - 1], maxAge)
  }

  predicate Ends(op: Op, item: Item, maxAge: int) {
    || (op.Released? && op.scope == item.scope)
    || (op.Cleaned? && 0 < maxAge && item.entry.storedAt < op.now - maxAge)
  }

  ghost predicate FreshRefs(ops: seq<Op>) {
    forall i, j :: 0 <= i < j < |ops| && ops[i].Stored? && ops[j].Stored? ==> ops[i].ref != ops[j].ref
  }

  /** Stored by call i, and ended by none since. */
  ghost predicate LivesSince(ops: seq<Op>, maxAge: int, ref: string, item: Item, i: nat) {
    && i < |ops| && ops[i] == Stored(ref, item)
    && forall j :: i < j < |ops| ==> !Ends(ops[j], item, maxAge)
  }

  /** A reference resolves to an item if and only if it was stored so, and neither released nor cleaned since. */
  lemma {:induction false} ResolvesIffLive(ops: seq<Op>, maxAge: int, ref: string, item: Item)
    requires FreshRefs(ops)
    ensures ref in After(ops, maxAge) && After(ops, maxAge)[ref] == item
      <==> exists i: nat :: LivesSince(ops, maxAge, ref, item, i)
  {
    hide Ends;
    if ops != [] {
      var n := |ops| - 1;
      var before, op := ops[..n], ops[n];
      ResolvesIffLive(before, maxAge, ref, item);
      StepResolves(After(before, maxAge), op, maxAge, ref, item);
      if op == Stored(ref, item) {
        assert LivesSince(ops, maxAge, ref, item, n);
      }
      if i: nat :| LivesSince(before, maxAge, ref, item, i) {
        assert ops[i] == before[i];
        if !Ends(op, item, maxAge) {
          assert forall j :: i < j < n ==> before[j] == ops[j];
          assert LivesSince(ops, maxAge, ref, item, i);
        }
      }
      if i: nat :| LivesSince(ops, maxAge, ref, item, i) {
        if i < n {
          assert LivesSince(before, maxAge, ref, item, i);
        }
      }
    }
  }

  lemma StepResolves(c: map<string, Item>, op: Op, maxAge: int, ref: string, item: Item)
    ensures var d := Apply(c, op, maxAge);
      ref in d && d[ref] == item <==>
        || op == Stored(ref, item)
        || (!(op.Stored? && op.ref == ref) && ref in c && c[ref] == item && !Ends(op, item, maxAge))
  {
  }
}
