/** Re-wrapping file keys page by page while the rewrapped rows leave the listing: the
    rescue after a recovery, and the migration from the legacy user key. */
module KeyPaging {
  import opened Prelude

  /** Files are numbered in the order of their ids; 0 is before all of them. */
  type FileId = nat

  /** By file, the identity key version its key is wrapped for. Version 0 stands for a
      file whose key is wrapped only with the legacy user key. */
  type Keys = map<FileId, nat>

  const PAGE_SIZE: nat := 100

  /** A key this browser holds: its version, and which file keys it really opens. */
  datatype OldKey = OldKey(version: nat, opens: FileId -> bool)

  /** The listing after a file: the rows still wrapped for the version. */
  function Above(keys: Keys, version: nat, after: FileId): set<FileId> {
    set f | f in keys && keys[f] == version && f > after
  }

  /** Rows of the version up to `last` that the key opens, wrapped for `to` instead. */
  function Rewrapped(keys: Keys, key: OldKey, to: nat, last: FileId): Keys {
    map f | f in keys :: if keys[f] == key.version && 0 < f <= last && key.opens(f) then to else keys[f]
  }

  /** The same for all rows of the version. */
  function AllRewrapped(keys: Keys, key: OldKey, to: nat): Keys {
    map f | f in keys :: if keys[f] == key.version && f > 0 && key.opens(f) then to else keys[f]
  }

  /** The guarded updates of one save: rows still wrapped for the old version. */
  function Stored(keys: Keys, version: nat, to: nat, items: set<FileId>): Keys {
    map f | f in keys :: if f in items && keys[f] == version then to else keys[f]
  }

  predicate Ascending(items: seq<FileId>) {
    forall i, j | 0 <= i < j < |items| :: items[i] < items[j]
  }

  function Elements(items: seq<FileId>): set<FileId> {
    set f | f in items
  }

  function Last(items: seq<FileId>, after: FileId): FileId {
    if items == [] then after else items[|items| - 1]
  }

  function Opened(items: seq<FileId>, key: OldKey): set<FileId> {
    set f | f in items && key.opens(f)
  }

  // --- Pages ------------------------------------------------------------------------

  /** `items` are the first of `all` in order, and `rest` the others. */
  predicate Split(all: set<FileId>, items: seq<FileId>, rest: set<FileId>) {
    && Ascending(items) && Elements(items) + rest == all
    && forall i, f | 0 <= i < |items| && f in rest :: items[i] < f
  }

  lemma SplitNone(all: set<FileId>)
    ensures Split(all, [], all)
  {
    assert Elements([]) == {};
  }

  lemma SplitStep(all: set<FileId>, items: seq<FileId>, rest: set<FileId>, f: FileId)
    requires Split(all, items, rest) && f in rest && forall g | g in rest :: f <= g
    ensures Split(all, items + [f], rest - {f})
  {
    assert Elements(items + [f]) == Elements(items) + {f};
  }

  lemma SplitAbove(keys: Keys, version: nat, after: FileId, items: seq<FileId>, rest: set<FileId>)
    requires Split(Above(keys, version, after), items, rest)
    ensures rest == Above(keys, version, Last(items, after))
    ensures forall f | f in items :: f in Above(keys, version, after) && f <= Last(items, after)
    ensures |Above(keys, version, after)| == |items| + |rest| && after <= Last(items, after)
  {
    assert forall f | f in items :: f in Elements(items);
    if items != [] {
      var last := items[|items| - 1];
      assert last in Elements(items);
      assert forall f | f in rest :: f > last;
      forall f | f in Above(keys, version, last)
        ensures f in rest
      {
        assert f in Above(keys, version, after);
      }
    }
    AscendingSize(items);
    assert Elements(items) !! rest;
  }

  lemma {:induction false} AscendingSize(items: seq<FileId>)
    requires Ascending(items)
    ensures |Elements(items)| == |items|
  {
    if items != [] {
      var init := items[..|items| - 1];
      AscendingSize(init);
      assert Elements(items) == Elements(init) + {items[|items| - 1]};
    }
  }

  // --- One page more ------------------------------------------------------------------

  /** After the pages up to `after`: what was visited, in order, and what became of it. */
  predicate Progress(was: Keys, keys: Keys, key: OldKey, to: nat, after: FileId, visited: seq<FileId>) {
    && keys == Rewrapped(was, key, to, after)
    && Split(Above(was, key.version, 0), visited, Above(was, key.version, after))
    && Last(visited, 0) == after
  }

  lemma RewrappedAbove(was: Keys, key: OldKey, to: nat, last: FileId, after: FileId)
    requires key.version != to && last <= after
    ensures Above(Rewrapped(was, key, to, last), key.version, after) == Above(was, key.version, after)
  {
  }

  lemma ProgressStep(was: Keys, keys: Keys, key: OldKey, to: nat, after: FileId, visited: seq<FileId>,
                     items: seq<FileId>)
    requires Progress(was, keys, key, to, after, visited) && key.version != to
    requires items != [] && Split(Above(keys, key.version, after), items, Above(keys, key.version, Last(items, after)))
    ensures Progress(was, Stored(keys, key.version, to, Opened(items, key)), key, to, Last(items, after),
                     visited + items)
  {
    var last := Last(items, after);
    SplitAbove(keys, key.version, after, items, Above(keys, key.version, last));
    RewrappedAbove(was, key, to, after, after);
    RewrappedAbove(was, key, to, after, last);
    StoredIsRewrapped(was, key, to, after, items);
    SplitJoin(was, key.version, after, visited, items);
  }

  lemma StoredIsRewrapped(was: Keys, key: OldKey, to: nat, after: FileId, items: seq<FileId>)
    requires key.version != to && items != []
    requires Split(Above(was, key.version, after), items, Above(was, key.version, Last(items, after)))
    ensures Stored(Rewrapped(was, key, to, after), key.version, to, Opened(items, key))
        == Rewrapped(was, key, to, Last(items, after))
  {
    var last := Last(items, after);
    SplitAbove(was, key.version, after, items, Above(was, key.version, last));
    forall f | f in was && was[f] == key.version && after < f <= last
      ensures f in items
    {
      assert f in Above(was, key.version, after) && f !in Above(was, key.version, last);
      assert f in Elements(items);
    }
  }

  lemma SplitJoin(was: Keys, version: nat, after: FileId, visited: seq<FileId>, items: seq<FileId>)
    requires Split(Above(was, version, 0), visited, Above(was, version, after))
    requires Split(Above(was, version, after), items, Above(was, version, Last(items, after)))
    ensures Split(Above(was, version, 0), visited + items, Above(was, version, Last(items, after)))
  {
    var both := visited + items;
    assert Elements(both) == Elements(visited) + Elements(items);
    forall i, j | 0 <= i < j < |both|
      ensures both[i] < both[j]
    {
      if i < |visited| <= j { assert both[j] in Elements(items); }
    }
  }

  lemma ProgressStarts(keys: Keys, key: OldKey, to: nat)
    ensures Progress(keys, keys, key, to, 0, []) && Opened([], key) == {}
  {
    assert Elements([]) == {};
  }

  /** Nothing left to list: every row was visited, and all that open are rewrapped. */
  lemma ProgressEnds(was: Keys, keys: Keys, key: OldKey, to: nat, after: FileId, visited: seq<FileId>)
    requires Progress(was, keys, key, to, after, visited) && key.version != to && Above(keys, key.version, after) == {}
    ensures Elements(visited) == Above(was, key.version, 0) && keys == AllRewrapped(was, key, to)
  {
    RewrappedAbove(was, key, to, after, after);
    assert forall f | f in was && was[f] == key.version && f > after :: f in Above(was, key.version, after);
  }

  lemma ProgressCounts(was: Keys, keys: Keys, key: OldKey, to: nat, after: FileId, visited: seq<FileId>)
    requires Progress(was, keys, key, to, after, visited) && key.version != to
    ensures |visited| + |Above(keys, key.version, after)| == |Above(was, key.version, 0)|
    ensures Ascending(visited) && Elements(visited) <= Above(was, key.version, 0)
  {
    SplitAbove(was, key.version, 0, visited, Above(was, key.version, after));
    RewrappedAbove(was, key, to, after, after);
  }

  /** What may be left of a pass: the rows up to some file are done, the others as before. */
  ghost predicate Partly(was: Keys, keys: Keys, key: OldKey, to: nat) {
    exists after :: keys == Rewrapped(was, key, to, after)
  }

  lemma ProgressIsPartly(was: Keys, keys: Keys, key: OldKey, to: nat, after: FileId, visited: seq<FileId>)
    requires Progress(was, keys, key, to, after, visited)
    ensures Partly(was, keys, key, to)
  {
  }

  class KeyTable {
    const fails: nat -> bool
    var keys: Keys
    var requests: nat

    /** `fails` says which requests to the server fail, in the order they are made. */
    constructor (keys: Keys, fails: nat -> bool)
      ensures this.keys == keys && this.fails == fails && requests == 0
    {
      this.keys, this.fails, requests := keys, fails, 0;
    }

    method Request() returns (ok: bool)
      modifies this`requests
      ensures requests == old(requests) + 1 && (ok <==> !fails(old(requests)))
    {
      ok := !fails(requests);
      requests := requests + 1;
    }

    method Least(ids: set<FileId>) returns (least: FileId)
      requires ids != {}
      ensures least in ids && forall f | f in ids :: least <= f
    {
      least := Choose(ids);
      var rest := ids - {least};
      while rest != {}
        invariant least in ids && rest <= ids && forall f | f in ids && f !in rest :: least <= f
        decreases rest
      {
        var f := Choose(rest);
        if f < least { least := f; }
        rest := rest - {f};
      }
    }

    /** ListLockedFileKeys and ListLegacyFilesToMigrate: the first rows after a file, and
        how many remain after them. */
    method ListPage(version: nat, after: FileId) returns (items: seq<FileId>, remaining: nat)
      ensures Split(Above(keys, version, after), items, Above(keys, version, Last(items, after)))
      ensures remaining == |Above(keys, version, Last(items, after))| && |items| <= PAGE_SIZE
      ensures items == [] ==> Above(keys, version, after) == {}
    {
      hide Split;
      var all := Above(keys, version, after);
      var rest := all;
      items := [];
      SplitNone(all);
      while |items| < PAGE_SIZE && rest != {}
        invariant |items| <= PAGE_SIZE && Split(all, items, rest) && (items == [] ==> rest == all)
        decreases PAGE_SIZE - |items|
      {
        var f := Least(rest);
        SplitStep(all, items, rest, f);
        items, rest := items + [f], rest - {f};
      }
      SplitAbove(keys, version, after, items, rest);
      remaining := |rest|;
    }

    /** RescueLockedFileKeys and StoreMigratedOwnerEnvelopes; `ok` is false for a refused
        or failed request, which stores nothing. */
    method Save(version: nat, to: nat, items: set<FileId>) returns (ok: bool, stored: nat)
      modifies this
      ensures requests == old(requests) + 1 && (ok <==> !fails(old(requests)))
      ensures keys == if ok then Stored(old(keys), version, to, items) else old(keys)
      ensures stored == if ok then |set f | f in items && f in old(keys) && old(keys)[f] == version| else 0
    {
      ok := Request();
      if !ok { return false, 0; }
      stored := |set f | f in items && f in keys && keys[f] == version|;
      keys := map f | f in keys :: if f in items && keys[f] == version then to else keys[f];
    }

    /** One key's pass over the pages. `totals` notes seen + remaining at each page. */
    method RewrapPages(key: OldKey, to: nat)
      returns (complete: bool, seen: nat, stored: nat, ghost visited: seq<FileId>, ghost totals: seq<nat>)
      requires key.version < to
      modifies this
      ensures Ascending(visited) && Elements(visited) <= Above(old(keys), key.version, 0) && seen == |visited|
      ensures forall n | n in totals :: n == |Above(old(keys), key.version, 0)|
      ensures Partly(old(keys), keys, key, to)
      ensures complete ==>
                && Elements(visited) == Above(old(keys), key.version, 0)
                && keys == AllRewrapped(old(keys), key, to)
      ensures complete ==> stored == |set f | f in Above(old(keys), key.version, 0) && key.opens(f)|
      ensures requests > old(requests) && (complete <==> !Faulty(fails, old(requests), requests))
      ensures visited != [] ==> totals != []
    {
      hide Progress, Split, Stored, Rewrapped, AllRewrapped, Partly, Ascending, Elements, Above, Opened, Faulty;
      FaultyNext(fails, requests, requests);
      complete, seen, stored, visited, totals := false, 0, 0, [], [];
      ghost var was := keys;
      var after: FileId := 0;
      ProgressStarts(keys, key, to);
      assert |Opened([], key)| == 0;
      while true
        invariant Progress(was, keys, key, to, after, visited) && seen == |visited|
        invariant forall n | n in totals :: n == |Above(was, key.version, 0)|
        invariant stored == |Opened(visited, key)| && (visited != [] ==> totals != [])
        invariant requests >= old(requests) && !Faulty(fails, old(requests), requests)
        decreases |Above(was, key.version, 0)| - |visited|
      {
        ProgressCounts(was, keys, key, to, after, visited);
        ProgressIsPartly(was, keys, key, to, after, visited);
        FaultyNext(fails, old(requests), requests);
        var listed := Request();
        if !listed { return; }
        var items, remaining := ListPage(key.version, after);
        if |items| == 0 {
          ProgressEnds(was, keys, key, to, after, visited);
          OpenedAll(was, key, visited);
          complete := true;
          return;
        }
        var openable := Opened(items, key);
        PageStored(keys, key, to, after, items);
        ProgressStep(was, keys, key, to, after, visited, items);
        ProgressCounts(was, Stored(keys, key.version, to, openable), key, to, Last(items, after), visited + items);
        OpenedJoin(visited, items, key);
        seen, visited := seen + |items|, visited + items;
        totals := totals + [seen + remaining];
        if openable != {} {
          FaultyNext(fails, old(requests), requests);
          var ok, n := Save(key.version, to, openable);
          if !ok { return; }
          stored := stored + n;
        }
        after := items[|items| - 1];
      }
    }

    /** rescueLockedFileKeysInBackground: a pass for each older key still held. */
    method RescueLockedFileKeys(oldKeys: seq<OldKey>, active: nat) returns (complete: bool)
      requires forall i | 0 <= i < |oldKeys| :: oldKeys[i].version < active
      modifies this
      ensures Descends(old(keys), keys, oldKeys, active)
      ensures complete ==> keys == Rescued(old(keys), oldKeys, active)
      ensures requests >= old(requests) && (complete <==> !Faulty(fails, old(requests), requests))
    {
      hide Above, AllRewrapped, Rewrapped, Elements, Ascending, Descends, Partly;
      complete := true;
      ghost var was := keys;
      DescendsSelf(was, oldKeys, active);
      for i := 0 to |oldKeys|
        invariant Descends(was, keys, oldKeys, active)
        invariant complete ==> keys == Rescued(was, oldKeys[..i], active)
        invariant requests >= old(requests) && (complete <==> !Faulty(fails, old(requests), requests))
      {
        ghost var before := keys;
        var done, seen, stored;
        ghost var visited, totals;
        done, seen, stored, visited, totals := RewrapPages(oldKeys[i], active);
        DescendsPartly(was, before, keys, oldKeys, i, active);
        complete := complete && done;
        assert oldKeys[..i + 1][..i] == oldKeys[..i];
      }
      assert oldKeys[..|oldKeys|] == oldKeys;
    }

    /** migrateFiles, which ends with the first failed save. `migrated` files stop being
        wrapped with the legacy user key. */
    method MigrateFiles(userKey: OldKey, active: nat) returns (complete: bool, migrated: nat, ghost totals: seq<nat>)
      requires userKey.version == 0 < active
      modifies this
      ensures forall n | n in totals :: n == |Above(old(keys), 0, 0)|
      ensures Partly(old(keys), keys, userKey, active)
      ensures complete ==> keys == AllRewrapped(old(keys), userKey, active)
      ensures complete ==> migrated == |set f | f in Above(old(keys), 0, 0) && userKey.opens(f)|
      ensures complete <==> !Faulty(fails, old(requests), requests)
    {
      var seen;
      ghost var visited;
      complete, seen, migrated, visited, totals := RewrapPages(userKey, active);
    }
  }

  // --- A rescue over several keys ---------------------------------------------------------

  function Rescued(keys: Keys, oldKeys: seq<OldKey>, active: nat): Keys {
    if oldKeys == [] then keys
    else AllRewrapped(Rescued(keys, oldKeys[..|oldKeys| - 1], active), oldKeys[|oldKeys| - 1], active)
  }

  predicate Opens(oldKeys: seq<OldKey>, version: nat, file: FileId) {
    exists i | 0 <= i < |oldKeys| :: oldKeys[i].version == version && oldKeys[i].opens(file)
  }

  /** A file key is as it was, or a held key of its version opened it and it is wrapped
      for the active version now. */
  predicate Descends(was: Keys, keys: Keys, oldKeys: seq<OldKey>, active: nat) {
    && keys.Keys == was.Keys
    && forall f | f in was :: keys[f] == was[f] || (keys[f] == active && Opens(oldKeys, was[f], f))
  }

  lemma DescendsSelf(keys: Keys, oldKeys: seq<OldKey>, active: nat)
    ensures Descends(keys, keys, oldKeys, active)
  {
  }

  lemma DescendsPartly(was: Keys, before: Keys, after: Keys, oldKeys: seq<OldKey>, i: nat, active: nat)
    requires i < |oldKeys| && oldKeys[i].version < active
    requires Descends(was, before, oldKeys, active) && Partly(before, after, oldKeys[i], active)
    ensures Descends(was, after, oldKeys, active)
  {
    var last :| after == Rewrapped(before, oldKeys[i], active, last);
    forall f | f in was
      ensures after[f] == was[f] || (after[f] == active && Opens(oldKeys, was[f], f))
    {
      if after[f] != before[f] { assert Opens(oldKeys, before[f], f); }
    }
  }

  /** A complete rescue leaves locked exactly the file keys that no held key of their
      version opens; every other one of an older version is wrapped for the active one. */
  lemma {:induction false} RescueLeavesUnopenable(keys: Keys, oldKeys: seq<OldKey>, active: nat, f: FileId)
    requires forall i | 0 <= i < |oldKeys| :: oldKeys[i].version < active
    requires f in keys && f > 0
    ensures
      var after := Rescued(keys, oldKeys, active);
      && after.Keys == keys.Keys
      && after[f] == if keys[f] < active && Opens(oldKeys, keys[f], f) then active else keys[f]
  {
    if oldKeys != [] {
      var init, last := oldKeys[..|oldKeys| - 1], oldKeys[|oldKeys| - 1];
      RescueLeavesUnopenable(keys, init, active, f);
      assert Opens(oldKeys, keys[f], f) <==> Opens(init, keys[f], f) || (last.version == keys[f] && last.opens(f)) by {
        assert oldKeys == init + [last];
      }
    }
  }

  lemma OpenedAll(was: Keys, key: OldKey, visited: seq<FileId>)
    requires Elements(visited) == Above(was, key.version, 0)
    ensures Opened(visited, key) == set f | f in Above(was, key.version, 0) && key.opens(f)
  {
    assert forall f :: f in visited <==> f in Elements(visited);
  }

  lemma OpenedJoin(visited: seq<FileId>, items: seq<FileId>, key: OldKey)
    requires Ascending(visited + items)
    ensures |Opened(visited + items, key)| == |Opened(visited, key)| + |Opened(items, key)|
  {
    var both := visited + items;
    assert Opened(both, key) == Opened(visited, key) + Opened(items, key);
    forall f | f in Opened(visited, key)
      ensures f !in Opened(items, key)
    {
      var i :| 0 <= i < |visited| && visited[i] == f;
      forall j | 0 <= j < |items|
        ensures items[j] != f
      {
        assert both[i] < both[|visited| + j];
      }
    }
  }

  lemma PageStored(keys: Keys, key: OldKey, to: nat, after: FileId, items: seq<FileId>)
    requires Split(Above(keys, key.version, after), items, Above(keys, key.version, Last(items, after)))
    ensures (set f | f in Opened(items, key) && f in keys && keys[f] == key.version) == Opened(items, key)
    ensures Stored(keys, key.version, to, {}) == keys
    ensures |Above(keys, key.version, after)| == |items| + |Above(keys, key.version, Last(items, after))|
  {
    SplitAbove(keys, key.version, after, items, Above(keys, key.version, Last(items, after)));
    assert forall f | f in Opened(items, key) :: f in items;
  }
}
