/**
  The operations on the local repository, as a sequence of single file-system
  changes.  `history` records the state after every change; it is what the theorems
  about whole runs in SnapshotRepository speak of.
 */
module LocalRepository {
  import opened Options
  import opened Bytes
  import opened Listing
  import opened SnapshotRepository

  /** How far a recursive removal gets (two files, then the directory), and which file
      goes first. */
  datatype Fate = Fate(markerFirst: bool, removed: nat)

  predicate Finishes(fate: Fate) {
    fate.removed >= 3
  }

  datatype DeleteOutcome = Deleted | DryRun | NotFound | NotComplete | RemovalFailed | ObjectFailed | LatestFailed

  function LostOne(dir: SnapDir, markerFirst: bool): SnapDir {
    if markerFirst then dir.(complete := false) else dir.(files := None)
  }

  function DirsAfterRemoval(dirs: map<Name, SnapDir>, n: Name, fate: Fate): map<Name, SnapDir> {
    if n !in dirs || fate.removed == 0 then dirs
    else if fate.removed == 1 then dirs[n := LostOne(dirs[n], fate.markerFirst)]
    else if !Finishes(fate) then dirs[n := EMPTY_DIR]
    else dirs - {n}
  }

  function DigestsOf(files: Option<seq<FileEntry>>): set<Digest> {
    if files.None? then {} else set i | 0 <= i < |files.value| :: files.value[i].digest
  }

  /** The digests mentioned by the listed snapshots other than `except`. */
  function ReferencedBy(r: Repo, except: Option<Name>): set<Digest> {
    set n, d | n in r.dirs && Listed(r, n) && Some(n) != except && d in DigestsOf(r.dirs[n].files) :: d
  }

  lemma {:induction false} ReferencedByAll(r: Repo, d: Digest)
    ensures d in ReferencedBy(r, None) <==> Referenced(r, d)
  {
    if Referenced(r, d) {
      var n :| Intact(r, n) && Mentions(r.dirs[n].files.value, d);
      assert d in DigestsOf(r.dirs[n].files);
    }
  }

  method NewestOf(S: set<Name>) returns (newest: Option<Name>)
    ensures IsNewest(S, newest)
  {
    var ks := SortSet(S);
    if ks == [] {
      return None;
    }
    newest := Some(ks[|ks| - 1]);
    AfterIsAbove(ks, S, |ks| - 1);
  }

  /** The objects left after removing those listed. */
  function Without(objects: map<Digest, Bytes>, os: seq<Digest>): map<Digest, Bytes> {
    if os == [] then objects else Without(objects, os[..|os| - 1]) - {os[|os| - 1]}
  }

  lemma {:induction false} WithoutAll(objects: map<Digest, Bytes>, os: seq<Digest>, ds: set<Digest>)
    requires Lists(os, ds)
    ensures Without(objects, os) == objects - ds
    decreases |os|
  {
    if os == [] {
      assert ds == {};
    } else {
      ListsFront(os, ds);
      WithoutAll(objects, os[..|os| - 1], ds - {os[|os| - 1]});
      assert os[|os| - 1] in ds;
      assert objects - (ds - {os[|os| - 1]}) - {os[|os| - 1]} == objects - ds;
    }
  }

  class LocalRepository {
    const sha: Sha
    var objects: map<Digest, Bytes>
    var dirs: map<Name, SnapDir>
    var latest: Option<Name>
    ghost var history: seq<Repo>

    function State(): Repo
      reads this
    {
      Repo(objects, dirs, latest)
    }

    ghost predicate Valid()
      reads this
    {
      history != [] && history[|history| - 1] == State() && SafeRun(sha, history)
    }

    constructor (sha: Sha, start: Repo)
      ensures Valid() && this.sha == sha && State() == start && history == [start]
    {
      this.sha := sha;
      objects, dirs, latest := start.objects, start.dirs, start.latest;
      history := [start];
    }

    // ---- Single file-system changes ----

    ghost method Log(c: Change)
      requires history != [] && SafeRun(sha, history)
      requires State() == Changed(history[|history| - 1], c) && SafeStep(sha, history[|history| - 1], State())
      modifies this`history
      ensures Valid() && history == old(history) + [State()]
    {
      RunExtends(sha, history, State());
      history := history + [State()];
    }

    /** Renaming a verified temporary file into place. */
    method PutObject(d: Digest, content: Bytes)
      requires Valid() && d !in objects && sha(content) == d
      modifies this`objects, this`history
      ensures Valid() && old(history) <= history && objects == old(objects)[d := content]
    {
      PutIsSafe(sha, State(), d, content);
      objects := objects[d := content];
      Log(ObjectPut(d, content));
    }

    method DropObject(d: Digest)
      requires Valid() && (!Referenced(State(), d) || !Has(sha, State(), d))
      modifies this`objects, this`history
      ensures Valid() && old(history) <= history && objects == old(objects) - {d}
    {
      DropIsSafe(sha, State(), d);
      objects := objects - {d};
      Log(ObjectDropped(d));
    }

    method MakeDir(n: Name)
      requires Valid() && n !in dirs
      modifies this`dirs, this`history
      ensures Valid() && old(history) <= history && dirs == old(dirs)[n := EMPTY_DIR]
    {
      DirIsSafe(sha, State(), n, EMPTY_DIR);
      dirs := dirs[n := EMPTY_DIR];
      Log(InDirs(DirMade(n)));
    }

    /** Writing or removing files.json. */
    method SetFiles(n: Name, files: Option<seq<FileEntry>>)
      requires Valid() && n in dirs && (Listed(State(), n) ==> files.None?)
      modifies this`dirs, this`history
      ensures Valid() && old(history) <= history && dirs == old(dirs)[n := old(dirs)[n].(files := files)]
    {
      DirIsSafe(sha, State(), n, dirs[n].(files := files));
      dirs := dirs[n := dirs[n].(files := files)];
      Log(InDirs(FilesSet(n, files)));
    }

    /** Writing or removing COMPLETE. */
    method SetMarker(n: Name, complete: bool)
      requires Valid() && n in dirs
      modifies this`dirs, this`history
      ensures Valid() && old(history) <= history && dirs == old(dirs)[n := old(dirs)[n].(complete := complete)]
    {
      DirIsSafe(sha, State(), n, dirs[n].(complete := complete));
      dirs := dirs[n := dirs[n].(complete := complete)];
      Log(InDirs(MarkerSet(n, complete)));
    }

    method RemoveDir(n: Name)
      requires Valid() && n in dirs && dirs[n] == EMPTY_DIR
      modifies this`dirs, this`history
      ensures Valid() && old(history) <= history && dirs == old(dirs) - {n}
    {
      RemoveDirIsSafe(sha, State(), n);
      dirs := dirs - {n};
      Log(InDirs(DirUnlinked(n)));
    }

    method RenameDir(from: Name, to: Name)
      requires Valid() && from in dirs && to !in dirs
      modifies this`dirs, this`history
      ensures Valid() && old(history) <= history && dirs == (old(dirs) - {from})[to := old(dirs)[from]]
    {
      RenameIsSafe(sha, State(), from, to);
      dirs := (dirs - {from})[to := dirs[from]];
      Log(InDirs(DirMoved(from, to)));
    }

    method SetLatest(l: Option<Name>)
      requires Valid()
      modifies this`latest, this`history
      ensures Valid() && old(history) <= history && latest == l
    {
      LatestIsSafe(sha, State(), l);
      latest := l;
      Log(LatestSet(l));
    }

    /** remove_all: the file list and the marker go one after the other, in either
        order, then the directory, and the removal may stop early. */
    method RemoveTree(n: Name, fate: Fate)
      requires Valid()
      modifies this`dirs, this`history
      ensures Valid() && old(history) <= history
      ensures dirs == DirsAfterRemoval(old(dirs), n, fate)
    {
      if n !in dirs || fate.removed == 0 {
        return;
      }
      RemoveFile(n, fate.markerFirst);
      if fate.removed > 1 {
        RemoveFile(n, !fate.markerFirst);
      }
      if Finishes(fate) {
        RemoveDir(n);
      }
    }

    method RemoveFile(n: Name, marker: bool)
      requires Valid() && n in dirs
      modifies this`dirs, this`history
      ensures Valid() && old(history) <= history && dirs == old(dirs)[n := LostOne(old(dirs)[n], marker)]
    {
      if marker {
        SetMarker(n, false);
      } else {
        SetFiles(n, None);
      }
    }

    // ---- Storing ----

    /** copy_or_link_object. */
    method CopyOrLinkObject(content: Bytes, d: Digest) returns (ok: bool)
      requires Valid()
      modifies this`objects, this`history
      ensures Valid() && old(history) <= history
      ensures ok <==> old(Has(sha, State(), d)) || sha(content) == d
      ensures objects == if old(Has(sha, State(), d)) then old(objects)
                         else if ok then old(objects)[d := content] else old(objects) - {d}
    {
      if d in objects {
        if sha(objects[d]) == d {
          return true;
        }
        DropObject(d);
      }
      if sha(content) != d {
        return false;
      }
      PutObject(d, content);
      return true;
    }

    // ---- Retention ----

    /** The removal loop over the oldest names. */
    method RemoveAll(ks: seq<Name>, fates: Name -> Fate)
      requires Valid() && forall i, j :: 0 <= i < j < |ks| ==> ks[i] != ks[j]
      modifies this`dirs, this`history
      ensures Valid() && old(history) <= history
      ensures forall n :: n in old(dirs) && n !in ks ==> n in dirs && dirs[n] == old(dirs)[n]
      ensures forall n :: n in ks && Finishes(fates(n)) ==> n !in dirs
      ensures OnlyLost(old(dirs), dirs)
    {
      for i := 0 to |ks|
        invariant Valid() && old(history) <= history && OnlyLost(old(dirs), dirs)
        invariant forall n :: n in old(dirs) && n !in ks[..i] ==> n in dirs && dirs[n] == old(dirs)[n]
        invariant forall n :: n in ks[..i] && Finishes(fates(n)) ==> n !in dirs
      {
        RemoveTree(ks[i], fates(ks[i]));
      }
    }

    /** Dropping every object no listed snapshot mentions; a removal that fails is passed over. */
    method DropUnreferenced(stuck: Digest -> bool)
      requires Valid()
      modifies this`objects, this`history
      ensures Valid() && old(history) <= history
      ensures objects == Collected(old(State()), stuck)
    {
      ghost var start := State();
      var refs := ReferencedBy(State(), None);
      var garbage := set d | d in objects && d !in refs && !stuck(d);
      var os := ListSet(garbage);
      for i := 0 to |os|
        invariant Valid() && old(history) <= history && dirs == start.dirs
        invariant objects == Without(start.objects, os[..i])
      {
        assert os[i] in garbage;
        UnreferencedStays(start, State(), os[i]);
        assert os[..i + 1][..i] == os[..i];
        DropObject(os[i]);
      }
      assert os[..|os|] == os;
      WithoutAll(start.objects, os, garbage);
      CollectedIs(start, garbage, stuck);
    }

    /** prune_local_snapshot_repository. */
    method Prune(retention: nat, fates: Name -> Fate, stuck: Digest -> bool)
      requires Valid()
      modifies this`objects, this`dirs, this`history
      ensures Valid() && old(history) <= history
      ensures Retained(old(State()), dirs, retention, fates) && OnlyLost(old(dirs), dirs)
      ensures objects == if 0 < retention < |ListedNames(old(State()))| then Collected(Repo(old(objects), dirs, latest), stuck) else old(objects)
    {
      if retention == 0 {
        FrontRetained(State(), dirs, [], retention, fates);
        return;
      }
      ghost var S := ListedNames(State());
      var ks := SortSet(ListedNames(State()));
      ListsCardinality(ks, S);
      if |ks| <= retention {
        NonePruned(ks, S, retention);
        FrontRetained(State(), dirs, [], retention, fates);
        return;
      }
      var removeCount := |ks| - retention;
      FrontIsPruned(ks, S, retention);
      RemoveAll(ks[..removeCount], fates);
      FrontRetained(old(State()), dirs, ks[..removeCount], retention, fates);
      DropUnreferenced(stuck);
    }

    // ---- Storing a snapshot ----

    method BuildInventory(sources: map<Path, Source>) returns (entries: seq<FileEntry>)
      ensures IsInventory(sha, entries, sources)
    {
      var paths := SortSet(sources.Keys);
      ListsCardinality(paths, sources.Keys);
      entries := [];
      for i := 0 to |paths|
        invariant |entries| == i
        invariant forall k :: 0 <= k < i ==> entries[k].path == paths[k] && EntryOf(sha, entries[k], sources)
      {
        var s := sources[paths[i]];
        entries := entries + [FileEntry(paths[i], sha(s.hashed), |s.hashed|, s.runtime)];
      }
      InventoryBuilt(sha, entries, paths, sources);
    }

    /** The copying loop: one object per distinct digest, existing ones reused unchecked.
        It fails exactly when a file it has to copy no longer hashes to its digest. */
    method StoreObjects(entries: seq<FileEntry>, sources: map<Path, Source>) returns (ok: bool)
      requires Valid() && forall i :: 0 <= i < |entries| ==> entries[i].path in sources
      modifies this`objects, this`history
      ensures Valid() && old(history) <= history
      ensures Grew(sha, old(objects), objects)
      ensures ok ==> forall i :: 0 <= i < |entries| ==> entries[i].digest in objects
      ensures ok <==> forall i :: 0 <= i < |entries| ==> Obtained(old(objects), entries, CopyHolds(sha, entries, sources), i)
    {
      ghost var before, good := objects, CopyHolds(sha, entries, sources);
      var unique: set<Digest> := {};
      for i := 0 to |entries|
        invariant Valid() && old(history) <= history
        invariant unique == Seen(entries, i) && Progress(sha, before, objects, entries, good, i)
      {
        var d := entries[i].digest;
        if d !in unique {
          unique := unique + {d};
          ok := StoreOne(entries, sources, i, before);
          if !ok {
            return false;
          }
        } else {
          ProgressStep(sha, before, objects, entries, good, i);
        }
      }
      ProgressDone(sha, before, objects, entries, good);
      return true;
    }

    /** One turn of the loop for a digest not met before. */
    method StoreOne(entries: seq<FileEntry>, sources: map<Path, Source>, i: nat, ghost before: map<Digest, Bytes>) returns (ok: bool)
      requires Valid() && i < |entries| && entries[i].path in sources
      requires Progress(sha, before, objects, entries, CopyHolds(sha, entries, sources), i)
      modifies this`objects, this`history
      ensures Valid() && old(history) <= history && Grew(sha, before, objects)
      ensures ok ==> Progress(sha, before, objects, entries, CopyHolds(sha, entries, sources), i + 1)
      ensures !ok ==> !Obtained(before, entries, CopyHolds(sha, entries, sources), i)
    {
      ProgressStep(sha, before, objects, entries, CopyHolds(sha, entries, sources), i);
      if entries[i].digest in objects {
        return true;
      }
      assert objects - {entries[i].digest} == objects;
      ok := CopyOrLinkObject(sources[entries[i].path].copied, entries[i].digest);
    }

    /** Inventory and objects; None when the inventory is empty or a copy changed. */
    method StoreFiles(sources: map<Path, Source>) returns (stored: Option<seq<FileEntry>>)
      requires Valid()
      modifies this`objects, this`history
      ensures Valid() && old(history) <= history && Grew(sha, old(objects), objects)
      ensures stored.Some? <==> sources != map[] && CopiesOk(sha, old(objects), sources)
      ensures stored.Some? ==>
        && IsInventory(sha, stored.value, sources)
        && forall i :: 0 <= i < |stored.value| ==> stored.value[i].digest in objects
    {
      var entries := BuildInventory(sources);
      EmptyInventory(sha, entries, sources);
      if entries == [] {
        return None;
      }
      InventoryPaths(sha, entries, sources);
      EntriesCopyIsCopiesOk(sha, objects, entries, sources);
      var ok := StoreObjects(entries, sources);
      return if ok then Some(entries) else None;
    }

    /** Filling the partial directory and renaming it into place. */
    method Publish(id: Name, entries: seq<FileEntry>)
      requires Valid() && id !in dirs && id + PARTIAL in dirs && dirs[id + PARTIAL] == EMPTY_DIR
      modifies this`dirs, this`history
      ensures Valid() && old(history) <= history
      ensures dirs == (old(dirs) - {id + PARTIAL})[id := SnapDir(Some(entries), true)]
    {
      var partial := id + PARTIAL;
      PartialNameIsPartial(id);
      SetFiles(partial, Some(entries));
      SetMarker(partial, true);
      RenameDir(partial, id);
    }

    /** store_checkpoint_snapshot up to and including latest.json. */
    method StoreSnapshot(id: Name, sources: map<Path, Source>, cleanup: Fate) returns (stored: Option<seq<FileEntry>>)
      requires Valid() && !IsPartial(id)
      modifies this
      ensures Valid() && old(history) <= history && Grew(sha, old(objects), objects)
      ensures stored.Some? <==> Storable(sha, old(State()), id, sources)
      ensures stored.None? ==> dirs == DirsAfterFailure(old(dirs), id, cleanup) && latest == old(latest)
      ensures stored.Some? ==>
        && id !in old(dirs) && dirs == old(dirs)[id := SnapDir(stored, true)] && latest == Some(id)
        && IsInventory(sha, stored.value, sources)
        && forall i :: 0 <= i < |stored.value| ==> stored.value[i].digest in objects
    {
      var partial := id + PARTIAL;
      PartialNameIsPartial(id);
      if partial in dirs || id in dirs {
        return None;
      }
      MakeDir(partial);
      assert dirs - {partial} == old(dirs);
      stored := StoreFiles(sources);
      if stored.None? {
        RemoveTree(partial, cleanup);
        return;
      }
      Publish(id, stored.value);
      SetLatest(Some(id));
    }

    /** store_checkpoint_snapshot: store, then apply retention. */
    method Store(id: Name, sources: map<Path, Source>, retention: nat, fates: Name -> Fate, stuck: Digest -> bool)
      returns (stored: Option<seq<FileEntry>>)
      requires Valid() && !IsPartial(id)
      modifies this
      ensures Valid() && old(history) <= history
      ensures StoreEffect(sha, old(State()), State(), id, sources, retention, fates, stuck, stored)
    {
      stored := StoreSnapshot(id, sources, fates(id + PARTIAL));
      if stored.None? {
        CollectionAccounts(sha, old(State()), objects, State(), stuck);
        return;
      }
      ghost var published := State();
      Prune(retention, fates, stuck);
      StoredAndRetained(sha, old(State()), published, State(), id, retention, fates, stuck, stored.value);
    }

    // ---- Deleting a snapshot ----

    /** The loop that removes the objects only the deleted snapshot used, in order, up to
        the first one whose removal fails. */
    method DropAll(ds: set<Digest>, stuck: Digest -> bool) returns (ok: bool)
      requires Valid() && forall d :: d in ds ==> !Referenced(State(), d)
      modifies this`objects, this`history
      ensures Valid() && old(history) <= history
      ensures ok <==> forall d :: d in ds && d in old(objects) ==> !stuck(d)
      ensures objects == old(objects) - Reached(ds, old(objects), stuck)
    {
      ghost var start := State();
      var os := SortSet(ds);
      for i := 0 to |os|
        invariant Valid() && old(history) <= history && dirs == start.dirs
        invariant objects == Without(start.objects, os[..i])
        invariant forall k :: 0 <= k < i ==> !(os[k] in start.objects && stuck(os[k]))
      {
        assert !Referenced(start, os[i]);
        SameDirsSameReferences(start, State(), os[i]);
        assert os[..i + 1][..i] == os[..i];
        assert os[i] !in objects ==> objects - {os[i]} == objects;
        WithoutKeeps(start.objects, os, i);
        if os[i] in objects {
          if stuck(os[i]) {
            ReachedFront(start.objects, os, ds, stuck, i);
            return false;
          }
          DropObject(os[i]);
        }
      }
      ReachedFront(start.objects, os, ds, stuck, |os|);
      return true;
    }

    /** delete_local_backup_snapshot. */
    method Delete(id: Name, dryRun: bool, fate: Fate, stuck: Digest -> bool, latestStuck: bool) returns (outcome: DeleteOutcome)
      requires Valid() && !IsPartial(id)
      modifies this
      ensures Valid() && old(history) <= history
      ensures DeleteEffect(old(State()), State(), id, dryRun, fate, stuck, latestStuck, outcome)
    {
      if id !in dirs {
        return NotFound;
      }
      if !dirs[id].complete {
        return NotComplete;
      }
      var newLatest := latest;
      if latest == Some(id) {
        newLatest := NewestOf(ListedNames(State()) - {id});
      }
      var garbage := Garbage(State(), id);
      if dryRun {
        return DryRun;
      }
      ghost var start := State();
      RemoveTree(id, fate);
      if !Finishes(fate) {
        return RemovalFailed;
      }
      GarbageUnreferenced(start, State(), id);
      var ok := DropAll(garbage, stuck);
      if !ok {
        return ObjectFailed;
      }
      if latest == Some(id) {
        if latestStuck {
          return LatestFailed;
        }
        SetLatest(newLatest);
      }
      DeletedIs(start, State(), id, dryRun, fate, stuck, latestStuck, newLatest);
      return Deleted;
    }

    // ---- Metadata and objects from a remote ----

    /** cache_downloaded_snapshot_metadata: a listed snapshot without any object. */
    method CacheMetadata(name: Name, files: seq<FileEntry>) returns (ok: bool)
      requires Valid() && !IsPartial(name)
      modifies this`dirs, this`history
      ensures Valid() && old(history) <= history
      ensures CacheEffect(old(State()), State(), name, files, ok)
    {
      if name in dirs {
        return dirs[name].complete;
      }
      PartialNameIsPartial(name);
      if name + PARTIAL in dirs {
        return false;
      }
      MakeDir(name + PARTIAL);
      assert dirs - {name + PARTIAL} == old(dirs);
      Publish(name, files);
      return true;
    }

    /** fetch_missing_objects: download, check size and hash, rename. */
    method FetchMissing(files: seq<FileEntry>, download: Digest -> Option<Bytes>) returns (ok: bool)
      requires Valid()
      modifies this`objects, this`history
      ensures Valid() && old(history) <= history
      ensures FetchEffect(sha, old(State()), State(), files, download, ok)
    {
      ok := FetchAll(files, download);
    }

    method FetchAll(files: seq<FileEntry>, download: Digest -> Option<Bytes>) returns (ok: bool)
      requires Valid()
      modifies this`objects, this`history
      ensures Valid() && old(history) <= history && Grew(sha, old(objects), objects)
      ensures ok ==> forall i :: 0 <= i < |files| ==> files[i].digest in objects
      ensures ok <==> forall i :: 0 <= i < |files| ==> Obtained(old(objects), files, DownloadHolds(sha, files, download), i)
    {
      ghost var before, good := objects, DownloadHolds(sha, files, download);
      for i := 0 to |files|
        invariant Valid() && old(history) <= history && Progress(sha, before, objects, files, good, i)
      {
        ok := FetchOne(files, download, i, before);
        if !ok {
          return;
        }
      }
      ProgressDone(sha, before, objects, files, good);
      return true;
    }

    method FetchOne(files: seq<FileEntry>, download: Digest -> Option<Bytes>, i: nat, ghost before: map<Digest, Bytes>) returns (ok: bool)
      requires Valid() && i < |files| && Progress(sha, before, objects, files, DownloadHolds(sha, files, download), i)
      modifies this`objects, this`history
      ensures Valid() && old(history) <= history && Grew(sha, before, objects)
      ensures ok ==> Progress(sha, before, objects, files, DownloadHolds(sha, files, download), i + 1)
      ensures !ok ==> !Obtained(before, files, DownloadHolds(sha, files, download), i)
    {
      var d := files[i].digest;
      ProgressStep(sha, before, objects, files, DownloadHolds(sha, files, download), i);
      if d in objects {
        return true;
      }
      var content := download(d);
      if content.None? || (files[i].size != 0 && |content.value| != files[i].size) || sha(content.value) != d {
        return false;
      }
      PutObject(d, content.value);
      return true;
    }

    // ---- Staging ----

    /** build_local_restore_preflight followed by stage_local_restore_snapshot. */
    method Stage(name: Name, spaceOk: bool, safe: Path -> bool) returns (staged: Option<map<Path, Bytes>>)
      ensures staged == if spaceOk && Ready(State(), name) then Staged(sha, objects, dirs[name].files.value, safe) else None
    {
      if !spaceOk || name !in dirs || !dirs[name].complete || dirs[name].files.None? {
        return None;
      }
      var files := dirs[name].files.value;
      for i := 0 to |files|
        invariant forall k :: 0 <= k < i ==> files[k].digest in objects
      {
        if files[i].digest !in objects {
          return None;
        }
      }
      staged := Some(map[]);
      for i := 0 to |files|
        invariant staged.Some? && staged == Staged(sha, objects, files[..i], safe)
      {
        var e := files[i];
        assert files[..i + 1][..i] == files[..i];
        if !safe(e.path) {
          StagedNone(sha, objects, files, safe, i + 1);
          return None;
        }
        if sha(objects[e.digest]) == e.digest {
          staged := Some(staged.value[e.path := objects[e.digest]]);
        } else if e.path == CONFIG {
          staged := Some(staged.value - {e.path});
        } else {
          StagedNone(sha, objects, files, safe, i + 1);
          return None;
        }
      }
      assert files[..|files|] == files;
    }
  }

  /** Preflight passes apart from disk space: complete, and no object missing. */
  ghost predicate Ready(r: Repo, name: Name) {
    && name in r.dirs && r.dirs[name].complete && r.dirs[name].files.Some?
    && forall i :: 0 <= i < |r.dirs[name].files.value| ==> r.dirs[name].files.value[i].digest in r.objects
  }

  lemma {:induction false} StagedNone(sha: Sha, objects: map<Digest, Bytes>, files: seq<FileEntry>, safe: Path -> bool, n: nat)
    requires n <= |files| && Staged(sha, objects, files[..n], safe).None?
    ensures Staged(sha, objects, files, safe).None?
    decreases |files|
  {
    if n == |files| {
      assert files[..n] == files;
    } else {
      assert files[..|files| - 1][..n] == files[..n];
      StagedNone(sha, objects, files[..|files| - 1], safe, n);
    }
  }

  lemma {:induction false} InventoryBuilt(sha: Sha, entries: seq<FileEntry>, paths: seq<Path>, sources: map<Path, Source>)
    requires Lists(paths, sources.Keys) && Ascending(paths) && |entries| == |paths| == |sources.Keys|
    requires forall k :: 0 <= k < |entries| ==> entries[k].path == paths[k] && EntryOf(sha, entries[k], sources)
    ensures IsInventory(sha, entries, sources)
  {
    forall i, j | 0 <= i < j < |entries|
      ensures Less(entries[i].path, entries[j].path)
    {
      assert Precedes(paths, i, j);
    }
    forall p | p in sources
      ensures ListsPath(entries, p)
    {
      assert p in paths;
      var i :| 0 <= i < |paths| && paths[i] == p;
      assert entries[i].path == p;
    }
  }

  ghost predicate GoodDownload(sha: Sha, e: FileEntry, download: Digest -> Option<Bytes>) {
    var c := download(e.digest);
    c.Some? && sha(c.value) == e.digest && (e.size == 0 || |c.value| == e.size)
  }

  ghost predicate IsNewest(S: set<Name>, newest: Option<Name>) {
    match newest
    case None => S == {}
    case Some(n) => n in S && Above(S, n) == {}
  }

  lemma {:induction false} SameDirsSameReferences(r: Repo, now: Repo, d: Digest)
    requires now.dirs == r.dirs
    ensures Referenced(now, d) <==> Referenced(r, d)
  {
    assert forall n :: Intact(now, n) <==> Intact(r, n);
  }

  lemma {:induction false} RemovedUnreferenced(r: Repo, now: Repo, id: Name, d: Digest)
    requires now.dirs == r.dirs - {id} && d !in ReferencedBy(r, Some(id))
    ensures !Referenced(now, d)
  {
    forall n | Intact(now, n)
      ensures !Mentions(now.dirs[n].files.value, d)
    {
      assert Listed(r, n) && n != id;
      assert Mentions(r.dirs[n].files.value, d) ==> d in DigestsOf(r.dirs[n].files);
    }
  }

  lemma {:induction false} NamesAfterRemoval(r: Repo, now: Repo, id: Name)
    requires now.dirs == r.dirs - {id}
    ensures ListedNames(now) == ListedNames(r) - {id}
  {
  }

  lemma {:induction false} StoredNames(before: Repo, after: Repo, id: Name)
    requires !IsPartial(id) && id in after.dirs && after.dirs == before.dirs[id := after.dirs[id]] && after.dirs[id].complete
    ensures ListedNames(after) == ListedNames(before) + {id}
  {
  }

  /** Reuse is unchecked: the new snapshot is fully backed exactly when no object it
      reuses was already corrupt. */
  lemma {:induction false} StoredIsBackedExactly(sha: Sha, before: Repo, after: Repo, id: Name, entries: seq<FileEntry>)
    requires Grew(sha, before.objects, after.objects)
    requires Intact(after, id) && after.dirs[id].files == Some(entries)
    requires forall i :: 0 <= i < |entries| ==> entries[i].digest in after.objects
    ensures Backed(sha, after, id) <==> ReusesOnlyGood(sha, before, entries)
  {
    if ReusesOnlyGood(sha, before, entries) {
      forall i | 0 <= i < |entries|
        ensures Has(sha, after, entries[i].digest)
      {
        assert GoodOrAbsent(sha, before, entries[i].digest);
      }
    } else {
      var i :| 0 <= i < |entries| && !GoodOrAbsent(sha, before, entries[i].digest);
      assert !Has(sha, after, entries[i].digest);
    }
  }

  ghost predicate GoodOrAbsent(sha: Sha, r: Repo, d: Digest) {
    d in r.objects ==> Has(sha, r, d)
  }

  ghost predicate ReusesOnlyGood(sha: Sha, r: Repo, entries: seq<FileEntry>) {
    forall i :: 0 <= i < |entries| ==> GoodOrAbsent(sha, r, entries[i].digest)
  }

  lemma {:induction false} PartialNameIsPartial(id: Name)
    ensures IsPartial(id + PARTIAL) && id + PARTIAL != id
  {
    assert (id + PARTIAL)[|id|..] == PARTIAL;
  }

  lemma {:induction false} AboveIgnoresSelf(S: set<Name>, id: Name)
    ensures Above(S + {id}, id) == Above(S, id)
  {
    LessTotal(id, id);
  }

  /** Garbage collection changes nothing for a snapshot whose file list it leaves. */
  lemma {:induction false} CollectionKeepsBacked(sha: Sha, before: Repo, after: Repo, id: Name, stuck: Digest -> bool)
    requires Intact(before, id) && Intact(after, id) && after.dirs[id].files == before.dirs[id].files
    requires after.objects == before.objects || after.objects == Collected(Repo(before.objects, after.dirs, after.latest), stuck)
    ensures Backed(sha, after, id) <==> Backed(sha, before, id)
  {
    var files := after.dirs[id].files.value;
    var mid := Repo(before.objects, after.dirs, after.latest);
    assert Intact(mid, id);
    forall i | 0 <= i < |files|
      ensures Has(sha, after, files[i].digest) <==> Has(sha, before, files[i].digest)
    {
      assert Mentions(files, files[i].digest);
    }
  }

  /** What collection leaves: the objects that some listed snapshot mentions, and those
      whose removal fails. */
  ghost function Collected(r: Repo, stuck: Digest -> bool): map<Digest, Bytes> {
    map d | d in r.objects && (Referenced(r, d) || stuck(d)) :: r.objects[d]
  }

  /** Retention leaves every directory that is not pruned alone, and removes each pruned
      one whose removal goes through. */
  ghost predicate Retained(before: Repo, after: map<Name, SnapDir>, retention: nat, fates: Name -> Fate) {
    forall n :: n in before.dirs ==> RetainedAt(before, after, retention, fates, n)
  }

  ghost predicate RetainedAt(before: Repo, after: map<Name, SnapDir>, retention: nat, fates: Name -> Fate, n: Name)
    requires n in before.dirs
  {
    if Listed(before, n) && Pruned(ListedNames(before), n, retention) then Finishes(fates(n)) ==> n !in after
    else n in after && after[n] == before.dirs[n]
  }

  /** Directories were only removed, or lost their marker or their file list. */
  ghost predicate OnlyLost(before: map<Name, SnapDir>, after: map<Name, SnapDir>) {
    forall n :: n in after ==> LostLittle(before, after, n)
  }

  ghost predicate LostLittle(before: map<Name, SnapDir>, after: map<Name, SnapDir>, n: Name)
    requires n in after
  {
    n in before && (after[n].files.Some? ==> after[n].files == before[n].files) && (after[n].complete ==> before[n].complete)
  }

  // ---- What each operation does ------------------------------------------------

  /** store_checkpoint_snapshot goes through: the name is new, there are files, and
      every file that has to be copied still has the content that was hashed. */
  ghost predicate Storable(sha: Sha, r: Repo, id: Name, sources: map<Path, Source>) {
    id !in r.dirs && id + PARTIAL !in r.dirs && sources != map[] && CopiesOk(sha, r.objects, sources)
  }

  /** What a store that fails leaves: nothing if a directory was in the way, and
      otherwise what the clean-up of the partial directory, whose error is ignored, leaves. */
  function DirsAfterFailure(dirs: map<Name, SnapDir>, id: Name, cleanup: Fate): map<Name, SnapDir> {
    if id in dirs || id + PARTIAL in dirs then dirs
    else DirsAfterRemoval(dirs[id + PARTIAL := EMPTY_DIR], id + PARTIAL, cleanup)
  }

  /** A failed store never touches a directory other than its own partial one. */
  lemma {:induction false} FailureKeepsDirs(dirs: map<Name, SnapDir>, id: Name, cleanup: Fate)
    ensures DirsAfterFailure(dirs, id, cleanup) - {id + PARTIAL} == dirs - {id + PARTIAL}
    ensures Finishes(cleanup) ==> DirsAfterFailure(dirs, id, cleanup) == dirs
  {
  }

  ghost predicate StoreEffect(sha: Sha, before: Repo, after: Repo, id: Name, sources: map<Path, Source>, retention: nat, fates: Name -> Fate,
                              stuck: Digest -> bool, stored: Option<seq<FileEntry>>)
  {
    && (stored.Some? <==> Storable(sha, before, id, sources))
    && (stored.None? ==> after.dirs == DirsAfterFailure(before.dirs, id, fates(id + PARTIAL)) && after.latest == before.latest)
    && (stored.Some? ==>
      && after.latest == Some(id) && IsInventory(sha, stored.value, sources)
      && StoredEffect(sha, before, after, id, retention, fates, stored.value)
      && Swept(Published(before, id, stored.value), after, retention, stuck))
    && ObjectsAccounted(sha, before, after)
  }

  ghost predicate StoredEffect(sha: Sha, before: Repo, after: Repo, id: Name, retention: nat, fates: Name -> Fate, entries: seq<FileEntry>) {
    && (Intact(after, id) ==> after.dirs[id].files == Some(entries))
    // Retention can remove the snapshot just stored, leaving latest.json dangling:
    // exactly when `retention` greater names are listed.
    && (!Pruned(ListedNames(before), id, retention) ==> Intact(after, id))
    && (Pruned(ListedNames(before), id, retention) && Finishes(fates(id)) ==> !Listed(after, id))
    // A new snapshot that is kept is fully backed, unless it reuses a corrupt object.
    && (Intact(after, id) ==> (Backed(sha, after, id) <==> ReusesOnlyGood(sha, before, entries)))
    // The other snapshots: retention only.
    && Retained(Published(before, id, entries), after.dirs, retention, fates)
    && OnlyLost(Published(before, id, entries).dirs, after.dirs)
  }

  /** When retention applied, what is left is mentioned by a listed snapshot or could not
      be removed; otherwise nothing went. */
  ghost predicate Swept(published: Repo, after: Repo, retention: nat, stuck: Digest -> bool) {
    if 0 < retention < |ListedNames(published)| then forall d :: d in after.objects ==> Referenced(after, d) || stuck(d)
    else forall d :: d in published.objects ==> d in after.objects && after.objects[d] == published.objects[d]
  }

  lemma {:induction false} CollectionSweeps(before: Repo, published: Repo, after: Repo, retention: nat, stuck: Digest -> bool)
    requires published.dirs == before.dirs && forall d :: d in before.objects ==> d in published.objects && published.objects[d] == before.objects[d]
    requires after.objects == if 0 < retention < |ListedNames(published)| then Collected(Repo(published.objects, after.dirs, after.latest), stuck) else published.objects
    ensures Swept(before, after, retention, stuck)
  {
    assert ListedNames(before) == ListedNames(published);
    forall d | d in after.objects && 0 < retention < |ListedNames(published)|
      ensures Referenced(after, d) || stuck(d)
    {
      SameDirsSameReferences(Repo(published.objects, after.dirs, after.latest), after, d);
    }
  }

  function Published(r: Repo, id: Name, entries: seq<FileEntry>): Repo {
    r.(dirs := r.dirs[id := SnapDir(Some(entries), true)], latest := Some(id))
  }

  lemma {:induction false} StoredAndRetained(sha: Sha, before: Repo, published: Repo, after: Repo, id: Name, retention: nat, fates: Name -> Fate,
                                             stuck: Digest -> bool, entries: seq<FileEntry>)
    requires !IsPartial(id) && published == Published(before, id, entries).(objects := published.objects)
    requires Grew(sha, before.objects, published.objects)
    requires forall i :: 0 <= i < |entries| ==> entries[i].digest in published.objects
    requires Retained(published, after.dirs, retention, fates) && OnlyLost(published.dirs, after.dirs)
    requires after.objects == if 0 < retention < |ListedNames(published)| then Collected(Repo(published.objects, after.dirs, after.latest), stuck) else published.objects
    ensures StoredEffect(sha, before, after, id, retention, fates, entries) && ObjectsAccounted(sha, before, after)
    ensures Swept(Published(before, id, entries), after, retention, stuck)
  {
    CollectionSweeps(Published(before, id, entries), published, after, retention, stuck);
    StoredNames(before, published, id);
    AboveIgnoresSelf(ListedNames(before), id);
    assert RetainedAt(published, after.dirs, retention, fates, id);
    assert id in after.dirs ==> LostLittle(published.dirs, after.dirs, id);
    StoredIsBackedExactly(sha, before, published, id, entries);
    CollectionAccounts(sha, before, published.objects, after, stuck);
    if Intact(after, id) { CollectionKeepsBacked(sha, published, after, id, stuck); }
    SameRetention(published, Published(before, id, entries), after.dirs, retention, fates);
  }

  /** Retention looks at the directories alone. */
  lemma {:induction false} SameRetention(r: Repo, t: Repo, after: map<Name, SnapDir>, retention: nat, fates: Name -> Fate)
    requires r.dirs == t.dirs && Retained(r, after, retention, fates)
    ensures Retained(t, after, retention, fates)
  {
    assert ListedNames(r) == ListedNames(t);
    forall n | n in t.dirs
      ensures RetainedAt(t, after, retention, fates, n)
    {
      assert RetainedAt(r, after, retention, fates, n);
    }
  }

  /** Objects that went are referenced by nobody, objects that came carry their hash. */
  ghost predicate ObjectsAccounted(sha: Sha, before: Repo, after: Repo) {
    && (forall d :: d in before.objects ==> (d in after.objects && after.objects[d] == before.objects[d]) || !Referenced(after, d))
    && (forall d :: d in after.objects ==> (d in before.objects && after.objects[d] == before.objects[d]) || sha(after.objects[d]) == d)
  }

  lemma {:induction false} CollectionAccounts(sha: Sha, before: Repo, grown: map<Digest, Bytes>, after: Repo, stuck: Digest -> bool)
    requires Grew(sha, before.objects, grown)
    requires after.objects == grown || after.objects == Collected(Repo(grown, after.dirs, after.latest), stuck)
    ensures ObjectsAccounted(sha, before, after)
  {
    forall d
      ensures Referenced(Repo(grown, after.dirs, after.latest), d) <==> Referenced(after, d)
    {
      SameDirsSameReferences(Repo(grown, after.dirs, after.latest), after, d);
    }
  }

  /** The objects only the snapshot uses. */
  function Garbage(r: Repo, id: Name): set<Digest>
    requires id in r.dirs
  {
    DigestsOf(r.dirs[id].files) - ReferencedBy(r, Some(id))
  }

  /** Exactly the objects that the snapshot mentioned and no listed one mentions are gone. */
  ghost predicate Reclaimed(before: Repo, after: Repo, id: Name)
    requires id in before.dirs
  {
    && OnlyDropped(before.objects, after.objects)
    && forall d :: d in before.objects ==> ReclaimedAt(before, after, id, d)
  }

  ghost predicate ReclaimedAt(before: Repo, after: Repo, id: Name, d: Digest)
    requires id in before.dirs
  {
    d !in after.objects <==> before.dirs[id].files.Some? && Mentions(before.dirs[id].files.value, d) && !Referenced(after, d)
  }

  ghost predicate OnlyDropped(before: map<Digest, Bytes>, after: map<Digest, Bytes>) {
    forall d :: d in after ==> d in before && after[d] == before[d]
  }

  lemma {:induction false} GarbageIsReclaimed(before: Repo, after: Repo, id: Name)
    requires id in before.dirs && after.dirs == before.dirs - {id} && after.objects == before.objects - Garbage(before, id)
    ensures Reclaimed(before, after, id)
  {
    forall d | d in before.objects
      ensures ReclaimedAt(before, after, id, d)
    {
      StillReferenced(before, after, id, d);
    }
  }

  lemma {:induction false} StillReferenced(r: Repo, now: Repo, id: Name, d: Digest)
    requires now.dirs == r.dirs - {id}
    ensures d in ReferencedBy(r, Some(id)) <==> Referenced(now, d)
  {
    if d in ReferencedBy(r, Some(id)) {
      var n :| n in r.dirs && Listed(r, n) && n != id && d in DigestsOf(r.dirs[n].files);
      assert Intact(now, n) && Mentions(now.dirs[n].files.value, d);
    } else {
      RemovedUnreferenced(r, now, id, d);
    }
  }

  ghost predicate IsStuck(objects: map<Digest, Bytes>, stuck: Digest -> bool, d: Digest) {
    d in objects && stuck(d)
  }

  /** The objects removed before the first one, in order, whose removal fails. */
  ghost function Reached(ds: set<Digest>, objects: map<Digest, Bytes>, stuck: Digest -> bool): set<Digest> {
    set d | d in ds && forall e :: e in ds && IsStuck(objects, stuck, e) ==> Less(d, e)
  }

  lemma {:induction false} ReachedAll(ds: set<Digest>, objects: map<Digest, Bytes>, stuck: Digest -> bool)
    requires forall d :: d in ds && d in objects ==> !stuck(d)
    ensures Reached(ds, objects, stuck) == ds
  {
  }

  lemma {:induction false} WithoutKeeps(objects: map<Digest, Bytes>, os: seq<Digest>, i: nat)
    requires i < |os| && Ascending(os)
    ensures os[i] in Without(objects, os[..i]) <==> os[i] in objects
  {
    WithoutIs(objects, os[..i]);
    forall k | 0 <= k < i
      ensures os[k] != os[i]
    {
      assert Precedes(os, k, i);
      LessTotal(os[i], os[i]);
    }
  }

  lemma {:induction false} WithoutIs(objects: map<Digest, Bytes>, os: seq<Digest>)
    ensures Without(objects, os) == objects - (set k | 0 <= k < |os| :: os[k])
    decreases |os|
  {
    if os != [] {
      var front := os[..|os| - 1];
      WithoutIs(objects, front);
      assert (set k | 0 <= k < |os| :: os[k]) == (set k | 0 <= k < |front| :: front[k]) + {os[|os| - 1]};
    }
  }

  lemma {:induction false} ReachedFront(objects: map<Digest, Bytes>, os: seq<Digest>, ds: set<Digest>, stuck: Digest -> bool, i: nat)
    requires Lists(os, ds) && Ascending(os) && i <= |os| && (i < |os| ==> IsStuck(objects, stuck, os[i]))
    requires forall k :: 0 <= k < i ==> !(os[k] in objects && stuck(os[k]))
    ensures Without(objects, os[..i]) == objects - Reached(ds, objects, stuck)
  {
    var front := os[..i];
    WithoutIs(objects, front);
    forall d
      ensures d in Reached(ds, objects, stuck) <==> d in front
    {
      ReachedIsFront(objects, os, ds, stuck, i, d);
    }
    assert (set k | 0 <= k < |front| :: front[k]) == Reached(ds, objects, stuck);
  }

  lemma {:induction false} ReachedIsFront(objects: map<Digest, Bytes>, os: seq<Digest>, ds: set<Digest>, stuck: Digest -> bool, i: nat, d: Digest)
    requires Lists(os, ds) && Ascending(os) && i <= |os| && (i < |os| ==> IsStuck(objects, stuck, os[i]))
    requires forall k :: 0 <= k < i ==> !(os[k] in objects && stuck(os[k]))
    ensures d in Reached(ds, objects, stuck) <==> d in os[..i]
  {
    if d in os[..i] {
      var k :| 0 <= k < i && os[k] == d;
      assert d in ds;
      forall e | e in ds && IsStuck(objects, stuck, e)
        ensures Less(d, e)
      {
        var m :| 0 <= m < |os| && os[m] == e;
        assert i <= m;
        assert Precedes(os, k, m);
      }
    } else if d in Reached(ds, objects, stuck) {
      assert d in os;
      var k :| 0 <= k < |os| && os[k] == d;
      assert i <= k;
      assert os[i] in ds;
      assert Less(d, os[i]);
      assert i < k ==> Precedes(os, i, k);
      LessTotal(d, os[i]);
      LessTotal(d, d);
    }
  }

  ghost predicate DeleteEffect(before: Repo, after: Repo, id: Name, dryRun: bool, fate: Fate, stuck: Digest -> bool, latestStuck: bool,
                               outcome: DeleteOutcome)
  {
    && outcome == DeleteOutcomeOf(before, id, dryRun, fate, stuck, latestStuck)
    && (outcome.DryRun? || outcome.NotFound? || outcome.NotComplete? ==> after == before)
    && (outcome.RemovalFailed? ==> after == before.(dirs := DirsAfterRemoval(before.dirs, id, fate)))
    && (outcome.Deleted? || outcome.ObjectFailed? || outcome.LatestFailed? ==>
      && after.dirs == before.dirs - {id}
      && after.objects == before.objects - Reached(Garbage(before, id), before.objects, stuck))
    && (outcome.ObjectFailed? || outcome.LatestFailed? ==> after.latest == before.latest)
    && (outcome.Deleted? ==>
      && after.objects == before.objects - Garbage(before, id) && Reclaimed(before, after, id)
      && (before.latest != Some(id) ==> after.latest == before.latest)
      && (before.latest == Some(id) ==> IsNewest(ListedNames(after), after.latest))
      && (LatestOk(before) ==> LatestOk(after)))
  }

  lemma {:induction false} GarbageUnreferenced(r: Repo, now: Repo, id: Name)
    requires id in r.dirs && now.dirs == r.dirs - {id}
    ensures forall d :: d in Garbage(r, id) ==> !Referenced(now, d)
  {
    forall d | d in Garbage(r, id)
      ensures !Referenced(now, d)
    {
      RemovedUnreferenced(r, now, id, d);
    }
  }

  lemma {:induction false} DeletedIs(before: Repo, after: Repo, id: Name, dryRun: bool, fate: Fate, stuck: Digest -> bool, latestStuck: bool, newLatest: Option<Name>)
    requires id in before.dirs && DeleteOutcomeOf(before, id, dryRun, fate, stuck, latestStuck).Deleted?
    requires after.dirs == before.dirs - {id} && after.objects == before.objects - Reached(Garbage(before, id), before.objects, stuck)
    requires after.latest == if before.latest == Some(id) then newLatest else before.latest
    requires before.latest == Some(id) ==> IsNewest(ListedNames(before) - {id}, newLatest)
    ensures DeleteEffect(before, after, id, dryRun, fate, stuck, latestStuck, DeleteOutcome.Deleted)
  {
    NamesAfterRemoval(before, after, id);
    forall d | d in Garbage(before, id) && d in before.objects
      ensures !stuck(d)
    {
      assert !IsStuck(before.objects, stuck, d);
    }
    ReachedAll(Garbage(before, id), before.objects, stuck);
    GarbageIsReclaimed(before, after, id);
  }

  ghost function DeleteOutcomeOf(before: Repo, id: Name, dryRun: bool, fate: Fate, stuck: Digest -> bool, latestStuck: bool): (outcome: DeleteOutcome)
    ensures outcome.Deleted? || outcome.ObjectFailed? || outcome.LatestFailed? ==> id in before.dirs
  {
    if id !in before.dirs then NotFound
    else if !before.dirs[id].complete then NotComplete
    else if dryRun then DryRun
    else if !Finishes(fate) then RemovalFailed
    else if exists d :: d in Garbage(before, id) && IsStuck(before.objects, stuck, d) then ObjectFailed
    else if before.latest == Some(id) && latestStuck then LatestFailed
    else Deleted
  }

  ghost predicate CacheEffect(before: Repo, after: Repo, name: Name, files: seq<FileEntry>, ok: bool) {
    && (ok <==> if name in before.dirs then before.dirs[name].complete else name + PARTIAL !in before.dirs)
    && after == if ok && name !in before.dirs then before.(dirs := before.dirs[name := SnapDir(Some(files), true)]) else before
  }

  ghost predicate FetchEffect(sha: Sha, before: Repo, after: Repo, files: seq<FileEntry>, download: Digest -> Option<Bytes>, ok: bool) {
    && Grew(sha, before.objects, after.objects) && after.dirs == before.dirs && after.latest == before.latest
    && (ok ==> forall i :: 0 <= i < |files| ==> files[i].digest in after.objects)
    && (ok <==> forall i :: 0 <= i < |files| ==> Obtained(before.objects, files, DownloadHolds(sha, files, download), i))
  }

  /** The digests of the first n entries. */
  ghost function Seen(entries: seq<FileEntry>, n: nat): set<Digest>
    requires n <= |entries|
  {
    if n == 0 then {} else Seen(entries, n - 1) + {entries[n - 1].digest}
  }

  lemma {:induction false} SeenMembers(entries: seq<FileEntry>, n: nat)
    requires n <= |entries|
    ensures forall k :: 0 <= k < n ==> entries[k].digest in Seen(entries, n)
    ensures forall d :: d in Seen(entries, n) ==> exists k :: 0 <= k < n && entries[k].digest == d
    decreases n
  {
    if n > 0 {
      SeenMembers(entries, n - 1);
      assert entries[n - 1].digest in Seen(entries, n);
    }
  }

  lemma {:induction false} SeenIsNotFirst(entries: seq<FileEntry>, i: nat)
    requires i < |entries|
    ensures entries[i].digest in Seen(entries, i) <==> !FirstEntry(entries, i)
  {
    SeenMembers(entries, i);
  }

  /** The copy of entry i still hashes to its digest. */
  ghost function CopyHolds(sha: Sha, entries: seq<FileEntry>, sources: map<Path, Source>): nat -> bool {
    (i: nat) => i < |entries| && entries[i].path in sources && sha(sources[entries[i].path].copied) == entries[i].digest
  }

  /** Entry i downloads correctly. */
  ghost function DownloadHolds(sha: Sha, files: seq<FileEntry>, download: Digest -> Option<Bytes>): nat -> bool {
    (i: nat) => i < |files| && GoodDownload(sha, files[i], download)
  }

  /** If entry i is the first with its digest and the object is new, it can be obtained. */
  ghost predicate Obtained(objects: map<Digest, Bytes>, entries: seq<FileEntry>, good: nat -> bool, i: nat)
    requires i < |entries|
  {
    entries[i].digest !in objects && FirstEntry(entries, i) ==> good(i)
  }

  /** After the first n entries: exactly their objects were added, all obtainable. */
  ghost predicate Progress(sha: Sha, before: map<Digest, Bytes>, now: map<Digest, Bytes>, entries: seq<FileEntry>, good: nat -> bool, n: nat)
    requires n <= |entries|
  {
    && Grew(sha, before, now) && now.Keys == before.Keys + Seen(entries, n)
    && forall k :: 0 <= k < n ==> Obtained(before, entries, good, k)
  }

  lemma {:induction false} ProgressStep(sha: Sha, before: map<Digest, Bytes>, now: map<Digest, Bytes>, entries: seq<FileEntry>, good: nat -> bool, i: nat)
    requires i < |entries| && Progress(sha, before, now, entries, good, i)
    ensures entries[i].digest in now ==> Progress(sha, before, now, entries, good, i + 1)
    ensures entries[i].digest !in now ==> entries[i].digest !in Seen(entries, i) && (Obtained(before, entries, good, i) <==> good(i))
    ensures entries[i].digest !in now && good(i) ==>
      forall c :: sha(c) == entries[i].digest ==> Progress(sha, before, now[entries[i].digest := c], entries, good, i + 1)
  {
    var d := entries[i].digest;
    SeenIsNotFirst(entries, i);
    if d in now {
      assert now.Keys == before.Keys + Seen(entries, i + 1);
    } else if good(i) {
      forall c | sha(c) == d
        ensures Progress(sha, before, now[d := c], entries, good, i + 1)
      {
        assert now[d := c].Keys == before.Keys + Seen(entries, i + 1);
      }
    }
  }

  lemma {:induction false} ProgressDone(sha: Sha, before: map<Digest, Bytes>, now: map<Digest, Bytes>, entries: seq<FileEntry>, good: nat -> bool)
    requires Progress(sha, before, now, entries, good, |entries|)
    ensures forall i :: 0 <= i < |entries| ==> entries[i].digest in now
  {
    SeenMembers(entries, |entries|);
  }

  lemma {:induction false} EntriesCopyIsCopiesOk(sha: Sha, objects: map<Digest, Bytes>, entries: seq<FileEntry>, sources: map<Path, Source>)
    requires IsInventory(sha, entries, sources)
    ensures (forall i :: 0 <= i < |entries| ==> Obtained(objects, entries, CopyHolds(sha, entries, sources), i)) <==> CopiesOk(sha, objects, sources)
  {
    var good := CopyHolds(sha, entries, sources);
    forall i | 0 <= i < |entries|
      ensures entries[i].path in sources && (Obtained(objects, entries, good, i) <==> CopyOk(sha, objects, sources, entries[i].path))
    {
      assert EntryOf(sha, entries[i], sources);
      FirstEntryIsFirstPath(sha, entries, sources, i);
    }
    if forall i :: 0 <= i < |entries| ==> Obtained(objects, entries, good, i) {
      forall p | p in sources
        ensures CopyOk(sha, objects, sources, p)
      {
        assert ListsPath(entries, p);
        var i :| 0 <= i < |entries| && entries[i].path == p;
        assert Obtained(objects, entries, good, i);
      }
    }
  }

  lemma {:induction false} EmptyInventory(sha: Sha, entries: seq<FileEntry>, sources: map<Path, Source>)
    requires IsInventory(sha, entries, sources)
    ensures entries == [] <==> sources == map[]
  {
    assert sources.Keys == {} <==> sources == map[];
  }

  lemma {:induction false} UnreferencedStays(r: Repo, now: Repo, d: Digest)
    requires now.dirs == r.dirs && d !in ReferencedBy(r, None)
    ensures !Referenced(now, d)
  {
    ReferencedByAll(r, d);
    assert forall n :: Intact(now, n) <==> Intact(r, n);
  }

  lemma {:induction false} CollectedIs(r: Repo, garbage: set<Digest>, stuck: Digest -> bool)
    requires garbage == set d | d in r.objects && d !in ReferencedBy(r, None) && !stuck(d)
    ensures r.objects - garbage == Collected(r, stuck)
  {
    forall d
      ensures d in ReferencedBy(r, None) <==> Referenced(r, d)
    {
      ReferencedByAll(r, d);
    }
  }

  lemma {:induction false} FrontRetained(before: Repo, after: map<Name, SnapDir>, front: seq<Name>, retention: nat, fates: Name -> Fate)
    requires forall n :: n in front <==> n in ListedNames(before) && Pruned(ListedNames(before), n, retention)
    requires forall n :: n in before.dirs && n !in front ==> n in after && after[n] == before.dirs[n]
    requires forall n :: n in front && Finishes(fates(n)) ==> n !in after
    ensures Retained(before, after, retention, fates)
  {
    forall n | n in before.dirs
      ensures RetainedAt(before, after, retention, fates, n)
    {
      assert n in ListedNames(before) <==> Listed(before, n);
    }
  }

  lemma {:induction false} NonePruned(ks: seq<Name>, S: set<Name>, retention: nat)
    requires Lists(ks, S) && Ascending(ks) && |ks| <= retention && retention > 0
    ensures forall n :: n in S ==> !Pruned(S, n, retention)
  {
    forall n | n in S
      ensures !Pruned(S, n, retention)
    {
      assert n in ks;
      var i :| 0 <= i < |ks| && ks[i] == n;
      PrunedIsFront(ks, S, retention, i);
    }
  }

  lemma {:induction false} FrontIsPruned(ks: seq<Name>, S: set<Name>, retention: nat)
    requires Lists(ks, S) && Ascending(ks) && 0 < retention < |ks|
    ensures forall n :: n in ks[..|ks| - retention] <==> n in S && Pruned(S, n, retention)
  {
    var front := ks[..|ks| - retention];
    forall n
      ensures n in front <==> n in S && Pruned(S, n, retention)
    {
      if n in S {
        var i :| 0 <= i < |ks| && ks[i] == n;
        PrunedIsFront(ks, S, retention, i);
        if i < |front| { assert front[i] == n; }
      }
    }
  }

  // ---- Whole runs ------------------------------------------------------------

  datatype Operation =
    | Storing(id: Name, sources: map<Path, Source>, retention: nat, fates: Name -> Fate, stuck: Digest -> bool)
    | Deleting(id: Name, dryRun: bool, fate: Fate, stuck: Digest -> bool, latestStuck: bool)
    | Caching(id: Name, files: seq<FileEntry>)
    | Fetching(files: seq<FileEntry>, download: Digest -> Option<Bytes>)

  /** What one operation of a run does.  An id that names a partial directory is refused. */
  ghost predicate Performs(sha: Sha, op: Operation, before: Repo, after: Repo) {
    match op
    case Storing(id, sources, retention, fates, stuck) =>
      if IsPartial(id) then after == before
      else exists stored :: StoreEffect(sha, before, after, id, sources, retention, fates, stuck, stored)
    case Deleting(id, dryRun, fate, stuck, latestStuck) =>
      if IsPartial(id) then after == before
      else exists outcome :: DeleteEffect(before, after, id, dryRun, fate, stuck, latestStuck, outcome)
    case Caching(id, files) =>
      if IsPartial(id) then after == before
      else exists ok :: CacheEffect(before, after, id, files, ok)
    case Fetching(files, download) => exists ok :: FetchEffect(sha, before, after, files, download, ok)
  }

  /** The history runs through the operations one after the other. */
  ghost predicate Executes(sha: Sha, ops: seq<Operation>, h: seq<Repo>)
    decreases |ops|, 1
  {
    if ops == [] then |h| == 1 else exists m :: ExecutesTo(sha, ops, h, m)
  }

  /** All but the last operation lead to state m - 1, and the last one on to the end. */
  ghost predicate ExecutesTo(sha: Sha, ops: seq<Operation>, h: seq<Repo>, m: nat)
    requires ops != []
    decreases |ops|, 0
  {
    && 0 < m <= |h| && Executes(sha, ops[..|ops| - 1], h[..m])
    && Performs(sha, ops[|ops| - 1], h[m - 1], h[|h| - 1])
  }

  lemma {:induction false} ExecutesMore(sha: Sha, ops: seq<Operation>, op: Operation, h: seq<Repo>, more: seq<Repo>, s: Repo, t: Repo)
    requires h != [] && Executes(sha, ops, h) && h <= more && s == h[|h| - 1] && t == more[|more| - 1]
    requires Performs(sha, op, s, t)
    ensures Executes(sha, ops + [op], more)
  {
    assert (ops + [op])[..|ops|] == ops && more[..|h|] == h;
    assert ExecutesTo(sha, ops + [op], more, |h|);
  }

  /** If n was fully backed at i and stayed listed up to j, it is fully backed at j, by
      the same files, exactly when its file list is still readable. */
  ghost predicate StayedBacked(sha: Sha, h: seq<Repo>, n: Name, i: nat, j: nat)
    requires i <= j < |h|
  {
    Backed(sha, h[i], n) && (forall k :: i <= k <= j ==> Listed(h[k], n)) ==>
      && (Backed(sha, h[j], n) <==> Intact(h[j], n))
      && (Intact(h[j], n) ==> h[j].dirs[n].files == h[i].dirs[n].files)
  }

  /** Any sequence of stores with retention, deletes, metadata caching and object
      fetches, successful or not. */
  method RunOperations(sha: Sha, start: Repo, ops: seq<Operation>) returns (end: Repo, ghost history: seq<Repo>)
    ensures history != [] && Executes(sha, ops, history) && history[0] == start && history[|history| - 1] == end
    // The history holds every state between two single changes.
    ensures SingleChanges(history)
    ensures forall n, i, j :: 0 <= i <= j < |history| ==> StayedBacked(sha, history, n, i, j)
    ensures AllNamed(sha, start) ==> forall j :: 0 <= j < |history| ==> AllNamed(sha, history[j])
  {
    var repo := new LocalRepository(sha, start);
    RunAll(repo, ops);
    end, history := repo.State(), repo.history;
    RunStaysBacked(sha, history);
    SafeRunIsSingle(sha, history);
  }

  lemma {:induction false} RunStaysBacked(sha: Sha, h: seq<Repo>)
    requires h != [] && SafeRun(sha, h)
    ensures forall n, i, j :: 0 <= i <= j < |h| ==> StayedBacked(sha, h, n, i, j)
    ensures AllNamed(sha, h[0]) ==> forall j :: 0 <= j < |h| ==> AllNamed(sha, h[j])
  {
    forall n, i, j | 0 <= i <= j < |h|
      ensures StayedBacked(sha, h, n, i, j)
    {
      if Backed(sha, h[i], n) && forall k :: i <= k <= j ==> Listed(h[k], n) {
        BackedStaysBacked(sha, h, n, i, j);
      }
    }
    if AllNamed(sha, h[0]) {
      forall j | 0 <= j < |h|
        ensures AllNamed(sha, h[j])
      {
        ObjectsStayNamed(sha, h, 0, j);
      }
    }
  }

  method RunAll(repo: LocalRepository, ops: seq<Operation>)
    requires repo.Valid() && |repo.history| == 1
    modifies repo
    ensures repo.Valid() && old(repo.history) <= repo.history
    ensures Executes(repo.sha, ops, repo.history)
  {
    if ops != [] {
      RunAll(repo, ops[..|ops| - 1]);
      RunLast(repo, ops[..|ops| - 1], ops[|ops| - 1]);
      assert ops == ops[..|ops| - 1] + [ops[|ops| - 1]];
    }
  }

  method RunLast(repo: LocalRepository, ghost ops: seq<Operation>, op: Operation)
    requires repo.Valid() && Executes(repo.sha, ops, repo.history)
    modifies repo
    ensures repo.Valid() && old(repo.history) <= repo.history && Executes(repo.sha, ops + [op], repo.history)
  {
    ghost var h, before := repo.history, repo.State();
    RunOne(repo, op);
    ExecutesMore(repo.sha, ops, op, h, repo.history, before, repo.State());
  }

  method RunOne(repo: LocalRepository, op: Operation)
    requires repo.Valid()
    modifies repo
    ensures repo.Valid() && old(repo.history) <= repo.history
    ensures Performs(repo.sha, op, old(repo.State()), repo.State())
  {
    match op
    case Storing(id, sources, retention, fates, stuck) =>
      if !IsPartial(id) { var stored := repo.Store(id, sources, retention, fates, stuck); }
    case Deleting(id, dryRun, fate, stuck, latestStuck) =>
      if !IsPartial(id) { var outcome := repo.Delete(id, dryRun, fate, stuck, latestStuck); }
    case Caching(id, files) =>
      if !IsPartial(id) { var ok := repo.CacheMetadata(id, files); }
    case Fetching(files, download) =>
      var ok := repo.FetchMissing(files, download);
  }
}
