/**
  The content-addressed snapshot repository on local disk.

  Objects are files named by the hash of their content.  A snapshot is a directory
  holding a file list (files.json) and a COMPLETE marker; a directory whose name
  ends in ".partial" is never listed.  SHA-256 is a function parameter.
 */
module SnapshotRepository {
  import opened Options
  import opened Bytes
  import opened Listing

  type Digest = Bytes
  type Name = Bytes
  type Path = Bytes
  type Sha = Bytes -> Digest

  datatype FileEntry = FileEntry(path: Path, digest: Digest, size: nat, runtime: bool)

  datatype SnapDir = SnapDir(files: Option<seq<FileEntry>>, complete: bool)

  datatype Repo = Repo(objects: map<Digest, Bytes>, dirs: map<Name, SnapDir>, latest: Option<Name>)

  /** ".partial" */
  const PARTIAL: Bytes := [46, 112, 97, 114, 116, 105, 97, 108]

  predicate IsPartial(n: Name) {
    |n| >= 8 && n[|n| - 8..] == PARTIAL
  }

  /** completed_snapshot_dirs lists the name. */
  predicate Listed(r: Repo, n: Name) {
    n in r.dirs && !IsPartial(n) && r.dirs[n].complete
  }

  /** Listed, and its file list is readable. */
  predicate Intact(r: Repo, n: Name) {
    Listed(r, n) && r.dirs[n].files.Some?
  }

  function ListedNames(r: Repo): set<Name> {
    set n | n in r.dirs && Listed(r, n)
  }

  /** The object is stored under its own hash. */
  predicate Has(sha: Sha, r: Repo, d: Digest) {
    d in r.objects && sha(r.objects[d]) == d
  }

  ghost predicate AllNamed(sha: Sha, r: Repo) {
    forall d :: d in r.objects ==> Has(sha, r, d)
  }

  ghost predicate HasAll(sha: Sha, r: Repo, files: seq<FileEntry>) {
    forall i :: 0 <= i < |files| ==> Has(sha, r, files[i].digest)
  }

  /** Fully backed: listed, with every object present and correct. */
  ghost predicate Backed(sha: Sha, r: Repo, n: Name) {
    Intact(r, n) && HasAll(sha, r, r.dirs[n].files.value)
  }

  predicate Mentions(files: seq<FileEntry>, d: Digest) {
    exists i :: 0 <= i < |files| && files[i].digest == d
  }

  ghost predicate Referenced(r: Repo, d: Digest) {
    exists n :: Intact(r, n) && Mentions(r.dirs[n].files.value, d)
  }

  // ---- Single file-system changes ----------------------------------------------

  /** One directory made, one file written into a directory or removed from it, one empty
      directory removed, or one directory renamed to a free name. */
  datatype DirChange =
    | DirMade(name: Name)
    | FilesSet(name: Name, files: Option<seq<FileEntry>>)
    | MarkerSet(name: Name, complete: bool)
    | DirUnlinked(name: Name)
    | DirMoved(from: Name, to: Name)

  const EMPTY_DIR: SnapDir := SnapDir(None, false)

  function ChangedDirs(dirs: map<Name, SnapDir>, c: DirChange): map<Name, SnapDir> {
    match c
    case DirMade(n) => if n in dirs then dirs else dirs[n := EMPTY_DIR]
    case FilesSet(n, files) => if n in dirs then dirs[n := dirs[n].(files := files)] else dirs
    case MarkerSet(n, complete) => if n in dirs then dirs[n := dirs[n].(complete := complete)] else dirs
    case DirUnlinked(n) => if n in dirs && dirs[n] == EMPTY_DIR then dirs - {n} else dirs
    case DirMoved(from, to) => if from in dirs && to !in dirs then (dirs - {from})[to := dirs[from]] else dirs
  }

  datatype Change =
    | ObjectPut(digest: Digest, content: Bytes)
    | ObjectDropped(digest: Digest)
    | InDirs(change: DirChange)
    | LatestSet(latest: Option<Name>)

  function Changed(r: Repo, c: Change): Repo {
    match c
    case ObjectPut(d, content) => r.(objects := r.objects[d := content])
    case ObjectDropped(d) => r.(objects := r.objects - {d})
    case InDirs(change) => r.(dirs := ChangedDirs(r.dirs, change))
    case LatestSet(l) => r.(latest := l)
  }

  /** At most one object, one file of one directory or latest.json differs. */
  ghost predicate OneChange(s: Repo, t: Repo) {
    exists c :: t == Changed(s, c)
  }

  // ---- Safe steps and safe runs ----------------------------------------------

  /** One change of the file system that cannot hurt a snapshot that stays listed:
      a correct object disappears only if no listed snapshot needs it, a new object
      carries its own hash, and a listed snapshot's file list is never replaced. */
  ghost predicate SafeStep(sha: Sha, s: Repo, t: Repo) {
    && (forall d :: Has(sha, s, d) && !(d in t.objects && t.objects[d] == s.objects[d]) ==> !Referenced(t, d))
    && (forall d :: d in t.objects && !(d in s.objects && t.objects[d] == s.objects[d]) ==> Has(sha, t, d))
    && (forall n :: Listed(s, n) && Intact(t, n) ==> s.dirs[n].files == t.dirs[n].files)
  }

  ghost predicate SafeRun(sha: Sha, h: seq<Repo>) {
    forall i :: 0 <= i < |h| - 1 ==> SafeAt(sha, h, i)
  }

  ghost predicate SafeAt(sha: Sha, h: seq<Repo>, i: nat)
    requires i < |h| - 1
  {
    OneChange(h[i], h[i + 1]) && SafeStep(sha, h[i], h[i + 1])
  }

  /** The history leaves out no state between two single changes. */
  ghost predicate SingleChanges(h: seq<Repo>) {
    forall i :: 0 <= i < |h| - 1 ==> OneChange(h[i], h[i + 1])
  }

  lemma {:induction false} SafeRunIsSingle(sha: Sha, h: seq<Repo>)
    requires SafeRun(sha, h)
    ensures SingleChanges(h)
  {
    forall i | 0 <= i < |h| - 1
      ensures OneChange(h[i], h[i + 1])
    {
      assert SafeAt(sha, h, i);
    }
  }

  /** One safe step: a backed snapshot whose file list is still readable stays backed. */
  lemma {:induction false} StepKeepsBacked(sha: Sha, s: Repo, t: Repo, n: Name)
    requires SafeStep(sha, s, t) && Backed(sha, s, n) && Intact(t, n)
    ensures Backed(sha, t, n) && t.dirs[n].files == s.dirs[n].files
  {
    var files := t.dirs[n].files.value;
    forall i | 0 <= i < |files|
      ensures Has(sha, t, files[i].digest)
    {
      assert Has(sha, s, files[i].digest);
      assert Mentions(files, files[i].digest);
    }
  }

  /** Garbage-collection safety over whole runs.  A snapshot that was fully backed at
      some point and has stayed listed is fully backed, by the same files, at every
      later point where its file list is still readable; once the list is gone it never
      comes back.  The points are those between single file-system changes. */
  lemma {:induction false} BackedStaysBacked(sha: Sha, h: seq<Repo>, n: Name, i: nat, j: nat)
    requires SafeRun(sha, h) && i <= j < |h| && Backed(sha, h[i], n)
    requires forall k :: i <= k <= j ==> Listed(h[k], n)
    ensures Backed(sha, h[j], n) <==> Intact(h[j], n)
    ensures Intact(h[j], n) ==> h[j].dirs[n].files == h[i].dirs[n].files
    decreases j
  {
    if i < j {
      BackedStaysBacked(sha, h, n, i, j - 1);
      assert SafeAt(sha, h, j - 1);
      assert Listed(h[j - 1], n);
      if Intact(h[j], n) { StepKeepsBacked(sha, h[j - 1], h[j], n); }
    }
  }

  /** Being listed is not enough.  A recursive removal that takes files.json before
      COMPLETE and then stops is a safe step after which the snapshot is still listed
      and no longer backed; its objects have become garbage. */
  lemma {:induction false} LosingTheListUnbacks(sha: Sha, s: Repo, n: Name)
    requires Backed(sha, s, n)
    ensures var t := Changed(s, InDirs(FilesSet(n, None)));
      SafeStep(sha, s, t) && Listed(t, n) && !Backed(sha, t, n)
  {
    DirIsSafe(sha, s, n, s.dirs[n].(files := None));
  }

  /** Once every stored object hashes to its own name, that holds at every later
      point of the run. */
  lemma {:induction false} ObjectsStayNamed(sha: Sha, h: seq<Repo>, i: nat, j: nat)
    requires SafeRun(sha, h) && i <= j < |h| && AllNamed(sha, h[i])
    ensures AllNamed(sha, h[j])
    decreases j
  {
    if i < j {
      ObjectsStayNamed(sha, h, i, j - 1);
      assert SafeAt(sha, h, j - 1);
      forall d | d in h[j].objects
        ensures Has(sha, h[j], d)
      {
        if d in h[j - 1].objects { assert Has(sha, h[j - 1], d); }
      }
    }
  }

  lemma {:induction false} PutIsSafe(sha: Sha, s: Repo, d: Digest, c: Bytes)
    requires d !in s.objects && sha(c) == d
    ensures SafeStep(sha, s, s.(objects := s.objects[d := c]))
  {
  }

  lemma {:induction false} DropIsSafe(sha: Sha, s: Repo, d: Digest)
    requires !Referenced(s, d) || !Has(sha, s, d)
    ensures SafeStep(sha, s, s.(objects := s.objects - {d}))
  {
    var t := s.(objects := s.objects - {d});
    assert forall n :: Intact(t, n) ==> Intact(s, n);
    assert Referenced(t, d) ==> Referenced(s, d);
  }

  lemma {:induction false} DirIsSafe(sha: Sha, s: Repo, n: Name, dir: SnapDir)
    requires Listed(s, n) && dir.complete && dir.files.Some? ==> dir.files == s.dirs[n].files
    ensures SafeStep(sha, s, s.(dirs := s.dirs[n := dir]))
  {
  }

  lemma {:induction false} RemoveDirIsSafe(sha: Sha, s: Repo, n: Name)
    ensures SafeStep(sha, s, s.(dirs := s.dirs - {n}))
  {
  }

  lemma {:induction false} RenameIsSafe(sha: Sha, s: Repo, from: Name, to: Name)
    requires from in s.dirs && to !in s.dirs
    ensures SafeStep(sha, s, s.(dirs := (s.dirs - {from})[to := s.dirs[from]]))
  {
  }

  lemma {:induction false} LatestIsSafe(sha: Sha, s: Repo, latest: Option<Name>)
    ensures SafeStep(sha, s, s.(latest := latest))
  {
  }

  lemma {:induction false} RunExtends(sha: Sha, h: seq<Repo>, t: Repo)
    requires h != [] && SafeRun(sha, h) && OneChange(h[|h| - 1], t) && SafeStep(sha, h[|h| - 1], t)
    ensures SafeRun(sha, h + [t])
  {
    forall i | 0 <= i < |h + [t]| - 1
      ensures SafeAt(sha, h + [t], i)
    {
      if i < |h| - 1 { assert SafeAt(sha, h, i); }
    }
  }

  /** Objects were only added, and every added one carries its own hash. */
  ghost predicate Grew(sha: Sha, before: map<Digest, Bytes>, after: map<Digest, Bytes>) {
    && (forall d :: d in before ==> d in after && after[d] == before[d])
    && (forall d :: d in after ==> d in before || sha(after[d]) == d)
  }

  lemma {:induction false} GrewAllNamed(sha: Sha, before: Repo, after: Repo)
    requires AllNamed(sha, before) && Grew(sha, before.objects, after.objects)
    ensures AllNamed(sha, after)
  {
    forall d | d in after.objects
      ensures Has(sha, after, d)
    {
      if d in before.objects { assert Has(sha, before, d); }
    }
  }

  // ---- Retention -------------------------------------------------------------

  /** Retention removes n: at least `retention` listed names are greater. */
  predicate Pruned(S: set<Name>, n: Name, retention: nat) {
    retention > 0 && |Above(S, n)| >= retention
  }

  lemma {:induction false} PrunedIsFront(ks: seq<Name>, S: set<Name>, retention: nat, i: nat)
    requires Lists(ks, S) && Ascending(ks) && i < |ks| && retention > 0
    ensures Pruned(S, ks[i], retention) <==> i < |ks| - retention
  {
    AfterIsAbove(ks, S, i);
  }

  // ---- Snapshot contents -----------------------------------------------------

  /** A source file as it was when hashed and as it was when copied. */
  datatype Source = Source(hashed: Bytes, copied: Bytes, runtime: bool)

  /** `entries` is the inventory of the source files: every path once, in path order. */
  ghost predicate IsInventory(sha: Sha, entries: seq<FileEntry>, sources: map<Path, Source>) {
    && |entries| == |sources.Keys|
    && (forall i, j :: 0 <= i < j < |entries| ==> Less(entries[i].path, entries[j].path))
    && (forall p :: p in sources ==> ListsPath(entries, p))
    && forall i :: 0 <= i < |entries| ==> EntryOf(sha, entries[i], sources)
  }

  ghost predicate EntryOf(sha: Sha, e: FileEntry, sources: map<Path, Source>) {
    && e.path in sources
    && e == FileEntry(e.path, sha(sources[e.path].hashed), |sources[e.path].hashed|, sources[e.path].runtime)
  }

  /** "config.yml" */
  const CONFIG: Path := [99, 111, 110, 102, 105, 103, 46, 121, 109, 108]

  /** The files stage_local_restore_snapshot leaves behind, or None when it throws.
      Only config.yml may be skipped, when its object is missing or corrupt. */
  function Staged(sha: Sha, objects: map<Digest, Bytes>, files: seq<FileEntry>, safe: Path -> bool): Option<map<Path, Bytes>> {
    if files == [] then Some(map[])
    else
      var e := files[|files| - 1];
      match Staged(sha, objects, files[..|files| - 1], safe)
      case None => None
      case Some(staged) =>
        if !safe(e.path) then None
        else if e.digest in objects && sha(objects[e.digest]) == e.digest then Some(staged[e.path := objects[e.digest]])
        else if e.path != CONFIG then None
        else if e.digest in objects then Some(staged - {e.path})
        else Some(staged)
  }

  /** The entry's object is there with the right hash. */
  predicate GoodEntry(sha: Sha, objects: map<Digest, Bytes>, e: FileEntry) {
    e.digest in objects && sha(objects[e.digest]) == e.digest
  }

  predicate EntryPasses(sha: Sha, objects: map<Digest, Bytes>, e: FileEntry, safe: Path -> bool) {
    safe(e.path) && (e.path == CONFIG || GoodEntry(sha, objects, e))
  }

  /** Exactly when staging succeeds, from any objects: every path is safe and only
      config.yml may lack a correct object. */
  lemma {:induction false} StagingSucceedsExactly(sha: Sha, objects: map<Digest, Bytes>, files: seq<FileEntry>, safe: Path -> bool)
    ensures Staged(sha, objects, files, safe).Some? <==> forall i :: 0 <= i < |files| ==> EntryPasses(sha, objects, files[i], safe)
    decreases |files|
  {
    if files != [] {
      var front, e := files[..|files| - 1], files[|files| - 1];
      StagingSucceedsExactly(sha, objects, front, safe);
      assert files == front + [e];
    }
  }

  /** Entry i is the last one for the path whose object is there. */
  ghost predicate Decides(objects: map<Digest, Bytes>, files: seq<FileEntry>, p: Path, i: nat)
    requires i < |files|
  {
    && files[i].path == p && files[i].digest in objects
    && forall m :: i < m < |files| && files[m].path == p ==> files[m].digest !in objects
  }

  ghost predicate Brings(sha: Sha, objects: map<Digest, Bytes>, files: seq<FileEntry>, p: Path, i: nat, content: Bytes)
    requires i < |files|
  {
    Decides(objects, files, p, i) && GoodEntry(sha, objects, files[i]) && content == objects[files[i].digest]
  }

  ghost predicate SomeBrings(sha: Sha, objects: map<Digest, Bytes>, files: seq<FileEntry>, p: Path, content: Bytes) {
    exists i :: 0 <= i < |files| && Brings(sha, objects, files, p, i, content)
  }

  /** What staging leaves, from any objects: a path has the content of the last entry for it
      whose object is there, and is missing when that object is corrupt or there is none. */
  lemma {:induction false} StagedContents(sha: Sha, objects: map<Digest, Bytes>, files: seq<FileEntry>, safe: Path -> bool, p: Path, content: Bytes)
    requires Staged(sha, objects, files, safe).Some?
    ensures var staged := Staged(sha, objects, files, safe).value;
      p in staged && staged[p] == content <==> SomeBrings(sha, objects, files, p, content)
    decreases |files|
  {
    if files != [] {
      var front, e := files[..|files| - 1], files[|files| - 1];
      assert files == front + [e];
      StagedContents(sha, objects, front, safe, p, content);
      BringsMore(sha, objects, front, e, p, content);
    }
  }

  lemma {:induction false} BringsMore(sha: Sha, objects: map<Digest, Bytes>, front: seq<FileEntry>, e: FileEntry, p: Path, content: Bytes)
    ensures SomeBrings(sha, objects, front + [e], p, content) <==>
      if e.path == p && e.digest in objects then GoodEntry(sha, objects, e) && content == objects[e.digest]
      else SomeBrings(sha, objects, front, p, content)
  {
    var files := front + [e];
    assert files[|front|] == e;
    assert Brings(sha, objects, files, p, |front|, content) <==>
      e.path == p && e.digest in objects && GoodEntry(sha, objects, e) && content == objects[e.digest];
    forall i | 0 <= i < |front|
      ensures Brings(sha, objects, files, p, i, content) <==>
        Brings(sha, objects, front, p, i, content) && !(e.path == p && e.digest in objects)
    {
      DecidesMore(objects, front, e, p, i);
    }
    if !(e.path == p && e.digest in objects) && SomeBrings(sha, objects, front, p, content) {
      var i :| 0 <= i < |front| && Brings(sha, objects, front, p, i, content);
      assert Brings(sha, objects, files, p, i, content);
    }
  }

  lemma {:induction false} DecidesMore(objects: map<Digest, Bytes>, front: seq<FileEntry>, e: FileEntry, p: Path, i: nat)
    requires i < |front|
    ensures Decides(objects, front + [e], p, i) <==> Decides(objects, front, p, i) && !(e.path == p && e.digest in objects)
  {
    var files := front + [e];
    assert files[|front|] == e && forall m :: 0 <= m < |front| ==> files[m] == front[m];
  }

  /** Staging a fully backed list of distinct safe paths restores every file. */
  lemma {:induction false} StagedHasAll(sha: Sha, r: Repo, files: seq<FileEntry>, safe: Path -> bool)
    requires HasAll(sha, r, files)
    requires forall i :: 0 <= i < |files| ==> safe(files[i].path)
    requires forall i, j :: 0 <= i < j < |files| ==> files[i].path != files[j].path
    ensures Staged(sha, r.objects, files, safe).Some?
    ensures HoldsEntries(Staged(sha, r.objects, files, safe).value, r, files)
    decreases |files|
  {
    if files != [] {
      var front, last := files[..|files| - 1], files[|files| - 1];
      StagedHasAll(sha, r, front, safe);
      assert Has(sha, r, last.digest);
      HoldsOneMore(Staged(sha, r.objects, front, safe).value, r, front, last);
      assert files == front + [last];
    }
  }

  lemma {:induction false} HoldsOneMore(staged: map<Path, Bytes>, r: Repo, front: seq<FileEntry>, e: FileEntry)
    requires HoldsEntries(staged, r, front) && e.digest in r.objects
    requires forall i :: 0 <= i < |front| ==> front[i].path != e.path
    ensures HoldsEntries(staged[e.path := r.objects[e.digest]], r, front + [e])
  {
    var files, more := front + [e], staged[e.path := r.objects[e.digest]];
    forall i | 0 <= i < |files|
      ensures HoldsEntry(more, r, files[i])
    {
      if i < |front| { assert HoldsEntry(staged, r, front[i]); }
    }
    forall p | p in more
      ensures ListsPath(files, p)
    {
      if p == e.path {
        assert files[|front|].path == p;
      } else {
        assert ListsPath(front, p);
        var i :| 0 <= i < |front| && front[i].path == p;
        assert files[i].path == p;
      }
    }
  }

  ghost predicate CollisionFree(sha: Sha) {
    forall a :: NoCollision(sha, a)
  }

  ghost predicate NoCollision(sha: Sha, a: Bytes) {
    forall b :: sha(b) == sha(a) ==> b == a
  }

  lemma {:induction false} InventoryPaths(sha: Sha, entries: seq<FileEntry>, sources: map<Path, Source>)
    requires IsInventory(sha, entries, sources)
    ensures forall i :: 0 <= i < |entries| ==> entries[i].path in sources
    ensures forall i, j :: 0 <= i < j < |entries| ==> entries[i].path != entries[j].path
  {
    forall i | 0 <= i < |entries|
      ensures entries[i].path in sources
    {
      assert EntryOf(sha, entries[i], sources);
    }
    forall i, j | 0 <= i < j < |entries|
      ensures entries[i].path != entries[j].path
    {
      LessTotal(entries[i].path, entries[j].path);
    }
  }

  lemma {:induction false} RestoredContent(sha: Sha, r: Repo, e: FileEntry, sources: map<Path, Source>)
    requires CollisionFree(sha) && EntryOf(sha, e, sources) && Has(sha, r, e.digest)
    ensures r.objects[e.digest] == sources[e.path].hashed
  {
    assert NoCollision(sha, sources[e.path].hashed);
  }

  /** `staged` holds, under every listed path, the object of its entry. */
  ghost predicate HoldsEntries(staged: map<Path, Bytes>, r: Repo, entries: seq<FileEntry>) {
    && (forall i :: 0 <= i < |entries| ==> HoldsEntry(staged, r, entries[i]))
    && (forall p :: p in staged ==> ListsPath(entries, p))
  }

  ghost predicate HoldsEntry(staged: map<Path, Bytes>, r: Repo, e: FileEntry) {
    e.digest in r.objects && e.path in staged && staged[e.path] == r.objects[e.digest]
  }

  ghost predicate ListsPath(entries: seq<FileEntry>, p: Path) {
    exists i :: 0 <= i < |entries| && entries[i].path == p
  }

  lemma {:induction false} RestoredAll(sha: Sha, r: Repo, entries: seq<FileEntry>, sources: map<Path, Source>, staged: map<Path, Bytes>)
    requires CollisionFree(sha) && HasAll(sha, r, entries) && HoldsEntries(staged, r, entries)
    requires forall i :: 0 <= i < |entries| ==> EntryOf(sha, entries[i], sources)
    requires forall p :: p in sources ==> ListsPath(entries, p)
    ensures staged == map p | p in sources :: sources[p].hashed
  {
    forall p | p in sources
      ensures p in staged && staged[p] == sources[p].hashed
    {
      assert ListsPath(entries, p);
      var i :| 0 <= i < |entries| && entries[i].path == p;
      assert HoldsEntry(staged, r, entries[i]);
      RestoredContent(sha, r, entries[i], sources);
    }
    forall p | p in staged
      ensures p in sources
    {
      assert ListsPath(entries, p);
      var i :| 0 <= i < |entries| && entries[i].path == p;
      assert EntryOf(sha, entries[i], sources);
    }
  }

  /** The inventory of some files, staged from any repository that backs it, gives
      back exactly those files, path by path. */
  lemma {:induction false} StagingRestores(sha: Sha, r: Repo, entries: seq<FileEntry>, sources: map<Path, Source>, safe: Path -> bool)
    requires CollisionFree(sha) && IsInventory(sha, entries, sources) && HasAll(sha, r, entries)
    requires forall p :: p in sources ==> safe(p)
    ensures Staged(sha, r.objects, entries, safe) == Some(map p | p in sources :: sources[p].hashed)
  {
    InventoryPaths(sha, entries, sources);
    StagedHasAll(sha, r, entries, safe);
    RestoredAll(sha, r, entries, sources, Staged(sha, r.objects, entries, safe).value);
  }

  /** What staging can leave of an inventory: nothing but listed files with the content
      that was hashed, and all of them except possibly config.yml. */
  ghost predicate RestoresAllButConfig(staged: map<Path, Bytes>, sources: map<Path, Source>) {
    && (forall p :: p in staged ==> p in sources && staged[p] == sources[p].hashed)
    && (forall p :: p in sources && p != CONFIG ==> p in staged)
  }

  /** Every staged file passed the hash check of an entry with its path. */
  ghost predicate CheckedFile(sha: Sha, staged: map<Path, Bytes>, files: seq<FileEntry>, p: Path)
    requires p in staged
  {
    exists i :: 0 <= i < |files| && files[i].path == p && sha(staged[p]) == files[i].digest
  }

  lemma {:induction false} StagedIsChecked(sha: Sha, objects: map<Digest, Bytes>, files: seq<FileEntry>, safe: Path -> bool)
    requires Staged(sha, objects, files, safe).Some?
    ensures var staged := Staged(sha, objects, files, safe).value;
      && (forall p :: p in staged ==> CheckedFile(sha, staged, files, p))
      && (forall i :: 0 <= i < |files| && files[i].path != CONFIG ==> files[i].path in staged)
    decreases |files|
  {
    if files != [] {
      var front, e := files[..|files| - 1], files[|files| - 1];
      StagedIsChecked(sha, objects, front, safe);
      var before, staged := Staged(sha, objects, front, safe).value, Staged(sha, objects, files, safe).value;
      forall p | p in staged
        ensures CheckedFile(sha, staged, files, p)
      {
        if p in before && staged[p] == before[p] {
          CheckedInFront(sha, before, staged, files, p);
        } else {
          assert files[|files| - 1].path == p;
        }
      }
      forall i | 0 <= i < |files| && files[i].path != CONFIG
        ensures files[i].path in staged
      {
        if i < |front| { assert front[i].path in before; }
      }
    }
  }

  lemma {:induction false} CheckedInFront(sha: Sha, before: map<Path, Bytes>, staged: map<Path, Bytes>, files: seq<FileEntry>, p: Path)
    requires files != [] && p in before && p in staged && staged[p] == before[p]
    requires CheckedFile(sha, before, files[..|files| - 1], p)
    ensures CheckedFile(sha, staged, files, p)
  {
    var front := files[..|files| - 1];
    var i :| 0 <= i < |front| && front[i].path == p && sha(before[p]) == front[i].digest;
    assert files[i] == front[i];
  }

  /** Staging verifies every hash, so whatever objects a repository holds, what it
      stages of an inventory is what was hashed. */
  lemma {:induction false} StagingIsHonest(sha: Sha, objects: map<Digest, Bytes>, entries: seq<FileEntry>, sources: map<Path, Source>, safe: Path -> bool)
    requires CollisionFree(sha) && IsInventory(sha, entries, sources) && Staged(sha, objects, entries, safe).Some?
    ensures RestoresAllButConfig(Staged(sha, objects, entries, safe).value, sources)
  {
    var staged := Staged(sha, objects, entries, safe).value;
    StagedIsChecked(sha, objects, entries, safe);
    forall p | p in staged
      ensures p in sources && staged[p] == sources[p].hashed
    {
      assert CheckedFile(sha, staged, entries, p);
      var i :| 0 <= i < |entries| && entries[i].path == p && sha(staged[p]) == entries[i].digest;
      assert EntryOf(sha, entries[i], sources);
      assert NoCollision(sha, sources[p].hashed);
    }
    forall p | p in sources && p != CONFIG
      ensures p in staged
    {
      assert ListsPath(entries, p);
      var i :| 0 <= i < |entries| && entries[i].path == p;
    }
  }

  // ---- What a store can copy --------------------------------------------------

  /** No smaller path has the same hash: this file is the one copied for its hash. */
  ghost predicate FirstPath(sha: Sha, sources: map<Path, Source>, p: Path)
    requires p in sources
  {
    forall q :: q in sources && Less(q, p) ==> sha(sources[q].hashed) != sha(sources[p].hashed)
  }

  ghost predicate CopyOk(sha: Sha, objects: map<Digest, Bytes>, sources: map<Path, Source>, p: Path)
    requires p in sources
  {
    sha(sources[p].hashed) !in objects && FirstPath(sha, sources, p) ==> sha(sources[p].copied) == sha(sources[p].hashed)
  }

  /** Every file that has to be copied still has the content that was hashed. */
  ghost predicate CopiesOk(sha: Sha, objects: map<Digest, Bytes>, sources: map<Path, Source>) {
    forall p :: p in sources ==> CopyOk(sha, objects, sources, p)
  }

  lemma {:induction false} UnchangedCopies(sha: Sha, objects: map<Digest, Bytes>, sources: map<Path, Source>)
    requires forall p :: p in sources ==> sources[p].copied == sources[p].hashed
    ensures CopiesOk(sha, objects, sources)
  {
    forall p | p in sources
      ensures CopyOk(sha, objects, sources, p)
    {
    }
  }

  ghost predicate FirstEntry(entries: seq<FileEntry>, i: nat)
    requires i < |entries|
  {
    forall k :: 0 <= k < i ==> entries[k].digest != entries[i].digest
  }

  /** The first entry with its hash is the entry of the least path with that hash. */
  lemma {:induction false} FirstEntryIsFirstPath(sha: Sha, entries: seq<FileEntry>, sources: map<Path, Source>, i: nat)
    requires IsInventory(sha, entries, sources) && i < |entries|
    ensures entries[i].path in sources && (FirstEntry(entries, i) <==> FirstPath(sha, sources, entries[i].path))
  {
    assert EntryOf(sha, entries[i], sources);
    if FirstEntry(entries, i) {
      forall q | q in sources && Less(q, entries[i].path)
        ensures sha(sources[q].hashed) != entries[i].digest
      {
        assert ListsPath(entries, q);
        var k :| 0 <= k < |entries| && entries[k].path == q;
        assert EntryOf(sha, entries[k], sources);
        LessTotal(q, entries[i].path);
      }
    } else {
      var k :| 0 <= k < i && entries[k].digest == entries[i].digest;
      assert EntryOf(sha, entries[k], sources) && Less(entries[k].path, entries[i].path);
    }
  }

  // ---- latest.json -----------------------------------------------------------

  /** latest.json is absent or names a listed snapshot. */
  predicate LatestOk(r: Repo) {
    r.latest.Some? ==> Listed(r, r.latest.value)
  }
}
