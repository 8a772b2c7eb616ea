/**
  A backup from one node to another: store and upload on the first, fetch and stage
  on the second.
 */
module BackupRoundTrip {
  import opened Options
  import opened Bytes
  import opened SnapshotRepository
  import opened LocalRepository
  import opened RemoteMirror

  /** Which snapshot a restore asks for: the one named, or the one latest.json names. */
  function Requested(r: Remote, requested: Option<Name>): Option<Name> {
    if requested.Some? then requested else LatestName(r.latest)
  }

  /** The remote metadata of a snapshot can be downloaded. */
  predicate Offered(r: Remote, n: Name) {
    !IsPartial(n) && Intact(Snapshots(r), n)
  }

  /** The file list a fetch works with: the cached one, or the remote one it caches. */
  function FilesToFetch(r: Remote, node: Repo, n: Name): Option<seq<FileEntry>>
    requires Offered(r, n)
  {
    if n in node.dirs then node.dirs[n].files else r.dirs[n].files
  }

  /** The connection, attempt by attempt: whether latest.json and the snapshot's metadata
      get through, and what arrives for an object, right or wrong, if anything. */
  datatype Link = Link(latest: nat -> bool, metadata: nat -> bool, content: nat -> Digest -> Option<Bytes>)

  /** The first attempt from t on, of the given number, that works. */
  function FirstWorking(works: nat -> bool, t: nat, attempts: nat): (r: Option<nat>)
    ensures r.Some? ==> t <= r.value < attempts && works(r.value) && forall k :: t <= k < r.value ==> !works(k)
    ensures r.None? ==> forall k :: t <= k < attempts ==> !works(k)
    decreases attempts - t
  {
    if t >= attempts then None else if works(t) then Some(t) else FirstWorking(works, t + 1, attempts)
  }

  /** There is always at least one attempt. */
  function Attempts(maxAttempts: nat): nat {
    if maxAttempts == 0 then 1 else maxAttempts
  }

  /** run_sftp_batch and the object download: run the whole batch again until it works. */
  method Retry(works: nat -> bool, maxAttempts: nat) returns (attempt: Option<nat>)
    ensures attempt == FirstWorking(works, 0, Attempts(maxAttempts))
    ensures attempt.None? ==> !works(0) && forall k :: 0 <= k < maxAttempts ==> !works(k)
    ensures attempt.Some? ==> attempt.value == 0 || attempt.value < maxAttempts
  {
    var t := 0;
    while t < Attempts(maxAttempts)
      invariant t <= Attempts(maxAttempts) && FirstWorking(works, 0, Attempts(maxAttempts)) == FirstWorking(works, t, Attempts(maxAttempts))
    {
      if works(t) {
        return Some(t);
      }
      t := t + 1;
    }
    return None;
  }

  /** Something arrives for every object that is missing. */
  predicate Delivers(objects: map<Digest, Bytes>, files: seq<FileEntry>, content: Digest -> Option<Bytes>) {
    forall i :: 0 <= i < |files| && files[i].digest !in objects ==> content(files[i].digest).Some?
  }

  /** The attempt whose objects are used. */
  function Delivery(link: Link, objects: map<Digest, Bytes>, files: seq<FileEntry>, maxAttempts: nat): Option<nat> {
    FirstWorking((t: nat) => Delivers(objects, files, link.content(t)), 0, Attempts(maxAttempts))
  }

  /** Everything a fetch needs: an offered snapshot, metadata that gets through and can be
      cached, space, and an attempt that delivers every missing object; the first such
      attempt must pass all checks. */
  ghost predicate Fetchable(sha: Sha, r: Remote, node: Repo, requested: Option<Name>, spaceOk: bool, link: Link, maxAttempts: nat) {
    && Requested(r, requested).Some?
    && (requested.None? ==> FirstWorking(link.latest, 0, Attempts(maxAttempts)).Some?)
    && var n := Requested(r, requested).value;
    && Offered(r, n) && FirstWorking(link.metadata, 0, Attempts(maxAttempts)).Some?
    && spaceOk && (if n in node.dirs then node.dirs[n].complete else n + PARTIAL !in node.dirs)
    && FilesToFetch(r, node, n).Some?
    && ObjectsArrive(sha, node.objects, FilesToFetch(r, node, n).value, link, maxAttempts)
  }

  ghost predicate ObjectsArrive(sha: Sha, objects: map<Digest, Bytes>, files: seq<FileEntry>, link: Link, maxAttempts: nat) {
    var t := Delivery(link, objects, files, maxAttempts);
    t.Some? && forall i :: 0 <= i < |files| ==> Obtained(objects, files, DownloadHolds(sha, files, link.content(t.value)), i)
  }

  /** The metadata of the requested snapshot into the local cache. */
  method FetchMetadata(mirror: RemoteMirror, node: LocalRepository, requested: Option<Name>, link: Link, maxAttempts: nat)
    returns (fetched: Option<Name>)
    requires node.Valid()
    modifies node
    ensures node.Valid() && old(node.history) <= node.history && node.objects == old(node.objects)
    ensures var name := Requested(mirror.State(), requested);
      fetched.Some? <==>
        && name.Some? && (requested.None? ==> FirstWorking(link.latest, 0, Attempts(maxAttempts)).Some?)
        && Offered(mirror.State(), name.value) && FirstWorking(link.metadata, 0, Attempts(maxAttempts)).Some?
        && (if name.value in old(node.dirs) then old(node.dirs)[name.value].complete else name.value + PARTIAL !in old(node.dirs))
    ensures fetched.Some? ==>
      && fetched == Requested(mirror.State(), requested) && Offered(mirror.State(), fetched.value)
      && fetched.value in node.dirs && node.dirs[fetched.value].complete
      && node.dirs[fetched.value].files == FilesToFetch(mirror.State(), old(node.State()), fetched.value)
  {
    var remote := mirror.State();
    if requested.None? {
      var arrived := Retry(link.latest, maxAttempts);
      if arrived.None? {
        return None;
      }
    }
    var name := Requested(remote, requested);
    var arrived := Retry(link.metadata, maxAttempts);
    if name.None? || !Offered(remote, name.value) || arrived.None? {
      return None;
    }
    var ok := node.CacheMetadata(name.value, remote.dirs[name.value].files.value);
    if !ok {
      return None;
    }
    if requested.None? {
      node.SetLatest(name);
    }
    return name;
  }

  /** The missing objects: an attempt that delivers them all, then the checks. */
  method FetchObjects(node: LocalRepository, files: seq<FileEntry>, link: Link, maxAttempts: nat) returns (ok: bool)
    requires node.Valid()
    modifies node
    ensures node.Valid() && old(node.history) <= node.history
    ensures Grew(node.sha, old(node.objects), node.objects) && node.dirs == old(node.dirs)
    ensures ok <==> ObjectsArrive(node.sha, old(node.objects), files, link, maxAttempts)
    ensures ok ==> forall i :: 0 <= i < |files| ==> files[i].digest in node.objects
  {
    var objects := node.objects;
    var attempt := Retry((t: nat) => Delivers(objects, files, link.content(t)), maxAttempts);
    if attempt.None? {
      return false;
    }
    ok := node.FetchMissing(files, link.content(attempt.value));
  }

  /** fetch_restore_snapshot: metadata into the local cache, then the missing objects,
      each checked against its hash before it is renamed into place. */
  method Fetch(mirror: RemoteMirror, node: LocalRepository, requested: Option<Name>, spaceOk: bool, link: Link, maxAttempts: nat)
    returns (fetched: Option<Name>)
    requires node.Valid()
    modifies node
    ensures node.Valid() && old(node.history) <= node.history
    ensures Grew(node.sha, old(node.objects), node.objects)
    ensures fetched.Some? <==> Fetchable(node.sha, mirror.State(), old(node.State()), requested, spaceOk, link, maxAttempts)
    ensures fetched.Some? ==> fetched == Requested(mirror.State(), requested) && Ready(node.State(), fetched.value)
    ensures fetched.Some? ==> if requested.Some? then fetched == requested else mirror.latest == Names(fetched.value)
    ensures fetched.Some? && fetched.value !in old(node.dirs) ==>
      fetched.value in mirror.dirs && node.dirs[fetched.value].files == mirror.dirs[fetched.value].files
  {
    fetched := FetchMetadata(mirror, node, requested, link, maxAttempts);
    if fetched.None? || !spaceOk || node.dirs[fetched.value].files.None? {
      return None;
    }
    var ok := FetchObjects(node, node.dirs[fetched.value].files.value, link, maxAttempts);
    if !ok {
      return None;
    }
  }

  /** The contents of the files at the moment they were hashed. */
  function Contents(sources: map<Path, Source>): map<Path, Bytes> {
    map p | p in sources :: sources[p].hashed
  }

  /** The mirror's latest snapshot is `n`, with the inventory of these files. */
  ghost predicate Announces(sha: Sha, r: Remote, n: Name, sources: map<Path, Source>) {
    Offered(r, n) && r.latest == Names(n) && IsInventory(sha, r.dirs[n].files.value, sources)
  }

  /** And every object of it is correct. */
  ghost predicate Mirrored(sha: Sha, r: Remote, n: Name, sources: map<Path, Source>) {
    Announces(sha, r, n, sources) && HasAll(sha, Snapshots(r), r.dirs[n].files.value)
  }

  lemma {:induction false} NamedReusesOnlyGood(sha: Sha, r: Repo, entries: seq<FileEntry>)
    requires AllNamed(sha, r)
    ensures ReusesOnlyGood(sha, r, entries)
  {
    forall i | 0 <= i < |entries|
      ensures GoodOrAbsent(sha, r, entries[i].digest)
    {
    }
  }

  /** Both sides hold no corrupt object that an upload could trip over. */
  ghost predicate Trusted(sha: Sha, local: Repo, r: Remote) {
    CollisionFree(sha) && AllNamed(sha, local) && Good(sha, r, true) && Prefixes(sha, Snapshots(r))
  }

  /** Store on the first node, then upload its latest snapshot. */
  method StoreAndUpload(first: LocalRepository, mirror: RemoteMirror, id: Name, sources: map<Path, Source>,
                        retention: nat, fates: Name -> Fate, stuck: Digest -> bool, maxAttempts: nat)
    returns (ok: bool)
    requires first.Valid() && mirror.Valid() && first.sha == mirror.sha && !IsPartial(id)
    modifies first, mirror
    ensures first.Valid() && mirror.Valid()
    ensures ok ==> Announces(first.sha, mirror.State(), id, sources)
    ensures ok && Trusted(first.sha, old(first.State()), old(mirror.State())) ==> Mirrored(first.sha, mirror.State(), id, sources)
    ensures (Storable(first.sha, old(first.State()), id, sources) && !Pruned(ListedNames(old(first.State())), id, retention)
        && mirror.Reliable() && id !in old(mirror.dirs)) ==>
        ok
  {
    var stored := StoreFirst(first, id, sources, retention, fates, stuck);
    if stored.None? {
      return false;
    }
    ghost var trusted := Trusted(first.sha, old(first.State()), mirror.State());
    ok := UploadStored(mirror, first.State(), id, sources, maxAttempts, trusted);
  }

  /** What a node can upload after a store: the snapshot is the latest, and it is the
      inventory of the files unless retention has taken it. */
  ghost predicate Stored(sha: Sha, local: Repo, id: Name, sources: map<Path, Source>) {
    local.latest == Some(id) && (Uploadable(local) ==> Intact(local, id) && IsInventory(sha, local.dirs[id].files.value, sources))
  }

  method StoreFirst(first: LocalRepository, id: Name, sources: map<Path, Source>, retention: nat, fates: Name -> Fate, stuck: Digest -> bool)
    returns (stored: Option<seq<FileEntry>>)
    requires first.Valid() && !IsPartial(id)
    modifies first
    ensures first.Valid()
    ensures stored.Some? <==> Storable(first.sha, old(first.State()), id, sources)
    ensures stored.Some? ==> Stored(first.sha, first.State(), id, sources)
    ensures stored.Some? && !Pruned(ListedNames(old(first.State())), id, retention) ==> Uploadable(first.State())
    ensures stored.Some? && AllNamed(first.sha, old(first.State())) ==> CorrectSource(first.sha, first.State())
  {
    stored := first.Store(id, sources, retention, fates, stuck);
    ghost var h := first.history;
    if AllNamed(first.sha, old(first.State())) { ObjectsStayNamed(first.sha, h, |old(first.history)| - 1, |h| - 1); }
    StoreGives(first.sha, old(first.State()), first.State(), id, sources, retention, fates, stuck, stored);
  }

  lemma {:induction false} StoreGives(sha: Sha, before: Repo, after: Repo, id: Name, sources: map<Path, Source>, retention: nat, fates: Name -> Fate,
                                      stuck: Digest -> bool, stored: Option<seq<FileEntry>>)
    requires StoreEffect(sha, before, after, id, sources, retention, fates, stuck, stored) && !IsPartial(id)
    ensures stored.Some? <==> Storable(sha, before, id, sources)
    ensures stored.Some? ==> Stored(sha, after, id, sources)
    ensures stored.Some? && !Pruned(ListedNames(before), id, retention) ==> Uploadable(after)
    ensures stored.Some? && AllNamed(sha, before) && AllNamed(sha, after) ==> CorrectSource(sha, after)
  {
    if AllNamed(sha, before) && stored.Some? { NamedReusesOnlyGood(sha, before, stored.value); }
  }

  method UploadStored(mirror: RemoteMirror, local: Repo, id: Name, ghost sources: map<Path, Source>, maxAttempts: nat, ghost trusted: bool)
    returns (ok: bool)
    requires mirror.Valid() && !IsPartial(id) && Stored(mirror.sha, local, id, sources)
    requires trusted ==> CollisionFree(mirror.sha) && CorrectSource(mirror.sha, local) && Good(mirror.sha, mirror.State(), true)
    requires trusted ==> Prefixes(mirror.sha, Snapshots(mirror.State()))
    modifies mirror
    ensures mirror.Valid()
    ensures ok ==> Announces(mirror.sha, mirror.State(), id, sources)
    ensures ok && trusted ==> Mirrored(mirror.sha, mirror.State(), id, sources)
    ensures Uploadable(local) && mirror.Reliable() && id !in old(mirror.dirs) ==> ok
  {
    if trusted && Uploadable(local) { CorrectObjectsAreSafe(mirror.sha, local, mirror.State()); }
    ok := mirror.Upload(local, maxAttempts);
    assert mirror.history[|mirror.history| - 1] == mirror.State();
    assert ok && trusted ==> Good(mirror.sha, mirror.State(), true);
    assert ok ==> Listed(Snapshots(mirror.State()), id);
  }

  /** Whatever arrives is what the mirror holds, and some attempt of each kind gets through. */
  ghost predicate Faithful(r: Remote, link: Link, maxAttempts: nat) {
    && FirstWorking(link.latest, 0, Attempts(maxAttempts)).Some? && FirstWorking(link.metadata, 0, Attempts(maxAttempts)).Some?
    && (forall t, d :: d in r.objects && link.content(t)(d).Some? ==> link.content(t)(d) == Some(r.objects[d]))
    && exists t :: 0 <= t < Attempts(maxAttempts) && DeliversAll(r.objects.Keys, link.content(t))
  }

  ghost predicate DeliversAll(ds: set<Digest>, content: Digest -> Option<Bytes>) {
    forall d :: d in ds ==> content(d).Some?
  }

  lemma {:induction false} MirroredArrives(sha: Sha, r: Remote, n: Name, sources: map<Path, Source>, objects: map<Digest, Bytes>, link: Link, maxAttempts: nat)
    requires CollisionFree(sha) && Mirrored(sha, r, n, sources) && Faithful(r, link, maxAttempts)
    ensures ObjectsArrive(sha, objects, r.dirs[n].files.value, link, maxAttempts)
  {
    var entries := r.dirs[n].files.value;
    var k :| 0 <= k < Attempts(maxAttempts) && DeliversAll(r.objects.Keys, link.content(k));
    forall i | 0 <= i < |entries|
      ensures entries[i].digest in r.objects
    {
      assert Has(sha, Snapshots(r), entries[i].digest);
    }
    var works := (t: nat) => Delivers(objects, entries, link.content(t));
    assert works(k);
    var t := Delivery(link, objects, entries, maxAttempts).value;
    assert works(t);
    forall i | 0 <= i < |entries|
      ensures Obtained(objects, entries, DownloadHolds(sha, entries, link.content(t)), i)
    {
      MirroredDownload(sha, r, n, sources, objects, link.content(t), i);
    }
  }

  lemma {:induction false} MirroredDownload(sha: Sha, r: Remote, n: Name, sources: map<Path, Source>, objects: map<Digest, Bytes>, content: Digest -> Option<Bytes>, i: nat)
    requires CollisionFree(sha) && Mirrored(sha, r, n, sources) && i < |r.dirs[n].files.value|
    requires Delivers(objects, r.dirs[n].files.value, content)
    requires forall d :: d in r.objects && content(d).Some? ==> content(d) == Some(r.objects[d])
    ensures Obtained(objects, r.dirs[n].files.value, DownloadHolds(sha, r.dirs[n].files.value, content), i)
  {
    var entries := r.dirs[n].files.value;
    assert Has(sha, Snapshots(r), entries[i].digest);
    assert EntryOf(sha, entries[i], sources);
    RestoredContent(sha, Snapshots(r), entries[i], sources);
  }

  lemma {:induction false} ReadyHasAll(sha: Sha, r: Repo, n: Name)
    requires Ready(r, n) && AllNamed(sha, r)
    ensures HasAll(sha, r, r.dirs[n].files.value)
  {
  }

  /** Fetch the latest snapshot on the second node, then stage it. */
  method FetchAndStage(mirror: RemoteMirror, second: LocalRepository, spaceOk: bool, link: Link, maxAttempts: nat, safe: Path -> bool,
                       ghost id: Name, ghost sources: map<Path, Source>)
    returns (staged: Option<map<Path, Bytes>>)
    requires second.Valid()
    modifies second
    ensures second.Valid()
    // Honesty: whatever the stores hold and the connection delivers.
    ensures (CollisionFree(second.sha) && Announces(second.sha, mirror.State(), id, sources) && id !in old(second.dirs) && staged.Some?) ==>
        RestoresAllButConfig(staged.value, sources)
    // Success.
    ensures (CollisionFree(second.sha) && AllNamed(second.sha, old(second.State())) && Mirrored(second.sha, mirror.State(), id, sources)
        && Faithful(mirror.State(), link, maxAttempts) && id !in old(second.dirs) && id + PARTIAL !in old(second.dirs)
        && spaceOk && (forall p :: p in sources ==> safe(p))) ==>
        staged == Some(Contents(sources))
  {
    ghost var announced := CollisionFree(second.sha) && Announces(second.sha, mirror.State(), id, sources) && id !in second.dirs;
    ghost var trusted := announced && AllNamed(second.sha, second.State()) && Mirrored(second.sha, mirror.State(), id, sources);
    if trusted && Faithful(mirror.State(), link, maxAttempts) {
      MirroredArrives(second.sha, mirror.State(), id, sources, second.objects, link, maxAttempts);
    }
    var fetched := Fetch(mirror, second, None, spaceOk, link, maxAttempts);
    if fetched.None? {
      return None;
    }
    if trusted && (forall p :: p in sources ==> safe(p)) {
      GrewAllNamed(second.sha, old(second.State()), second.State());
      ReadyHasAll(second.sha, second.State(), id);
      StagingRestores(second.sha, second.State(), second.dirs[id].files.value, sources, safe);
    }
    staged := second.Stage(fetched.value, spaceOk, safe);
    if announced && staged.Some? {
      StagingIsHonest(second.sha, second.objects, second.dirs[id].files.value, sources, safe);
    }
  }

  /** Store, upload, fetch and stage compose to the identity. */
  method BackUpAndRestore(first: LocalRepository, mirror: RemoteMirror, second: LocalRepository,
                          id: Name, sources: map<Path, Source>, retention: nat, fates: Name -> Fate, stuck: Digest -> bool, maxAttempts: nat,
                          spaceOk: bool, link: Remote -> Link, safe: Path -> bool)
    returns (uploaded: bool, staged: Option<map<Path, Bytes>>)
    requires first.Valid() && mirror.Valid() && second.Valid() && first != second
    requires first.sha == mirror.sha == second.sha && !IsPartial(id)
    modifies first, mirror, second
    // From any three stores, over any connection: what the second node stages is what the
    // first node hashed, path by path, and only config.yml can be missing.
    ensures (CollisionFree(first.sha) && uploaded && id !in old(second.dirs) && staged.Some?) ==>
        RestoresAllButConfig(staged.value, sources)
    // From stores without corrupt objects, an upload that went through is staged whole.
    ensures (uploaded && Trusted(first.sha, old(first.State()), old(mirror.State())) && Receives(second.sha, old(second.State()), id, sources, spaceOk, safe)
        && Faithful(mirror.State(), link(mirror.State()), maxAttempts)) ==>
        staged == Some(Contents(sources))
    // And with nothing failing it does go through.
    ensures (Storable(first.sha, old(first.State()), id, sources) && !Pruned(ListedNames(old(first.State())), id, retention)
        && mirror.Reliable() && id !in old(mirror.dirs)) ==>
        uploaded
  {
    uploaded := StoreAndUpload(first, mirror, id, sources, retention, fates, stuck, maxAttempts);
    if !uploaded {
      return false, None;
    }
    staged := FetchAndStage(mirror, second, spaceOk, link(mirror.State()), maxAttempts, safe, id, sources);
  }

  /** The second node can take the snapshot in: the name is new there, no stored object is
      corrupt, and space and paths are fine. */
  ghost predicate Receives(sha: Sha, node: Repo, id: Name, sources: map<Path, Source>, spaceOk: bool, safe: Path -> bool) {
    AllNamed(sha, node) && id !in node.dirs && id + PARTIAL !in node.dirs && spaceOk && forall p :: p in sources ==> safe(p)
  }

  /** The round trip outright: nothing fails, no file changes between hashing and copying,
      no object is corrupt and the name is new everywhere. */
  method RoundTrip(first: LocalRepository, mirror: RemoteMirror, second: LocalRepository,
                   id: Name, sources: map<Path, Source>, retention: nat, fates: Name -> Fate, stuck: Digest -> bool, maxAttempts: nat, safe: Path -> bool)
    returns (staged: Option<map<Path, Bytes>>)
    requires first.Valid() && mirror.Valid() && second.Valid() && first != second
    requires first.sha == mirror.sha == second.sha && !IsPartial(id)
    requires mirror.Reliable() && Trusted(first.sha, first.State(), mirror.State())
    requires Receives(second.sha, second.State(), id, sources, true, safe)
    requires id !in first.dirs && id + PARTIAL !in first.dirs && id !in mirror.dirs && !Pruned(ListedNames(first.State()), id, retention)
    requires sources != map[] && forall p :: p in sources ==> sources[p].copied == sources[p].hashed
    modifies first, mirror, second
    ensures staged == Some(Contents(sources))
  {
    UnchangedCopies(first.sha, first.objects, sources);
    var uploaded: bool;
    uploaded, staged := BackUpAndRestore(first, mirror, second, id, sources, retention, fates, stuck, maxAttempts, true,
                                         (r: Remote) => SteadyLink(r), safe);
    SteadyIsFaithful(mirror.State(), maxAttempts);
  }

  /** A connection on which nothing fails. */
  function SteadyLink(r: Remote): Link {
    Link((t: nat) => true, (t: nat) => true, (t: nat) => (d: Digest) => if d in r.objects then Some(r.objects[d]) else None)
  }

  lemma {:induction false} SteadyIsFaithful(r: Remote, maxAttempts: nat)
    ensures Faithful(r, SteadyLink(r), maxAttempts)
  {
    assert DeliversAll(r.objects.Keys, SteadyLink(r).content(0));
  }
}
