/**
  The SFTP mirror of the snapshot repository (src/backup/sftp_uploader.cpp).

  The remote state changes one file operation at a time; an object is written byte
  by byte, which covers every chunking.  `faults` decides which operations fail, and
  which take effect although the reply is lost, so a statement about every state in
  `history` is a statement about every prefix of the command list, every cut inside an
  object write, and every retry.
 */
module RemoteMirror {
  import opened Arithmetic
  import opened Options
  import opened Bytes
  import opened Listing
  import opened SnapshotRepository
  import opened LocalRepository

  /** latest.json, or latest.json.partial: absent, half written, or naming a snapshot. */
  datatype LatestFile = Missing | Unreadable | Names(name: Name)

  datatype Remote = Remote(objects: map<Digest, Bytes>, dirs: map<Name, SnapDir>, latest: LatestFile, latestPartial: LatestFile)

  function Snapshots(r: Remote): Repo {
    Repo(r.objects, r.dirs, None)
  }

  /** What becomes of a remote operation: done, not done, or done and reported as failed. */
  datatype Fault = Works | Fails | LosesReply

  ghost predicate NeverFails(faults: nat -> Fault) {
    forall t :: faults(t) == Works
  }

  // ---- Single changes of the mirror ----------------------------------------------

  datatype RemoteChange =
    | Emptied(digest: Digest)
    | Appended(digest: Digest, b: byte)
    | Unlinked(digest: Digest)
    | InDirectory(change: DirChange)
    | PartialSet(file: LatestFile)
    | LatestUnlinked
    | LatestMoved

  function ChangedRemote(r: Remote, c: RemoteChange): Remote {
    match c
    case Emptied(d) => r.(objects := r.objects[d := []])
    case Appended(d, b) => if d in r.objects then r.(objects := r.objects[d := r.objects[d] + [b]]) else r
    case Unlinked(d) => r.(objects := r.objects - {d})
    case InDirectory(change) => r.(dirs := ChangedDirs(r.dirs, change))
    case PartialSet(l) => r.(latestPartial := l)
    case LatestUnlinked => r.(latest := Missing)
    case LatestMoved => if r.latest.Missing? then r.(latest := r.latestPartial, latestPartial := Missing) else r
  }

  ghost predicate OneRemoteChange(s: Remote, t: Remote) {
    exists c :: t == ChangedRemote(s, c)
  }

  /** The history leaves out no state between two single changes. */
  ghost predicate SingleRemoteChanges(h: seq<Remote>) {
    forall i :: 0 <= i < |h| - 1 ==> OneRemoteChange(h[i], h[i + 1])
  }

  lemma {:induction false} SingleMore(h: seq<Remote>, t: Remote, c: RemoteChange)
    requires h != [] && SingleRemoteChanges(h) && t == ChangedRemote(h[|h| - 1], c)
    ensures SingleRemoteChanges(h + [t])
  {
    var more := h + [t];
    forall i | 0 <= i < |more| - 1
      ensures OneRemoteChange(more[i], more[i + 1])
    {
      if i < |h| - 1 { assert OneRemoteChange(h[i], h[i + 1]); }
    }
  }

  // ---- What every remote state must satisfy ----------------------------------

  /** Every visible complete snapshot has all its objects with correct content. */
  ghost predicate AllBacked(sha: Sha, r: Repo) {
    forall n :: Listed(r, n) ==> Backed(sha, r, n)
  }

  ghost predicate BeginsNamed(sha: Sha, b: Bytes, d: Digest) {
    exists c :: sha(c) == d && b <= c
  }

  /** Every object is the beginning of some content with its hash: interrupted uploads
      of correct objects leave only such objects. */
  ghost predicate Prefixes(sha: Sha, r: Repo) {
    forall d :: d in r.objects ==> BeginsNamed(sha, r.objects[d], d)
  }

  /** latest.json is absent or names a visible complete snapshot. */
  predicate LatestNamesListed(r: Remote) {
    r.latest.Missing? || (r.latest.Names? && Listed(Snapshots(r), r.latest.name))
  }

  ghost predicate Good(sha: Sha, r: Remote, latestToo: bool) {
    AllBacked(sha, Snapshots(r)) && (latestToo ==> LatestNamesListed(r))
  }

  // ---- Harmless changes --------------------------------------------------------

  lemma {:induction false} WriteIsGood(sha: Sha, r: Remote, d: Digest, b: Bytes, latestToo: bool)
    requires Good(sha, r, latestToo) && !Referenced(Snapshots(r), d)
    ensures Good(sha, r.(objects := r.objects[d := b]), latestToo)
  {
    UnreferencedWrite(sha, Snapshots(r), d, b);
    assert Snapshots(r.(objects := r.objects[d := b])) == Snapshots(r).(objects := r.objects[d := b]);
  }

  /** Why equal sizes are skipped: writing an object that some visible snapshot needs
      passes through a state that breaks the snapshot, whatever is written, unless the
      sizes agree. */
  lemma {:induction false} WriteIsHarmlessExactly(sha: Sha, r: Repo, d: Digest, c: Bytes)
    requires CollisionFree(sha) && AllBacked(sha, r)
    requires d in r.objects ==> |r.objects[d]| != |c|
    ensures (forall k :: 0 <= k <= |c| ==> AllBacked(sha, r.(objects := r.objects[d := c[..k]]))) <==> !Referenced(r, d)
  {
    if Referenced(r, d) {
      var n :| Intact(r, n) && Mentions(r.dirs[n].files.value, d);
      var files := r.dirs[n].files.value;
      var i :| 0 <= i < |files| && files[i].digest == d;
      assert Backed(sha, r, n);
      assert Has(sha, r, files[i].digest);
      assert NoCollision(sha, r.objects[d]);
      var k := if r.objects[d] == [] then |c| else 0;
      var t := r.(objects := r.objects[d := c[..k]]);
      assert c[..k] != r.objects[d];
      assert !Has(sha, t, files[i].digest);
      assert Listed(t, n) && !Backed(sha, t, n);
    } else {
      forall k | 0 <= k <= |c|
        ensures AllBacked(sha, r.(objects := r.objects[d := c[..k]]))
      {
        UnreferencedWrite(sha, r, d, c[..k]);
      }
    }
  }

  lemma {:induction false} UnreferencedWrite(sha: Sha, r: Repo, d: Digest, b: Bytes)
    requires AllBacked(sha, r) && !Referenced(r, d)
    ensures AllBacked(sha, r.(objects := r.objects[d := b]))
  {
    var t := r.(objects := r.objects[d := b]);
    forall n | Listed(t, n)
      ensures Backed(sha, t, n)
    {
      assert Listed(r, n) && Backed(sha, r, n);
      var files := r.dirs[n].files.value;
      forall i | 0 <= i < |files|
        ensures Has(sha, t, files[i].digest)
      {
        assert Has(sha, r, files[i].digest);
        assert Mentions(files, files[i].digest);
      }
    }
  }

  lemma {:induction false} DropKeepsBacked(sha: Sha, r: Repo, d: Digest)
    requires AllBacked(sha, r) && !Referenced(r, d)
    ensures AllBacked(sha, r.(objects := r.objects - {d}))
  {
    var t := r.(objects := r.objects - {d});
    DropIsSafe(sha, r, d);
    forall n | Listed(t, n)
      ensures Backed(sha, t, n)
    {
      assert Listed(r, n) && Backed(sha, r, n);
      StepKeepsBacked(sha, r, t, n);
    }
  }

  lemma {:induction false} DropIsGood(sha: Sha, r: Remote, d: Digest, latestToo: bool)
    requires Good(sha, r, latestToo) && !Referenced(Snapshots(r), d)
    ensures Good(sha, r.(objects := r.objects - {d}), latestToo)
  {
    DropKeepsBacked(sha, Snapshots(r), d);
    assert Snapshots(r.(objects := r.objects - {d})) == Snapshots(r).(objects := r.objects - {d});
  }

  /** Changing one directory is harmless when it ends up invisible or backed. */
  lemma {:induction false} DirsKeepBacked(sha: Sha, r: Repo, t: Repo, changed: Name)
    requires AllBacked(sha, r) && t.objects == r.objects
    requires forall n :: n != changed && Listed(t, n) ==> n in r.dirs && t.dirs[n] == r.dirs[n]
    requires Listed(t, changed) ==> t.dirs[changed].files.Some? && HasAll(sha, r, t.dirs[changed].files.value)
    ensures AllBacked(sha, t)
  {
    forall n | Listed(t, n)
      ensures Backed(sha, t, n)
    {
      if n == changed {
        SameObjectsHaveAll(sha, r, t, t.dirs[n].files.value);
      } else {
        assert Listed(r, n) && Backed(sha, r, n);
        SameObjectsHaveAll(sha, r, t, t.dirs[n].files.value);
      }
    }
  }

  lemma {:induction false} SameObjectsHaveAll(sha: Sha, r: Repo, t: Repo, files: seq<FileEntry>)
    requires t.objects == r.objects && HasAll(sha, r, files)
    ensures HasAll(sha, t, files)
  {
    forall i | 0 <= i < |files|
      ensures Has(sha, t, files[i].digest)
    {
      assert Has(sha, r, files[i].digest);
    }
  }

  /** A directory that was and stays invisible, or becomes invisible. */
  lemma {:induction false} HiddenDirIsGood(sha: Sha, r: Remote, n: Name, dir: SnapDir, latestToo: bool)
    requires Good(sha, r, latestToo) && (IsPartial(n) || !dir.complete)
    requires latestToo ==> IsPartial(n) || r.latest != Names(n)
    ensures Good(sha, r.(dirs := r.dirs[n := dir]), latestToo)
  {
    DirsKeepBacked(sha, Snapshots(r), Snapshots(r.(dirs := r.dirs[n := dir])), n);
  }

  lemma {:induction false} RemovedDirIsGood(sha: Sha, r: Remote, n: Name, latestToo: bool)
    requires Good(sha, r, latestToo) && (latestToo ==> r.latest != Names(n))
    ensures Good(sha, r.(dirs := r.dirs - {n}), latestToo)
  {
    DirsKeepBacked(sha, Snapshots(r), Snapshots(r.(dirs := r.dirs - {n})), n);
  }

  function Renamed(dirs: map<Name, SnapDir>, from: Name, to: Name): map<Name, SnapDir>
    requires from in dirs
  {
    (dirs - {from})[to := dirs[from]]
  }

  lemma {:induction false} PublishedIsGood(sha: Sha, r: Remote, from: Name, to: Name, latestToo: bool)
    requires Good(sha, r, latestToo) && from in r.dirs && to !in r.dirs && IsPartial(from)
    requires r.dirs[from].files.Some? && HasAll(sha, Snapshots(r), r.dirs[from].files.value)
    ensures Good(sha, r.(dirs := Renamed(r.dirs, from, to)), latestToo)
  {
    DirsKeepBacked(sha, Snapshots(r), Snapshots(r.(dirs := Renamed(r.dirs, from, to))), to);
  }

  lemma {:induction false} LatestIsGood(sha: Sha, r: Remote, t: Remote, latestToo: bool)
    requires Good(sha, r, latestToo) && t.objects == r.objects && t.dirs == r.dirs
    requires t.latest == r.latest || t.latest.Missing? || (t.latest.Names? && Listed(Snapshots(r), t.latest.name))
    ensures Good(sha, t, latestToo)
  {
    assert Snapshots(t) == Snapshots(r);
  }

  // ---- What an upload leaves -------------------------------------------------

  /** The content object d will have once uploaded: equal sizes are skipped. */
  function Target(ours: map<Digest, Bytes>, theirs: map<Digest, Bytes>, d: Digest): Option<Bytes> {
    if d in ours && !(d in theirs && |theirs[d]| == |ours[d]|) then Some(ours[d])
    else if d in theirs then Some(theirs[d])
    else None
  }

  /** What is still to become of object d is the same, and what is there now was there
      before or is a beginning of our object. */
  ghost predicate SameTarget(ours: map<Digest, Bytes>, before: map<Digest, Bytes>, after: map<Digest, Bytes>, d: Digest) {
    && Target(ours, before, d) == Target(ours, after, d)
    && (d in after ==> (d in before && after[d] == before[d]) || (d in ours && after[d] <= ours[d]))
  }

  ghost predicate SameTargets(ours: map<Digest, Bytes>, before: map<Digest, Bytes>, after: map<Digest, Bytes>) {
    forall d :: SameTarget(ours, before, after, d)
  }

  lemma {:induction false} SameTargetsTwice(ours: map<Digest, Bytes>, before: map<Digest, Bytes>, middle: map<Digest, Bytes>, after: map<Digest, Bytes>)
    requires SameTargets(ours, before, middle) && SameTargets(ours, middle, after)
    ensures SameTargets(ours, before, after)
  {
    forall d
      ensures SameTarget(ours, before, after, d)
    {
      assert SameTarget(ours, before, middle, d) && SameTarget(ours, middle, after, d);
    }
  }

  /** Uploading correct objects keeps a mirror that holds only beginnings of such. */
  lemma {:induction false} UploadKeepsPrefixes(sha: Sha, local: Repo, before: Repo, after: Repo)
    requires AllNamed(sha, local) && Prefixes(sha, before) && SameTargets(local.objects, before.objects, after.objects)
    ensures Prefixes(sha, after)
  {
    forall d | d in after.objects
      ensures BeginsNamed(sha, after.objects[d], d)
    {
      assert SameTarget(local.objects, before.objects, after.objects, d);
      if d in before.objects && after.objects[d] == before.objects[d] {
        assert BeginsNamed(sha, before.objects[d], d);
      } else {
        assert Has(sha, local, d);
      }
    }
  }

  predicate Uploaded(ours: map<Digest, Bytes>, theirs: map<Digest, Bytes>, d: Digest) {
    d in ours ==> d in theirs && |theirs[d]| == |ours[d]|
  }

  /** The states an upload of c to d passes through. */
  ghost predicate PartlyPut(before: map<Digest, Bytes>, after: map<Digest, Bytes>, d: Digest, c: Bytes) {
    after == before || ((d in before ==> |before[d]| != |c|) && exists k :: 0 <= k <= |c| && after == before[d := c[..k]])
  }

  lemma {:induction false} PartlyPutTargets(ours: map<Digest, Bytes>, before: map<Digest, Bytes>, after: map<Digest, Bytes>, d: Digest)
    requires d in ours && PartlyPut(before, after, d, ours[d])
    ensures SameTargets(ours, before, after)
  {
    var c := ours[d];
    if after != before {
      var k :| 0 <= k <= |c| && after == before[d := c[..k]];
      assert k == |c| ==> c[..k] == c;
    }
    forall e
      ensures SameTarget(ours, before, after, e)
    {
    }
  }

  lemma {:induction false} PutPrefix(before: map<Digest, Bytes>, after: map<Digest, Bytes>, d: Digest, c: Bytes, k: nat)
    requires (d in before ==> |before[d]| != |c|) && k <= |c| && after == before[d := c[..k]]
    ensures PartlyPut(before, after, d, c)
  {
  }

  predicate Uploadable(local: Repo) {
    && local.latest.Some? && local.latest.value in local.dirs
    && local.dirs[local.latest.value].complete && local.dirs[local.latest.value].files.Some?
  }

  // ---- When an upload is safe --------------------------------------------------

  /** The object is skipped, or rewriting it hurts no visible snapshot. */
  ghost predicate HarmlessAt(ours: map<Digest, Bytes>, r: Repo, d: Digest) {
    d in ours && d in r.objects && |ours[d]| != |r.objects[d]| ==> !Referenced(r, d)
  }

  /** No local object has a remote namesake of another size that a visible remote
      snapshot mentions. */
  ghost predicate Harmless(ours: map<Digest, Bytes>, r: Repo) {
    forall d :: d in ours ==> HarmlessAt(ours, r, d)
  }

  predicate TargetGood(sha: Sha, ours: map<Digest, Bytes>, theirs: map<Digest, Bytes>, d: Digest) {
    Target(ours, theirs, d).Some? && sha(Target(ours, theirs, d).value) == d
  }

  /** Every object the snapshot lists will be correct once the upload is through. */
  ghost predicate TargetsGood(sha: Sha, ours: map<Digest, Bytes>, theirs: map<Digest, Bytes>, files: seq<FileEntry>) {
    forall i :: 0 <= i < |files| ==> TargetGood(sha, ours, theirs, files[i].digest)
  }

  /** What a caller can check before uploading. */
  ghost predicate UploadSafe(sha: Sha, local: Repo, r: Remote)
    requires Uploadable(local)
  {
    var id := local.latest.value;
    && Harmless(local.objects, Snapshots(r))
    && (id in r.dirs || (!IsPartial(id) && TargetsGood(sha, local.objects, r.objects, local.dirs[id].files.value)))
  }

  lemma {:induction false} AbsentUnreferenced(sha: Sha, r: Repo, d: Digest)
    requires AllBacked(sha, r) && d !in r.objects
    ensures !Referenced(r, d)
  {
    forall n | Intact(r, n)
      ensures !Mentions(r.dirs[n].files.value, d)
    {
      assert Backed(sha, r, n);
      var files := r.dirs[n].files.value;
      forall i | 0 <= i < |files|
        ensures files[i].digest != d
      {
        assert Has(sha, r, files[i].digest);
      }
    }
  }

  lemma {:induction false} SameTargetsGood(sha: Sha, ours: map<Digest, Bytes>, before: map<Digest, Bytes>, after: map<Digest, Bytes>, files: seq<FileEntry>)
    requires SameTargets(ours, before, after)
    ensures TargetsGood(sha, ours, before, files) <==> TargetsGood(sha, ours, after, files)
  {
    forall i | 0 <= i < |files|
      ensures TargetGood(sha, ours, before, files[i].digest) <==> TargetGood(sha, ours, after, files[i].digest)
    {
      assert SameTarget(ours, before, after, files[i].digest);
    }
  }

  /** With every object in place, good targets are what the mirror has. */
  lemma {:induction false} TargetsInPlace(sha: Sha, ours: map<Digest, Bytes>, r: Repo, files: seq<FileEntry>)
    requires forall d :: d in ours ==> Uploaded(ours, r.objects, d)
    ensures TargetsGood(sha, ours, r.objects, files) <==> HasAll(sha, r, files)
    ensures Harmless(ours, r)
  {
    forall i | 0 <= i < |files|
      ensures TargetGood(sha, ours, r.objects, files[i].digest) <==> Has(sha, r, files[i].digest)
    {
      assert files[i].digest in ours ==> Uploaded(ours, r.objects, files[i].digest);
    }
    forall d | d in ours
      ensures HarmlessAt(ours, r, d)
    {
      assert Uploaded(ours, r.objects, d);
    }
  }

  /** An upload that went through and was not safe has left a bad mirror behind. */
  lemma {:induction false} UnsafeShows(sha: Sha, local: Repo, before: Remote, after: Remote)
    requires Uploadable(local) && after.latest == Names(local.latest.value) && local.latest.value in after.dirs
    requires after.dirs[local.latest.value] == SnapDir(local.dirs[local.latest.value].files, true)
    requires SameTargets(local.objects, before.objects, after.objects)
    requires forall d :: d in local.objects ==> Uploaded(local.objects, after.objects, d)
    requires Good(sha, after, true)
    ensures !IsPartial(local.latest.value)
    ensures TargetsGood(sha, local.objects, before.objects, local.dirs[local.latest.value].files.value)
  {
    var id := local.latest.value;
    assert Backed(sha, Snapshots(after), id);
    TargetsInPlace(sha, local.objects, Snapshots(after), local.dirs[id].files.value);
    SameTargetsGood(sha, local.objects, before.objects, after.objects, local.dirs[id].files.value);
  }

  /** Every local object carries its own hash, the snapshot is backed, and the mirror
      holds only beginnings of correct objects: then an upload is safe. */
  lemma {:induction false} CorrectObjectsAreSafe(sha: Sha, local: Repo, r: Remote)
    requires CollisionFree(sha) && Uploadable(local) && AllNamed(sha, local) && Backed(sha, local, local.latest.value)
    requires AllBacked(sha, Snapshots(r)) && Prefixes(sha, Snapshots(r))
    ensures UploadSafe(sha, local, r)
  {
    forall d | d in local.objects
      ensures HarmlessAt(local.objects, Snapshots(r), d)
    {
      assert Has(sha, local, d);
      if Referenced(Snapshots(r), d) { ReferencedIsCorrect(sha, Snapshots(r), d, local.objects[d]); }
    }
    var files := local.dirs[local.latest.value].files.value;
    forall i | 0 <= i < |files|
      ensures TargetGood(sha, local.objects, r.objects, files[i].digest)
    {
      assert Has(sha, local, files[i].digest);
      PrefixOfSameSize(sha, local, r, files[i].digest);
    }
  }

  lemma {:induction false} ReferencedIsCorrect(sha: Sha, r: Repo, d: Digest, c: Bytes)
    requires CollisionFree(sha) && AllBacked(sha, r) && Referenced(r, d) && sha(c) == d
    ensures d in r.objects && r.objects[d] == c
  {
    var n :| Intact(r, n) && Mentions(r.dirs[n].files.value, d);
    assert Backed(sha, r, n);
    var files := r.dirs[n].files.value;
    var i :| 0 <= i < |files| && files[i].digest == d;
    assert Has(sha, r, files[i].digest);
    assert NoCollision(sha, c);
  }

  lemma {:induction false} PrefixOfSameSize(sha: Sha, local: Repo, r: Remote, d: Digest)
    requires CollisionFree(sha) && Has(sha, local, d) && Prefixes(sha, Snapshots(r))
    ensures d in r.objects && |r.objects[d]| == |local.objects[d]| ==> r.objects[d] == local.objects[d]
  {
    if d in r.objects && |r.objects[d]| == |local.objects[d]| {
      assert BeginsNamed(sha, r.objects[d], d);
      var c :| sha(c) == d && r.objects[d] <= c;
      assert NoCollision(sha, c);
      assert r.objects[d] == c[..|r.objects[d]|] == c;
    }
  }

  /** Once every object is in place, the mirror has everything the snapshot lists. */
  lemma {:induction false} UploadedHasAll(sha: Sha, local: Repo, r: Remote, files: seq<FileEntry>)
    requires CollisionFree(sha) && HasAll(sha, local, files) && Prefixes(sha, Snapshots(r))
    requires forall d :: d in local.objects ==> Uploaded(local.objects, r.objects, d)
    ensures HasAll(sha, Snapshots(r), files)
  {
    forall i | 0 <= i < |files|
      ensures Has(sha, Snapshots(r), files[i].digest)
    {
      var d := files[i].digest;
      assert Has(sha, local, d) && Uploaded(local.objects, r.objects, d);
      PrefixOfSameSize(sha, local, r, d);
    }
  }

  lemma {:induction false} UploadedIsTarget(ours: map<Digest, Bytes>, before: map<Digest, Bytes>, after: map<Digest, Bytes>, d: Digest)
    requires SameTargets(ours, before, after) && Uploaded(ours, after, d)
    ensures Target(ours, before, d) == if d in after then Some(after[d]) else None
  {
    assert SameTarget(ours, before, after, d);
  }

  /** The size check is not a hash check.  Started from any mirror, the uploaded
      snapshot is correct exactly when no object it needs was already there with the
      right size and the wrong content. */
  lemma {:induction false} UploadedIsBackedExactly(sha: Sha, local: Repo, before: map<Digest, Bytes>, after: Repo, n: Name)
    requires Backed(sha, local, n) && Intact(after, n) && after.dirs[n].files == local.dirs[n].files
    requires SameTargets(local.objects, before, after.objects)
    requires forall d :: d in local.objects ==> Uploaded(local.objects, after.objects, d)
    ensures Backed(sha, after, n) <==>
      forall i :: 0 <= i < |local.dirs[n].files.value| ==> !SameSizeCorrupt(sha, local, before, local.dirs[n].files.value[i].digest)
  {
    var files := local.dirs[n].files.value;
    forall i | 0 <= i < |files|
      ensures Has(sha, after, files[i].digest) <==> !SameSizeCorrupt(sha, local, before, files[i].digest)
    {
      var d := files[i].digest;
      assert Has(sha, local, d);
      UploadedIsTarget(local.objects, before, after.objects, d);
    }
  }

  predicate SameSizeCorrupt(sha: Sha, local: Repo, remote: map<Digest, Bytes>, d: Digest) {
    d in remote && d in local.objects && |remote[d]| == |local.objects[d]| && sha(remote[d]) != d
  }

  // ---- Failing operations ----------------------------------------------------

  /** How many of the operations from `a` up to `b` fail or lose their reply. */
  function Failures(faults: nat -> Fault, a: nat, b: nat): nat {
    if b <= a then 0 else Failures(faults, a, b - 1) + One(!faults(b - 1).Works?)
  }

  lemma {:induction false} FailuresAdd(faults: nat -> Fault, a: nat, m: nat, b: nat)
    requires a <= m <= b
    ensures Failures(faults, a, b) == Failures(faults, a, m) + Failures(faults, m, b)
    ensures Failures(faults, m, b) == 0 ==> forall t :: m <= t < b ==> faults(t).Works?
    decreases b - m
  {
    if m < b { FailuresAdd(faults, a, m, b - 1); }
  }

  // ---- The mirror ------------------------------------------------------------

  /** What is being shown about the states from index `from` on, and under which
      hypothesis. */
  datatype Watch = Watch(from: nat, hyp: bool, latestToo: bool)

  datatype DeleteResult = Deleted | DryRun | NotFound | Failed

  class RemoteMirror {
    const sha: Sha
    const faults: nat -> Fault
    var clock: nat
    var objects: map<Digest, Bytes>
    var dirs: map<Name, SnapDir>
    var latest: LatestFile
    var latestPartial: LatestFile
    ghost var history: seq<Remote>

    function State(): Remote
      reads this
    {
      Remote(objects, dirs, latest, latestPartial)
    }

    ghost predicate Valid()
      reads this
    {
      history != [] && history[|history| - 1] == State() && SingleRemoteChanges(history)
    }

    ghost predicate Reliable() {
      NeverFails(faults)
    }

    /** No operation has failed since the given one. */
    ghost predicate Calm(since: nat)
      reads this`clock
    {
      forall t :: since <= t < clock ==> faults(t).Works?
    }

    /** Some state from index `from` on has a visible snapshot that is not backed. */
    ghost predicate Broken(from: nat)
      reads this
    {
      BrokenSince(sha, history, from)
    }

    ghost predicate Shows(w: Watch)
      reads this
    {
      && Valid() && w.from < |history|
      && (w.hyp ==> AllGood(sha, history, w.from, w.latestToo))
    }

    constructor (sha: Sha, faults: nat -> Fault, start: Remote)
      ensures Valid() && this.sha == sha && this.faults == faults && State() == start && history == [start]
    {
      this.sha, this.faults, clock := sha, faults, 0;
      objects, dirs, latest, latestPartial := start.objects, start.dirs, start.latest, start.latestPartial;
      history := [start];
    }

    ghost method Log(c: RemoteChange, w: Watch)
      requires history != [] && w.from < |history| && SingleRemoteChanges(history)
      requires State() == ChangedRemote(history[|history| - 1], c)
      requires w.hyp ==> AllGood(sha, history, w.from, w.latestToo) && Good(sha, State(), w.latestToo)
      modifies this`history
      ensures Shows(w) && history == old(history) + [State()]
    {
      SingleMore(history, State(), c);
      history := history + [State()];
    }

    /** What becomes of the next remote operation. */
    method Next() returns (fault: Fault)
      modifies this`clock
      ensures fault == faults(old(clock)) && clock == old(clock) + 1
    {
      fault := faults(clock);
      clock := clock + 1;
    }

    /** An operation that only reads. */
    method Ask() returns (ok: bool)
      modifies this`clock
      ensures old(clock) < clock && (Calm(old(clock)) ==> ok)
    {
      var fault := Next();
      ok := fault.Works?;
    }

    // ---- Objects ----

    /** Opening for writing truncates; every further call writes one byte. */
    method WriteObject(d: Digest, c: Bytes, k: nat, ghost w: Watch) returns (ok: bool)
      requires Shows(w) && k <= |c| && (w.hyp ==> !Referenced(Snapshots(State()), d))
      requires k > 0 ==> d in objects && objects[d] == c[..k - 1]
      modifies this`clock, this`objects, this`history
      ensures Shows(w) && old(history) <= history && old(clock) <= clock
      ensures objects == old(objects)[d := c[..k]] || (!ok && objects == old(objects))
      ensures ok ==> history == old(history) + [State()]
      ensures Calm(old(clock)) ==> ok
    {
      var fault := Next();
      if fault.Fails? {
        return false;
      }
      if w.hyp { WriteIsGood(sha, State(), d, c[..k], w.latestToo); }
      objects := objects[d := c[..k]];
      if k == 0 {
        Log(Emptied(d), w);
      } else {
        assert c[..k] == c[..k - 1] + [c[k - 1]];
        Log(Appended(d, c[k - 1]), w);
      }
      return fault.Works?;
    }

    /** upload_file on a content object: an object of the right size is skipped, any
        other is truncated and rewritten. */
    method PutObject(d: Digest, c: Bytes, ghost w: Watch) returns (ok: bool)
      requires Shows(w) && (w.hyp ==> (d in objects && |objects[d]| == |c|) || !Referenced(Snapshots(State()), d))
      modifies this`clock, this`objects, this`history
      ensures Shows(w) && old(history) <= history && old(clock) <= clock
      ensures PartlyPut(old(objects), objects, d, c)
      ensures ok ==> d in objects && |objects[d]| == |c|
      ensures Calm(old(clock)) ==> ok
      // A rewrite that goes through passes through every prefix.
      ensures ok && !(d in old(objects) && |old(objects)[d]| == |c|) ==> Passes(history, |old(history)|, old(State()), d, c)
    {
      ok := Ask();
      if !ok || (d in objects && |objects[d]| == |c|) {
        return;
      }
      ok := WriteObject(d, c, 0, w);
      if !ok {
        if objects != old(objects) { PutPrefix(old(objects), objects, d, c, 0); }
        return;
      }
      ok := WriteRest(d, c, old(State()), |old(history)|, w);
      if ok {
        assert c[..|c|] == c;
        // Closing the file may fail too.
        ok := Ask();
      }
    }

    /** The writing loop after the file has been truncated. */
    method WriteRest(d: Digest, c: Bytes, ghost before: Remote, ghost from: nat, ghost w: Watch) returns (ok: bool)
      requires Shows(w) && (w.hyp ==> !Referenced(Snapshots(State()), d)) && (d in before.objects ==> |before.objects[d]| != |c|)
      requires State() == before.(objects := before.objects[d := []]) && |history| == from + 1
      modifies this`clock, this`objects, this`history
      ensures Shows(w) && old(history) <= history && old(clock) <= clock
      ensures PartlyPut(before.objects, objects, d, c)
      ensures ok ==> objects == before.objects[d := c] && Passes(history, from, before, d, c)
      ensures Calm(old(clock)) ==> ok
    {
      ok := true;
      var k := 0;
      PutPrefix(before.objects, objects, d, c, 0);
      while ok && k < |c|
        invariant 0 <= k <= |c| && Shows(w) && old(history) <= history && old(clock) <= clock && PartlyPut(before.objects, objects, d, c)
        invariant ok ==> objects == before.objects[d := c[..k]] && |history| == from + k + 1 && PassesTo(history, from, before, d, c, k)
        invariant Calm(old(clock)) ==> ok
        decreases |c| - k, ok
      {
        ok := WriteNext(d, c, k, before, from, w);
        if ok {
          k := k + 1;
        }
      }
      assert c[..|c|] == c;
    }

    method WriteNext(d: Digest, c: Bytes, k: nat, ghost before: Remote, ghost from: nat, ghost w: Watch) returns (ok: bool)
      requires Shows(w) && k < |c| && (d in before.objects ==> |before.objects[d]| != |c|)
      requires w.hyp ==> !Referenced(Snapshots(State()), d)
      requires State() == before.(objects := before.objects[d := c[..k]])
      requires |history| == from + k + 1 && PassesTo(history, from, before, d, c, k)
      modifies this`clock, this`objects, this`history
      ensures Shows(w) && old(history) <= history && old(clock) <= clock && PartlyPut(before.objects, objects, d, c)
      ensures ok ==> objects == before.objects[d := c[..k + 1]] && |history| == from + k + 2 && PassesTo(history, from, before, d, c, k + 1)
      ensures Calm(old(clock)) ==> ok
    {
      assert before.objects[d := c[..k]][d := c[..k + 1]] == before.objects[d := c[..k + 1]];
      ok := WriteObject(d, c, k + 1, w);
      if objects == old(objects) {
        PutPrefix(before.objects, objects, d, c, k);
      } else {
        PutPrefix(before.objects, objects, d, c, k + 1);
      }
      if ok { PassesMore(old(history), State(), from, before, d, c, k); }
    }

    /** All local objects, in any order. */
    method PutObjects(local: Repo, ghost w: Watch) returns (ok: bool)
      requires Shows(w) && (w.hyp ==> Harmless(local.objects, Snapshots(State())))
      modifies this`clock, this`objects, this`history
      ensures Shows(w) && old(history) <= history && old(clock) <= clock
      ensures SameTargets(local.objects, old(objects), objects)
      ensures w.hyp ==> Harmless(local.objects, Snapshots(State()))
      ensures ok ==> forall d :: d in local.objects ==> Uploaded(local.objects, objects, d)
      ensures ok && CollisionFree(sha) ==> Harmless(local.objects, old(Snapshots(State()))) || Broken(|old(history)| - 1)
      ensures Calm(old(clock)) ==> ok
    {
      ghost var start, from := Snapshots(State()), |history| - 1;
      var os := ListSet(local.objects.Keys);
      NothingPut(sha, local.objects, start, os, history, from);
      for i := 0 to |os|
        invariant Shows(w) && old(history) <= history && old(clock) <= clock
        invariant w.hyp ==> Harmless(local.objects, Snapshots(State()))
        invariant PutSoFar(sha, local.objects, start, Snapshots(State()), os, i, history, from)
      {
        ok := PutNext(local, os, i, start, from, w);
        if !ok {
          return;
        }
      }
      return true;
    }

    /** One object of the loop; `start` is the mirror before the first. */
    method PutNext(local: Repo, os: seq<Digest>, i: nat, ghost start: Repo, ghost from: nat, ghost w: Watch) returns (ok: bool)
      requires Shows(w) && i < |os| && Lists(os, local.objects.Keys) && from < |history|
      requires w.hyp ==> Harmless(local.objects, Snapshots(State()))
      requires PutSoFar(sha, local.objects, start, Snapshots(State()), os, i, history, from)
      modifies this`clock, this`objects, this`history
      ensures Shows(w) && old(history) <= history && old(clock) <= clock
      ensures w.hyp ==> Harmless(local.objects, Snapshots(State()))
      ensures SameTargets(local.objects, start.objects, objects)
      ensures ok ==> PutSoFar(sha, local.objects, start, Snapshots(State()), os, i + 1, history, from)
      ensures Calm(old(clock)) ==> ok
    {
      var d := os[i];
      assert d in local.objects;
      var c := local.objects[d];
      ghost var before := State();
      if w.hyp { HarmlessPut(sha, local.objects, Snapshots(State()), d); }
      ok := PutObject(d, c, w);
      PutKeeps(local.objects, before, State(), d);
      SameTargetsTwice(local.objects, start.objects, before.objects, objects);
      if ok { PutMore(sha, local.objects, start, before, State(), os, i, old(history), history, from); }
    }

    // ---- Snapshot directories ----

    method PutHiddenDir(n: Name, dir: SnapDir, ghost c: DirChange, ghost w: Watch) returns (ok: bool)
      requires Shows(w) && IsPartial(n) && ChangedDirs(dirs, c) == dirs[n := dir]
      modifies this`clock, this`dirs, this`history
      ensures Shows(w) && old(history) <= history && old(clock) <= clock
      ensures dirs == old(dirs)[n := dir] || (!ok && dirs == old(dirs))
      ensures Calm(old(clock)) ==> ok
    {
      var fault := Next();
      if fault.Fails? {
        return false;
      }
      if w.hyp { HiddenDirIsGood(sha, State(), n, dir, w.latestToo); }
      dirs := dirs[n := dir];
      Log(InDirectory(c), w);
      return fault.Works?;
    }

    /** rename_path: the destination must not exist; when the reply is not a success, a
        vanished source with an existing destination counts as done. */
    method RenameSnapshot(from: Name, to: Name, ghost w: Watch) returns (ok: bool)
      requires Shows(w) && IsPartial(from)
      requires w.hyp && from in dirs && to !in dirs ==> dirs[from].files.Some? && HasAll(sha, Snapshots(State()), dirs[from].files.value)
      modifies this`clock, this`dirs, this`history
      ensures Shows(w) && old(history) <= history && old(clock) <= clock
      ensures dirs == old(dirs) || (from in old(dirs) && to !in old(dirs) && dirs == Renamed(old(dirs), from, to))
      ensures ok && from in old(dirs) ==> to !in old(dirs) && dirs == Renamed(old(dirs), from, to)
      ensures ok && from !in old(dirs) ==> to in old(dirs)
      ensures Calm(old(clock)) && from in old(dirs) && to !in old(dirs) ==> ok
    {
      var fault := Next();
      if !fault.Fails? && from in dirs && to !in dirs {
        if w.hyp { PublishedIsGood(sha, State(), from, to, w.latestToo); }
        dirs := Renamed(dirs, from, to);
        Log(InDirectory(DirMoved(from, to)), w);
        if fault.Works? {
          return true;
        }
      }
      ok := Ask();
      ok := ok && from !in dirs && to in dirs;
    }

    /** make_directory: looks before, and again when the reply is not a success. */
    method MakeHiddenDir(n: Name, ghost w: Watch) returns (ok: bool)
      requires Shows(w) && IsPartial(n)
      modifies this`clock, this`dirs, this`history
      ensures Shows(w) && old(history) <= history && old(clock) <= clock
      ensures dirs == old(dirs) || (n !in old(dirs) && dirs == old(dirs)[n := EMPTY_DIR])
      ensures ok ==> n in dirs
      ensures Calm(old(clock)) ==> ok
    {
      ok := Ask();
      if ok && n !in dirs {
        ok := PutHiddenDir(n, EMPTY_DIR, DirMade(n), w);
        if !ok {
          ok := Ask();
          ok := ok && n in dirs;
        }
      }
    }

    /** The partial directory and files.json. */
    method FillFiles(partial: Name, files: seq<FileEntry>, ghost w: Watch) returns (ok: bool)
      requires Shows(w) && IsPartial(partial)
      modifies this`clock, this`dirs, this`history
      ensures Shows(w) && old(history) <= history && old(clock) <= clock
      ensures OnlyChanged(old(dirs), dirs, partial, partial)
      ensures ok ==> partial in dirs && dirs[partial].files == Some(files)
      ensures Calm(old(clock)) ==> ok
    {
      ok := MakeHiddenDir(partial, w);
      if ok {
        ok := PutHiddenDir(partial, dirs[partial].(files := None), FilesSet(partial, None), w);
      }
      if ok {
        ok := PutHiddenDir(partial, dirs[partial].(files := Some(files)), FilesSet(partial, Some(files)), w);
      }
    }

    /** Then manifest.json and COMPLETE. */
    method FillPartial(partial: Name, files: seq<FileEntry>, ghost w: Watch) returns (ok: bool)
      requires Shows(w) && IsPartial(partial)
      modifies this`clock, this`dirs, this`history
      ensures Shows(w) && old(history) <= history && old(clock) <= clock
      ensures OnlyChanged(old(dirs), dirs, partial, partial)
      ensures ok ==> partial in dirs && dirs[partial] == SnapDir(Some(files), true)
      ensures Calm(old(clock)) ==> ok
    {
      ok := FillFiles(partial, files, w);
      if ok {
        ok := Ask();
      }
      if ok {
        ghost var filled := dirs;
        ok := PutHiddenDir(partial, dirs[partial].(complete := true), MarkerSet(partial, true), w);
        OnlyChangedTwice(old(dirs), filled, dirs, partial, partial);
      }
    }

    /** From mkdir of the partial directory to the rename that makes it visible. */
    method Publish(id: Name, files: seq<FileEntry>, ghost w: Watch) returns (ok: bool)
      requires Shows(w) && (w.hyp && id !in dirs ==> HasAll(sha, Snapshots(State()), files))
      modifies this`clock, this`dirs, this`history
      ensures Shows(w) && old(history) <= history && old(clock) <= clock
      ensures OnlyChanged(old(dirs), dirs, id, id + PARTIAL)
      ensures id in old(dirs) ==> !ok && id in dirs
      ensures ok ==> id in dirs && dirs[id] == SnapDir(Some(files), true)
      ensures Calm(old(clock)) && id !in old(dirs) ==> ok
    {
      var partial := id + PARTIAL;
      PartialNameIsPartial(id);
      ok := FillPartial(partial, files, w);
      assert SameDir(old(dirs), dirs, id);
      if ok {
        if w.hyp && id !in dirs { SameObjectsHaveAll(sha, old(Snapshots(State())), Snapshots(State()), files); }
        ghost var filled := dirs;
        ok := RenameSnapshot(partial, id, w);
        OnlyChangedTwice(old(dirs), filled, dirs, id, partial);
      }
    }

    // ---- latest.json ----

    method PutLatestPartial(l: LatestFile, ghost w: Watch) returns (ok: bool)
      requires Shows(w)
      modifies this`clock, this`latestPartial, this`history
      ensures Shows(w) && old(history) <= history && old(clock) <= clock
      ensures latestPartial == l || (!ok && latestPartial == old(latestPartial))
      ensures Calm(old(clock)) ==> ok
    {
      var fault := Next();
      if fault.Fails? {
        return false;
      }
      if w.hyp { LatestIsGood(sha, State(), State().(latestPartial := l), w.latestToo); }
      latestPartial := l;
      Log(PartialSet(l), w);
      return fault.Works?;
    }

    method RemoveLatest(ghost w: Watch) returns (ok: bool)
      requires Shows(w)
      modifies this`clock, this`latest, this`history
      ensures Shows(w) && old(history) <= history && old(clock) <= clock
      ensures latest.Missing? || (!ok && latest == old(latest))
      ensures Calm(old(clock)) ==> ok
    {
      var fault := Next();
      if fault.Fails? {
        return false;
      }
      if w.hyp { LatestIsGood(sha, State(), State().(latest := Missing), w.latestToo); }
      latest := Missing;
      Log(LatestUnlinked, w);
      return fault.Works?;
    }

    /** rename_path again, from the partial file. */
    method RenameLatest(id: Name, ghost w: Watch) returns (ok: bool)
      requires Shows(w) && latestPartial == Names(id)
      requires w.hyp && w.latestToo ==> Listed(Snapshots(State()), id)
      modifies this`clock, this`latest, this`latestPartial, this`history
      ensures Shows(w) && old(history) <= history && old(clock) <= clock
      ensures (latest == Names(id) && latestPartial.Missing?) || (!ok && latest == old(latest) && latestPartial == old(latestPartial))
      ensures Calm(old(clock)) && old(latest).Missing? ==> ok
    {
      var fault := Next();
      if !fault.Fails? && latest.Missing? {
        if w.hyp { RenamedLatestIsGood(sha, State(), id, w.latestToo); }
        latest, latestPartial := latestPartial, Missing;
        Log(LatestMoved, w);
        if fault.Works? {
          return true;
        }
      }
      ok := Ask();
      ok := ok && latestPartial.Missing? && !latest.Missing?;
    }

    /** The partial file, the removal whose failure is ignored, and the rename. */
    method PublishLatest(id: Name, ghost w: Watch) returns (ok: bool)
      requires Shows(w) && (w.hyp && w.latestToo ==> Listed(Snapshots(State()), id))
      modifies this`clock, this`latest, this`latestPartial, this`history
      ensures Shows(w) && old(history) <= history && old(clock) <= clock
      ensures ok ==> latest == Names(id) && latestPartial.Missing?
      ensures !ok ==> latest == old(latest) || latest.Missing? || latest == Names(id)
      ensures Calm(old(clock)) ==> ok
    {
      ok := PutLatestPartial(Unreadable, w);
      if ok {
        ok := PutLatestPartial(Names(id), w);
      }
      if ok {
        var removed := RemoveLatest(w);
        assert Snapshots(State()) == old(Snapshots(State()));
        ok := RenameLatest(id, w);
      }
    }

    // ---- Upload ----

    /** One run through the command list. */
    method UploadOnce(local: Repo, id: Name, files: seq<FileEntry>, ghost w: Watch) returns (ok: bool)
      requires Shows(w) && Uploadable(local) && id == local.latest.value && files == local.dirs[id].files.value
      requires w.hyp ==> UploadSafe(sha, local, State())
      modifies this`clock, this`objects, this`dirs, this`latest, this`latestPartial, this`history
      ensures Shows(w) && old(history) <= history && old(clock) <= clock
      ensures w.hyp ==> UploadSafe(sha, local, State())
      ensures SameTargets(local.objects, old(objects), objects)
      ensures OnlyChanged(old(dirs), dirs, id, id + PARTIAL)
      ensures id in old(dirs) ==> !ok && id in dirs
      ensures ok ==> id in dirs && dirs[id] == SnapDir(Some(files), true) && latest == Names(id)
      ensures ok ==> forall d :: d in local.objects ==> Uploaded(local.objects, objects, d)
      ensures Calm(old(clock)) && id !in old(dirs) ==> ok
      ensures Reliable() && CollisionFree(sha) ==> Harmless(local.objects, old(Snapshots(State()))) || Broken(|old(history)| - 1)
    {
      ok := Ask();
      if ok {
        ok := PutObjects(local, w);
      } else {
        NoPut(local.objects, objects);
      }
      ghost var put := history;
      SameTargetsGood(sha, local.objects, old(objects), objects, files);
      if ok {
        TargetsInPlace(sha, local.objects, Snapshots(State()), files);
        ok := PublishAll(local.objects, id, files, w);
        TargetsInPlace(sha, local.objects, Snapshots(State()), files);
        BrokenGrows(sha, put, history, |old(history)| - 1);
      }
    }

    /** The snapshot, then latest.json. */
    method PublishAll(ghost ours: map<Digest, Bytes>, id: Name, files: seq<FileEntry>, ghost w: Watch) returns (ok: bool)
      requires Shows(w) && (w.hyp && id !in dirs ==> HasAll(sha, Snapshots(State()), files) && !IsPartial(id))
      modifies this`clock, this`dirs, this`latest, this`latestPartial, this`history
      ensures Shows(w) && old(history) <= history && old(clock) <= clock
      ensures OnlyChanged(old(dirs), dirs, id, id + PARTIAL)
      ensures id in old(dirs) ==> !ok && id in dirs
      ensures ok ==> id in dirs && dirs[id] == SnapDir(Some(files), true) && latest == Names(id)
      ensures Calm(old(clock)) && id !in old(dirs) ==> ok
    {
      ok := Publish(id, files, w);
      if ok {
        ok := PublishLatest(id, w);
      }
    }

    /** upload_latest_snapshot: plan, then run with retries from the start. */
    method Upload(local: Repo, maxAttempts: nat) returns (ok: bool)
      requires Valid()
      modifies this`clock, this`objects, this`dirs, this`latest, this`latestPartial, this`history
      ensures Valid() && old(history) <= history
      // Crash safety: if the upload is safe, every state of every attempt is good, and the
      // next upload is safe however this one ends.
      ensures Uploadable(local) && AllBacked(sha, old(Snapshots(State()))) && UploadSafe(sha, local, old(State())) ==>
        AllGood(sha, history, |old(history)| - 1, LatestNamesListed(old(State()))) && UploadSafe(sha, local, State())
      // A mirror that does not fail passes through good states only if the upload is safe.
      ensures Uploadable(local) && CollisionFree(sha) && Reliable() && AllGood(sha, history, |old(history)| - 1, true) ==>
        UploadSafe(sha, local, old(State()))
      // Uploads of correct objects leave only beginnings of correct objects.
      ensures AllNamed(sha, local) && Prefixes(sha, old(Snapshots(State()))) ==> Prefixes(sha, Snapshots(State()))
      ensures UploadEffect(local, old(State()), State(), Reliable(), ok)
      ensures !Uploadable(local) ==> history == old(history)
      // An upload that fails has met a failing operation in each of its attempts, unless
      // the snapshot is visible.
      ensures Uploadable(local) && !ok && local.latest.value !in dirs ==>
        Failures(faults, old(clock), clock) >= (if maxAttempts == 0 then 1 else maxAttempts)
    {
      if !Uploadable(local) {
        NoPut(local.objects, objects);
        return false;
      }
      ok := Attempts(local, maxAttempts);
      ghost var from := |old(history)| - 1;
      if ok && AllGood(sha, history, from, true) {
        assert Good(sha, history[|history| - 1], true);
        UnsafeShows(sha, local, old(State()), State());
      }
      GoodIsNotBroken(sha, history, from);
      if AllNamed(sha, local) && Prefixes(sha, old(Snapshots(State()))) {
        UploadKeepsPrefixes(sha, local, old(Snapshots(State())), Snapshots(State()));
      }
    }

    /** The retry loop. */
    method Attempts(local: Repo, maxAttempts: nat) returns (ok: bool)
      requires Valid() && Uploadable(local)
      modifies this`clock, this`objects, this`dirs, this`latest, this`latestPartial, this`history
      ensures Valid() && old(history) <= history
      ensures AllBacked(sha, old(Snapshots(State()))) && UploadSafe(sha, local, old(State())) ==>
        AllGood(sha, history, |old(history)| - 1, LatestNamesListed(old(State()))) && UploadSafe(sha, local, State())
      ensures Reliable() && CollisionFree(sha) ==> Harmless(local.objects, old(Snapshots(State()))) || Broken(|old(history)| - 1)
      ensures local.latest.value in old(dirs) ==> !ok
      ensures Reliable() && local.latest.value !in old(dirs) ==> ok
      ensures !ok && local.latest.value !in dirs ==> Failures(faults, old(clock), clock) >= (if maxAttempts == 0 then 1 else maxAttempts)
      ensures SameTargets(local.objects, old(objects), objects)
      ensures OnlyChanged(old(dirs), dirs, local.latest.value, local.latest.value + PARTIAL)
      ensures ok ==>
        && latest == Names(local.latest.value) && local.latest.value in dirs
        && dirs[local.latest.value] == SnapDir(local.dirs[local.latest.value].files, true)
        && (forall d :: d in local.objects ==> Uploaded(local.objects, objects, d))
    {
      var id := local.latest.value;
      var files := local.dirs[id].files.value;
      ghost var from := |history| - 1;
      ghost var w := Watch(from, AllBacked(sha, Snapshots(State())) && UploadSafe(sha, local, State()), LatestNamesListed(State()));
      assert Shows(w);
      NoPut(local.objects, objects);
      var attempt := 0;
      ok := false;
      while attempt == 0 || (!ok && attempt < maxAttempts)
        invariant Shows(w) && old(history) <= history && (w.hyp ==> UploadSafe(sha, local, State()))
        invariant old(clock) <= clock && (!ok && id !in dirs ==> Failures(faults, old(clock), clock) >= attempt)
        invariant SameTargets(local.objects, old(objects), objects)
        invariant OnlyChanged(old(dirs), dirs, id, id + PARTIAL)
        invariant attempt == 0 ==> State() == old(State()) && history == old(history)
        invariant id in old(dirs) ==> !ok && id in dirs
        invariant attempt > 0 && Reliable() && id !in old(dirs) ==> ok
        invariant attempt > 0 && Reliable() && CollisionFree(sha) ==> Harmless(local.objects, old(Snapshots(State()))) || Broken(from)
        invariant ok ==> id in dirs && dirs[id] == SnapDir(Some(files), true) && latest == Names(id)
        invariant ok ==> forall d :: d in local.objects ==> Uploaded(local.objects, objects, d)
        decreases maxAttempts + 1 - attempt
      {
        ghost var before, put, h, since := dirs, objects, history, clock;
        ok := UploadOnce(local, id, files, w);
        FailuresAdd(faults, old(clock), since, clock);
        OnlyChangedTwice(old(dirs), before, dirs, id, id + PARTIAL);
        SameTargetsTwice(local.objects, old(objects), put, objects);
        BrokenGrows(sha, h, history, from);
        attempt := attempt + 1;
      }
    }

    // ---- Remote deletion ----

    /** The directory's files go in name order, so COMPLETE goes first. */
    method RemoveSnapshotDir(id: Name, ghost w: Watch) returns (ok: bool)
      requires Shows(w) && id in dirs && dirs[id].complete && !IsPartial(id)
      requires w.latestToo ==> latest != Names(id)
      modifies this`clock, this`dirs, this`history
      ensures Shows(w) && old(history) <= history
      ensures OnlyChanged(old(dirs), dirs, id, id)
      ensures ok ==> dirs == old(dirs) - {id} && |history| > |old(history)| && !Listed(Snapshots(history[|old(history)|]), id) && history[|old(history)|].latest == old(latest)
      ensures Reliable() ==> ok
    {
      ok := PutIncomplete(id, dirs[id].(complete := false), MarkerSet(id, false), w);
      if !ok {
        return;
      }
      ghost var first := history;
      ok := PutIncomplete(id, EMPTY_DIR, FilesSet(id, None), w);
      if ok {
        ok := RemoveEmptyDir(id, w);
      }
      assert first <= history;
    }

    method PutIncomplete(id: Name, dir: SnapDir, ghost c: DirChange, ghost w: Watch) returns (ok: bool)
      requires Shows(w) && !dir.complete && (w.latestToo ==> latest != Names(id)) && ChangedDirs(dirs, c) == dirs[id := dir]
      modifies this`clock, this`dirs, this`history
      ensures Shows(w) && old(history) <= history
      ensures dirs == old(dirs)[id := dir] || (!ok && dirs == old(dirs))
      ensures ok ==> history == old(history) + [State()]
      ensures Reliable() ==> ok
    {
      var fault := Next();
      if fault.Fails? {
        return false;
      }
      if w.hyp { HiddenDirIsGood(sha, State(), id, dir, w.latestToo); }
      dirs := dirs[id := dir];
      Log(InDirectory(c), w);
      return fault.Works?;
    }

    method RemoveEmptyDir(id: Name, ghost w: Watch) returns (ok: bool)
      requires Shows(w) && (w.latestToo ==> latest != Names(id)) && id in dirs && dirs[id] == EMPTY_DIR
      modifies this`clock, this`dirs, this`history
      ensures Shows(w) && old(history) <= history
      ensures dirs == old(dirs) - {id} || (!ok && dirs == old(dirs))
      ensures Reliable() ==> ok
    {
      var fault := Next();
      if fault.Fails? {
        return false;
      }
      if w.hyp { RemovedDirIsGood(sha, State(), id, w.latestToo); }
      dirs := dirs - {id};
      Log(InDirectory(DirUnlinked(id)), w);
      return fault.Works?;
    }

    method DropObject(d: Digest, ghost w: Watch) returns (ok: bool)
      requires Shows(w) && !Referenced(Snapshots(State()), d)
      modifies this`clock, this`objects, this`history
      ensures Shows(w) && old(history) <= history
      ensures objects == old(objects) - {d} || (!ok && objects == old(objects))
      ensures Reliable() ==> ok
    {
      var fault := Next();
      if fault.Fails? {
        return false;
      }
      if w.hyp { DropIsGood(sha, State(), d, w.latestToo); }
      objects := objects - {d};
      Log(Unlinked(d), w);
      return fault.Works?;
    }

    method DropAll(ds: set<Digest>, ghost w: Watch) returns (ok: bool)
      requires Shows(w) && forall d :: d in ds ==> !Referenced(Snapshots(State()), d)
      modifies this`clock, this`objects, this`history
      ensures Shows(w) && old(history) <= history
      ensures ok ==> objects == old(objects) - ds
      ensures OnlyDropped(old(objects), objects)
      ensures Reliable() ==> ok
    {
      ghost var start := Snapshots(State());
      var os := ListSet(ds);
      for i := 0 to |os|
        invariant Shows(w) && old(history) <= history && dirs == start.dirs
        invariant objects == Without(start.objects, os[..i]) && OnlyDropped(start.objects, objects)
      {
        assert !Referenced(start, os[i]);
        SameDirsSameReferences(start, Snapshots(State()), os[i]);
        assert os[..i + 1][..i] == os[..i];
        ok := DropObject(os[i], w);
        if !ok {
          return;
        }
      }
      assert os[..|os|] == os;
      WithoutAll(start.objects, os, ds);
      return true;
    }

    /** The new latest.json after the latest snapshot was deleted. */
    method ReplaceLatest(newest: Option<Name>, ghost w: Watch) returns (ok: bool)
      requires Shows(w) && !w.latestToo
      modifies this`clock, this`latest, this`latestPartial, this`history
      ensures Shows(w) && old(history) <= history
      ensures ok ==> latest == if newest.None? then Missing else Names(newest.value)
      ensures Reliable() ==> ok
    {
      if newest.None? {
        ok := RemoveLatest(w);
        return;
      }
      ok := PutLatestPartial(Missing, w);
      if ok {
        ok := PutLatestPartial(Unreadable, w);
      }
      if ok {
        ok := PutLatestPartial(Names(newest.value), w);
      }
      if ok {
        ok := RemoveLatest(w);
      }
      if ok {
        ok := RenameLatest(newest.value, w);
      }
    }

    /** Metadata, then unreferenced objects, then latest.json. */
    method DeleteFound(id: Name, garbage: set<Digest>, newest: Option<Name>, ghost w: Watch) returns (ok: bool)
      requires Shows(w) && Listed(Snapshots(State()), id) && (w.latestToo ==> latest != Names(id))
      requires garbage !! ReferencedBy(Snapshots(State()), Some(id))
      modifies this`clock, this`objects, this`dirs, this`latest, this`latestPartial, this`history
      ensures Shows(w) && old(history) <= history
      ensures ok ==> dirs == old(dirs) - {id} && objects == old(objects) - garbage
      ensures OnlyDropped(old(objects), objects)
      ensures ok && old(latest) != Names(id) ==> latest == old(latest)
      ensures ok && old(latest) == Names(id) ==> latest == if newest.None? then Missing else Names(newest.value)
      ensures ok && old(latest) == Names(id) ==> |history| > |old(history)| && !LatestNamesListed(history[|old(history)|])
      ensures Reliable() ==> ok
    {
      ghost var start := Snapshots(State());
      ok := RemoveSnapshotDir(id, w);
      if !ok {
        return;
      }
      ghost var first := history;
      forall d | d in garbage
        ensures !Referenced(Snapshots(State()), d)
      {
        RemovedUnreferenced(start, Snapshots(State()), id, d);
      }
      ok := DropAll(garbage, w);
      if ok && latest == Names(id) {
        ok := ReplaceLatest(newest, w);
      }
      assert first <= history;
    }

    /** The mutating part of a remote deletion. */
    method DeleteListed(id: Name) returns (ok: bool)
      requires Valid() && Listed(Snapshots(State()), id)
      modifies this`clock, this`objects, this`dirs, this`latest, this`latestPartial, this`history
      ensures Valid() && old(history) <= history
      ensures Good(sha, old(State()), false) ==>
        AllGood(sha, history, |old(history)| - 1, LatestNamesListed(old(State())) && old(latest) != Names(id))
      ensures ok && old(latest) == Names(id) ==> |history| > |old(history)| && !LatestNamesListed(history[|old(history)|])
      ensures ok ==> Removed(old(State()), State(), id)
      ensures OnlyDropped(old(objects), objects)
      ensures Reliable() ==> ok
    {
      var newest := NewestOf(ListedNames(Snapshots(State())) - {id});
      var garbage := Garbage(Snapshots(State()), id);
      ghost var start := State();
      ghost var w := Watch(|history| - 1, Good(sha, start, false), LatestNamesListed(start) && latest != Names(id));
      assert Shows(w);
      ok := DeleteFound(id, garbage, newest, w);
      if ok {
        NamesAfterRemoval(Snapshots(start), Snapshots(State()), id);
        GarbageIsReclaimed(Snapshots(start), Snapshots(State()), id);
      }
    }

    /** delete_remote_backup_snapshot. */
    method Delete(id: Name, dryRun: bool) returns (result: DeleteResult)
      requires Valid()
      modifies this`clock, this`objects, this`dirs, this`latest, this`latestPartial, this`history
      ensures Valid() && old(history) <= history
      // No visible snapshot ever loses an object, wherever the deletion stops, and
      // latest.json keeps naming a visible one unless the deleted snapshot was the latest.
      ensures AllBacked(sha, old(Snapshots(State()))) ==>
        AllGood(sha, history, |old(history)| - 1, LatestNamesListed(old(State())) && old(latest) != Names(id))
      // In that case it dangles on the way.
      ensures result.Deleted? && old(latest) == Names(id) ==>
        |history| > |old(history)| && !LatestNamesListed(history[|old(history)|])
      // Which outcome: anything may fail; otherwise the state and the flag decide.
      ensures RemoveEffect(old(State()), State(), id, dryRun, Reliable(), result)
    {
      var ok := Ask();
      if !ok || latest.Unreadable? || !Deletable(Snapshots(State()), id) {
        return Failed;
      }
      if !Listed(Snapshots(State()), id) {
        return DeleteResult.NotFound;
      }
      if dryRun {
        return DeleteResult.DryRun;
      }
      ok := DeleteListed(id);
      return if ok then DeleteResult.Deleted else Failed;
    }
  }

  /** What an upload does to the mirror, however it ends. */
  ghost predicate UploadEffect(local: Repo, before: Remote, after: Remote, reliable: bool, ok: bool) {
    && SameTargets(local.objects, before.objects, after.objects)
    && (!Uploadable(local) ==> !ok && after == before)
    && (Uploadable(local) ==>
      var id := local.latest.value;
      && OnlyChanged(before.dirs, after.dirs, id, id + PARTIAL)
      && (id in before.dirs ==> !ok)
      && (reliable ==> (ok <==> id !in before.dirs))
      && (ok ==>
        && after.latest == Names(id) && id in after.dirs && after.dirs[id] == SnapDir(local.dirs[id].files, true)
        && (forall d :: d in local.objects ==> Uploaded(local.objects, after.objects, d))))
  }

  /** What a deletion does to the mirror, however it ends. */
  ghost predicate RemoveEffect(before: Remote, after: Remote, id: Name, dryRun: bool, reliable: bool, result: DeleteResult) {
    && OnlyDropped(before.objects, after.objects)
    && (result.DryRun? || result.NotFound? ==> after == before)
    && (result.Deleted? ==> Removed(before, after, id))
    && (result.Failed? || result == DeleteResultOf(before, id, dryRun))
    && (reliable ==> result == DeleteResultOf(before, id, dryRun))
  }

  lemma {:induction false} DropKeepsPrefixes(sha: Sha, before: Repo, after: Repo)
    requires Prefixes(sha, before) && OnlyDropped(before.objects, after.objects)
    ensures Prefixes(sha, after)
  {
    forall d | d in after.objects
      ensures BeginsNamed(sha, after.objects[d], d)
    {
      assert BeginsNamed(sha, before.objects[d], d);
    }
  }

  lemma {:induction false} NoPut(ours: map<Digest, Bytes>, objects: map<Digest, Bytes>)
    ensures SameTargets(ours, objects, objects)
  {
    forall d
      ensures SameTarget(ours, objects, objects, d)
    {
    }
  }

  /** The mirror without the snapshot, without the objects only it used, and with
      latest.json naming the newest snapshot left if it named the deleted one. */
  ghost predicate Removed(before: Remote, after: Remote, id: Name) {
    && id in before.dirs && after.dirs == before.dirs - {id}
    && after.objects == before.objects - Garbage(Snapshots(before), id) && Reclaimed(Snapshots(before), Snapshots(after), id)
    && (before.latest != Names(id) ==> after.latest == before.latest)
    && (before.latest == Names(id) ==> !after.latest.Unreadable? && IsNewest(ListedNames(Snapshots(after)), LatestName(after.latest)))
  }

  /** A finished deletion leaves latest.json in order. */
  lemma {:induction false} RemovedKeepsLatest(before: Remote, after: Remote, id: Name)
    requires Removed(before, after, id) && LatestNamesListed(before)
    ensures LatestNamesListed(after)
  {
    NamesAfterRemoval(Snapshots(before), Snapshots(after), id);
  }

  function DeleteResultOf(r: Remote, id: Name, dryRun: bool): DeleteResult {
    if r.latest.Unreadable? || id in {[], LATEST, [46], [46, 46]} || 47 in id || 92 in id || IsPartial(id) then Failed
    else if exists n :: n in r.dirs && Listed(Snapshots(r), n) && r.dirs[n].files.None? then Failed
    else if !Listed(Snapshots(r), id) then DeleteResult.NotFound
    else if dryRun then DeleteResult.DryRun
    else DeleteResult.Deleted
  }

  function LatestName(l: LatestFile): Option<Name> {
    if l.Names? then Some(l.name) else None
  }

  /** "latest" */
  const LATEST: Name := [108, 97, 116, 101, 115, 116]

  /** An exact backup id, and readable metadata for every visible snapshot. */
  predicate Deletable(r: Repo, id: Name) {
    && id != [] && id != LATEST && id != [46] && id != [46, 46] && 47 !in id && 92 !in id && !IsPartial(id)
    && forall n :: n in r.dirs && Listed(r, n) ==> r.dirs[n].files.Some?
  }

  ghost predicate SameDir(before: map<Name, SnapDir>, after: map<Name, SnapDir>, n: Name) {
    (n in after <==> n in before) && (n in before ==> after[n] == before[n])
  }

  ghost predicate OnlyChanged(before: map<Name, SnapDir>, after: map<Name, SnapDir>, a: Name, b: Name) {
    forall n :: n != a && n != b ==> SameDir(before, after, n)
  }

  lemma {:induction false} OnlyChangedTwice(before: map<Name, SnapDir>, middle: map<Name, SnapDir>, after: map<Name, SnapDir>, a: Name, b: Name)
    requires OnlyChanged(before, middle, a, b) && OnlyChanged(middle, after, a, b)
    ensures OnlyChanged(before, after, a, b)
  {
    forall n | n != a && n != b
      ensures SameDir(before, after, n)
    {
      assert SameDir(before, middle, n) && SameDir(middle, after, n);
    }
  }

  ghost predicate SameObject(before: map<Digest, Bytes>, after: map<Digest, Bytes>, d: Digest) {
    (d in after <==> d in before) && (d in before ==> after[d] == before[d])
  }

  /** The states of h from index `from` on are those of writing c to d, prefix by prefix. */
  ghost predicate Passes(h: seq<Remote>, from: nat, s: Remote, d: Digest, c: Bytes) {
    PassesTo(h, from, s, d, c, |c|)
  }

  ghost predicate PassesTo(h: seq<Remote>, from: nat, s: Remote, d: Digest, c: Bytes, k: nat) {
    forall m :: 0 <= m <= k ==> PassesAt(h, from, s, d, c, m)
  }

  lemma {:induction false} PassesMore(h: seq<Remote>, t: Remote, from: nat, s: Remote, d: Digest, c: Bytes, k: nat)
    requires PassesTo(h, from, s, d, c, k) && |h| == from + k + 1 && k < |c| && t == s.(objects := s.objects[d := c[..k + 1]])
    ensures PassesTo(h + [t], from, s, d, c, k + 1)
  {
    forall m | 0 <= m <= k + 1
      ensures PassesAt(h + [t], from, s, d, c, m)
    {
      if m <= k { assert PassesAt(h, from, s, d, c, m); }
    }
  }

  ghost predicate PassesAt(h: seq<Remote>, from: nat, s: Remote, d: Digest, c: Bytes, m: nat) {
    m <= |c| && from + m < |h| && h[from + m] == s.(objects := s.objects[d := c[..m]])
  }

  ghost predicate BrokenSince(sha: Sha, h: seq<Remote>, from: nat) {
    exists i :: from <= i < |h| && BrokenAt(sha, h, i)
  }

  ghost predicate BrokenAt(sha: Sha, h: seq<Remote>, i: nat)
    requires i < |h|
  {
    !AllBacked(sha, Snapshots(h[i]))
  }

  ghost predicate AllGood(sha: Sha, h: seq<Remote>, from: nat, latestToo: bool) {
    forall i :: from <= i < |h| ==> Good(sha, h[i], latestToo)
  }

  lemma {:induction false} GoodIsNotBroken(sha: Sha, h: seq<Remote>, from: nat)
    ensures AllGood(sha, h, from, true) ==> !BrokenSince(sha, h, from)
  {
  }

  lemma {:induction false} BrokenEarlier(sha: Sha, h: seq<Remote>, from: nat, later: nat)
    requires from <= later && BrokenSince(sha, h, later)
    ensures BrokenSince(sha, h, from)
  {
    var i :| later <= i < |h| && BrokenAt(sha, h, i);
    assert from <= i;
  }

  lemma {:induction false} BrokenGrows(sha: Sha, h: seq<Remote>, more: seq<Remote>, from: nat)
    requires h <= more
    ensures BrokenSince(sha, h, from) ==> BrokenSince(sha, more, from)
  {
    if BrokenSince(sha, h, from) {
      var i :| from <= i < |h| && BrokenAt(sha, h, i);
      assert BrokenAt(sha, more, i);
    }
  }

  /** Rewriting an object that a visible snapshot needs, at another size, shows in the
      history, whatever was going on before. */
  lemma {:induction false} RewriteBreaks(sha: Sha, h: seq<Remote>, from: nat, before: Remote, start: Repo, d: Digest, c: Bytes)
    requires CollisionFree(sha) && 0 < from <= |h| && h[from - 1] == before
    requires start.dirs == before.dirs && SameObject(start.objects, before.objects, d)
    requires d in start.objects && |start.objects[d]| != |c| && Referenced(start, d) && Passes(h, from, before, d, c)
    ensures BrokenSince(sha, h, from - 1)
  {
    var r := Snapshots(before);
    SameDirsSameReferences(start, r, d);
    if AllBacked(sha, r) {
      WriteIsHarmlessExactly(sha, r, d, c);
      var m :| 0 <= m <= |c| && !AllBacked(sha, r.(objects := r.objects[d := c[..m]]));
      assert PassesAt(h, from, before, d, c, m);
      assert Snapshots(h[from + m]) == r.(objects := r.objects[d := c[..m]]);
      assert BrokenAt(sha, h, from + m);
    } else {
      assert BrokenAt(sha, h, from - 1);
    }
  }

  /** What uploading one object leaves alone. */
  lemma {:induction false} PutKeeps(ours: map<Digest, Bytes>, before: Remote, after: Remote, d: Digest)
    requires d in ours && PartlyPut(before.objects, after.objects, d, ours[d]) && after.dirs == before.dirs
    ensures SameTargets(ours, before.objects, after.objects)
    ensures forall e :: Uploaded(ours, before.objects, e) ==> Uploaded(ours, after.objects, e)
    ensures forall e :: e != d ==> SameObject(before.objects, after.objects, e)
    ensures Harmless(ours, Snapshots(before)) && (d !in before.objects ==> !Referenced(Snapshots(before), d)) ==> Harmless(ours, Snapshots(after))
  {
    PartlyPutTargets(ours, before.objects, after.objects, d);
    if Harmless(ours, Snapshots(before)) && (d !in before.objects ==> !Referenced(Snapshots(before), d)) {
      forall e | e in ours
        ensures HarmlessAt(ours, Snapshots(after), e)
      {
        assert HarmlessAt(ours, Snapshots(before), e);
        SameDirsSameReferences(Snapshots(before), Snapshots(after), e);
      }
    }
  }

  lemma {:induction false} HarmlessPut(sha: Sha, ours: map<Digest, Bytes>, r: Repo, d: Digest)
    requires Harmless(ours, r) && AllBacked(sha, r) && d in ours
    ensures (d in r.objects && |r.objects[d]| == |ours[d]|) || !Referenced(r, d)
  {
    assert HarmlessAt(ours, r, d);
    if d !in r.objects { AbsentUnreferenced(sha, r, d); }
  }

  /** Either a state from `from` on is broken, or the first i objects were harmless. */
  ghost predicate Accounted(sha: Sha, ours: map<Digest, Bytes>, start: Repo, os: seq<Digest>, i: nat, h: seq<Remote>, from: nat)
    requires i <= |os|
  {
    BrokenSince(sha, h, from) || forall k :: 0 <= k < i ==> HarmlessAt(ours, start, os[k])
  }

  /** The first i objects have been put. */
  ghost predicate PutSoFar(sha: Sha, ours: map<Digest, Bytes>, start: Repo, now: Repo, os: seq<Digest>, i: nat, h: seq<Remote>, from: nat)
    requires i <= |os|
  {
    && now.dirs == start.dirs && SameTargets(ours, start.objects, now.objects)
    && (forall k :: 0 <= k < i ==> Uploaded(ours, now.objects, os[k]))
    && (forall k :: i <= k < |os| ==> SameObject(start.objects, now.objects, os[k]))
    && (CollisionFree(sha) ==> Accounted(sha, ours, start, os, i, h, from))
  }

  lemma {:induction false} NothingPut(sha: Sha, ours: map<Digest, Bytes>, start: Repo, os: seq<Digest>, h: seq<Remote>, from: nat)
    ensures PutSoFar(sha, ours, start, start, os, 0, h, from)
  {
    NoPut(ours, start.objects);
  }

  /** A put that went through shows a broken state, or the object was harmless. */
  lemma {:induction false} PutShows(sha: Sha, ours: map<Digest, Bytes>, start: Repo, before: Remote, d: Digest, h: seq<Remote>, at: nat, from: nat)
    requires CollisionFree(sha) && d in ours && from < at <= |h| && h[at - 1] == before
    requires start.dirs == before.dirs && SameObject(start.objects, before.objects, d)
    requires !(d in before.objects && |before.objects[d]| == |ours[d]|) ==> Passes(h, at, before, d, ours[d])
    ensures BrokenSince(sha, h, from) || HarmlessAt(ours, start, d)
  {
    if !HarmlessAt(ours, start, d) {
      RewriteBreaks(sha, h, at, before, start, d, ours[d]);
      BrokenEarlier(sha, h, from, at - 1);
    }
  }

  lemma {:induction false} PutMore(sha: Sha, ours: map<Digest, Bytes>, start: Repo, before: Remote, after: Remote, os: seq<Digest>, i: nat,
                                   h: seq<Remote>, more: seq<Remote>, from: nat)
    requires i < |os| && Lists(os, ours.Keys) && PutSoFar(sha, ours, start, Snapshots(before), os, i, h, from)
    requires h <= more && from < |h| && h[|h| - 1] == before && after.dirs == before.dirs && os[i] in ours
    requires PartlyPut(before.objects, after.objects, os[i], ours[os[i]]) && Uploaded(ours, after.objects, os[i])
    requires !(os[i] in before.objects && |before.objects[os[i]]| == |ours[os[i]]|) ==> Passes(more, |h|, before, os[i], ours[os[i]])
    ensures PutSoFar(sha, ours, start, Snapshots(after), os, i + 1, more, from)
  {
    PutKeeps(ours, before, after, os[i]);
    SameTargetsTwice(ours, start.objects, before.objects, after.objects);
    PutMoreObjects(ours, start.objects, before.objects, after.objects, os, i);
    if CollisionFree(sha) {
      BrokenGrows(sha, h, more, from);
      PutShows(sha, ours, start, before, os[i], more, |h|, from);
    }
  }

  lemma {:induction false} PutMoreObjects(ours: map<Digest, Bytes>, start: map<Digest, Bytes>, before: map<Digest, Bytes>, after: map<Digest, Bytes>,
                                          os: seq<Digest>, i: nat)
    requires i < |os| && Lists(os, ours.Keys) && Uploaded(ours, after, os[i])
    requires forall k :: 0 <= k < i ==> Uploaded(ours, before, os[k])
    requires forall k :: i <= k < |os| ==> SameObject(start, before, os[k])
    requires forall e :: Uploaded(ours, before, e) ==> Uploaded(ours, after, e)
    requires forall e :: e != os[i] ==> SameObject(before, after, e)
    ensures forall k :: 0 <= k < i + 1 ==> Uploaded(ours, after, os[k])
    ensures forall k :: i + 1 <= k < |os| ==> SameObject(start, after, os[k])
  {
    forall k | i + 1 <= k < |os|
      ensures SameObject(start, after, os[k])
    {
      assert os[k] != os[i];
      assert SameObject(start, before, os[k]) && SameObject(before, after, os[k]);
    }
  }

  lemma {:induction false} RenamedLatestIsGood(sha: Sha, r: Remote, id: Name, latestToo: bool)
    requires Good(sha, r, latestToo) && (latestToo ==> Listed(Snapshots(r), id))
    ensures Good(sha, r.(latest := Names(id), latestPartial := Missing), latestToo)
  {
    assert Snapshots(r.(latest := Names(id), latestPartial := Missing)) == Snapshots(r);
  }

  // ---- Whole runs ------------------------------------------------------------

  datatype MirrorOperation =
    | Uploading(local: Repo, maxAttempts: nat)
    | Removing(id: Name, dryRun: bool)

  ghost predicate MirrorPerforms(op: MirrorOperation, before: Remote, after: Remote, reliable: bool) {
    match op
    case Uploading(local, _) => exists ok :: UploadEffect(local, before, after, reliable, ok)
    case Removing(id, dryRun) => exists result :: RemoveEffect(before, after, id, dryRun, reliable, result)
  }

  /** The history runs through the operations one after the other. */
  ghost predicate MirrorExecutes(ops: seq<MirrorOperation>, h: seq<Remote>, reliable: bool)
    decreases |ops|, 1
  {
    if ops == [] then |h| == 1 else exists m :: MirrorExecutesTo(ops, h, reliable, m)
  }

  ghost predicate MirrorExecutesTo(ops: seq<MirrorOperation>, h: seq<Remote>, reliable: bool, m: nat)
    requires ops != []
    decreases |ops|, 0
  {
    && 0 < m <= |h| && MirrorExecutes(ops[..|ops| - 1], h[..m], reliable)
    && MirrorPerforms(ops[|ops| - 1], h[m - 1], h[|h| - 1], reliable)
  }

  lemma {:induction false} MirrorExecutesMore(ops: seq<MirrorOperation>, op: MirrorOperation, h: seq<Remote>, more: seq<Remote>, reliable: bool)
    requires h != [] && MirrorExecutes(ops, h, reliable) && h <= more && MirrorPerforms(op, h[|h| - 1], more[|more| - 1], reliable)
    ensures MirrorExecutes(ops + [op], more, reliable)
  {
    assert (ops + [op])[..|ops|] == ops && more[..|h|] == h;
    assert MirrorExecutesTo(ops + [op], more, reliable, |h|);
  }

  /** A repository whose objects all carry their hash and whose latest snapshot is whole. */
  ghost predicate CorrectSource(sha: Sha, local: Repo) {
    AllNamed(sha, local) && (Uploadable(local) ==> Backed(sha, local, local.latest.value))
  }

  ghost predicate CorrectSources(sha: Sha, ops: seq<MirrorOperation>) {
    forall k :: 0 <= k < |ops| && ops[k].Uploading? ==> CorrectSource(sha, ops[k].local)
  }

  ghost predicate OnlyUploads(ops: seq<MirrorOperation>) {
    forall k :: 0 <= k < |ops| ==> ops[k].Uploading?
  }

  /** The start from which runs are safe: every visible snapshot backed, and beginnings of
      correct objects only. */
  ghost predicate SoundMirror(sha: Sha, r: Remote) {
    AllBacked(sha, Snapshots(r)) && Prefixes(sha, Snapshots(r))
  }

  lemma {:induction false} AllGoodJoins(sha: Sha, h: seq<Remote>, more: seq<Remote>, latestToo: bool, later: bool)
    requires h != [] && h <= more && AllGood(sha, h, 0, latestToo) && AllGood(sha, more, |h| - 1, later)
    ensures AllGood(sha, more, 0, latestToo && later)
  {
    forall i | 0 <= i < |more|
      ensures Good(sha, more[i], latestToo && later)
    {
      if i < |h| { assert Good(sha, h[i], latestToo); } else { assert Good(sha, more[i], later); }
    }
  }

  /** Any sequence of uploads, from any repositories, and of deletions, under any faults.
      Started soundly and fed from correct repositories, every visible snapshot is backed
      in every state; without deletions latest.json is right in every state too. */
  method RunMirror(sha: Sha, faults: nat -> Fault, start: Remote, ops: seq<MirrorOperation>) returns (end: Remote, ghost history: seq<Remote>)
    ensures history != [] && history[0] == start && history[|history| - 1] == end
    ensures MirrorExecutes(ops, history, NeverFails(faults)) && SingleRemoteChanges(history)
    ensures CollisionFree(sha) && SoundMirror(sha, start) && CorrectSources(sha, ops) ==>
      SoundMirror(sha, end) && AllGood(sha, history, 0, LatestNamesListed(start) && OnlyUploads(ops))
  {
    var mirror := new RemoteMirror(sha, faults, start);
    RunMirrorAll(mirror, ops);
    end, history := mirror.State(), mirror.history;
  }

  method RunMirrorAll(mirror: RemoteMirror, ops: seq<MirrorOperation>)
    requires mirror.Valid() && |mirror.history| == 1
    modifies mirror
    ensures mirror.Valid() && old(mirror.history) <= mirror.history
    ensures MirrorExecutes(ops, mirror.history, mirror.Reliable())
    ensures CollisionFree(mirror.sha) && SoundMirror(mirror.sha, old(mirror.State())) && CorrectSources(mirror.sha, ops) ==>
      SoundMirror(mirror.sha, mirror.State()) && AllGood(mirror.sha, mirror.history, 0, LatestNamesListed(old(mirror.State())) && OnlyUploads(ops))
  {
    if ops != [] {
      var front, op := ops[..|ops| - 1], ops[|ops| - 1];
      assert ops == front + [op];
      RunMirrorAll(mirror, front);
      ghost var h, latestToo := mirror.history, LatestNamesListed(old(mirror.State())) && OnlyUploads(front);
      RunMirrorOne(mirror, op);
      MirrorExecutesMore(front, op, h, mirror.history, mirror.Reliable());
      if CollisionFree(mirror.sha) && SoundMirror(mirror.sha, old(mirror.State())) && CorrectSources(mirror.sha, ops) {
        assert op.Uploading? ==> CorrectSource(mirror.sha, op.local);
        assert Good(mirror.sha, h[|h| - 1], latestToo);
        AllGoodJoins(mirror.sha, h, mirror.history, latestToo, latestToo && op.Uploading?);
      }
    }
  }

  method RunMirrorOne(mirror: RemoteMirror, op: MirrorOperation)
    requires mirror.Valid()
    modifies mirror
    ensures mirror.Valid() && old(mirror.history) <= mirror.history
    ensures MirrorPerforms(op, old(mirror.State()), mirror.State(), mirror.Reliable())
    ensures CollisionFree(mirror.sha) && SoundMirror(mirror.sha, old(mirror.State())) && (op.Uploading? ==> CorrectSource(mirror.sha, op.local)) ==>
      && SoundMirror(mirror.sha, mirror.State())
      && AllGood(mirror.sha, mirror.history, |old(mirror.history)| - 1, LatestNamesListed(old(mirror.State())) && op.Uploading?)
  {
    match op
    case Uploading(local, maxAttempts) =>
      if Uploadable(local) && CollisionFree(mirror.sha) && SoundMirror(mirror.sha, mirror.State()) && CorrectSource(mirror.sha, local) {
        CorrectObjectsAreSafe(mirror.sha, local, mirror.State());
      }
      var ok := mirror.Upload(local, maxAttempts);
      assert mirror.history[|mirror.history| - 1] == mirror.State();
    case Removing(id, dryRun) =>
      ghost var before := mirror.State();
      var result := mirror.Delete(id, dryRun);
      assert mirror.history[|mirror.history| - 1] == mirror.State();
      if SoundMirror(mirror.sha, before) { DropKeepsPrefixes(mirror.sha, Snapshots(before), Snapshots(mirror.State())); }
  }
}
