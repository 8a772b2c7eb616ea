/**
  From journal payloads to the candidates of the audit, and the audit's verdict about the
  payloads themselves (tools/state_delta_replay_audit.cpp).
 */
module AuditCandidates {
  import opened Options
  import opened Bytes
  import opened DeltaReplay
  import opened AuditWalk
  import AuditVerdict
  import JournalCodec

  /** Protobuf fields and the Merkle tree. */
  datatype Reader<!H, !R> = Reader(
    proto: JournalCodec.Proto<H, R>,
    height: H -> nat, previous: H -> Bytes, previousRoot: H -> Bytes,
    receiptHeight: R -> nat, receiptId: R -> Bytes, receiptRoot: R -> Bytes, entries: R -> seq<Entry>,
    merkle: Merkle)

  /** The candidate carries the record's fields, a serialized root and a simulated root of
      its entries, and their duplicate census. */
  ghost predicate Describes<H, R>(rd: Reader<H, R>, record: JournalCodec.Record<H, R>, c: Candidate) {
    var entries := rd.entries(record.receipt);
    && c.blockId == record.blockId && c.height == rd.height(record.header)
    && c.previous == rd.previous(record.header) && c.previousRoot == rd.previousRoot(record.header)
    && c.receiptHeight == rd.receiptHeight(record.receipt) && c.receiptId == rd.receiptId(record.receipt)
    && c.receiptRoot == rd.receiptRoot(record.receipt) && c.entries == entries
    && IsRoot(rd.merkle, entries, c.computedRoot) && IsSimulatedRoot(rd.merkle, entries, c.replayedRoot)
    && c.duplicateKeys == |DuplicateKeys(entries)| && (c.duplicateKeys == 0 <==> DistinctKeys(entries))
    && c.duplicateEntries == if DistinctKeys(entries) then 0 else |entries| - |KeySet(entries)|
  }

  /** None stands for a payload that does not decode. */
  ghost predicate Analyzed<H, R>(rd: Reader<H, R>, payload: Bytes, c: Option<Candidate>) {
    match JournalCodec.Decode(rd.proto, payload)
    case Err(_) => c == None
    case Ok(record) => c.Some? && Describes(rd, record, c.value)
  }

  ghost predicate AnalyzedAll<H, R>(rd: Reader<H, R>, payloads: seq<Bytes>, cs: seq<Option<Candidate>>) {
    |cs| == |payloads| && forall i :: 0 <= i < |cs| ==> AnalyzedIn(rd, payloads, cs, i)
  }

  ghost predicate AnalyzedIn<H, R>(rd: Reader<H, R>, payloads: seq<Bytes>, cs: seq<Option<Candidate>>, i: nat)
    requires i < |payloads| && i < |cs|
  {
    Analyzed(rd, payloads[i], cs[i])
  }

  /** The journal of candidates belongs to the payloads, height by height. */
  ghost predicate IsJournal<H, R>(rd: Reader<H, R>, payloads: seq<seq<Bytes>>, j: Journal) {
    |j| == |payloads| && forall h :: 0 <= h < |j| ==> AnalyzedHeight(rd, payloads, j, h)
  }

  ghost predicate AnalyzedHeight<H, R>(rd: Reader<H, R>, payloads: seq<seq<Bytes>>, j: Journal, h: nat)
    requires h < |payloads| && h < |j|
  {
    AnalyzedAll(rd, payloads[h], j[h])
  }

  /** What a worker does with one payload. */
  method AnalyzePayload<H, R>(rd: Reader<H, R>, payload: Bytes) returns (c: Option<Candidate>)
    ensures Analyzed(rd, payload, c)
  {
    var decoded := JournalCodec.DecodeRecord(rd.proto, payload);
    if decoded.Err? {
      return None;
    }
    var record := decoded.record;
    var entries := rd.entries(record.receipt);
    var computed := ComputeRoot(rd.merkle, entries);
    var a := AnalyzeReplayed(rd.merkle, entries, Some(computed));
    return Some(Candidate(
      record.blockId, rd.height(record.header), rd.previous(record.header), rd.previousRoot(record.header),
      rd.receiptHeight(record.receipt), rd.receiptId(record.receipt), rd.receiptRoot(record.receipt), entries,
      computed, a.root, a.duplicateKeys, a.duplicateEntries));
  }

  method AnalyzeHeight<H, R>(rd: Reader<H, R>, payloads: seq<Bytes>) returns (cs: seq<Option<Candidate>>)
    ensures AnalyzedAll(rd, payloads, cs)
  {
    cs := [];
    for i := 0 to |payloads|
      invariant |cs| == i && forall k :: 0 <= k < i ==> AnalyzedIn(rd, payloads, cs, k)
    {
      var c := AnalyzePayload(rd, payloads[i]);
      ghost var before := cs;
      cs := cs + [c];
      forall k | 0 <= k < i + 1
        ensures AnalyzedIn(rd, payloads, cs, k)
      {
        if k < i { assert AnalyzedIn(rd, payloads, before, k); }
      }
    }
  }

  method AnalyzeJournal<H, R>(rd: Reader<H, R>, payloads: seq<seq<Bytes>>) returns (j: Journal)
    ensures IsJournal(rd, payloads, j)
  {
    j := [];
    for h := 0 to |payloads|
      invariant |j| == h && forall g :: 0 <= g < h ==> AnalyzedHeight(rd, payloads, j, g)
    {
      var cs := AnalyzeHeight(rd, payloads[h]);
      ghost var before := j;
      j := j + [cs];
      forall g | 0 <= g < h + 1
        ensures AnalyzedHeight(rd, payloads, j, g)
      {
        if g < h { assert AnalyzedHeight(rd, payloads, before, g); }
      }
    }
  }

  // ---- Soundness about the payloads --------------------------------------------

  /** The root of a record is explained by its replay: simulating its entries can only
      give the root its child signed, or it repeats keys and its serialized root is the
      signed one, or the simulated root is an exact known exception. */
  ghost predicate ReplayExplains<H, R>(rd: Reader<H, R>, env: Env, height: nat, record: JournalCodec.Record<H, R>, signed: Bytes) {
    var entries := rd.entries(record.receipt);
    || (forall root :: IsSimulatedRoot(rd.merkle, entries, root) ==> root == signed)
    || (!DistinctKeys(entries) && IsRoot(rd.merkle, entries, signed))
    || (exists k :: KnownException(env, k, height) && ExceptionExplains(rd, k, record, signed))
  }

  /** The record, a root its simulation can give and the signed root are exactly the
      exception's. */
  ghost predicate ExceptionExplains<H, R>(rd: Reader<H, R>, k: HistoricalCase, record: JournalCodec.Record<H, R>, signed: Bytes) {
    exists root :: IsSimulatedRoot(rd.merkle, rd.entries(record.receipt), root) && Fingerprint(k, record.blockId, root, signed)
  }

  ghost predicate KnownException(env: Env, k: HistoricalCase, height: nat) {
    k in env.cases && k.height == height && k.kind != ReplayableTombstone
  }

  lemma {:induction false} ExplainedByReplay<H, R>(rd: Reader<H, R>, env: Env, height: nat, record: JournalCodec.Record<H, R>, c: Candidate, signed: Bytes)
    requires Describes(rd, record, c) && Explained(env, height, c, signed)
    ensures ReplayExplains(rd, env, height, record, signed)
  {
    var entries := rd.entries(record.receipt);
    if c.replayedRoot == signed {
      forall root | IsSimulatedRoot(rd.merkle, entries, root)
        ensures root == signed
      {
        SimulatedRootUnique(rd.merkle, entries, root, c.replayedRoot);
      }
    } else if !(c.duplicateKeys != 0 && c.computedRoot == signed) {
      var k :| k in env.cases && k.height == height && k.kind != ReplayableTombstone && Fingerprint(k, c.blockId, c.replayedRoot, signed);
      assert KnownException(env, k, height) && ExceptionExplains(rd, k, record, signed);
    }
  }

  /** The selected block c is the record of one of the payloads at its height: the one the
      block above it names, and whose replay explains the root that block signed. */
  ghost predicate Sound<H, R>(rd: Reader<H, R>, env: Env, payloads: seq<Bytes>, height: nat, c: Candidate, above: Option<Candidate>) {
    exists i :: 0 <= i < |payloads| && IsSoundAt(rd, env, payloads, height, c, above, i)
  }

  ghost predicate IsSoundAt<H, R>(rd: Reader<H, R>, env: Env, payloads: seq<Bytes>, height: nat, c: Candidate, above: Option<Candidate>, i: nat)
    requires i < |payloads|
  {
    SoundPayload(rd, env, payloads[i], height, c, above)
  }

  ghost predicate SoundPayload<H, R>(rd: Reader<H, R>, env: Env, payload: Bytes, height: nat, c: Candidate, above: Option<Candidate>) {
    match JournalCodec.Decode(rd.proto, payload)
    case Err(_) => false
    case Ok(record) =>
      && Describes(rd, record, c) && rd.height(record.header) == height
      && (above.Some? ==> record.blockId == above.value.previous && ReplayExplains(rd, env, height, record, above.value.previousRoot))
  }

  function Above(sel: seq<Candidate>, k: nat): Option<Candidate>
    requires k < |sel|
  {
    if k == 0 then None else Some(sel[k - 1])
  }

  lemma {:induction false} CandidateIsSound<H, R>(rd: Reader<H, R>, env: Env, payload: Bytes, height: nat, c: Candidate, above: Option<Candidate>)
    requires Analyzed(rd, payload, Some(c)) && c.height == height
    requires above.Some? ==> c.blockId == above.value.previous && Explained(env, height, c, above.value.previousRoot)
    ensures SoundPayload(rd, env, payload, height, c, above)
  {
    var record := JournalCodec.Decode(rd.proto, payload).record;
    if above.Some? { ExplainedByReplay(rd, env, height, record, c, above.value.previousRoot); }
  }

  lemma {:induction false} AnalyzedAt<H, R>(rd: Reader<H, R>, payloads: seq<seq<Bytes>>, j: Journal, h: nat, c: Candidate) returns (i: nat)
    requires IsJournal(rd, payloads, j) && h < |j| && Some(c) in j[h]
    ensures i < |payloads[h]| && Analyzed(rd, payloads[h][i], Some(c))
  {
    assert AnalyzedHeight(rd, payloads, j, h);
    i :| 0 <= i < |j[h]| && j[h][i] == Some(c);
    assert AnalyzedIn(rd, payloads[h], j[h], i);
  }

  lemma {:induction false} SelectedIsSound<H, R>(rd: Reader<H, R>, env: Env, payloads: seq<seq<Bytes>>, j: Journal, h: nat, c: Candidate, above: Option<Candidate>)
    requires IsJournal(rd, payloads, j) && h < |j| && Some(c) in j[h] && c.height == h
    requires above.Some? ==> c.blockId == above.value.previous && Explained(env, h, c, above.value.previousRoot)
    ensures Sound(rd, env, payloads[h], h, c, above)
  {
    var i := AnalyzedAt(rd, payloads, j, h, c);
    CandidateIsSound(rd, env, payloads[h][i], h, c, above);
    assert IsSoundAt(rd, env, payloads[h], h, c, above, i);
  }

  lemma {:induction false} ChainFacts(env: Env, j: Journal, end: nat, sel: seq<Candidate>, k: nat)
    requires Chain(env, j, end, sel) && k < |sel|
    ensures k <= end < |j| && Some(sel[k]) in j[end - k] && sel[k].height == end - k
    ensures k > 0 ==> sel[k].blockId == sel[k - 1].previous && Explained(env, end - k, sel[k], sel[k - 1].previousRoot)
  {
    assert Linked(env, j, end, sel, k);
  }

  /** Every selected block is sound. */
  ghost predicate AllSound<H, R>(rd: Reader<H, R>, env: Env, payloads: seq<seq<Bytes>>, end: nat, sel: seq<Candidate>) {
    && end < |payloads| && |sel| <= end + 1
    && forall k {:trigger Above(sel, k)} :: 0 <= k < |sel| ==> Sound(rd, env, payloads[end - k], end - k, sel[k], Above(sel, k))
  }

  lemma {:induction false} SoundAt<H, R>(rd: Reader<H, R>, env: Env, payloads: seq<seq<Bytes>>, j: Journal, end: nat, sel: seq<Candidate>, k: nat)
    requires IsJournal(rd, payloads, j) && Chain(env, j, end, sel) && k < |sel| && k <= end < |j|
    ensures Sound(rd, env, payloads[end - k], end - k, sel[k], Above(sel, k))
  {
    ChainFacts(env, j, end, sel, k);
    SelectedIsSound(rd, env, payloads, j, end - k, sel[k], Above(sel, k));
  }

  lemma {:induction false} ChainIsSound<H, R>(rd: Reader<H, R>, env: Env, payloads: seq<seq<Bytes>>, j: Journal, end: nat, sel: seq<Candidate>)
    requires IsJournal(rd, payloads, j) && Chain(env, j, end, sel) && end < |j| && |sel| <= end + 1
    ensures AllSound(rd, env, payloads, end, sel)
  {
    forall k | 0 <= k < |sel|
      ensures Sound(rd, env, payloads[end - k], end - k, sel[k], Above(sel, k))
    {
      SoundAt(rd, env, payloads, j, end, sel, k);
    }
  }

  lemma {:induction false} TipIsHead(env: Env, j: Journal, end: nat, sel: seq<Candidate>)
    requires Chain(env, j, end, sel) && sel != [] && env.fullAudit
    ensures sel[0].blockId == env.sourceHeadId
  {
    assert Linked(env, j, end, sel, 0);
  }

  /** What a clean audit says about the payloads: the selected records are the ancestors
      of the tip, down to genesis if it started there, replaying each explains the root its
      child signed, and the accepted counters account for every block but the tip. */
  ghost predicate CleanVerdict<H, R>(rd: Reader<H, R>, env: Env, payloads: seq<seq<Bytes>>, start: nat, end: nat, r: Walk)
    requires 0 < start <= end
  {
    && |r.selected| == end - start + 1 == r.stats.blocksChecked && Accepted(r.stats) == r.stats.blocksChecked - 1
    && (env.fullAudit ==> r.selected[0].blockId == env.sourceHeadId)
    && AllSound(rd, env, payloads, end, r.selected)
    && (start == 1 ==> var last := r.selected[end - start]; last.previous == env.zeroHash && last.previousRoot == env.zeroHash)
  }

  lemma {:induction false} CleanAuditOfPayloads<H, R>(rd: Reader<H, R>, env: Env, payloads: seq<seq<Bytes>>, j: Journal, start: nat, end: nat, w: Walk, r: Walk)
    requires IsJournal(rd, payloads, j) && 0 < start <= end < |j| && Fresh(w)
    requires Audit(env, j, start, end, w) == Some(r) && !HasFailures(r.stats)
    ensures CleanVerdict(rd, env, payloads, start, end, r)
  {
    CleanAuditIsSound(env, j, start, end, w, r);
    VerdictOfChain(rd, env, payloads, j, start, end, r);
  }

  lemma {:induction false} VerdictOfChain<H, R>(rd: Reader<H, R>, env: Env, payloads: seq<seq<Bytes>>, j: Journal, start: nat, end: nat, r: Walk)
    requires IsJournal(rd, payloads, j) && 0 < start <= end < |j| && Chain(env, j, end, r.selected)
    requires |r.selected| == end - start + 1 == r.stats.blocksChecked && Accepted(r.stats) == r.stats.blocksChecked - 1
    requires start == 1 ==> var last := r.selected[|r.selected| - 1]; last.previous == env.zeroHash && last.previousRoot == env.zeroHash
    ensures CleanVerdict(rd, env, payloads, start, end, r)
  {
    ChainIsSound(rd, env, payloads, j, end, r.selected);
    if env.fullAudit { TipIsHead(env, j, end, r.selected); }
  }

  /** The known cases, and the tip and hash the chain is checked against. */
  datatype Settings = Settings(cases: seq<HistoricalCase>, fullAudit: bool, sourceHeadId: Bytes, zeroHash: Bytes)

  /** The walk simulates with the Merkle tree that the payloads are analyzed with. */
  function EnvOf<H, R>(rd: Reader<H, R>, s: Settings): Env {
    Env(s.cases, s.fullAudit, s.sourceHeadId, s.zeroHash, rd.merkle, SimulationOf(rd.merkle))
  }

  ghost function SimulationOf(m: Merkle): seq<Entry> -> Bytes {
    (entries: seq<Entry>) => SimulatedRoot(m, entries)
  }

  lemma {:induction false} EnvSimulates<H, R>(rd: Reader<H, R>, s: Settings)
    ensures Simulates(EnvOf(rd, s))
  {
    forall entries
      ensures SimulatesAt(EnvOf(rd, s), entries)
    {
    }
  }

  /** The result is the audit of a journal of the payloads, and so its verdict. */
  ghost predicate Judged<H, R>(rd: Reader<H, R>, settings: Settings, payloads: seq<seq<Bytes>>, start: nat, end: nat, r: Option<Walk>) {
    exists j :: JudgedBy(rd, settings, payloads, start, end, r, j)
  }

  ghost predicate JudgedBy<H, R>(rd: Reader<H, R>, settings: Settings, payloads: seq<seq<Bytes>>, start: nat, end: nat, r: Option<Walk>, j: Journal) {
    && IsJournal(rd, payloads, j) && 0 < start <= end < |j|
    && r == Audit(EnvOf(rd, settings), j, start, end, START)
    && AuditVerdict.Verdict(EnvOf(rd, settings), j, start, end, r)
  }

  /** The audit of the journal's payloads: analyze, then walk back. */
  method AuditPayloads<H, R>(rd: Reader<H, R>, settings: Settings, payloads: seq<seq<Bytes>>, start: nat, end: nat, bucketSize: nat)
    returns (r: Option<Walk>)
    requires 0 < start <= end < |payloads| && bucketSize > 0
    ensures r.Some? && !HasFailures(r.value.stats) ==> CleanVerdict(rd, EnvOf(rd, settings), payloads, start, end, r.value)
    ensures Judged(rd, settings, payloads, start, end, r)
  {
    var j := AnalyzeJournal(rd, payloads);
    EnvSimulates(rd, settings);
    r := AuditFrom(rd, EnvOf(rd, settings), payloads, j, start, end, bucketSize, START);
    AuditIsJudged(rd, settings, payloads, start, end, r, j);
  }

  lemma {:induction false} AuditIsJudged<H, R>(rd: Reader<H, R>, settings: Settings, payloads: seq<seq<Bytes>>, start: nat, end: nat, r: Option<Walk>, j: Journal)
    requires IsJournal(rd, payloads, j) && 0 < start <= end < |j|
    requires r == Audit(EnvOf(rd, settings), j, start, end, START)
    ensures Judged(rd, settings, payloads, start, end, r)
  {
    EnvSimulates(rd, settings);
    AuditVerdict.AuditGivesVerdict(EnvOf(rd, settings), j, start, end);
    assert JudgedBy(rd, settings, payloads, start, end, r, j);
  }

  method AuditFrom<H, R>(ghost rd: Reader<H, R>, env: Env, ghost payloads: seq<seq<Bytes>>, j: Journal, start: nat, end: nat, bucketSize: nat, w: Walk)
    returns (r: Option<Walk>)
    requires IsJournal(rd, payloads, j) && 0 < start <= end < |j| && bucketSize > 0 && Fresh(w) && Simulates(env)
    ensures r == Audit(env, j, start, end, w)
    ensures r.Some? && !HasFailures(r.value.stats) ==> CleanVerdict(rd, env, payloads, start, end, r.value)
  {
    r := RunReplay(env, j, start, end, bucketSize, w);
    if r.Some? && !HasFailures(r.value.stats) {
      CleanAuditOfPayloads(rd, env, payloads, j, start, end, w, r.value);
    }
  }
}
