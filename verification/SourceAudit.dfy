/**
  The replay audit from the source database to the verdict: the pipeline builds the
  journal, the journal is loaded, and the audit walks it
  (tools/state_delta_replay_audit.cpp).
 */
module SourceAudit {
  import opened Options
  import opened Bytes
  import opened BucketJournal
  import opened JournalPipeline
  import opened JournalBuild
  import opened AuditWalk
  import opened AuditCandidates
  import JournalCodec

  /** The payloads of every height are those of a clean build from the source. */
  ghost predicate BuiltFrom<H, R>(env: JournalBuild.Env<H, R>, n: nat, source: seq<Raw>, payloads: seq<seq<Bytes>>) {
    forall h {:trigger BuiltAt(env, n, source, payloads[h], h)} :: 0 <= h < |payloads| ==> BuiltAt(env, n, source, payloads[h], h)
  }

  ghost predicate BuiltAt<H, R>(env: JournalBuild.Env<H, R>, n: nat, source: seq<Raw>, payloads: seq<Bytes>, h: nat) {
    forall i :: 0 <= i < |payloads| ==> PayloadFrom(env, n, source, payloads, h, i)
  }

  ghost predicate PayloadFrom<H, R>(env: JournalBuild.Env<H, R>, n: nat, source: seq<Raw>, payloads: seq<Bytes>, h: nat, i: nat)
    requires i < |payloads|
  {
    FromSource(env, n, source, Rec(h, payloads[i]))
  }

  /** The candidate is an eligible record of the source database at this height, with the
      header and pruned receipt it has there. */
  ghost predicate IsSourceRecord<H, R>(env: JournalBuild.Env<H, R>, rd: AuditCandidates.Reader<H, R>, n: nat, raw: Raw, height: nat, c: Candidate) {
    && Journaled(env, n, raw) && HeightOf(env, raw) == height
    && Describes(rd, KeptRecord(env, n, raw), c)
  }

  ghost predicate InSource<H, R>(env: JournalBuild.Env<H, R>, rd: AuditCandidates.Reader<H, R>, n: nat, source: seq<Raw>, height: nat, c: Candidate) {
    exists i :: 0 <= i < |source| && IsSourceRecordAt(env, rd, n, source, height, c, i)
  }

  ghost predicate IsSourceRecordAt<H, R>(env: JournalBuild.Env<H, R>, rd: AuditCandidates.Reader<H, R>, n: nat, source: seq<Raw>, height: nat, c: Candidate, i: nat)
    requires i < |source|
  {
    IsSourceRecord(env, rd, n, source[i], height, c)
  }

  ghost predicate AllInSource<H, R>(env: JournalBuild.Env<H, R>, rd: AuditCandidates.Reader<H, R>, n: nat, source: seq<Raw>, end: nat, sel: seq<Candidate>) {
    |sel| <= end + 1 && forall k :: 0 <= k < |sel| ==> InSource(env, rd, n, source, end - k, sel[k])
  }

  lemma {:induction false} PayloadInSource<H, R>(env: JournalBuild.Env<H, R>, rd: AuditCandidates.Reader<H, R>, n: nat, source: seq<Raw>, height: nat, payload: Bytes, c: Candidate)
    requires rd.proto == env.proto && FromSource(env, n, source, Rec(height, payload)) && Analyzed(rd, payload, Some(c))
    ensures InSource(env, rd, n, source, height, c)
  {
    var i :| 0 <= i < |source| && ComesFrom(env, n, source[i], Rec(height, payload));
    assert IsSourceRecordAt(env, rd, n, source, height, c, i);
  }

  /** Every candidate of a journal built from the source is a source record. */
  lemma {:induction false} CandidateInSource<H, R>(env: JournalBuild.Env<H, R>, rd: AuditCandidates.Reader<H, R>, n: nat, source: seq<Raw>,
                                                   payloads: seq<seq<Bytes>>, j: Journal, h: nat, c: Candidate)
    requires rd.proto == env.proto && BuiltFrom(env, n, source, payloads) && IsJournal(rd, payloads, j) && h < |j| && Some(c) in j[h]
    ensures InSource(env, rd, n, source, h, c)
  {
    var i := AnalyzedAt(rd, payloads, j, h, c);
    assert PayloadFrom(env, n, source, payloads[h], h, i) by { assert BuiltAt(env, n, source, payloads[h], h); }
    PayloadInSource(env, rd, n, source, h, payloads[h][i], c);
  }

  lemma {:induction false} ChainMember(walk: AuditWalk.Env, j: Journal, end: nat, sel: seq<Candidate>, k: nat)
    requires Chain(walk, j, end, sel) && k < |sel|
    ensures k <= end < |j| && Some(sel[k]) in j[end - k]
  {
    assert Linked(walk, j, end, sel, k);
  }

  lemma {:induction false} ChainInSource<H, R>(env: JournalBuild.Env<H, R>, rd: AuditCandidates.Reader<H, R>, n: nat, source: seq<Raw>,
                                               payloads: seq<seq<Bytes>>, j: Journal, walk: AuditWalk.Env, end: nat, sel: seq<Candidate>)
    requires rd.proto == env.proto && BuiltFrom(env, n, source, payloads) && IsJournal(rd, payloads, j)
    requires Chain(walk, j, end, sel) && |sel| <= end + 1
    ensures AllInSource(env, rd, n, source, end, sel)
  {
    forall k | 0 <= k < |sel|
      ensures InSource(env, rd, n, source, end - k, sel[k])
    {
      ChainMember(walk, j, end, sel, k);
      CandidateInSource(env, rd, n, source, payloads, j, end - k, sel[k]);
    }
  }

  lemma {:induction false} CleanAuditInSource<H, R>(env: JournalBuild.Env<H, R>, rd: AuditCandidates.Reader<H, R>, n: nat, source: seq<Raw>,
                                                    payloads: seq<seq<Bytes>>, walk: AuditWalk.Env, start: nat, end: nat, r: Walk)
    requires rd.proto == env.proto && BuiltFrom(env, n, source, payloads) && 0 < start <= end < |payloads| && !HasFailures(r.stats)
    requires exists j :: IsJournal(rd, payloads, j) && Audit(walk, j, start, end, START) == Some(r)
    ensures AllInSource(env, rd, n, source, end, r.selected)
  {
    var j :| IsJournal(rd, payloads, j) && Audit(walk, j, start, end, START) == Some(r);
    CleanAuditIsSound(walk, j, start, end, START, r);
    ChainInSource(env, rd, n, source, payloads, j, walk, end, r.selected);
  }

  lemma {:induction false} LoadedIsBuilt<H, R>(env: JournalBuild.Env<H, R>, n: nat, source: seq<Raw>, written: seq<Rec>, payloads: seq<seq<Bytes>>)
    requires forall k :: 0 <= k < |written| ==> FromSource(env, n, source, written[k])
    requires |payloads| == n + 1 && payloads[0] == [] && forall h :: 0 < h <= n ==> payloads[h] == Payloads(written, h)
    ensures BuiltFrom(env, n, source, payloads)
  {
    forall h | 0 <= h < |payloads|
      ensures BuiltAt(env, n, source, payloads[h], h)
    {
      forall i | 0 <= i < |payloads[h]|
        ensures PayloadFrom(env, n, source, payloads[h], h, i)
      {
        PayloadLogged(written, h, payloads[h][i]);
        var k :| 0 <= k < |written| && written[k] == Rec(h, payloads[h][i]);
      }
    }
  }

  /** Whatever the interleaving of the pipeline, the bucket size and the threshold: an
      audit of the journal it built that ends clean has selected records of the source
      database, each linked to the one above it, and replaying them explains every signed
      root. */
  method BuildAndAudit<H(!new), R(!new)>(ghost env: JournalBuild.Env<H, R>, rd: AuditCandidates.Reader<H, R>, settings: Settings, n: nat,
                                         ghost c: Config, ghost parsers: nat, ghost actions: seq<Action>, ghost s: State, written: seq<Rec>,
                                         bucketSize: nat, flushThreshold: nat, start: nat, end: nat)
    returns (r: Option<Walk>, ghost payloads: seq<seq<Bytes>>)
    requires JournalBuild.Sound(env) && Runs(env, n, c) && parsers > 0 && c.rawCapacity > 0 && c.encodedCapacity > 0
    requires Reaches(c, parsers, actions, s) && Finished(s) && !s.error && written == s.written
    requires bucketSize > 0 && 0 < start <= end <= n < Pow256(8) && rd.proto == env.proto
    ensures |payloads| == n + 1 && BuiltFrom(env, n, c.source, payloads)
    ensures forall h :: 0 < h <= n ==> multiset(payloads[h]) == multiset(ExpectedAt(env, n, c.source, h))
    ensures Judged(rd, settings, payloads, start, end, r)
    ensures r.Some? && !HasFailures(r.value.stats) ==>
      && CleanVerdict(rd, EnvOf(rd, settings), payloads, start, end, r.value)
      && AllInSource(env, rd, n, c.source, end, r.value.selected)
  {
    var loaded := BuildAll(env, n, c, parsers, actions, s, written, bucketSize, flushThreshold);
    payloads := loaded;
    r := AuditPayloads(rd, settings, loaded, start, end, bucketSize);
    if r.Some? && !HasFailures(r.value.stats) {
      CleanAuditInSource(env, rd, n, c.source, loaded, EnvOf(rd, settings), start, end, r.value);
    }
  }

  /** The journal of all heights, written and loaded again. */
  method BuildAll<H(!new), R(!new)>(ghost env: JournalBuild.Env<H, R>, n: nat, ghost c: Config, ghost parsers: nat, ghost actions: seq<Action>, ghost s: State,
                                    written: seq<Rec>, bucketSize: nat, flushThreshold: nat)
    returns (loaded: seq<seq<Bytes>>)
    requires JournalBuild.Sound(env) && Runs(env, n, c) && parsers > 0 && c.rawCapacity > 0 && c.encodedCapacity > 0
    requires Reaches(c, parsers, actions, s) && Finished(s) && !s.error && written == s.written
    requires bucketSize > 0 && n < Pow256(8)
    ensures |loaded| == n + 1 && BuiltFrom(env, n, c.source, loaded)
    ensures forall h :: 0 < h <= n ==> multiset(loaded[h]) == multiset(ExpectedAt(env, n, c.source, h))
  {
    WrittenComesFrom(env, n, c, parsers, actions, s);
    loaded := WriteAndLoadAll(written, bucketSize, n, flushThreshold);
    LoadedIsBuilt(env, n, c.source, written, loaded);
    forall h | 0 < h <= n
      ensures multiset(loaded[h]) == multiset(ExpectedAt(env, n, c.source, h))
    {
      JournalHoldsSource(c, parsers, actions, s, h);
      EligibleIsExpected(env, n, c, c.source, h);
    }
  }
}
