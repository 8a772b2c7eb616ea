/**
  The bucketed, buffered journal files.

  Heights 1..N are cut into buckets of `bucketSize` consecutive heights, one file
  per bucket.  Records arrive in any height order; each is appended to a buffer
  of its bucket, and a buffer is written out once it reaches a threshold.
 */
module BucketJournal {
  import opened Arithmetic
  import opened Bytes
  import opened Options
  import opened Sequences

  datatype Rec = Rec(height: nat, payload: Bytes)

  /** "SDJB3" and "SDJR2" */
  const BUCKET_MAGIC: Bytes := [83, 68, 74, 66, 51]
  const RECORD_MAGIC: Bytes := [83, 68, 74, 82, 50]

  datatype LoadError =
    | BucketOutOfRange
    | InvalidBucketMagic
    | InvalidRecordMagic
    | TruncatedHeight
    | TruncatedSize
    | TruncatedPayload
    | OutOfRangeHeight

  datatype Load = Loaded(payloads: seq<seq<Bytes>>) | Failed(error: LoadError)

  // ---- Buckets ---------------------------------------------------------------

  function BucketFor(height: nat, size: nat): (b: nat)
    requires size > 0 && height > 0
  {
    (height - 1) / size
  }

  function BucketStart(bucket: nat, size: nat): nat {
    size * bucket + 1
  }

  function BucketCount(n: nat, size: nat): nat
    requires size > 0
  {
    if n == 0 then 0 else (n - 1) / size + 1
  }

  function BucketEnd(bucket: nat, size: nat, n: nat): int
    requires size > 0
  {
    Min(n, BucketStart(bucket, size) + size - 1)
  }

  ghost predicate Covers(bucket: nat, size: nat, n: nat, height: nat)
    requires size > 0
  {
    bucket < BucketCount(n, size) && BucketStart(bucket, size) <= height <= BucketEnd(bucket, size, n)
  }

  /** The buckets partition the heights 1..n. */
  lemma {:induction false} BucketsPartition(size: nat, n: nat, height: nat, bucket: nat)
    requires size > 0 && height > 0
    ensures Covers(bucket, size, n, height) <==> height <= n && bucket == BucketFor(height, size)
  {
    Quotient(height - 1, size, bucket);
    if height <= n { QuotientMonotone(height - 1, n - 1, size); }
  }

  lemma {:induction false} BucketExists(size: nat, n: nat, height: nat)
    requires size > 0 && 0 < height <= n
    ensures BucketFor(height, size) < BucketCount(n, size)
  {
    BucketsPartition(size, n, height, BucketFor(height, size));
  }

  // ---- What the log says -----------------------------------------------------

  /** The payloads logged for one height, in write order. */
  function Payloads(log: seq<Rec>, height: nat): seq<Bytes> {
    if log == [] then []
    else
      var front, last := log[..|log| - 1], log[|log| - 1];
      if last.height == height then Payloads(front, height) + [last.payload] else Payloads(front, height)
  }

  /** The records logged for one bucket, in write order. */
  function InBucket(log: seq<Rec>, bucket: nat, size: nat): seq<Rec>
    requires size > 0 && HeightsPositive(log)
  {
    if log == [] then []
    else
      var front, last := log[..|log| - 1], log[|log| - 1];
      if BucketFor(last.height, size) == bucket then InBucket(front, bucket, size) + [last]
      else InBucket(front, bucket, size)
  }

  predicate HeightsPositive(log: seq<Rec>) {
    forall i :: 0 <= i < |log| ==> log[i].height > 0
  }

  ghost predicate Fits(log: seq<Rec>, n: nat) {
    forall i :: 0 <= i < |log| ==> RecFits(log[i], n)
  }

  ghost predicate RecFits(r: Rec, n: nat) {
    0 < r.height <= n < Pow256(8) && |r.payload| < Pow256(8)
  }

  lemma {:induction false} PayloadsInBucket(log: seq<Rec>, height: nat, size: nat)
    requires size > 0 && height > 0 && HeightsPositive(log)
    ensures Payloads(InBucket(log, BucketFor(height, size), size), height) == Payloads(log, height)
    decreases |log|
  {
    if log != [] {
      var b := BucketFor(height, size);
      var front, last := log[..|log| - 1], log[|log| - 1];
      PayloadsInBucket(front, height, size);
      if BucketFor(last.height, size) == b {
        var r := InBucket(front, b, size) + [last];
        assert r[..|r| - 1] == InBucket(front, b, size);
      }
    }
  }

  lemma {:induction false} InBucketFits(log: seq<Rec>, bucket: nat, size: nat, n: nat)
    requires size > 0 && HeightsPositive(log) && Fits(log, n)
    ensures Fits(InBucket(log, bucket, size), n)
    ensures forall i :: 0 <= i < |InBucket(log, bucket, size)| ==>
      Covers(bucket, size, n, InBucket(log, bucket, size)[i].height)
    decreases |log|
  {
    if log != [] {
      var front, last := log[..|log| - 1], log[|log| - 1];
      InBucketFits(front, bucket, size, n);
      assert RecFits(last, n);
      BucketsPartition(size, n, last.height, bucket);
    }
  }

  // ---- Record encoding -------------------------------------------------------

  function EncodeRec(r: Rec): Bytes {
    RECORD_MAGIC + BigEndian(r.height, 8) + BigEndian(|r.payload|, 8) + r.payload
  }

  function EncodeAll(recs: seq<Rec>): Bytes {
    if recs == [] then [] else EncodeAll(recs[..|recs| - 1]) + EncodeRec(recs[|recs| - 1])
  }

  /** One record off the front of a bucket file. */
  function FirstRec(s: Bytes): (r: Option<Rec>)
    ensures r.Some? ==> 21 + |r.value.payload| <= |s|
  {
    if |s| < 21 || s[..5] != RECORD_MAGIC then None
    else
      var size := Value(s[13..21]);
      if size > |s| - 21 then None else Some(Rec(Value(s[5..13]), s[21..21 + size]))
  }

  function After(s: Bytes, r: Rec): Bytes
    requires 21 + |r.payload| <= |s|
  {
    s[21 + |r.payload|..]
  }

  function ParseAll(s: Bytes): Option<seq<Rec>>
    decreases |s|
  {
    if s == [] then Some([])
    else match FirstRec(s)
      case None => None
      case Some(r) => Prepend([r], ParseAll(After(s, r)))
  }

  function Prepend(front: seq<Rec>, rest: Option<seq<Rec>>): Option<seq<Rec>> {
    match rest
    case None => None
    case Some(t) => Some(front + t)
  }

  lemma {:induction false} PrependTwice(a: seq<Rec>, b: seq<Rec>, rest: Option<seq<Rec>>)
    ensures Prepend(a, Prepend(b, rest)) == Prepend(a + b, rest)
  {
    if rest.Some? { assert a + (b + rest.value) == (a + b) + rest.value; }
  }

  lemma {:induction false} FirstRecOfEncoding(r: Rec, n: nat, rest: Bytes)
    requires RecFits(r, n)
    ensures FirstRec(EncodeRec(r) + rest) == Some(r)
    ensures After(EncodeRec(r) + rest, r) == rest
    ensures ParseAll(EncodeRec(r) + rest) == Prepend([r], ParseAll(rest))
  {
    var s := EncodeRec(r) + rest;
    assert s[..5] == RECORD_MAGIC;
    assert s[5..13] == BigEndian(r.height, 8);
    assert s[13..21] == BigEndian(|r.payload|, 8);
    assert s[21..21 + |r.payload|] == r.payload;
    assert s[21 + |r.payload|..] == rest;
    ValueOfBigEndian(r.height, 8);
    ValueOfBigEndian(|r.payload|, 8);
  }

  /** Reading back a run of records gives the records. */
  lemma {:induction false} ParseUndoesEncode(recs: seq<Rec>, n: nat, rest: Bytes)
    requires Fits(recs, n)
    ensures ParseAll(EncodeAll(recs) + rest) == Prepend(recs, ParseAll(rest))
    decreases |recs|
  {
    if recs == [] {
      assert EncodeAll(recs) + rest == rest;
      if ParseAll(rest).Some? { assert [] + ParseAll(rest).value == ParseAll(rest).value; }
    } else {
      var front, last := recs[..|recs| - 1], recs[|recs| - 1];
      Reassociate(EncodeAll(front), EncodeRec(last), rest);
      ParseUndoesEncode(front, n, EncodeRec(last) + rest);
      assert RecFits(last, n);
      FirstRecOfEncoding(last, n, rest);
      PrependTwice(front, [last], ParseAll(rest));
      assert front + [last] == recs;
    }
  }

  // ---- Loading a bucket file, whatever it contains ---------------------------

  function InRange(recs: seq<Rec>, lo: int, hi: int): (ok: bool) {
    forall i :: 0 <= i < |recs| ==> lo <= recs[i].height <= hi
  }

  /** `payloads` lists, for each height lo..hi, that height's payloads in file order. */
  ghost predicate Grouped(payloads: seq<seq<Bytes>>, recs: seq<Rec>, lo: nat, hi: int) {
    && |payloads| == (if hi < lo then 0 else hi - lo + 1)
    && forall k :: 0 <= k < |payloads| ==> payloads[k] == Payloads(recs, lo + k)
  }

  lemma {:induction false} GroupedAppend(payloads: seq<seq<Bytes>>, recs: seq<Rec>, lo: nat, hi: int, r: Rec)
    requires Grouped(payloads, recs, lo, hi) && lo <= r.height <= hi
    ensures Grouped(payloads[r.height - lo := payloads[r.height - lo] + [r.payload]], recs + [r], lo, hi)
  {
    assert (recs + [r])[..|recs|] == recs;
  }

  lemma {:induction false} ParseStep(s: Bytes, done: seq<Rec>, rest: Bytes, r: Rec)
    requires ParseAll(s) == Prepend(done, ParseAll(rest)) && rest != [] && FirstRec(rest) == Some(r)
    ensures ParseAll(s) == Prepend(done + [r], ParseAll(After(rest, r)))
  {
    PrependTwice(done, [r], ParseAll(After(rest, r)));
  }

  lemma {:induction false} ParsedRecordsStay(done: seq<Rec>, rest: Option<seq<Rec>>, r: Rec, lo: int, hi: int)
    requires !(lo <= r.height <= hi)
    requires Prepend(done + [r], rest).Some?
    ensures !InRange(Prepend(done + [r], rest).value, lo, hi)
  {
    assert (done + [r] + rest.value)[|done|] == r;
  }

  /** Why no record can be read off the front. */
  function RecordFault(s: Bytes): LoadError {
    if |s| < 5 || s[..5] != RECORD_MAGIC then InvalidRecordMagic
    else if |s| < 13 then TruncatedHeight
    else if |s| < 21 then TruncatedSize
    else TruncatedPayload
  }

  /** The first fault in file order: a record that cannot be read, or one out of range. */
  function FirstFault(s: Bytes, lo: nat, hi: int): Option<LoadError>
    decreases |s|
  {
    if s == [] then None
    else match FirstRec(s)
      case None => Some(RecordFault(s))
      case Some(r) => if lo <= r.height <= hi then FirstFault(After(s, r), lo, hi) else Some(OutOfRangeHeight)
  }

  lemma {:induction false} FaultAfterRecords(recs: seq<Rec>, n: nat, lo: nat, hi: int, rest: Bytes)
    requires Fits(recs, n) && InRange(recs, lo, hi)
    ensures FirstFault(EncodeAll(recs) + rest, lo, hi) == FirstFault(rest, lo, hi)
    decreases |recs|
  {
    if recs == [] {
      assert EncodeAll(recs) + rest == rest;
    } else {
      var front, last := recs[..|recs| - 1], recs[|recs| - 1];
      Reassociate(EncodeAll(front), EncodeRec(last), rest);
      FaultAfterRecords(front, n, lo, hi, EncodeRec(last) + rest);
      assert RecFits(last, n);
      FirstRecOfEncoding(last, n, rest);
    }
  }

  /** A file cut inside a record is refused, and the error names the field it was cut in;
      so is a record of another bucket, and anything that is not a record. */
  lemma {:induction false} DamageIsNamed(recs: seq<Rec>, r: Rec, n: nat, lo: nat, hi: int, cut: nat, rest: Bytes)
    requires Fits(recs, n) && InRange(recs, lo, hi) && RecFits(r, n) && 0 < cut < 21 + |r.payload|
    ensures |EncodeRec(r)| == 21 + |r.payload|
    ensures FirstFault(EncodeAll(recs) + EncodeRec(r)[..cut], lo, hi) == Some(
      if cut < 5 then InvalidRecordMagic else if cut < 13 then TruncatedHeight
      else if cut < 21 then TruncatedSize else TruncatedPayload)
    ensures r.height < lo || r.height > hi ==>
      FirstFault(EncodeAll(recs) + (EncodeRec(r) + rest), lo, hi) == Some(OutOfRangeHeight)
    ensures |rest| >= 5 && rest[..5] != RECORD_MAGIC ==>
      FirstFault(EncodeAll(recs) + rest, lo, hi) == Some(InvalidRecordMagic)
  {
    FaultAfterRecords(recs, n, lo, hi, EncodeRec(r)[..cut]);
    CutRecord(r, n, cut);
    FaultAfterRecords(recs, n, lo, hi, EncodeRec(r) + rest);
    FirstRecOfEncoding(r, n, rest);
    FaultAfterRecords(recs, n, lo, hi, rest);
  }

  lemma {:induction false} CutRecord(r: Rec, n: nat, cut: nat)
    requires RecFits(r, n) && 0 < cut < 21 + |r.payload|
    ensures |EncodeRec(r)| == 21 + |r.payload| && FirstRec(EncodeRec(r)[..cut]).None?
    ensures RecordFault(EncodeRec(r)[..cut]) ==
      if cut < 5 then InvalidRecordMagic else if cut < 13 then TruncatedHeight
      else if cut < 21 then TruncatedSize else TruncatedPayload
  {
    var s := EncodeRec(r)[..cut];
    if cut >= 5 { assert s[..5] == RECORD_MAGIC; }
    if cut >= 21 {
      assert s[13..21] == BigEndian(|r.payload|, 8);
      ValueOfBigEndian(|r.payload|, 8);
    }
  }

  /** The reading loop of load_bucket over the file contents. */
  method ReadBucket(file: Bytes, lo: nat, hi: int) returns (r: Load)
    ensures r.Loaded? <==>
      |file| >= 5 && file[..5] == BUCKET_MAGIC && ParseAll(file[5..]).Some? && InRange(ParseAll(file[5..]).value, lo, hi)
    ensures r.Loaded? ==> Grouped(r.payloads, ParseAll(file[5..]).value, lo, hi)
    ensures r.Failed? ==>
      if |file| < 5 || file[..5] != BUCKET_MAGIC then r.error == InvalidBucketMagic
      else FirstFault(file[5..], lo, hi) == Some(r.error)
  {
    if |file| < 5 || file[..5] != BUCKET_MAGIC {
      return Failed(InvalidBucketMagic);
    }
    var payloads: seq<seq<Bytes>> := seq(if hi < lo then 0 else hi - lo + 1, _ => []);
    var rest := file[5..];
    ghost var done: seq<Rec> := [];
    assert ParseAll(rest) == Prepend([], ParseAll(rest)) by {
      if ParseAll(rest).Some? { assert [] + ParseAll(rest).value == ParseAll(rest).value; }
    }
    while rest != []
      invariant ParseAll(file[5..]) == Prepend(done, ParseAll(rest))
      invariant Grouped(payloads, done, lo, hi) && InRange(done, lo, hi)
      invariant FirstFault(file[5..], lo, hi) == FirstFault(rest, lo, hi)
      decreases |rest|
    {
      var first := FirstRec(rest);
      if first.None? {
        return Failed(RecordFault(rest));
      }
      var rec := first.value;
      ParseStep(file[5..], done, rest, rec);
      rest := After(rest, rec);
      if rec.height < lo || rec.height > hi {
        if ParseAll(file[5..]).Some? { ParsedRecordsStay(done, ParseAll(rest), rec, lo, hi); }
        return Failed(OutOfRangeHeight);
      }
      GroupedAppend(payloads, done, lo, hi, rec);
      var k := rec.height - lo;
      payloads := payloads[k := payloads[k] + [rec.payload]];
      done := done + [rec];
    }
    assert done + [] == done;
    return Loaded(payloads);
  }

  /** A file that holds exactly one bucket's records loads to the log's payloads. */
  lemma {:induction false} BucketReadsBack(log: seq<Rec>, bucket: nat, size: nat, n: nat, file: Bytes)
    requires size > 0 && HeightsPositive(log) && Fits(log, n)
    requires file == BUCKET_MAGIC + EncodeAll(InBucket(log, bucket, size))
    ensures |file| >= 5 && file[..5] == BUCKET_MAGIC
    ensures ParseAll(file[5..]) == Some(InBucket(log, bucket, size))
    ensures InRange(InBucket(log, bucket, size), BucketStart(bucket, size), BucketEnd(bucket, size, n))
  {
    var recs := InBucket(log, bucket, size);
    InBucketFits(log, bucket, size, n);
    ParseUndoesEncode(recs, n, []);
    assert file[5..] == EncodeAll(recs) + [];
    assert recs + [] == recs;
  }

  lemma {:induction false} GroupedByLog(payloads: seq<seq<Bytes>>, log: seq<Rec>, bucket: nat, size: nat, n: nat)
    requires size > 0 && HeightsPositive(log) && bucket < BucketCount(n, size)
    requires Grouped(payloads, InBucket(log, bucket, size), BucketStart(bucket, size), BucketEnd(bucket, size, n))
    ensures Grouped(payloads, log, BucketStart(bucket, size), BucketEnd(bucket, size, n))
  {
    var lo := BucketStart(bucket, size);
    forall k | 0 <= k < |payloads|
      ensures payloads[k] == Payloads(log, lo + k)
    {
      BucketsPartition(size, n, lo + k, bucket);
      PayloadsInBucket(log, lo + k, size);
    }
  }

  // ---- The journal object ----------------------------------------------------

  class ReplayJournal {
    const bucketSize: nat
    const indexedHeight: nat
    var files: seq<Bytes>
    var buffers: seq<Bytes>
    var loadedBucket: Option<nat>
    var bucketPayloads: seq<seq<Bytes>>
    ghost var log: seq<Rec>

    /** Between any two calls: file plus buffer hold the bucket's records in order. */
    ghost predicate Valid()
      reads this
    {
      Keeps(files, buffers, log, bucketSize, indexedHeight)
    }

    static ghost predicate Keeps(files: seq<Bytes>, buffers: seq<Bytes>, log: seq<Rec>, size: nat, n: nat) {
      && size > 0 && n < Pow256(8)
      && |files| == |buffers| == BucketCount(n, size)
      && HeightsPositive(log) && Fits(log, n)
      && forall b :: 0 <= b < |files| ==> Holds(files[b], buffers[b], log, b, size)
    }

    static ghost predicate Holds(file: Bytes, buffer: Bytes, log: seq<Rec>, b: nat, size: nat)
      requires size > 0 && HeightsPositive(log)
    {
      file + buffer == BUCKET_MAGIC + EncodeAll(InBucket(log, b, size))
    }

    constructor (bucketSize: nat, indexedHeight: nat)
      requires bucketSize > 0 && indexedHeight < Pow256(8)
      ensures Valid() && log == [] && loadedBucket == None
      ensures this.bucketSize == bucketSize && this.indexedHeight == indexedHeight
      ensures forall b :: 0 <= b < |files| ==> files[b] == BUCKET_MAGIC && buffers[b] == []
    {
      this.bucketSize, this.indexedHeight := bucketSize, indexedHeight;
      files := seq(BucketCount(indexedHeight, bucketSize), _ => BUCKET_MAGIC);
      buffers := seq(BucketCount(indexedHeight, bucketSize), _ => []);
      loadedBucket, bucketPayloads, log := None, [], [];
    }

    /** flush_bucket on a working disk. */
    method FlushBucket(b: nat)
      requires Valid() && b < |files|
      modifies this`files, this`buffers
      ensures Valid()
      ensures files == old(files)[b := old(files)[b] + old(buffers)[b]]
      ensures buffers == old(buffers)[b := []]
    {
      var moved := files[b] + buffers[b];
      assert Holds(files[b], buffers[b], log, b, bucketSize);
      assert moved + [] == moved;
      files := files[b := moved];
      buffers := buffers[b := []];
    }

    /** One turn of the writer loop: stage the record, flush past the threshold. */
    method Append(height: nat, payload: Bytes, flushThreshold: nat)
      requires Valid() && 0 < height <= indexedHeight && |payload| < Pow256(8)
      modifies this`files, this`buffers, this`log
      ensures Valid() && log == old(log) + [Rec(height, payload)]
    {
      var b := Stage(height, payload);
      if |buffers[b]| >= flushThreshold {
        FlushBucket(b);
      }
    }

    method Stage(height: nat, payload: Bytes) returns (b: nat)
      requires Valid() && 0 < height <= indexedHeight && |payload| < Pow256(8)
      modifies this`buffers, this`log
      ensures Valid() && log == old(log) + [Rec(height, payload)] && b < |buffers|
    {
      b := BucketFor(height, bucketSize);
      BucketExists(bucketSize, indexedHeight, height);
      var buffer := StageRecord(buffers[b], height, payload);
      AppendKeeps(files, buffers, log, Rec(height, payload), bucketSize, indexedHeight);
      buffers := buffers[b := buffer];
      log := log + [Rec(height, payload)];
    }

    static method StageRecord(buffer: Bytes, height: nat, payload: Bytes) returns (r: Bytes)
      ensures r == buffer + EncodeRec(Rec(height, payload))
    {
      r := buffer + RECORD_MAGIC;
      r := AppendU64(r, height);
      Reassociate(buffer, RECORD_MAGIC, BigEndian(height, 8));
      r := AppendU64(r, |payload|);
      Reassociate(buffer, RECORD_MAGIC + BigEndian(height, 8), BigEndian(|payload|, 8));
      r := r + payload;
      Reassociate(buffer, RECORD_MAGIC + BigEndian(height, 8) + BigEndian(|payload|, 8), payload);
    }

    static lemma {:induction false} AppendKeeps(files: seq<Bytes>, buffers: seq<Bytes>, log: seq<Rec>, rec: Rec, size: nat, n: nat)
      requires Keeps(files, buffers, log, size, n) && RecFits(rec, n)
      requires BucketFor(rec.height, size) < |buffers|
      ensures var b := BucketFor(rec.height, size);
        Keeps(files, buffers[b := buffers[b] + EncodeRec(rec)], log + [rec], size, n)
    {
      var staged := buffers[BucketFor(rec.height, size) := buffers[BucketFor(rec.height, size)] + EncodeRec(rec)];
      forall c | 0 <= c < |files|
        ensures HeightsPositive(log + [rec]) && Holds(files[c], staged[c], log + [rec], c, size)
      {
        AppendHolds(files[c], buffers[c], log, rec, c, size);
      }
    }

    static lemma {:induction false} AppendHolds(file: Bytes, buffer: Bytes, log: seq<Rec>, rec: Rec, c: nat, size: nat)
      requires size > 0 && HeightsPositive(log) && rec.height > 0
      requires Holds(file, buffer, log, c, size)
      ensures HeightsPositive(log + [rec])
      ensures Holds(file, if c == BucketFor(rec.height, size) then buffer + EncodeRec(rec) else buffer,
                    log + [rec], c, size)
    {
      assert (log + [rec])[..|log|] == log;
      if c == BucketFor(rec.height, size) {
        var recs := InBucket(log, c, size);
        assert (recs + [rec])[..|recs|] == recs;
        Reassociate(file, buffer, EncodeRec(rec));
        Reassociate(BUCKET_MAGIC, EncodeAll(recs), EncodeRec(rec));
      }
    }

    /** The final flush of every bucket. */
    method Finish()
      requires Valid()
      modifies this`files, this`buffers, this`loadedBucket
      ensures Valid() && Sealed()
    {
      loadedBucket := None;
      for b := 0 to |files|
        invariant Valid() && |files| == old(|files|) && loadedBucket == None
        invariant forall c :: 0 <= c < b ==> buffers[c] == []
      {
        FlushBucket(b);
      }
    }

    ghost predicate Sealed()
      reads this
    {
      && (forall b :: 0 <= b < |buffers| ==> buffers[b] == [])
      && (loadedBucket.Some? ==> CacheOk(bucketPayloads, loadedBucket.value))
    }

    ghost predicate CacheOk(payloads: seq<seq<Bytes>>, b: nat)
      reads this
    {
      && bucketSize > 0 && b < |files|
      && Grouped(payloads, log, BucketStart(b, bucketSize), BucketEnd(b, bucketSize, indexedHeight))
    }

    /** load_bucket: what was logged for every height of the bucket, in write order. */
    method LoadBucket(b: nat) returns (r: Load)
      requires Valid() && Sealed()
      ensures b >= |files| <==> r == Failed(BucketOutOfRange)
      ensures b < |files| ==> r.Loaded? && CacheOk(r.payloads, b)
    {
      if b >= |files| {
        return Failed(BucketOutOfRange);
      }
      assert Holds(files[b], buffers[b], log, b, bucketSize);
      assert files[b] + [] == files[b];
      BucketReadsBack(log, b, bucketSize, indexedHeight, files[b]);
      var lo, hi := BucketStart(b, bucketSize), BucketEnd(b, bucketSize, indexedHeight);
      r := ReadBucket(files[b], lo, hi);
      GroupedByLog(r.payloads, log, b, bucketSize, indexedHeight);
    }

    /** payloads_at_height, with its one-bucket cache. */
    method PayloadsAtHeight(height: nat) returns (payloads: seq<Bytes>)
      requires Valid() && Sealed()
      modifies this`loadedBucket, this`bucketPayloads
      ensures Valid() && Sealed()
      ensures payloads == if 0 < height <= indexedHeight then Payloads(log, height) else []
    {
      if height == 0 || height > indexedHeight {
        return [];
      }
      var b := BucketFor(height, bucketSize);
      BucketsPartition(bucketSize, indexedHeight, height, b);
      if loadedBucket != Some(b) {
        var loaded := LoadBucket(b);
        loadedBucket, bucketPayloads := Some(b), loaded.payloads;
      }
      payloads := bucketPayloads[height - BucketStart(b, bucketSize)];
    }
  }
}
