/**
  What the parsers do with one source record, and what the finished journal holds.
 */
module JournalBuild {
  import opened Bytes
  import opened Options
  import JournalCodec
  import opened BucketJournal
  import opened JournalPipeline

  datatype SourceBlock<+H> = SourceBlock(id: Bytes, header: Option<H>)

  datatype BlockRecord<+H, +R> = BlockRecord(
    height: nat, blockId: Bytes, block: Option<SourceBlock<H>>, receipt: Option<R>)

  /** The foreign parts: protobuf, and dropping events, receipts and logs. */
  datatype Env<!H, !R> = Env(
    parseRecord: Bytes -> Option<BlockRecord<H, R>>,
    headerHeight: H -> nat,
    prune: R -> R,
    proto: JournalCodec.Proto<H, R>)

  /** The id that is journaled: the record's, else the block's, else the database key. */
  function JournalId(recordId: Bytes, blockId: Bytes, key: Bytes): Bytes {
    if recordId != [] then recordId else if blockId != [] then blockId else key
  }

  /** The body of the parser loop. */
  function ParseRaw<H, R>(env: Env<H, R>, requiredHeight: nat, raw: Raw): Parsed {
    match env.parseRecord(raw.value)
    case None => Malformed
    case Some(r) =>
      if r.height == 0 || r.height > requiredHeight then Skipped
      else if r.block.None? || r.block.value.header.None? || r.receipt.None? then Skipped
      else
        var header := r.block.value.header.value;
        if env.headerHeight(header) != r.height then Malformed
        else
          var id := JournalId(r.blockId, r.block.value.id, raw.key);
          Eligible(Rec(r.height, JournalCodec.Encode(env.proto, JournalCodec.Record(id, header, env.prune(r.receipt.value)))))
  }

  /** The source messages are small enough for 64-bit lengths, and parse back. */
  ghost predicate Sound<H(!new), R(!new)>(env: Env<H, R>) {
    && (forall h :: env.proto.parseHeader(env.proto.headerBytes(h)) == Some(h))
    && (forall r :: env.proto.parseReceipt(env.proto.receiptBytes(r)) == Some(r))
    && (forall h :: |env.proto.headerBytes(h)| < SMALL)
    && (forall r :: |env.proto.receiptBytes(r)| < SMALL)
  }

  const SMALL: nat := 0x1_0000_0000_0000

  lemma {:induction false} U64Limit()
    ensures Pow256(8) == 0x1_0000_0000_0000_0000
  {
    assert Pow256(4) == 0x1_0000_0000;
    assert Pow256(8) == 256 * 256 * 256 * 256 * Pow256(4);
  }

  // ---- What the source promises to journal ---------------------------------------

  /** A complete block record of an audited height whose header agrees on the height. */
  predicate Journaled<H, R>(env: Env<H, R>, requiredHeight: nat, raw: Raw) {
    && env.parseRecord(raw.value).Some?
    && var r := env.parseRecord(raw.value).value;
    && 0 < r.height <= requiredHeight && Complete(r) && env.headerHeight(r.block.value.header.value) == r.height
  }

  predicate Complete<H, R>(r: BlockRecord<H, R>) {
    r.block.Some? && r.block.value.header.Some? && r.receipt.Some?
  }

  function HeightOf<H, R>(env: Env<H, R>, raw: Raw): nat {
    match env.parseRecord(raw.value)
    case None => 0
    case Some(r) => r.height
  }

  function FirstNonEmpty(ids: seq<Bytes>): Bytes {
    if ids == [] then [] else if ids[0] != [] then ids[0] else FirstNonEmpty(ids[1..])
  }

  /** What the journal keeps of a record: its first non-empty id, header and pruned receipt. */
  function KeptRecord<H, R>(env: Env<H, R>, requiredHeight: nat, raw: Raw): JournalCodec.Record<H, R>
    requires Journaled(env, requiredHeight, raw)
  {
    var r := env.parseRecord(raw.value).value;
    JournalCodec.Record(FirstNonEmpty([r.blockId, r.block.value.id, raw.key]), r.block.value.header.value, env.prune(r.receipt.value))
  }

  lemma {:induction false} JournalIdIsFirst(recordId: Bytes, blockId: Bytes, key: Bytes)
    ensures JournalId(recordId, blockId, key) == FirstNonEmpty([recordId, blockId, key])
  {
    assert [recordId, blockId, key][1..] == [blockId, key] && [blockId, key][1..] == [key] && [key][1..] == [];
    assert FirstNonEmpty([key]) == key;
    assert FirstNonEmpty([blockId, key]) == if blockId != [] then blockId else key;
  }

  /** What a parser does with any record, in terms of the record's own fields. */
  lemma {:induction false} ParseRawMeans<H, R>(env: Env<H, R>, requiredHeight: nat, raw: Raw)
    ensures ParseRaw(env, requiredHeight, raw).Eligible? <==> Journaled(env, requiredHeight, raw)
    ensures Journaled(env, requiredHeight, raw) ==>
      ParseRaw(env, requiredHeight, raw) == Eligible(Rec(HeightOf(env, raw), JournalCodec.Encode(env.proto, KeptRecord(env, requiredHeight, raw))))
    ensures ParseRaw(env, requiredHeight, raw).Malformed? <==>
      || env.parseRecord(raw.value).None?
      || var r := env.parseRecord(raw.value).value;
         0 < r.height <= requiredHeight && Complete(r) && env.headerHeight(r.block.value.header.value) != r.height
    ensures ParseRaw(env, requiredHeight, raw).Skipped? <==>
      && env.parseRecord(raw.value).Some?
      && var r := env.parseRecord(raw.value).value;
         r.height == 0 || r.height > requiredHeight || !Complete(r)
  {
    if Journaled(env, requiredHeight, raw) {
      var r := env.parseRecord(raw.value).value;
      JournalIdIsFirst(r.blockId, r.block.value.id, raw.key);
    }
  }

  /** The payloads a height must have: one per source record to be journaled there. */
  function ExpectedAt<H, R>(env: Env<H, R>, requiredHeight: nat, source: seq<Raw>, height: nat): seq<Bytes> {
    if source == [] then []
    else
      var front, raw := ExpectedAt(env, requiredHeight, source[..|source| - 1], height), source[|source| - 1];
      if Journaled(env, requiredHeight, raw) && HeightOf(env, raw) == height
      then front + [JournalCodec.Encode(env.proto, KeptRecord(env, requiredHeight, raw))]
      else front
  }

  lemma {:induction false} EligibleIsExpected<H, R>(env: Env<H, R>, requiredHeight: nat, c: Config, source: seq<Raw>, height: nat)
    requires forall raw :: c.parse(raw) == ParseRaw(env, requiredHeight, raw)
    ensures Payloads(EligibleRecs(c, source), height) == ExpectedAt(env, requiredHeight, source, height)
    decreases |source|
  {
    if source != [] {
      var front, raw := source[..|source| - 1], source[|source| - 1];
      EligibleIsExpected(env, requiredHeight, c, front, height);
      ParseRawMeans(env, requiredHeight, raw);
      assert c.parse(raw) == ParseRaw(env, requiredHeight, raw);
      if Journaled(env, requiredHeight, raw) {
        PayloadsOfAppend(EligibleRecs(c, front), ParseRaw(env, requiredHeight, raw).rec, height);
      }
    }
  }

  /** Every record to be journaled is among the payloads its height must have. */
  lemma {:induction false} ExpectedHas<H, R>(env: Env<H, R>, requiredHeight: nat, source: seq<Raw>, i: nat)
    requires i < |source| && Journaled(env, requiredHeight, source[i])
    ensures JournalCodec.Encode(env.proto, KeptRecord(env, requiredHeight, source[i])) in ExpectedAt(env, requiredHeight, source, HeightOf(env, source[i]))
    decreases |source|
  {
    if i < |source| - 1 { ExpectedHas(env, requiredHeight, source[..|source| - 1], i); }
  }

  /** A journaled record fits the bucket format and decodes to the source record's first
      id, header and pruned receipt. */
  lemma {:induction false} JournaledRecordDecodes<H(!new), R(!new)>(env: Env<H, R>, requiredHeight: nat, raw: Raw)
    requires Sound(env) && Journaled(env, requiredHeight, raw)
    requires |KeptRecord(env, requiredHeight, raw).blockId| < SMALL
    ensures var payload := JournalCodec.Encode(env.proto, KeptRecord(env, requiredHeight, raw));
      && |payload| < Pow256(8)
      && JournalCodec.Decode(env.proto, payload) == JournalCodec.Ok(KeptRecord(env, requiredHeight, raw))
  {
    U64Limit();
    var record := KeptRecord(env, requiredHeight, raw);
    JournalCodec.RoundTrip(env.proto, record);
    EncodingLength(env.proto, record);
  }

  lemma {:induction false} EncodingLength<H, R>(p: JournalCodec.Proto<H, R>, r: JournalCodec.Record<H, R>)
    ensures |JournalCodec.Encode(p, r)| == 29 + |r.blockId| + |p.headerBytes(r.header)| + |p.receiptBytes(r.receipt)|
  {
  }

  lemma {:induction false} PayloadsOfAppend(log: seq<Rec>, r: Rec, height: nat)
    ensures Payloads(log + [r], height) == Payloads(log, height) + (if r.height == height then [r.payload] else [])
  {
    assert (log + [r])[..|log|] == log;
  }

  /** Payload p is listed for `height` as often as the record (height, p) was logged. */
  lemma {:induction false} PayloadCount(log: seq<Rec>, height: nat, p: Bytes)
    ensures multiset(Payloads(log, height))[p] == multiset(log)[Rec(height, p)]
    decreases |log|
  {
    if log != [] {
      var front, last := log[..|log| - 1], log[|log| - 1];
      PayloadCount(front, height, p);
      assert log == front + [last];
      PayloadsOfAppend(front, last, height);
    }
  }

  /** For every interleaving that ends without a recorded error, a journal whose log
      is what the writer wrote lists, at every height, exactly the encodings of the
      eligible source records of that height, each once per source record. */
  lemma {:induction false} JournalHoldsSource(c: Config, n: nat, actions: seq<Action>, s: State, height: nat)
    requires n > 0 && c.rawCapacity > 0 && c.encodedCapacity > 0
    requires Reaches(c, n, actions, s) && Finished(s) && !s.error
    ensures multiset(Payloads(s.written, height)) == multiset(Payloads(EligibleRecs(c, c.source), height))
  {
    NothingLostOrDuplicated(c, n, actions, s);
    forall p: Bytes
      ensures multiset(Payloads(s.written, height))[p] == multiset(Payloads(EligibleRecs(c, c.source), height))[p]
    {
      PayloadCount(s.written, height, p);
      PayloadCount(EligibleRecs(c, c.source), height, p);
    }
  }

  lemma {:induction false} EligibleMember(c: Config, raws: seq<Raw>, rec: Rec) returns (i: nat)
    requires rec in EligibleRecs(c, raws)
    ensures i < |raws| && c.parse(raws[i]) == Eligible(rec)
    decreases |raws|
  {
    var last := raws[|raws| - 1];
    if c.parse(last) == Eligible(rec) {
      i := |raws| - 1;
    } else {
      i := EligibleMember(c, raws[..|raws| - 1], rec);
    }
  }

  /** The payload is the encoding of source record i, and decodes to it. */
  ghost predicate ComesFrom<H, R>(env: Env<H, R>, requiredHeight: nat, raw: Raw, rec: Rec) {
    && Journaled(env, requiredHeight, raw) && HeightOf(env, raw) == rec.height
    && JournalCodec.Decode(env.proto, rec.payload) == JournalCodec.Ok(KeptRecord(env, requiredHeight, raw))
  }

  ghost predicate FromSource<H, R>(env: Env<H, R>, requiredHeight: nat, source: seq<Raw>, rec: Rec) {
    exists i :: 0 <= i < |source| && ComesFrom(env, requiredHeight, source[i], rec)
  }

  /** The parsers of the pipeline are the parser loop, and ids are of sensible size. */
  ghost predicate Runs<H, R>(env: Env<H, R>, requiredHeight: nat, c: Config) {
    && (forall raw :: c.parse(raw) == ParseRaw(env, requiredHeight, raw))
    && (forall i :: 0 <= i < |c.source| && Journaled(env, requiredHeight, c.source[i]) ==>
          |KeptRecord(env, requiredHeight, c.source[i]).blockId| < SMALL)
  }

  lemma {:induction false} EligibleComesFrom<H(!new), R(!new)>(env: Env<H, R>, requiredHeight: nat, c: Config, rec: Rec)
    requires Sound(env) && Runs(env, requiredHeight, c) && requiredHeight < Pow256(8) && rec in EligibleRecs(c, c.source)
    ensures RecFits(rec, requiredHeight) && FromSource(env, requiredHeight, c.source, rec)
  {
    var i := EligibleMember(c, c.source, rec);
    assert c.parse(c.source[i]) == ParseRaw(env, requiredHeight, c.source[i]);
    ParseRawMeans(env, requiredHeight, c.source[i]);
    JournaledRecordDecodes(env, requiredHeight, c.source[i]);
    assert ComesFrom(env, requiredHeight, c.source[i], rec);
  }

  /** What the writer wrote fits the buckets, record by record from the source. */
  lemma {:induction false} WrittenComesFrom<H(!new), R(!new)>(env: Env<H, R>, requiredHeight: nat, c: Config, n: nat, actions: seq<Action>, s: State)
    requires Sound(env) && Runs(env, requiredHeight, c) && n > 0 && c.rawCapacity > 0 && c.encodedCapacity > 0
    requires Reaches(c, n, actions, s) && Finished(s) && !s.error && requiredHeight < Pow256(8)
    ensures Fits(s.written, requiredHeight)
    ensures forall k :: 0 <= k < |s.written| ==> FromSource(env, requiredHeight, c.source, s.written[k])
  {
    NothingLostOrDuplicated(c, n, actions, s);
    forall k | 0 <= k < |s.written|
      ensures RecFits(s.written[k], requiredHeight) && FromSource(env, requiredHeight, c.source, s.written[k])
    {
      assert s.written[k] in multiset(s.written);
      EligibleComesFrom(env, requiredHeight, c, s.written[k]);
    }
  }

  lemma {:induction false} SameMembers(a: seq<Bytes>, b: seq<Bytes>, x: Bytes)
    requires multiset(a) == multiset(b) && x in b
    ensures x in a
  {
    assert x in multiset(b);
  }

  lemma {:induction false} PayloadLogged(log: seq<Rec>, height: nat, p: Bytes)
    requires p in Payloads(log, height)
    ensures Rec(height, p) in log
  {
    PayloadCount(log, height, p);
    assert p in multiset(Payloads(log, height));
    assert Rec(height, p) in multiset(log);
  }

  /** From source records to decoded records: whatever the interleaving, the bucket size
      and the threshold, the payloads of a height are the encodings of that height's
      eligible source records, each as often as it occurs, and each decodes to its source. */
  method BuildAndLoad<H(!new), R(!new)>(ghost env: Env<H, R>, requiredHeight: nat, ghost c: Config, ghost n: nat, ghost actions: seq<Action>, ghost s: State,
                                        written: seq<Rec>, bucketSize: nat, flushThreshold: nat, height: nat)
    returns (payloads: seq<Bytes>)
    requires Sound(env) && Runs(env, requiredHeight, c) && n > 0 && c.rawCapacity > 0 && c.encodedCapacity > 0
    requires Reaches(c, n, actions, s) && Finished(s) && !s.error && written == s.written
    requires bucketSize > 0 && requiredHeight < Pow256(8) && 0 < height <= requiredHeight
    ensures multiset(payloads) == multiset(ExpectedAt(env, requiredHeight, c.source, height))
    ensures forall i :: 0 <= i < |c.source| && Journaled(env, requiredHeight, c.source[i]) && HeightOf(env, c.source[i]) == height ==>
      JournalCodec.Encode(env.proto, KeptRecord(env, requiredHeight, c.source[i])) in payloads
    ensures forall i :: 0 <= i < |payloads| ==> FromSource(env, requiredHeight, c.source, Rec(height, payloads[i]))
  {
    WrittenComesFrom(env, requiredHeight, c, n, actions, s);
    JournalHoldsSource(c, n, actions, s, height);
    EligibleIsExpected(env, requiredHeight, c, c.source, height);
    payloads := WriteAndReadBack(written, bucketSize, requiredHeight, flushThreshold, height);
    forall i | 0 <= i < |payloads|
      ensures FromSource(env, requiredHeight, c.source, Rec(height, payloads[i]))
    {
      PayloadLogged(written, height, payloads[i]);
      var k :| 0 <= k < |written| && written[k] == Rec(height, payloads[i]);
    }
    forall i | 0 <= i < |c.source| && Journaled(env, requiredHeight, c.source[i]) && HeightOf(env, c.source[i]) == height
      ensures JournalCodec.Encode(env.proto, KeptRecord(env, requiredHeight, c.source[i])) in payloads
    {
      ExpectedHas(env, requiredHeight, c.source, i);
      SameMembers(payloads, ExpectedAt(env, requiredHeight, c.source, height), JournalCodec.Encode(env.proto, KeptRecord(env, requiredHeight, c.source[i])));
    }
  }

  /** The writer thread's whole output, stored and read back. */
  method WriteAndReadBack(records: seq<Rec>, bucketSize: nat, n: nat, flushThreshold: nat, height: nat)
    returns (payloads: seq<Bytes>)
    requires bucketSize > 0 && n < Pow256(8) && Fits(records, n)
    ensures payloads == if 0 < height <= n then Payloads(records, height) else []
  {
    var journal := WriteAll(records, bucketSize, n, flushThreshold);
    payloads := journal.PayloadsAtHeight(height);
  }

  /** The writer thread: append everything, then flush. */
  method WriteAll(records: seq<Rec>, bucketSize: nat, n: nat, flushThreshold: nat) returns (journal: ReplayJournal)
    requires bucketSize > 0 && n < Pow256(8) && Fits(records, n)
    ensures fresh(journal) && journal.Valid() && journal.Sealed() && journal.log == records
    ensures journal.bucketSize == bucketSize && journal.indexedHeight == n
  {
    journal := new ReplayJournal(bucketSize, n);
    for i := 0 to |records|
      invariant fresh(journal) && journal.Valid() && journal.log == records[..i]
      invariant journal.bucketSize == bucketSize && journal.indexedHeight == n
    {
      assert RecFits(records[i], n);
      journal.Append(records[i].height, records[i].payload, flushThreshold);
      assert records[..i + 1] == records[..i] + [records[i]];
    }
    assert records[..|records|] == records;
    journal.Finish();
  }

  /** The whole journal, height by height. */
  method WriteAndLoadAll(records: seq<Rec>, bucketSize: nat, n: nat, flushThreshold: nat) returns (payloads: seq<seq<Bytes>>)
    requires bucketSize > 0 && n < Pow256(8) && Fits(records, n)
    ensures |payloads| == n + 1 && payloads[0] == [] && forall h :: 0 < h <= n ==> payloads[h] == Payloads(records, h)
  {
    var journal := WriteAll(records, bucketSize, n, flushThreshold);
    payloads := [[]];
    for h := 1 to n + 1
      invariant fresh(journal) && journal.Valid() && journal.Sealed() && journal.log == records && journal.indexedHeight == n
      invariant |payloads| == h && payloads[0] == [] && forall g :: 0 < g < h ==> payloads[g] == Payloads(records, g)
    {
      var next := journal.PayloadsAtHeight(h);
      payloads := payloads + [next];
    }
  }

  // ---- The queue ------------------------------------------------------------------

  /** A push, or a pop, that need not wait. */
  predicate CanPush<T>(items: seq<T>, closed: bool, capacity: nat) {
    closed || |items| < capacity
  }

  predicate CanPop<T>(items: seq<T>, closed: bool) {
    closed || items != []
  }

  function Pushed<T>(items: seq<T>, closed: bool, item: T): seq<T> {
    if closed then items else items + [item]
  }

  function Popped<T>(items: seq<T>): seq<T> {
    if items == [] then [] else items[1..]
  }

  /** The steps of the pipeline are calls of the queue: they wait for the same predicates
      and leave the same items. */
  lemma {:induction false} PipelineUsesQueues(c: Config, s: State, p: Parser, choice: Choice)
    requires s.pos <= |c.source| && (s.reader == RPush ==> s.pos < |c.source|) && choice == Go
    ensures s.reader == RPush ==>
      && (ReaderEnabled(c, s, choice) <==> CanPush(s.raw, s.rawClosed, c.rawCapacity))
      && ReaderDo(c, s, choice).raw == Pushed(s.raw, s.rawClosed, c.source[s.pos])
    ensures p == PPop ==>
      && (ParserEnabled(c, s, p, choice) <==> CanPop(s.raw, s.rawClosed))
      && ParserMove(c, s, p, choice).0.raw == Popped(s.raw) && (s.raw != [] ==> ParserMove(c, s, p, choice).1 == PCheck(s.raw[0]))
    ensures p.PPush? ==>
      && (ParserEnabled(c, s, p, choice) <==> CanPush(s.encoded, s.encodedClosed, c.encodedCapacity))
      && ParserMove(c, s, p, choice).0.encoded == Pushed(s.encoded, s.encodedClosed, p.rec)
    ensures s.writer == WPop ==>
      && (WriterEnabled(s, choice) <==> CanPop(s.encoded, s.encodedClosed))
      && WriterDo(s, choice).encoded == Popped(s.encoded) && (s.encoded != [] ==> WriterDo(s, choice).writer == WWrite(s.encoded[0]))
  {
  }

  /** What a call does while it holds the lock: wait on, or finish. */
  datatype Turn<T> = Waits | Done(result: T)

  /** The queue between two stages. */
  class BoundedQueue<T> {
    const capacity: nat
    var items: seq<T>
    var closed: bool

    ghost predicate Valid()
      reads this
    {
      |items| <= capacity
    }

    constructor (capacity: nat)
      ensures Valid() && items == [] && !closed && this.capacity == capacity
    {
      this.capacity, items, closed := capacity, [], false;
    }

    method Push(item: T) returns (turn: Turn<bool>)
      requires Valid()
      modifies this`items
      ensures Valid() && (turn.Waits? <==> !CanPush(old(items), closed, capacity))
      ensures turn.Waits? ==> items == old(items)
      ensures turn.Done? ==> turn.result == !closed && items == Pushed(old(items), closed, item)
    {
      if !closed && |items| >= capacity {
        return Waits;
      }
      if closed {
        return Done(false);
      }
      items := items + [item];
      return Done(true);
    }

    /** Drains what is left after close, then reports the end. */
    method Pop() returns (turn: Turn<Option<T>>)
      requires Valid()
      modifies this`items
      ensures Valid() && (turn.Waits? <==> !CanPop(old(items), closed))
      ensures items == Popped(old(items))
      ensures turn.Done? ==> turn.result == if old(items) == [] then None else Some(old(items)[0])
    {
      if !closed && items == [] {
        return Waits;
      }
      if items == [] {
        return Done(None);
      }
      turn := Done(Some(items[0]));
      items := items[1..];
    }

    method Close()
      modifies this`closed
      ensures closed
    {
      closed := true;
    }
  }
}
