/**
  The account-history index (src/account_history/account_history.cpp): a key-value
  database holding, per address, a counter and numbered records.  The reference is a
  plain log per address, computed from the accepted blocks.  An ordered iterator is a
  position in the ascending list of keys; record serialization is a parameter.
 */
module AccountHistory {
  import opened Arithmetic
  import opened Options
  import opened Bytes
  import opened Listing
  import opened HistoryKeys

  datatype Record = Record(seqNum: nat, height: nat, blockId: Bytes)

  datatype Codec = Codec(serialize: Record -> Bytes, parse: Bytes -> Option<Record>)

  ghost predicate RoundTrips(codec: Codec) {
    forall r :: codec.parse(codec.serialize(r)) == Some(r)
  }

  datatype TransactionHeader = TransactionHeader(payer: Bytes, payee: Bytes)

  datatype Operation = CallContract(contract: Bytes) | UploadContract(contract: Bytes) | OtherOperation

  datatype Transaction = Transaction(header: Option<TransactionHeader>, operations: seq<Operation>)

  datatype Block = Block(id: Bytes, height: nat, signer: Bytes, transactions: seq<Transaction>)

  // ---- Which addresses a block concerns --------------------------------------

  predicate Targets(op: Operation, a: Bytes) {
    !op.OtherOperation? && op.contract == a
  }

  predicate Touches(t: Transaction, a: Bytes) {
    || (t.header.Some? && (t.header.value.payer == a || t.header.value.payee == a))
    || exists i :: 0 <= i < |t.operations| && Targets(t.operations[i], a)
  }

  predicate Concerns(b: Block, a: Bytes) {
    a != [] && (b.signer == a || exists i :: 0 <= i < |b.transactions| && Touches(b.transactions[i], a))
  }

  function NonEmpty(a: Bytes): set<Bytes> {
    if a == [] then {} else {a}
  }

  method CollectFromTransaction(t: Transaction) returns (addresses: set<Bytes>)
    ensures forall a :: a in addresses <==> a != [] && Touches(t, a)
  {
    addresses := {};
    if t.header.Some? {
      addresses := NonEmpty(t.header.value.payer) + NonEmpty(t.header.value.payee);
    }
    ghost var fromHeader := addresses;
    for i := 0 to |t.operations|
      invariant forall a :: a in addresses <==> a in fromHeader || (a != [] && exists k :: 0 <= k < i && Targets(t.operations[k], a))
    {
      var op := t.operations[i];
      if !op.OtherOperation? {
        addresses := addresses + NonEmpty(op.contract);
      }
    }
  }

  /** The set of impacted addresses, as handle_block_accepted collects it. */
  method CollectAddresses(b: Block) returns (addresses: set<Bytes>)
    ensures forall a :: a in addresses <==> Concerns(b, a)
  {
    addresses := NonEmpty(b.signer);
    for i := 0 to |b.transactions|
      invariant forall a :: a in addresses <==> a != [] && (b.signer == a || exists k :: 0 <= k < i && Touches(b.transactions[k], a))
    {
      var more := CollectFromTransaction(b.transactions[i]);
      addresses := addresses + more;
    }
  }

  // ---- The reference log -----------------------------------------------------

  /** One record per concerned block, in block order. */
  function LogOf(blocks: seq<Block>, a: Bytes): seq<Record> {
    if blocks == [] then []
    else
      var before, b := LogOf(blocks[..|blocks| - 1], a), blocks[|blocks| - 1];
      if Concerns(b, a) then before + [Record(|before|, b.height, b.id)] else before
  }

  lemma {:induction false} LogOfMore(blocks: seq<Block>, b: Block, a: Bytes)
    ensures LogOf(blocks + [b], a) ==
      if Concerns(b, a) then LogOf(blocks, a) + [Record(|LogOf(blocks, a)|, b.height, b.id)] else LogOf(blocks, a)
  {
    assert (blocks + [b])[..|blocks|] == blocks;
  }

  /** Sequence numbers run 0 .. n-1, and there is at most one record per block. */
  lemma {:induction false} LogIsNumbered(blocks: seq<Block>, a: Bytes)
    ensures |LogOf(blocks, a)| <= |blocks|
    ensures forall i :: 0 <= i < |LogOf(blocks, a)| ==> LogOf(blocks, a)[i].seqNum == i
    decreases |blocks|
  {
    if blocks != [] { LogIsNumbered(blocks[..|blocks| - 1], a); }
  }

  /** The i-th record of the log is that of the block at position at[i]. */
  predicate RecordsBlock(blocks: seq<Block>, a: Bytes, at: seq<nat>, i: nat, r: Record)
    requires i < |at|
  {
    at[i] < |blocks| && Concerns(blocks[at[i]], a) && r == Record(i, blocks[at[i]].height, blocks[at[i]].id)
  }

  ghost predicate AllNamed(blocks: seq<Block>, a: Bytes, at: seq<nat>) {
    forall k :: 0 <= k < |blocks| && Concerns(blocks[k], a) ==> k in at
  }

  ghost predicate InOrder(at: seq<nat>) {
    forall i, j :: 0 <= i < j < |at| ==> at[i] < at[j]
  }

  /** The log names exactly the blocks that concern the address, each once, in block order. */
  lemma {:induction false} LogIsComplete(blocks: seq<Block>, a: Bytes) returns (at: seq<nat>)
    ensures |at| == |LogOf(blocks, a)| && InOrder(at) && AllNamed(blocks, a, at)
    ensures forall i :: 0 <= i < |at| ==> RecordsBlock(blocks, a, at, i, LogOf(blocks, a)[i])
    decreases |blocks|
  {
    if blocks == [] {
      at := [];
    } else {
      var front, b := blocks[..|blocks| - 1], blocks[|blocks| - 1];
      var named := LogIsComplete(front, a);
      at := if Concerns(b, a) then named + [|front|] else named;
      assert front + [b] == blocks;
      NamedMore(front, b, a, named, LogOf(front, a));
    }
  }

  lemma {:induction false} NamedMore(front: seq<Block>, b: Block, a: Bytes, named: seq<nat>, log: seq<Record>)
    requires |named| == |log| && InOrder(named) && AllNamed(front, a, named)
    requires forall i :: 0 <= i < |named| ==> RecordsBlock(front, a, named, i, log[i])
    ensures var at := if Concerns(b, a) then named + [|front|] else named;
      var more := if Concerns(b, a) then log + [Record(|log|, b.height, b.id)] else log;
      && InOrder(at) && AllNamed(front + [b], a, at)
      && forall i :: 0 <= i < |at| ==> RecordsBlock(front + [b], a, at, i, more[i])
  {
    var at := if Concerns(b, a) then named + [|front|] else named;
    forall i | 0 <= i < |named|
      ensures named[i] < |front| && RecordsBlock(front + [b], a, at, i, log[i])
    {
      assert RecordsBlock(front, a, named, i, log[i]);
    }
    forall k | 0 <= k < |front| + 1 && Concerns((front + [b])[k], a)
      ensures k in at
    {
      if k < |front| { assert k in named by { assert Concerns(front[k], a); } } else { assert at[|named|] == k; }
    }
  }

  lemma {:induction false} NoLogForNoAddress(blocks: seq<Block>)
    ensures LogOf(blocks, []) == []
    decreases |blocks|
  {
    if blocks != [] { NoLogForNoAddress(blocks[..|blocks| - 1]); }
  }

  // ---- What the database holds for one address -------------------------------

  ghost predicate Holds(db: map<Bytes, Bytes>, codec: Codec, w: nat, a: Bytes, log: seq<Record>) {
    && Around(db.Keys, a, w, |log|)
    && (forall i :: 0 <= i < |log| ==> HoldsRecord(db, codec, w, a, log, i))
    && (MetaKey(a) in db <==> log != [])
    && (log != [] ==> db[MetaKey(a)] == BigEndian(|log|, w))
  }

  ghost predicate HoldsRecord(db: map<Bytes, Bytes>, codec: Codec, w: nat, a: Bytes, log: seq<Record>, i: nat)
    requires i < |log|
  {
    RecordKey(a, w, i) in db && db[RecordKey(a, w, i)] == codec.serialize(log[i])
  }

  /** Writes under other keys leave an address alone. */
  lemma {:induction false} OtherWrites(db: map<Bytes, Bytes>, after: map<Bytes, Bytes>, codec: Codec, w: nat, a: Bytes, log: seq<Record>, k: Bytes, v: Bytes)
    requires Holds(db, codec, w, a, log) && after == db[k := v] && Outside(k, a) && k != MetaKey(a)
    ensures Holds(after, codec, w, a, log)
  {
    forall i | 0 <= i < |log|
      ensures HoldsRecord(after, codec, w, a, log, i)
    {
      assert HoldsRecord(db, codec, w, a, log, i);
      assert a <= RecordKey(a, w, i);
    }
  }

  /** The two writes that add a record. */
  function Added(db: map<Bytes, Bytes>, codec: Codec, w: nat, a: Bytes, r: Record): map<Bytes, Bytes> {
    db[MetaKey(a) := BigEndian(r.seqNum + 1, w)][RecordKey(a, w, r.seqNum) := codec.serialize(r)]
  }

  /** What next_sequence takes the counter of a to be. */
  function Counter(db: map<Bytes, Bytes>, w: nat, a: Bytes): nat {
    if MetaKey(a) in db && |db[MetaKey(a)]| == w then Value(db[MetaKey(a)]) else 0
  }

  lemma {:induction false} CounterIsLength(db: map<Bytes, Bytes>, codec: Codec, w: nat, a: Bytes, log: seq<Record>)
    requires Holds(db, codec, w, a, log)
    ensures Counter(db, w, a) == |log|
  {
    ValueOfBigEndian(|log|, w);
  }

  lemma {:induction false} AddedForOther(db: map<Bytes, Bytes>, codec: Codec, w: nat, a: Bytes, r: Record, b: Bytes, log: seq<Record>)
    requires Apart(a, b) && a != b && Holds(db, codec, w, b, log)
    ensures Holds(Added(db, codec, w, a, r), codec, w, b, log)
  {
    var middle := db[MetaKey(a) := BigEndian(r.seqNum + 1, w)];
    OtherRecordOutside(b, a, w, r.seqNum);
    assert MetaKey(a)[|META|..] == a && MetaKey(b)[|META|..] == b;
    OtherWrites(db, middle, codec, w, b, log, MetaKey(a), BigEndian(r.seqNum + 1, w));
    RecordIsNotMeta(a, b, w, r.seqNum);
    OtherWrites(middle, Added(db, codec, w, a, r), codec, w, b, log, RecordKey(a, w, r.seqNum), codec.serialize(r));
  }

  lemma {:induction false} RecordIsNotMeta(a: Bytes, b: Bytes, w: nat, i: nat)
    requires Apart(a, b)
    ensures RecordKey(a, w, i) != MetaKey(b)
  {
    assert a <= RecordKey(a, w, i);
  }

  lemma {:induction false} AddedAround(keys: set<Bytes>, a: Bytes, w: nat, n: nat)
    requires Apart(a, a) && Around(keys, a, w, n) && n + 1 < Pow256(w)
    ensures Around(keys + {MetaKey(a)} + {RecordKey(a, w, n)}, a, w, n + 1)
  {
    var more := keys + {MetaKey(a)} + {RecordKey(a, w, n)};
    forall k | k in more
      ensures Outside(k, a) || IsRecord(k, a, w, n + 1)
    {
      if k in keys && IsRecord(k, a, w, n) {
        var i :| 0 <= i < n && k == RecordKey(a, w, i);
        assert IsRecord(k, a, w, n + 1);
      }
      if k == RecordKey(a, w, n) { assert IsRecord(k, a, w, n + 1); }
    }
  }

  lemma {:induction false} AddedRecords(db: map<Bytes, Bytes>, codec: Codec, w: nat, a: Bytes, r: Record, log: seq<Record>, i: nat)
    requires Apart(a, a) && r.seqNum == |log| < Pow256(w) && i <= |log| && (i < |log| ==> HoldsRecord(db, codec, w, a, log, i))
    ensures HoldsRecord(Added(db, codec, w, a, r), codec, w, a, log + [r], i)
  {
    if i < |log| {
      RecordIsNotMeta(a, a, w, i);
      if RecordKey(a, w, i) == RecordKey(a, w, |log|) { RecordDistinct(a, w, i, |log|); }
    }
  }

  lemma {:induction false} AddedForSelf(db: map<Bytes, Bytes>, codec: Codec, w: nat, a: Bytes, r: Record, log: seq<Record>)
    requires Apart(a, a) && Holds(db, codec, w, a, log) && r.seqNum == |log| && |log| + 1 < Pow256(w)
    ensures Holds(Added(db, codec, w, a, r), codec, w, a, log + [r])
  {
    var after, more := Added(db, codec, w, a, r), log + [r];
    AddedAround(db.Keys, a, w, |log|);
    assert after.Keys == db.Keys + {MetaKey(a)} + {RecordKey(a, w, |log|)};
    RecordIsNotMeta(a, a, w, |log|);
    forall i | 0 <= i < |more|
      ensures HoldsRecord(after, codec, w, a, more, i)
    {
      AddedRecords(db, codec, w, a, r, log, i);
    }
  }

  // ---- Which addresses the index is right about --------------------------------

  ghost predicate Indexed(blocks: seq<Block>, a: Bytes) {
    exists k :: 0 <= k < |blocks| && Concerns(blocks[k], a)
  }

  /** The keys of a mix with those of no indexed address. */
  ghost predicate Separate(blocks: seq<Block>, a: Bytes) {
    forall b {:trigger Indexed(blocks, b)} :: Indexed(blocks, b) ==> Apart(a, b)
  }

  lemma {:induction false} IndexedMore(blocks: seq<Block>, b: Block, a: Bytes)
    ensures Indexed(blocks + [b], a) <==> Indexed(blocks, a) || Concerns(b, a)
  {
    var more := blocks + [b];
    if Indexed(blocks, a) {
      var k :| 0 <= k < |blocks| && Concerns(blocks[k], a);
      assert Concerns(more[k], a);
    }
    if Concerns(b, a) { assert Concerns(more[|blocks|], a); }
  }

  lemma {:induction false} SeparateEarlier(blocks: seq<Block>, b: Block, a: Bytes)
    requires Separate(blocks + [b], a)
    ensures Separate(blocks, a)
    ensures forall c {:trigger Concerns(b, c)} :: Concerns(b, c) ==> Apart(a, c)
  {
    forall c | Indexed(blocks, c) || Concerns(b, c)
      ensures Apart(a, c)
    {
      IndexedMore(blocks, b, c);
    }
  }

  lemma {:induction false} LogOfIndexed(blocks: seq<Block>, a: Bytes)
    ensures LogOf(blocks, a) != [] <==> Indexed(blocks, a)
    decreases |blocks|
  {
    if blocks != [] {
      var front, b := blocks[..|blocks| - 1], blocks[|blocks| - 1];
      LogOfIndexed(front, a);
      IndexedMore(front, b, a);
      assert front + [b] == blocks;
    }
  }

  /** The database holds the log of every indexed address. */
  ghost predicate HoldsAll(db: map<Bytes, Bytes>, codec: Codec, w: nat, blocks: seq<Block>) {
    forall a {:trigger Indexed(blocks, a)} :: Indexed(blocks, a) ==> Holds(db, codec, w, a, LogOf(blocks, a))
  }

  ghost predicate AllSeparate(blocks: seq<Block>) {
    forall a {:trigger Indexed(blocks, a)} :: Indexed(blocks, a) ==> Separate(blocks, a)
  }

  /** No record of the blocks' logs reads as a counter that can occur. */
  ghost predicate TellsApart(codec: Codec, w: nat, blocks: seq<Block>) {
    forall a, i :: 0 <= i < |LogOf(blocks, a)| ==> IsNoCounter(codec, w, LogOf(blocks, a)[i], |blocks|)
  }

  ghost predicate IsNoCounter(codec: Codec, w: nat, r: Record, limit: nat) {
    forall n :: 0 <= n <= limit ==> codec.serialize(r) != BigEndian(n, w)
  }

  /** A serialization that never begins with a zero byte, as a protobuf message does not,
      is told apart from every counter below 2^56. */
  lemma {:induction false} TaggedTellsApart(codec: Codec, w: nat, blocks: seq<Block>)
    requires w > 0 && |blocks| < Pow256(w - 1) && forall r :: codec.serialize(r) != [] && codec.serialize(r)[0] != 0
    ensures TellsApart(codec, w, blocks)
  {
    forall a, i | 0 <= i < |LogOf(blocks, a)|
      ensures IsNoCounter(codec, w, LogOf(blocks, a)[i], |blocks|)
    {
      forall n | 0 <= n <= |blocks|
        ensures codec.serialize(LogOf(blocks, a)[i]) != BigEndian(n, w)
      {
        SmallBeginsWithZero(n, w);
      }
    }
  }

  lemma {:induction false} SmallBeginsWithZero(n: nat, w: nat)
    requires w > 0 && n < Pow256(w - 1)
    ensures BigEndian(n, w) != [] && BigEndian(n, w)[0] == 0
    decreases w
  {
    if w > 1 { SmallBeginsWithZero(n / 256, w - 1); }
  }

  /** An address that continues another one shows up among its records. */
  lemma {:induction false} HeldIsNoPrefix(db: map<Bytes, Bytes>, codec: Codec, w: nat, a: Bytes, b: Bytes, log: seq<Record>, other: seq<Record>)
    requires Holds(db, codec, w, a, log) && Holds(db, codec, w, b, other) && other != [] && a != b
    ensures Outside(b, a)
  {
    assert HoldsRecord(db, codec, w, b, other, 0);
  }

  lemma {:induction false} CounterIsNoRecord(db: map<Bytes, Bytes>, codec: Codec, w: nat, a: Bytes, b: Bytes, log: seq<Record>, other: seq<Record>, i: nat)
    requires i < |log| && other != [] && IsNoCounter(codec, w, log[i], |other|)
    requires Holds(db, codec, w, a, log) && Holds(db, codec, w, b, other)
    ensures MetaKey(b) != RecordKey(a, w, i)
  {
    assert HoldsRecord(db, codec, w, a, log, i);
  }

  lemma {:induction false} HeldIsNoCounter(db: map<Bytes, Bytes>, codec: Codec, w: nat, a: Bytes, b: Bytes, log: seq<Record>, other: seq<Record>)
    requires Holds(db, codec, w, a, log) && Holds(db, codec, w, b, other) && other != []
    requires forall i :: 0 <= i < |log| ==> IsNoCounter(codec, w, log[i], |other|)
    ensures Outside(MetaKey(b), a)
  {
    if a <= MetaKey(b) {
      assert IsRecord(MetaKey(b), a, w, |log|);
      var i :| 0 <= i < |log| && MetaKey(b) == RecordKey(a, w, i);
      CounterIsNoRecord(db, codec, w, a, b, log, other, i);
    }
  }

  lemma {:induction false} HeldAreApart(db: map<Bytes, Bytes>, codec: Codec, w: nat, blocks: seq<Block>, a: Bytes, b: Bytes)
    requires TellsApart(codec, w, blocks) && HoldsAll(db, codec, w, blocks) && Indexed(blocks, a) && Indexed(blocks, b)
    ensures (a != b ==> Outside(b, a)) && Outside(MetaKey(b), a)
  {
    var log, other := LogOf(blocks, a), LogOf(blocks, b);
    LogOfIndexed(blocks, b);
    LogIsNumbered(blocks, b);
    if a != b { HeldIsNoPrefix(db, codec, w, a, b, log, other); }
    forall i | 0 <= i < |log|
      ensures IsNoCounter(codec, w, log[i], |other|)
    {
      assert IsNoCounter(codec, w, LogOf(blocks, a)[i], |blocks|);
    }
    HeldIsNoCounter(db, codec, w, a, b, log, other);
  }

  /** Any database that holds the logs of all indexed addresses shows them to be separate. */
  lemma {:induction false} HoldsAllIsExact(db: map<Bytes, Bytes>, codec: Codec, w: nat, blocks: seq<Block>)
    requires TellsApart(codec, w, blocks) && HoldsAll(db, codec, w, blocks)
    ensures AllSeparate(blocks)
  {
    forall a, b | Indexed(blocks, a) && Indexed(blocks, b)
      ensures Apart(a, b)
    {
      HeldAreApart(db, codec, w, blocks, a, b);
      HeldAreApart(db, codec, w, blocks, b, a);
    }
  }

  /** An address that continues another indexed one hides some log of the two, whatever
      the serialization. */
  lemma {:induction false} PrefixedAddressMixes(db: map<Bytes, Bytes>, codec: Codec, w: nat, blocks: seq<Block>, a: Bytes, b: Bytes)
    requires Indexed(blocks, a) && Indexed(blocks, b) && a < b
    ensures !HoldsAll(db, codec, w, blocks)
  {
    if HoldsAll(db, codec, w, blocks) {
      LogOfIndexed(blocks, b);
      HeldIsNoPrefix(db, codec, w, a, b, LogOf(blocks, a), LogOf(blocks, b));
      assert false;
    }
  }

  // ---- Queries ---------------------------------------------------------------

  const MAX_RECORDS: nat := 500

  /** The limit is narrowed to 32 bits after the test for zero. */
  function Limit(requested: nat): nat {
    if requested > 0 then Min(requested % 0x1_0000_0000, MAX_RECORDS) else MAX_RECORDS
  }

  /** No limit means 500, up to 500 is granted, and more is cut to 500; a limit beyond 32
      bits is first reduced modulo 2^32. */
  lemma {:induction false} LimitMeans(requested: nat)
    ensures requested == 0 ==> Limit(requested) == 500
    ensures 1 <= requested <= 500 ==> Limit(requested) == requested
    ensures 500 <= requested < 0x1_0000_0000 ==> Limit(requested) == 500
    ensures requested >= 0x1_0000_0000 && requested % 0x1_0000_0000 == 0 ==> Limit(requested) == 0
    ensures requested >= 0x1_0000_0000 && requested % 0x1_0000_0000 > 0 ==> Limit(requested) == Limit(requested % 0x1_0000_0000)
  {
  }

  /** A limited answer is the beginning of the unlimited one. */
  lemma {:induction false} AnswerIsPrefix(log: seq<Record>, start: nat, limit: nat, ascending: bool)
    ensures var all := Answer(log, start, |log|, ascending);
      Answer(log, start, limit, ascending) == all[..Min(limit, |all|)]
  {
  }

  function Forwards(log: seq<Record>, start: nat, limit: nat): seq<Record> {
    if start < |log| then log[start..Min(start + limit, |log|)] else []
  }

  /** From record `start`, or from the last one, downwards. */
  function Backwards(log: seq<Record>, start: nat, limit: nat): seq<Record> {
    Down(log, if start < |log| then start + 1 else |log|, limit)
  }

  /** The records m-1, m-2, ..., at most `limit` of them. */
  function Down(log: seq<Record>, m: nat, limit: nat): seq<Record>
    requires m <= |log|
  {
    seq(Min(m, limit), i requires 0 <= i < Min(m, limit) => log[m - 1 - i])
  }

  function Answer(log: seq<Record>, start: nat, limit: nat, ascending: bool): seq<Record> {
    if ascending || start == 0 then Forwards(log, start, limit) else Backwards(log, start, limit)
  }

  /** How many records an answer has, and which is the i-th: upwards from `start`, or
      downwards from it or from the last record. */
  lemma {:induction false} AnswerAt(log: seq<Record>, start: nat, limit: nat, ascending: bool, i: nat)
    requires i < |Answer(log, start, limit, ascending)|
    ensures i < limit && i < |log|
    ensures ascending || start == 0 ==>
      && start + i < |log| && Answer(log, start, limit, ascending)[i] == log[start + i]
      && (i + 1 == |Answer(log, start, limit, ascending)| ==> i + 1 == limit || start + i + 1 == |log|)
    ensures !ascending && start > 0 ==>
      var first := if start < |log| then start else |log| - 1;
      && i <= first && Answer(log, start, limit, ascending)[i] == log[first - i]
      && (i + 1 == |Answer(log, start, limit, ascending)| ==> i + 1 == limit || i == first)
  {
    var m := if start < |log| then start + 1 else |log|;
    assert |Down(log, m, limit)| == Min(m, limit);
  }

  /** An answer is empty only when nothing is asked for or nothing lies in its direction. */
  lemma {:induction false} AnswerEmpty(log: seq<Record>, start: nat, limit: nat, ascending: bool)
    ensures Answer(log, start, limit, ascending) == [] <==> limit == 0 || log == [] || (ascending && start >= |log|)
  {
    var m := if start < |log| then start + 1 else |log|;
    assert |Down(log, m, limit)| == Min(m, limit);
  }

  // ---- The index -------------------------------------------------------------

  method EncodeSeq(seqNum: nat, w: nat) returns (s: Bytes)
    ensures s == BigEndian(seqNum, w)
  {
    var out := new byte[w](_ => 0);
    var v, i := seqNum, w;
    assert out[w..] == [];
    while i > 0
      invariant 0 <= i <= w && BigEndian(seqNum, w) == BigEndian(v, i) + out[i..]
    {
      i := i - 1;
      ghost var tail := out[i + 1..];
      out[i] := v % 256;
      assert out[i..] == [v % 256] + tail;
      v := v / 256;
    }
    assert out[0..] == out[..];
    s := out[..];
  }

  method DecodeSeq(s: Bytes, w: nat) returns (v: nat)
    ensures v == if |s| < w then 0 else Value(s[..w])
  {
    v := 0;
    if |s| < w {
      return;
    }
    for i := 0 to w
      invariant v == Value(s[..i])
    {
      assert s[..i + 1][..i] == s[..i];
      v := v * 256 + s[i];
    }
  }

  class AccountHistory {
    const codec: Codec
    const width: nat
    var db: map<Bytes, Bytes>
    ghost var blocks: seq<Block>

    /** The database holds the log of every address that is separate from the indexed ones. */
    ghost predicate Valid()
      reads this
    {
      RoundTrips(codec) && width > 0 && forall a :: Separate(blocks, a) ==> Holds(db, codec, width, a, LogOf(blocks, a))
    }

    constructor (codec: Codec)
      requires RoundTrips(codec)
      ensures Valid() && width == 8 && this.codec == codec && blocks == []
    {
      this.codec, this.width, db, blocks := codec, 8, map[], [];
    }

    method NextSequence(a: Bytes) returns (seqNum: nat)
      modifies this`db
      ensures seqNum == Counter(old(db), width, a)
      ensures db == old(db)[MetaKey(a) := BigEndian(seqNum + 1, width)]
    {
      seqNum := 0;
      if MetaKey(a) in db && |db[MetaKey(a)]| == width {
        seqNum := DecodeSeq(db[MetaKey(a)], width);
        assert db[MetaKey(a)][..width] == db[MetaKey(a)];
      }
      var next := EncodeSeq(seqNum + 1, width);
      db := db[MetaKey(a) := next];
    }

    /** next_sequence followed by store_record. */
    method AddRecord(a: Bytes, height: nat, id: Bytes)
      modifies this`db
      ensures db == Added(old(db), codec, width, a, Record(Counter(old(db), width, a), height, id))
    {
      var seqNum := NextSequence(a);
      var number := EncodeSeq(seqNum, width);
      db := db[a + number := codec.serialize(Record(seqNum, height, id))];
    }

    /** handle_block_accepted. */
    method HandleBlock(b: Block)
      requires Valid() && |blocks| + 1 < Pow256(width)
      modifies this
      ensures Valid() && blocks == old(blocks) + [b]
    {
      var addresses := CollectAddresses(b);
      var order := SortSet(addresses);
      NoneDone(db, codec, width, blocks, b, order);
      for i := 0 to |order|
        invariant blocks == old(blocks) && HoldsPartly(db, codec, width, blocks, b, order, i)
      {
        assert order[i] in addresses;
        AddedKeepsPartly(db, codec, width, blocks, b, order, i);
        AddRecord(order[i], b.height, b.id);
      }
      AllDone(db, codec, width, blocks, b, order);
      blocks := blocks + [b];
    }

    method Seek(ks: seq<Bytes>, key: Bytes) returns (p: nat)
      requires Ascending(ks)
      ensures IsSeek(ks, key, p)
    {
      p := 0;
      while p < |ks| && Less(ks[p], key)
        invariant p <= |ks| && forall i :: 0 <= i < p ==> IsBelow(ks, key, i)
      {
        p := p + 1;
      }
      forall i | p <= i < |ks|
        ensures !IsBelow(ks, key, i)
      {
        assert p < i ==> Precedes(ks, p, i);
        if i > p && Less(ks[i], key) { LessTransitive(ks[p], ks[i], key); }
      }
    }

    method SeekForPrev(ks: seq<Bytes>, key: Bytes) returns (p: nat)
      requires Ascending(ks)
      ensures IsSeekForPrev(ks, key, p)
    {
      p := |ks|;
      while p > 0 && Less(key, ks[p - 1])
        invariant p <= |ks| && forall i :: p <= i < |ks| ==> IsAbove(ks, key, i)
      {
        p := p - 1;
      }
      forall i | 0 <= i < p
        ensures !IsAbove(ks, key, i)
      {
        assert i < p - 1 ==> Precedes(ks, i, p - 1);
        if i < p - 1 && Less(key, ks[i]) { LessTransitive(key, ks[i], ks[p - 1]); }
      }
    }

    /** The forward loop, given what the keys from `from` on hold. */
    method Forward(a: Bytes, ks: seq<Bytes>, from: nat, limit: nat, ghost ahead: seq<Record>) returns (values: seq<Record>)
      requires from <= |ks| && forall i :: 0 <= i < |ks| ==> ks[i] in db
      ensures IsAhead(db, codec, a, ks, from, ahead) ==> values == ahead[..Min(limit, |ahead|)]
    {
      var p, count := from, 0;
      values := [];
      while p < |ks| && count < limit
        invariant p == from + count <= |ks| && count <= limit
        invariant IsAhead(db, codec, a, ks, from, ahead) ==> count <= |ahead| && values == ahead[..count]
      {
        var key := ks[p];
        assert IsAhead(db, codec, a, ks, from, ahead) && count < |ahead| ==> GivesAhead(db, codec, a, ks, from, ahead, count);
        if |key| <= |a| || key[..|a|] != a {
          break;
        }
        var record := codec.parse(db[key]);
        if record.Some? {
          values := values + [record.value];
        }
        count, p := count + 1, p + 1;
      }
    }

    /** The backward loop, given what the keys before `from` hold. */
    method Backward(a: Bytes, ks: seq<Bytes>, from: nat, limit: nat, ghost ahead: seq<Record>) returns (values: seq<Record>)
      requires from <= |ks| && forall i :: 0 <= i < |ks| ==> ks[i] in db
      ensures IsBehind(db, codec, a, ks, from, ahead) ==> values == ahead[..Min(limit, |ahead|)]
    {
      var p, count := from, 0;
      values := [];
      while p > 0 && count < limit
        invariant p == from - count >= 0 && count <= limit
        invariant IsBehind(db, codec, a, ks, from, ahead) ==> count <= |ahead| && values == ahead[..count]
      {
        var key := ks[p - 1];
        assert IsBehind(db, codec, a, ks, from, ahead) && count < |ahead| ==> GivesBehind(db, codec, a, ks, from, ahead, count);
        if |key| <= |a| || key[..|a|] != a {
          break;
        }
        var record := codec.parse(db[key]);
        if record.Some? {
          values := values + [record.value];
        }
        count, p := count + 1, p - 1;
      }
    }

    method ScanForward(a: Bytes, start: nat, limit: nat) returns (values: seq<Record>)
      requires Valid() && start < Pow256(width)
      ensures Separate(blocks, a) ==> values == Forwards(LogOf(blocks, a), start, limit)
    {
      ghost var log := LogOf(blocks, a);
      var ks := Iterate(db.Keys);
      var number := EncodeSeq(start, width);
      var p := Seek(ks, a + number);
      ghost var ahead := if start < |log| then log[start..] else [];
      if Separate(blocks, a) { ForwardTrack(db, codec, width, a, log, ks, start, p, ahead); }
      KeysInDb(db, ks);
      values := Forward(a, ks, p, limit, ahead);
    }

    method ScanBackward(a: Bytes, start: nat, limit: nat) returns (values: seq<Record>)
      requires Valid() && start < Pow256(width)
      ensures Separate(blocks, a) ==> values == Backwards(LogOf(blocks, a), start, limit)
    {
      ghost var log := LogOf(blocks, a);
      var ks := Iterate(db.Keys);
      var number := EncodeSeq(start, width);
      var p := SeekForPrev(ks, a + number);
      ghost var m := if start < |log| then start + 1 else |log|;
      ghost var behind := Down(log, m, m);
      if Separate(blocks, a) {
        assert Holds(db, codec, width, a, log);
        SeekForPrevStart(ks, db.Keys, a, width, |log|, start, p);
        BackwardTrack(db, codec, width, a, log, ks, m, p, behind);
      }
      KeysInDb(db, ks);
      values := Backward(a, ks, p, limit, behind);
    }

    /** get_account_history: every query is a slice of the plain log. */
    method GetAccountHistory(address: Bytes, start: nat, limit: nat, ascending: bool) returns (values: seq<Record>)
      requires Valid() && start < Pow256(width)
      ensures address == [] || Separate(blocks, address) ==> values == Answer(LogOf(blocks, address), start, Limit(limit), ascending)
      ensures limit == 0 || 500 <= limit < 0x1_0000_0000 ==>
        (address == [] || Separate(blocks, address) ==> values == Answer(LogOf(blocks, address), start, 500, ascending))
      ensures 1 <= limit <= 500 ==>
        (address == [] || Separate(blocks, address) ==> values == Answer(LogOf(blocks, address), start, limit, ascending))
    {
      LimitMeans(limit);
      values := Query(address, start, Limit(limit), ascending);
    }

    method Query(address: Bytes, start: nat, limit: nat, ascending: bool) returns (values: seq<Record>)
      requires Valid() && start < Pow256(width)
      ensures address == [] || Separate(blocks, address) ==> values == Answer(LogOf(blocks, address), start, limit, ascending)
    {
      if address == [] {
        NoLogForNoAddress(blocks);
        return [];
      }
      if ascending || start == 0 {
        values := ScanForward(address, start, limit);
      } else {
        values := ScanBackward(address, start, limit);
      }
    }
  }

  /** The key is longer than the prefix and starts with it. */
  predicate Mine(a: Bytes, key: Bytes) {
    |key| > |a| && a <= key
  }

  ghost predicate Gives(db: map<Bytes, Bytes>, codec: Codec, a: Bytes, key: Bytes, r: Record) {
    Mine(a, key) && key in db && codec.parse(db[key]) == Some(r)
  }

  /** From `from` on stand keys that give these records, and then a foreign key or the end. */
  ghost predicate IsAhead(db: map<Bytes, Bytes>, codec: Codec, a: Bytes, ks: seq<Bytes>, from: nat, ahead: seq<Record>) {
    && from + |ahead| <= |ks| && (from + |ahead| < |ks| ==> !Mine(a, ks[from + |ahead|]))
    && forall i :: 0 <= i < |ahead| ==> GivesAhead(db, codec, a, ks, from, ahead, i)
  }

  ghost predicate GivesAhead(db: map<Bytes, Bytes>, codec: Codec, a: Bytes, ks: seq<Bytes>, from: nat, ahead: seq<Record>, i: nat)
    requires i < |ahead| && from + i < |ks|
  {
    Gives(db, codec, a, ks[from + i], ahead[i])
  }

  ghost predicate IsBehind(db: map<Bytes, Bytes>, codec: Codec, a: Bytes, ks: seq<Bytes>, from: nat, behind: seq<Record>) {
    && |behind| <= from <= |ks| && (|behind| < from ==> !Mine(a, ks[from - |behind| - 1]))
    && forall i :: 0 <= i < |behind| ==> GivesBehind(db, codec, a, ks, from, behind, i)
  }

  ghost predicate GivesBehind(db: map<Bytes, Bytes>, codec: Codec, a: Bytes, ks: seq<Bytes>, from: nat, behind: seq<Record>, i: nat)
    requires i < |behind| && i < from <= |ks|
  {
    Gives(db, codec, a, ks[from - 1 - i], behind[i])
  }

  /** An iterator over the whole index stands where Seek on record s of a puts it. */
  ghost predicate Standing(db: map<Bytes, Bytes>, codec: Codec, w: nat, a: Bytes, log: seq<Record>, ks: seq<Bytes>, s: nat, p: nat) {
    && RoundTrips(codec) && w > 0 && Holds(db, codec, w, a, log) && Iterates(ks, db.Keys)
    && s < Pow256(w) && IsSeek(ks, RecordKey(a, w, s), p)
  }

  lemma {:induction false} KeyGives(db: map<Bytes, Bytes>, codec: Codec, w: nat, a: Bytes, log: seq<Record>, s: nat)
    requires RoundTrips(codec) && w > 0 && Holds(db, codec, w, a, log) && s < |log|
    ensures Gives(db, codec, a, RecordKey(a, w, s), log[s])
  {
    assert HoldsRecord(db, codec, w, a, log, s);
  }

  /** What a forward scan meets: the records from s on, then a foreign key or the end. */
  lemma {:induction false} ForwardTrack(db: map<Bytes, Bytes>, codec: Codec, w: nat, a: Bytes, log: seq<Record>, ks: seq<Bytes>, s: nat, p: nat, ahead: seq<Record>)
    requires Standing(db, codec, w, a, log, ks, s, p) && ahead == if s < |log| then log[s..] else []
    ensures IsAhead(db, codec, a, ks, p, ahead)
  {
    ForwardStops(db, codec, w, a, log, ks, s, p, |ahead|);
    forall i | 0 <= i < |ahead|
      ensures GivesAhead(db, codec, a, ks, p, ahead, i)
    {
      ForwardGives(db, codec, w, a, log, ks, s, p, i);
    }
  }

  lemma {:induction false} ForwardStops(db: map<Bytes, Bytes>, codec: Codec, w: nat, a: Bytes, log: seq<Record>, ks: seq<Bytes>, s: nat, p: nat, n: nat)
    requires Standing(db, codec, w, a, log, ks, s, p) && n == if s < |log| then |log| - s else 0
    ensures p + n <= |ks| && (p + n < |ks| ==> !Mine(a, ks[p + n]))
  {
    SeekForward(ks, db.Keys, a, w, |log|, s, p, n);
    SeekPastEnd(ks, db.Keys, a, w, |log|, s + n, p + n);
  }

  lemma {:induction false} ForwardGives(db: map<Bytes, Bytes>, codec: Codec, w: nat, a: Bytes, log: seq<Record>, ks: seq<Bytes>, s: nat, p: nat, i: nat)
    requires Standing(db, codec, w, a, log, ks, s, p) && s + i < |log|
    ensures p + i < |ks| && Gives(db, codec, a, ks[p + i], log[s + i])
  {
    KeyAhead(ks, db.Keys, a, w, |log|, s, p, i);
    KeyGives(db, codec, w, a, log, s + i);
  }

  lemma {:induction false} KeysInDb(db: map<Bytes, Bytes>, ks: seq<Bytes>)
    requires Iterates(ks, db.Keys)
    ensures forall i :: 0 <= i < |ks| ==> ks[i] in db
  {
    forall i | 0 <= i < |ks|
      ensures ks[i] in db
    {
      assert KeyAt(ks, db.Keys, i);
    }
  }

  /** What a backward scan meets: the records below m, then a foreign key or the start. */
  lemma {:induction false} BackwardTrack(db: map<Bytes, Bytes>, codec: Codec, w: nat, a: Bytes, log: seq<Record>, ks: seq<Bytes>, m: nat, p: nat, behind: seq<Record>)
    requires Standing(db, codec, w, a, log, ks, m, p) && m <= |log| && behind == Down(log, m, m)
    ensures IsBehind(db, codec, a, ks, p, behind)
  {
    BackwardStops(db, codec, w, a, log, ks, m, p);
    forall i | 0 <= i < m
      ensures GivesBehind(db, codec, a, ks, p, behind, i)
    {
      BackwardGives(db, codec, w, a, log, ks, m, p, i);
    }
  }

  lemma {:induction false} BackwardStops(db: map<Bytes, Bytes>, codec: Codec, w: nat, a: Bytes, log: seq<Record>, ks: seq<Bytes>, m: nat, p: nat)
    requires Standing(db, codec, w, a, log, ks, m, p) && m <= |log|
    ensures m <= p <= |ks| && (m < p ==> !Mine(a, ks[p - m - 1]))
  {
    SeekBackward(ks, db.Keys, a, w, |log|, m, p, m);
    SeekBeforeStart(ks, db.Keys, a, w, |log|, p - m);
  }

  lemma {:induction false} BackwardGives(db: map<Bytes, Bytes>, codec: Codec, w: nat, a: Bytes, log: seq<Record>, ks: seq<Bytes>, m: nat, p: nat, i: nat)
    requires Standing(db, codec, w, a, log, ks, m, p) && i < m <= |log|
    ensures i < p <= |ks| && Gives(db, codec, a, ks[p - 1 - i], log[m - 1 - i])
  {
    KeyBehind(ks, db.Keys, a, w, |log|, m, p, i);
    KeyGives(db, codec, w, a, log, m - 1 - i);
  }

  /** The log of a while the block's addresses `done` have been handled. */
  ghost function Partly(blocks: seq<Block>, b: Block, done: seq<Bytes>, a: Bytes): seq<Record> {
    if a in done then LogOf(blocks + [b], a) else LogOf(blocks, a)
  }

  lemma {:induction false} PartlyNext(blocks: seq<Block>, b: Block, order: seq<Bytes>, i: nat, a: Bytes)
    requires i < |order| && Concerns(b, order[i]) && order[i] !in order[..i]
    ensures a != order[i] ==> Partly(blocks, b, order[..i + 1], a) == Partly(blocks, b, order[..i], a)
    ensures a == order[i] ==> Partly(blocks, b, order[..i + 1], a) == LogOf(blocks, a) + [Record(|LogOf(blocks, a)|, b.height, b.id)]
  {
    assert order[..i + 1] == order[..i] + [order[i]];
    LogOfMore(blocks, b, a);
  }

  lemma {:induction false} PartlyAll(blocks: seq<Block>, b: Block, order: seq<Bytes>, a: Bytes)
    requires a in order <==> Concerns(b, a)
    ensures Partly(blocks, b, order[..|order|], a) == LogOf(blocks + [b], a)
  {
    assert order[..|order|] == order;
    LogOfMore(blocks, b, a);
  }

  /** The database once the first i of the block's addresses have been handled. */
  ghost predicate HoldsPartly(db: map<Bytes, Bytes>, codec: Codec, w: nat, blocks: seq<Block>, b: Block, order: seq<Bytes>, i: nat)
    requires i <= |order|
  {
    forall a :: Separate(blocks + [b], a) ==> Holds(db, codec, w, a, Partly(blocks, b, order[..i], a))
  }

  lemma {:induction false} NoneDone(db: map<Bytes, Bytes>, codec: Codec, w: nat, blocks: seq<Block>, b: Block, order: seq<Bytes>)
    requires forall a :: Separate(blocks, a) ==> Holds(db, codec, w, a, LogOf(blocks, a))
    ensures HoldsPartly(db, codec, w, blocks, b, order, 0)
  {
    forall a | Separate(blocks + [b], a)
      ensures Holds(db, codec, w, a, Partly(blocks, b, order[..0], a))
    {
      SeparateEarlier(blocks, b, a);
    }
  }

  lemma {:induction false} AllDone(db: map<Bytes, Bytes>, codec: Codec, w: nat, blocks: seq<Block>, b: Block, order: seq<Bytes>)
    requires HoldsPartly(db, codec, w, blocks, b, order, |order|)
    requires forall a :: a in order <==> Concerns(b, a)
    ensures forall a :: Separate(blocks + [b], a) ==> Holds(db, codec, w, a, LogOf(blocks + [b], a))
  {
    forall a | Separate(blocks + [b], a)
      ensures Holds(db, codec, w, a, LogOf(blocks + [b], a))
    {
      PartlyAll(blocks, b, order, a);
    }
  }

  /** The database after AddRecord for the address c. */
  ghost function Recorded(db: map<Bytes, Bytes>, codec: Codec, w: nat, b: Block, c: Bytes): map<Bytes, Bytes> {
    Added(db, codec, w, c, Record(Counter(db, w, c), b.height, b.id))
  }

  lemma {:induction false} AddedKeepsPartly(db: map<Bytes, Bytes>, codec: Codec, w: nat, blocks: seq<Block>, b: Block, order: seq<Bytes>, i: nat)
    requires i < |order| && Concerns(b, order[i]) && order[i] !in order[..i] && |blocks| + 1 < Pow256(w)
    requires HoldsPartly(db, codec, w, blocks, b, order, i)
    ensures HoldsPartly(Recorded(db, codec, w, b, order[i]), codec, w, blocks, b, order, i + 1)
  {
    forall a | Separate(blocks + [b], a)
      ensures Holds(Recorded(db, codec, w, b, order[i]), codec, w, a, Partly(blocks, b, order[..i + 1], a))
    {
      SeparateEarlier(blocks, b, a);
      PartlyNext(blocks, b, order, i, a);
      RecordedHolds(db, codec, w, blocks, b, order, i, a);
    }
  }

  lemma {:induction false} RecordedHolds(db: map<Bytes, Bytes>, codec: Codec, w: nat, blocks: seq<Block>, b: Block, order: seq<Bytes>, i: nat, a: Bytes)
    requires i < |order| && Concerns(b, order[i]) && order[i] !in order[..i] && |blocks| + 1 < Pow256(w)
    requires Apart(a, order[i]) && Holds(db, codec, w, a, Partly(blocks, b, order[..i], a))
    ensures Holds(Recorded(db, codec, w, b, order[i]), codec, w, a, Partly(blocks, b, order[..i + 1], a))
  {
    PartlyNext(blocks, b, order, i, a);
    var c := order[i];
    var r := Record(Counter(db, w, c), b.height, b.id);
    if a == c {
      LogIsNumbered(blocks, c);
      CounterIsLength(db, codec, w, c, LogOf(blocks, c));
      AddedForSelf(db, codec, w, c, r, LogOf(blocks, c));
    } else {
      AddedForOther(db, codec, w, c, r, a, Partly(blocks, b, order[..i], a));
    }
  }

  /** Any sequence of accepted blocks: the logs of all indexed addresses are held if and
      only if the addresses are separate. */
  method IndexBlocks(codec: Codec, blocks: seq<Block>) returns (index: AccountHistory)
    requires RoundTrips(codec) && |blocks| < Pow256(8)
    ensures fresh(index) && index.Valid() && index.blocks == blocks && index.width == 8 && index.codec == codec
    ensures AllSeparate(blocks) ==> HoldsAll(index.db, codec, 8, blocks)
    ensures TellsApart(codec, 8, blocks) && HoldsAll(index.db, codec, 8, blocks) ==> AllSeparate(blocks)
  {
    index := new AccountHistory(codec);
    for k := 0 to |blocks|
      invariant fresh(index) && index.Valid() && index.blocks == blocks[..k] && index.width == 8 && index.codec == codec
    {
      index.HandleBlock(blocks[k]);
      assert blocks[..k + 1] == blocks[..k] + [blocks[k]];
    }
    assert blocks[..|blocks|] == blocks;
    if TellsApart(codec, 8, blocks) && HoldsAll(index.db, codec, 8, blocks) { HoldsAllIsExact(index.db, codec, 8, blocks); }
  }

  /** Any sequence of accepted blocks, then any query. */
  method IndexAndQuery(codec: Codec, blocks: seq<Block>, address: Bytes, start: nat, limit: nat, ascending: bool) returns (values: seq<Record>)
    requires RoundTrips(codec) && |blocks| < Pow256(8) && start < Pow256(8)
    ensures address == [] || Separate(blocks, address) ==> values == Answer(LogOf(blocks, address), start, Limit(limit), ascending)
  {
    var index := IndexBlocks(codec, blocks);
    values := index.GetAccountHistory(address, start, limit, ascending);
  }

  /** With addresses of one length, none mistaken for "meta:", the index is right about all. */
  lemma {:induction false} OneLengthIsSeparate(blocks: seq<Block>, a: Bytes, length: nat)
    requires AddressOk(a, length) && forall b :: Indexed(blocks, b) ==> AddressOk(b, length)
    ensures Separate(blocks, a)
  {
    forall b | Indexed(blocks, b)
      ensures Apart(a, b)
    {
      OneLengthIsApart(a, b, length);
    }
  }
}
