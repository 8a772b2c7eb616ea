/**
  The backward canonical walk of the replay audit.

  From the audit tip down, each block's `previous` selects the canonical candidate
  one height lower among all fork candidates, and the block's signed
  `previous_state_merkle_root` is compared with the root replayed for that
  candidate.  Every outcome is counted; some counters make the audit fail.
 */
module AuditWalk {
  import opened Arithmetic
  import opened Options
  import opened Bytes
  import opened DeltaReplay
  import opened BucketJournal

  datatype CaseKind = ReplayableTombstone | IncompleteReceipt | ConsensusScar

  datatype HistoricalCase = HistoricalCase(
    height: nat, kind: CaseKind, blockId: string, computedRoot: string, signedRoot: string)

  /** A decoded journal record together with the roots computed for it. */
  datatype Candidate = Candidate(
    blockId: Bytes, height: nat, previous: Bytes, previousRoot: Bytes,
    receiptHeight: nat, receiptId: Bytes, receiptRoot: Bytes, entries: seq<Entry>,
    computedRoot: Bytes, replayedRoot: Bytes, duplicateKeys: nat, duplicateEntries: nat)

  datatype Stats = Stats(
    blocksChecked: nat,
    ordinary: nat, tombstones: nat, incomplete: nat, duplicateFallbacks: nat, scars: nat,
    constantMismatches: nat, legacyDrops: nat, legacyTombstones: nat, legacyPuts: nat, unexplained: nat,
    duplicateBlocks: nat, duplicateKeys: nat, duplicateEntries: nat,
    withoutRoot: nat, puts: nat, removes: nat)

  const ZERO_STATS: Stats := Stats(0, 0, 0, 0, 0, 0, 0, 0, 0, 0, 0, 0, 0, 0, 0, 0, 0)

  /** audit_has_failures. */
  predicate HasFailures(s: Stats) {
    s.constantMismatches != 0 || s.legacyDrops != 0 || s.unexplained != 0
  }

  /** What the walk is given: the known cases, the tip, and the Merkle tree; `simulate` is
      the root that simulating a replay computes. */
  datatype Env = Env(
    cases: seq<HistoricalCase>, fullAudit: bool, sourceHeadId: Bytes, zeroHash: Bytes,
    merkle: Merkle, ghost simulate: seq<Entry> -> Bytes)

  ghost predicate Simulates(env: Env) {
    forall entries {:trigger SimulatesAt(env, entries)} :: SimulatesAt(env, entries)
  }

  ghost predicate SimulatesAt(env: Env, entries: seq<Entry>) {
    IsSimulatedRoot(env.merkle, entries, env.simulate(entries))
  }

  /** All candidates of every height; None is a payload that does not decode. */
  type Journal = seq<seq<Option<Candidate>>>

  // ---- Known history ---------------------------------------------------------

  /** historical_case_at: the first case recorded for the height. */
  function CaseAt(cases: seq<HistoricalCase>, height: nat): Option<HistoricalCase> {
    if cases == [] then None
    else if cases[0].height == height then Some(cases[0])
    else CaseAt(cases[1..], height)
  }

  lemma {:induction false} CaseAtFinds(cases: seq<HistoricalCase>, height: nat)
    ensures var r := CaseAt(cases, height);
      if r.Some? then r.value in cases && r.value.height == height
      else forall c :: c in cases ==> c.height != height
    ensures forall i :: 0 <= i < |cases| && FirstAtHeight(cases, i) && cases[i].height == height ==> CaseAt(cases, height) == Some(cases[i])
    decreases |cases|
  {
    if cases != [] && cases[0].height != height {
      CaseAtFinds(cases[1..], height);
      forall i | 0 <= i < |cases| && FirstAtHeight(cases, i) && cases[i].height == height
        ensures CaseAt(cases, height) == Some(cases[i])
      {
        assert cases[1..][i - 1] == cases[i] && FirstAtHeight(cases[1..], i - 1);
      }
    }
  }

  /** No earlier case is recorded for the same height. */
  ghost predicate FirstAtHeight(cases: seq<HistoricalCase>, i: nat)
    requires i < |cases|
  {
    forall k :: 0 <= k < i ==> cases[k].height != cases[i].height
  }

  /** exact_historical_fingerprint. */
  predicate Fingerprint(h: HistoricalCase, blockId: Bytes, computed: Bytes, signed: Bytes) {
    blockId == HexToBytes(h.blockId) && computed == HexToBytes(h.computedRoot) && signed == HexToBytes(h.signedRoot)
  }

  function Nibble(ch: char): byte {
    if '0' <= ch <= '9' then ch as int - '0' as int
    else if 'a' <= ch <= 'f' then ch as int - 'a' as int + 10
    else 0
  }

  /** hex_to_bytes on the well-formed lower-case strings of the table. */
  function HexToBytes(hex: string): Bytes {
    if |hex| >= 2 && hex[0] == '0' && hex[1] == 'x' then HexDigits(hex[2..]) else HexDigits(hex)
  }

  function HexDigits(hex: string): Bytes {
    if |hex| < 2 then [] else [Nibble(hex[0]) * 16 + Nibble(hex[1])] + HexDigits(hex[2..])
  }

  /** The immutable mainnet fingerprints. */
  const MAINNET_CASES: seq<HistoricalCase> := [
    HistoricalCase(30_488_259, ReplayableTombstone,
      "0x1220b3b40956db24054353baceb370f2511325aa980fcfb95fb38bdec54593df5672",
      "0x1220dde31efe92102c0ee09d39ae4784972defa9b9fe8b97aa9812cda91ba4367eeb",
      "0x1220dde31efe92102c0ee09d39ae4784972defa9b9fe8b97aa9812cda91ba4367eeb"),
    HistoricalCase(30_504_202, IncompleteReceipt,
      "0x1220f0ca713b49490ff60f5636e2848f48a7b31c95f583074a30ce7e3cb35d154524",
      "0x12207fb526273e706238cef899350facfd1ddcfa5e19ae352284be53e68d5c516f45",
      "0x12209d2d9592ddf831e892a5d4d38e93324f6834e255f84509b5e1c907ccfaa685e6"),
    HistoricalCase(32_770_789, ReplayableTombstone,
      "0x1220e71404cefd0058f9d24fbad2b99c0606903029cfe819ce3b1bd2f103e4d510d1",
      "0x12201b4e673db58a8662addc8ac081531e887f7b26b862eb0f194ab40195732103e7",
      "0x12201b4e673db58a8662addc8ac081531e887f7b26b862eb0f194ab40195732103e7"),
    HistoricalCase(32_789_377, ConsensusScar,
      "0x1220a97d7b0567ad55e3b04446a2bef447335cfd676668b069544b04a4719146d586",
      "0x12203a22d59290a838dd49c87f57fe80319636950948f6b9aaf02287c03bb36e5f68",
      "0x12209948b54dee01acd8528cf15dec02366b76e7739aedaf4487859bf6d0d182d690"),
    HistoricalCase(32_900_350, ReplayableTombstone,
      "0x1220a85e1705c62c836a9fee421b0e8a88b5b1bd0c80efb1a0a44fabca5badd5e47d",
      "0x1220f16bdb1e818fd47a8a7efd4d9be68b5185f01566ae989545f57ea4825be4cbb6",
      "0x1220f16bdb1e818fd47a8a7efd4d9be68b5185f01566ae989545f57ea4825be4cbb6")]

  /** Every mainnet fingerprint is the one found at its height. */
  lemma {:induction false} MainnetCaseFound(i: nat)
    requires i < |MAINNET_CASES|
    ensures CaseAt(MAINNET_CASES, MAINNET_CASES[i].height) == Some(MAINNET_CASES[i])
  {
    var cases := MAINNET_CASES;
    assert FirstAtHeight(cases, i);
    CaseAtFinds(cases, cases[i].height);
  }

  // ---- Legacy entry drops ----------------------------------------------------

  /** The entries whose bit is not set in the mask; bit i belongs to entry i. */
  function Kept(entries: seq<Entry>, mask: nat): seq<Entry> {
    if entries == [] then []
    else (if mask % 2 == 0 then [entries[0]] else []) + Kept(entries[1..], mask / 2)
  }

  function Dropped(entries: seq<Entry>, mask: nat, puts: bool): nat {
    if entries == [] then 0
    else (if mask % 2 == 1 && entries[0].value.Some? == puts then 1 else 0) + Dropped(entries[1..], mask / 2, puts)
  }

  /** Replaying the entries that the mask keeps gives the signed root. */
  ghost predicate DropMatches(env: Env, entries: seq<Entry>, signed: Bytes, mask: nat) {
    env.simulate(Kept(entries, mask)) == signed
  }

  lemma {:induction false} DropMatchesIsSimulated(env: Env, entries: seq<Entry>, signed: Bytes, mask: nat)
    requires Simulates(env)
    ensures DropMatches(env, entries, signed, mask) <==> IsSimulatedRoot(env.merkle, Kept(entries, mask), signed)
  {
    assert SimulatesAt(env, Kept(entries, mask));
    if IsSimulatedRoot(env.merkle, Kept(entries, mask), signed) {
      SimulatedRootUnique(env.merkle, Kept(entries, mask), signed, env.simulate(Kept(entries, mask)));
    }
  }

  method TryMask(env: Env, entries: seq<Entry>, signed: Bytes, mask: nat) returns (matches: bool)
    requires Simulates(env)
    ensures matches <==> DropMatches(env, entries, signed, mask)
  {
    var a := AnalyzeReplayed(env.merkle, Kept(entries, mask), None);
    DropMatchesIsSimulated(env, entries, a.root, mask);
    return a.root == signed;
  }

  /** The first mask at or above `mask` that reproduces the signed root. */
  ghost function FirstMask(env: Env, entries: seq<Entry>, signed: Bytes, mask: nat, limit: nat): (r: Option<nat>)
    ensures r.Some? ==> mask <= r.value < limit && DropMatches(env, entries, signed, r.value)
    decreases limit - mask
  {
    if mask >= limit then None
    else if DropMatches(env, entries, signed, mask) then Some(mask)
    else FirstMask(env, entries, signed, mask + 1, limit)
  }

  ghost function LegacyMask(env: Env, entries: seq<Entry>, signed: Bytes): Option<nat> {
    if 0 < |entries| <= 20 then FirstMask(env, entries, signed, 1, Pow2(|entries|)) else None
  }

  lemma {:induction false} FirstMaskIsLeast(env: Env, entries: seq<Entry>, signed: Bytes, mask: nat, limit: nat, m: nat)
    requires mask <= m < limit && DropMatches(env, entries, signed, m)
    ensures FirstMask(env, entries, signed, mask, limit).Some? && FirstMask(env, entries, signed, mask, limit).value <= m
    decreases limit - mask
  {
    if !DropMatches(env, entries, signed, mask) { FirstMaskIsLeast(env, entries, signed, mask + 1, limit, m); }
  }

  /** The numerically least non-empty set of dropped entries that reproduces the signed
      root; None means that no set does, or that there are too many entries to try. */
  method FindLegacyMask(env: Env, entries: seq<Entry>, signed: Bytes) returns (r: Option<nat>)
    requires Simulates(env)
    ensures r == LegacyMask(env, entries, signed)
    ensures r.Some? ==> 0 < |entries| <= 20 && 0 < r.value < Pow2(|entries|) && DropMatches(env, entries, signed, r.value)
    ensures 0 < |entries| <= 20 ==>
      forall m :: 0 < m < Pow2(|entries|) && DropMatches(env, entries, signed, m) ==> r.Some? && r.value <= m
  {
    forall m | 0 < m < Pow2(|entries|) && DropMatches(env, entries, signed, m)
      ensures var first := FirstMask(env, entries, signed, 1, Pow2(|entries|)); first.Some? && first.value <= m
    {
      FirstMaskIsLeast(env, entries, signed, 1, Pow2(|entries|), m);
    }
    r := None;
    if 0 < |entries| <= 20 {
      var limit := Pow2(|entries|);
      var mask := 1;
      while r.None? && mask < limit
        invariant 1 <= mask <= limit
        invariant r.None? ==> FirstMask(env, entries, signed, 1, limit) == FirstMask(env, entries, signed, mask, limit)
        invariant r.Some? ==> FirstMask(env, entries, signed, 1, limit) == r
        decreases limit - mask, r.None?
      {
        var matches := TryMask(env, entries, signed, mask);
        if matches {
          r := Some(mask);
        } else {
          mask := mask + 1;
        }
      }
    }
  }

  // ---- Classification of one block -------------------------------------------

  datatype Class =
    | Ordinary | KnownTombstone | DuplicateFallback | KnownIncomplete | KnownScar
    | ConstantMismatch | LegacyDrop(removes: nat, puts: nat) | Unexplained
    | Uncounted  // the id mismatch was already counted

  predicate IdMatches(known: Option<HistoricalCase>, c: Candidate) {
    known.Some? ==> c.blockId == HexToBytes(known.value.blockId)
  }

  ghost function Classify(env: Env, known: Option<HistoricalCase>, c: Candidate, signed: Bytes): Class {
    if c.replayedRoot == signed then
      match known
      case None => Ordinary
      case Some(k) =>
        if k.kind == ReplayableTombstone && Fingerprint(k, c.blockId, c.replayedRoot, signed) then KnownTombstone
        else if IdMatches(known, c) then ConstantMismatch else Uncounted
    else if c.duplicateKeys != 0 && c.computedRoot == signed then DuplicateFallback
    else if known.Some? && known.value.kind == IncompleteReceipt
            && Fingerprint(known.value, c.blockId, c.replayedRoot, signed) then KnownIncomplete
    else if known.Some? && known.value.kind == ConsensusScar
            && Fingerprint(known.value, c.blockId, c.replayedRoot, signed) then KnownScar
    else ClassifyMismatch(env, known, c, signed)
  }

  ghost function ClassifyMismatch(env: Env, known: Option<HistoricalCase>, c: Candidate, signed: Bytes): Class {
    if known.Some? && IdMatches(known, c) then ConstantMismatch
    else match LegacyMask(env, c.entries, signed)
      case None => Unexplained
      case Some(mask) => LegacyDrop(Dropped(c.entries, mask, false), Dropped(c.entries, mask, true))
  }

  /** The mask drops something, and replaying the rest gives the signed root. */
  ghost predicate Drops(env: Env, entries: seq<Entry>, signed: Bytes, m: nat) {
    0 < m < Pow2(|entries|) && IsSimulatedRoot(env.merkle, Kept(entries, m), signed)
  }

  ghost predicate DropCounts(entries: seq<Entry>, m: nat, removes: nat, puts: nat) {
    && removes == Dropped(entries, m, false) && puts == Dropped(entries, m, true)
    && |Kept(entries, m)| + removes + puts == |entries|
  }

  /** A mismatching block counts as a legacy drop exactly when no known case claims it and
      replaying it without some of its entries gives the signed root; the counters say how
      many removes and puts were left out. */
  lemma {:induction false} LegacyDropMeans(env: Env, known: Option<HistoricalCase>, c: Candidate, signed: Bytes)
    requires Simulates(env) && 0 < |c.entries| <= 20
    ensures var class_ := ClassifyMismatch(env, known, c, signed);
      && (class_.LegacyDrop? <==> !(known.Some? && IdMatches(known, c)) && exists m :: Drops(env, c.entries, signed, m))
      && (class_.LegacyDrop? ==> exists m :: Drops(env, c.entries, signed, m) && DropCounts(c.entries, m, class_.removes, class_.puts))
  {
    var first := LegacyMask(env, c.entries, signed);
    forall m | Drops(env, c.entries, signed, m)
      ensures first.Some?
    {
      DropMatchesIsSimulated(env, c.entries, signed, m);
      FirstMaskIsLeast(env, c.entries, signed, 1, Pow2(|c.entries|), m);
    }
    if first.Some? {
      DropMatchesIsSimulated(env, c.entries, signed, first.value);
      KeptAndDropped(c.entries, first.value);
      assert Drops(env, c.entries, signed, first.value);
    }
  }

  lemma {:induction false} KeptAndDropped(entries: seq<Entry>, mask: nat)
    ensures |Kept(entries, mask)| + Dropped(entries, mask, false) + Dropped(entries, mask, true) == |entries|
    decreases |entries|
  {
    if entries != [] { KeptAndDropped(entries[1..], mask / 2); }
  }

  method ClassifyBlock(env: Env, known: Option<HistoricalCase>, c: Candidate, signed: Bytes) returns (class_: Class)
    requires Simulates(env)
    ensures class_ == Classify(env, known, c, signed)
  {
    if c.replayedRoot == signed {
      if known.None? {
        return Ordinary;
      }
      if known.value.kind == ReplayableTombstone && Fingerprint(known.value, c.blockId, c.replayedRoot, signed) {
        return KnownTombstone;
      }
      return if IdMatches(known, c) then ConstantMismatch else Uncounted;
    }
    if c.duplicateKeys != 0 && c.computedRoot == signed {
      return DuplicateFallback;
    }
    if known.Some? && known.value.kind == IncompleteReceipt && Fingerprint(known.value, c.blockId, c.replayedRoot, signed) {
      return KnownIncomplete;
    }
    if known.Some? && known.value.kind == ConsensusScar && Fingerprint(known.value, c.blockId, c.replayedRoot, signed) {
      return KnownScar;
    }
    var mask := FindLegacyMask(env, c.entries, signed);
    if known.Some? && IdMatches(known, c) {
      return ConstantMismatch;
    }
    return if mask.None? then Unexplained else LegacyDrop(Dropped(c.entries, mask.value, false), Dropped(c.entries, mask.value, true));
  }

  function CountClass(s: Stats, class_: Class): Stats {
    match class_
    case Ordinary => s.(ordinary := s.ordinary + 1)
    case KnownTombstone => s.(tombstones := s.tombstones + 1)
    case DuplicateFallback => s.(duplicateFallbacks := s.duplicateFallbacks + 1)
    case KnownIncomplete => s.(incomplete := s.incomplete + 1)
    case KnownScar => s.(scars := s.scars + 1)
    case ConstantMismatch => s.(constantMismatches := s.constantMismatches + 1)
    case LegacyDrop(removes, puts) =>
      s.(legacyDrops := s.legacyDrops + 1, legacyTombstones := s.legacyTombstones + removes,
         legacyPuts := s.legacyPuts + puts)
    case Unexplained => s.(unexplained := s.unexplained + 1)
    case Uncounted => s
  }

  function CountId(s: Stats, known: Option<HistoricalCase>, c: Candidate): Stats {
    if IdMatches(known, c) then s else s.(constantMismatches := s.constantMismatches + 1)
  }

  function CountDuplicates(s: Stats, c: Candidate): Stats {
    if c.duplicateKeys == 0 then s
    else s.(duplicateBlocks := s.duplicateBlocks + 1,
            duplicateKeys := s.duplicateKeys + c.duplicateKeys,
            duplicateEntries := s.duplicateEntries + c.duplicateEntries)
  }

  function PutCount(entries: seq<Entry>): nat {
    if entries == [] then 0
    else PutCount(entries[..|entries| - 1]) + (if entries[|entries| - 1].value.Some? then 1 else 0)
  }

  function CountReceipt(s: Stats, c: Candidate): Stats {
    var puts := PutCount(c.entries);
    s.(withoutRoot := s.withoutRoot + (if c.receiptRoot == [] then 1 else 0),
       puts := s.puts + puts,
       removes := s.removes + (if puts <= |c.entries| then |c.entries| - puts else 0),
       blocksChecked := s.blocksChecked + 1)
  }

  /** The consistency checks that throw. */
  predicate ReceiptConsistent(c: Candidate, height: nat) {
    && c.height == height
    && (c.receiptHeight == 0 || c.receiptHeight == height)
    && (c.receiptId == [] || c.receiptId == c.blockId)
    && (c.receiptRoot == [] || c.receiptRoot == c.replayedRoot)
  }

  // ---- The walk --------------------------------------------------------------

  /** What the next lower block has to be: its id and its replayed root. */
  datatype Expectation = Expectation(id: Bytes, root: Bytes)

  /** `selected` lists the canonical blocks from the tip down. */
  datatype Walk = Walk(expected: Option<Expectation>, stats: Stats, selected: seq<Candidate>)

  const START: Walk := Walk(None, ZERO_STATS, [])

  function FirstWithId(cs: seq<Candidate>, id: Bytes): Option<Candidate> {
    if cs == [] then None else if cs[0].blockId == id then Some(cs[0]) else FirstWithId(cs[1..], id)
  }

  lemma {:induction false} FirstWithIdFinds(cs: seq<Candidate>, id: Bytes)
    ensures var r := FirstWithId(cs, id);
      if r.Some? then r.value in cs && r.value.blockId == id else forall c :: c in cs ==> c.blockId != id
    decreases |cs|
  {
    if cs != [] && cs[0].blockId != id { FirstWithIdFinds(cs[1..], id); }
  }

  function Select(env: Env, cs: seq<Candidate>, expected: Option<Expectation>): Option<Candidate> {
    if cs == [] then None
    else match expected
      case Some(e) => FirstWithId(cs, e.id)
      case None => if env.fullAudit then FirstWithId(cs, env.sourceHeadId) else Some(cs[0])
  }

  ghost function Counted(env: Env, height: nat, c: Candidate, w: Walk): Stats {
    var known := CaseAt(env.cases, height);
    var s := CountId(CountDuplicates(w.stats, c), known, c);
    CountReceipt(if w.expected.Some? then CountClass(s, Classify(env, known, c, w.expected.value.root)) else s, c)
  }

  /** One height of the walk; None is an exception. */
  ghost function StepDown(env: Env, height: nat, cs: seq<Candidate>, w: Walk): Option<Walk> {
    match Select(env, cs, w.expected)
    case None => None
    case Some(c) =>
      if !ReceiptConsistent(c, height) then None
      else Some(Walk(Some(Expectation(c.previous, c.previousRoot)), Counted(env, height, c, w), w.selected + [c]))
  }

  /** The body of the loop over heights. */
  method TakeStep(env: Env, height: nat, cs: seq<Candidate>, w: Walk) returns (r: Option<Walk>)
    requires Simulates(env)
    ensures r == StepDown(env, height, cs, w)
  {
    var selected := Select(env, cs, w.expected);
    if selected.None? {
      return None;
    }
    var c := selected.value;
    var known := CaseAt(env.cases, height);
    var s := CountId(CountDuplicates(w.stats, c), known, c);
    if w.expected.Some? {
      var class_ := ClassifyBlock(env, known, c, w.expected.value.root);
      s := CountClass(s, class_);
    }
    if !ReceiptConsistent(c, height) {
      return None;
    }
    return Some(Walk(Some(Expectation(c.previous, c.previousRoot)), CountReceipt(s, c), w.selected + [c]));
  }

  ghost predicate Decodes(cs: seq<Option<Candidate>>) {
    forall i :: 0 <= i < |cs| ==> cs[i].Some?
  }

  function Values(cs: seq<Option<Candidate>>): (r: seq<Candidate>)
    requires forall i :: 0 <= i < |cs| ==> cs[i].Some?
    ensures |r| == |cs| && forall i :: 0 <= i < |cs| ==> r[i] == cs[i].value
  {
    if cs == [] then [] else Values(cs[..|cs| - 1]) + [cs[|cs| - 1].value]
  }

  ghost predicate AllDecode(j: Journal, lo: nat, hi: nat) {
    forall h :: lo <= h <= hi && h < |j| ==> Decodes(j[h])
  }

  /** One height of a walk, given the height and the walk so far. */
  type Stepper = (nat, Walk) -> Option<Walk>

  ghost function StepOf(env: Env, j: Journal): Stepper {
    (h: nat, w: Walk) => if h < |j| && Decodes(j[h]) then StepDown(env, h, Values(j[h]), w) else None
  }

  ghost predicate StepsAt(env: Env, j: Journal, step: Stepper, h: nat, w: Walk) {
    h < |j| && Decodes(j[h]) ==> step(h, w) == StepDown(env, h, Values(j[h]), w)
  }

  ghost predicate Steps(env: Env, j: Journal, step: Stepper) {
    forall h, w {:trigger StepsAt(env, j, step, h, w)} :: StepsAt(env, j, step, h, w)
  }

  lemma {:induction false} StepOfSteps(env: Env, j: Journal)
    ensures Steps(env, j, StepOf(env, j))
  {
  }

  /** The whole walk from `height` down to `lo`, without chunks. */
  ghost function WalkBy(step: Stepper, height: nat, lo: nat, w: Walk): Option<Walk>
    requires 0 < lo
    decreases height
  {
    if height < lo then Some(w)
    else match step(height, w)
      case None => None
      case Some(w') => WalkBy(step, height - 1, lo, w')
  }

  function AnchoredAtGenesis(env: Env, start: nat, w: Walk): bool {
    start == 1 && w.expected.Some? ==> w.expected.value == Expectation(env.zeroHash, env.zeroHash)
  }

  /** The audit result, walking on from w: None when any step throws. */
  ghost function AuditBy(env: Env, j: Journal, step: Stepper, start: nat, end: nat, w: Walk): Option<Walk>
    requires 0 < start && end < |j|
  {
    if !AllDecode(j, start, end) then None
    else match WalkBy(step, end, start, w)
      case None => None
      case Some(w) => if AnchoredAtGenesis(env, start, w) then Some(w) else None
  }

  ghost function Audit(env: Env, j: Journal, start: nat, end: nat, w: Walk): Option<Walk>
    requires 0 < start && end < |j|
  {
    AuditBy(env, j, StepOf(env, j), start, end, w)
  }

  // ---- What every walk keeps -----------------------------------------------------

  /** If `ok` holds before a step, it holds after it. */
  ghost predicate StepKeeps(step: Stepper, ok: (nat, Walk) -> bool, h: nat, w: Walk) {
    h > 0 && ok(h, w) && step(h, w).Some? ==> ok(h - 1, step(h, w).value)
  }

  lemma {:induction false} WalkKeeps(step: Stepper, ok: (nat, Walk) -> bool, height: nat, lo: nat, w: Walk, r: Walk)
    requires 0 < lo && lo - 1 <= height && ok(height, w) && WalkBy(step, height, lo, w) == Some(r)
    requires forall h, v {:trigger StepKeeps(step, ok, h, v)} :: lo <= h <= height ==> StepKeeps(step, ok, h, v)
    ensures ok(lo - 1, r)
    decreases height
  {
    if height >= lo {
      assert StepKeeps(step, ok, height, w);
      WalkKeeps(step, ok, height - 1, lo, step(height, w).value, r);
    }
  }

  // ---- Soundness -------------------------------------------------------------

  /** The root of a non-tip block is explained: it is the root its child signed, or
      a duplicate-key receipt whose serialized root is, or an exact known exception. */
  ghost predicate Explained(env: Env, height: nat, c: Candidate, signed: Bytes) {
    || c.replayedRoot == signed
    || (c.duplicateKeys != 0 && c.computedRoot == signed)
    || (exists k :: k in env.cases && k.height == height && k.kind != ReplayableTombstone
                    && Fingerprint(k, c.blockId, c.replayedRoot, signed))
  }

  function Accepted(s: Stats): nat {
    s.ordinary + s.tombstones + s.incomplete + s.duplicateFallbacks + s.scars
  }

  lemma {:induction false} CleanClass(env: Env, height: nat, known: Option<HistoricalCase>, c: Candidate, signed: Bytes, s: Stats)
    requires known == CaseAt(env.cases, height)
    requires !HasFailures(CountClass(CountId(s, known, c), Classify(env, known, c, signed)))
    ensures Explained(env, height, c, signed) && IdMatches(known, c)
    ensures Accepted(CountClass(CountId(s, known, c), Classify(env, known, c, signed))) == Accepted(s) + 1
    ensures !HasFailures(s)
  {
    CaseAtFinds(env.cases, height);
  }

  lemma {:induction false} SelectFinds(env: Env, cs: seq<Candidate>, expected: Option<Expectation>, c: Candidate)
    requires Select(env, cs, expected) == Some(c)
    ensures c in cs
    ensures expected.Some? ==> c.blockId == expected.value.id
    ensures expected.None? && env.fullAudit ==> c.blockId == env.sourceHeadId
  {
    FirstWithIdFinds(cs, if expected.Some? then expected.value.id else env.sourceHeadId);
  }

  lemma {:induction false} CleanCount(env: Env, height: nat, c: Candidate, w: Walk)
    requires !HasFailures(Counted(env, height, c, w))
    ensures var s := Counted(env, height, c, w);
      && !HasFailures(w.stats)
      && s.blocksChecked == w.stats.blocksChecked + 1
      && IdMatches(CaseAt(env.cases, height), c)
      && Accepted(s) == Accepted(w.stats) + (if w.expected.Some? then 1 else 0)
      && (w.expected.Some? ==> Explained(env, height, c, w.expected.value.root))
  {
    if w.expected.Some? {
      CleanClass(env, height, CaseAt(env.cases, height), c, w.expected.value.root, CountDuplicates(w.stats, c));
    }
  }

  /** The k-th selected block is the candidate at height end - k that its child names. */
  ghost predicate Linked(env: Env, j: Journal, end: nat, sel: seq<Candidate>, k: nat)
    requires k < |sel|
  {
    && k <= end < |j| && Some(sel[k]) in j[end - k] && ReceiptConsistent(sel[k], end - k)
    && IdMatches(CaseAt(env.cases, end - k), sel[k])
    && (k == 0 && env.fullAudit ==> sel[0].blockId == env.sourceHeadId)
    && (k > 0 ==> sel[k].blockId == sel[k - 1].previous && Explained(env, end - k, sel[k], sel[k - 1].previousRoot))
  }

  ghost predicate Chain(env: Env, j: Journal, end: nat, sel: seq<Candidate>) {
    forall k :: 0 <= k < |sel| ==> Linked(env, j, end, sel, k)
  }

  ghost predicate WalkOk(env: Env, j: Journal, end: nat, w: Walk) {
    && Chain(env, j, end, w.selected)
    && w.stats.blocksChecked == |w.selected|
    && Accepted(w.stats) + 1 == (if w.selected == [] then 1 else |w.selected|)
    && (w.expected.None? <==> w.selected == [])
    && (w.selected != [] ==>
          var last := w.selected[|w.selected| - 1];
          w.expected == Some(Expectation(last.previous, last.previousRoot)))
  }

  /** Appending a clean selection keeps the chain. */
  lemma {:induction false} ChainExtends(env: Env, j: Journal, end: nat, sel: seq<Candidate>, c: Candidate)
    requires Chain(env, j, end, sel) && Linked(env, j, end, sel + [c], |sel|)
    ensures Chain(env, j, end, sel + [c])
  {
    forall k | 0 <= k < |sel + [c]|
      ensures Linked(env, j, end, sel + [c], k)
    {
      if k < |sel| { assert Linked(env, j, end, sel, k); }
    }
  }

  lemma {:induction false} StepKeepsChain(env: Env, j: Journal, end: nat, w: Walk, w': Walk)
    requires end < |j| && |w.selected| <= end && Decodes(j[end - |w.selected|])
    requires WalkOk(env, j, end, w)
    requires StepDown(env, end - |w.selected|, Values(j[end - |w.selected|]), w) == Some(w') && !HasFailures(w'.stats)
    ensures WalkOk(env, j, end, w') && |w'.selected| == |w.selected| + 1
  {
    var height := end - |w.selected|;
    var cs := Values(j[height]);
    var c := Select(env, cs, w.expected).value;
    SelectFinds(env, cs, w.expected, c);
    CleanCount(env, height, c, w);
    var i :| 0 <= i < |cs| && cs[i] == c;
    assert j[height][i] == Some(c);
    ChainExtends(env, j, end, w.selected, c);
  }

  /** While nothing has failed, the walk is in order and `height` is next. */
  ghost predicate InOrder(env: Env, j: Journal, end: nat, height: nat, w: Walk) {
    !HasFailures(w.stats) ==> WalkOk(env, j, end, w) && |w.selected| + height == end
  }

  lemma {:induction false} StepStaysInOrder(env: Env, j: Journal, end: nat, height: nat, w: Walk, w': Walk)
    requires 0 < height <= end < |j| && Decodes(j[height]) && InOrder(env, j, end, height, w)
    requires StepDown(env, height, Values(j[height]), w) == Some(w')
    ensures InOrder(env, j, end, height - 1, w')
  {
    if !HasFailures(w'.stats) {
      CleanCount(env, height, w'.selected[|w'.selected| - 1], w);
      StepKeepsChain(env, j, end, w, w');
    }
  }

  lemma {:induction false} CleanWalk(env: Env, j: Journal, step: Stepper, end: nat, lo: nat, w: Walk, r: Walk)
    requires Steps(env, j, step) && 0 < lo <= end < |j| && AllDecode(j, lo, end) && InOrder(env, j, end, end, w)
    requires WalkBy(step, end, lo, w) == Some(r)
    ensures InOrder(env, j, end, lo - 1, r)
  {
    var ok := (h: nat, v: Walk) => InOrder(env, j, end, h, v);
    forall h, v | lo <= h <= end
      ensures StepKeeps(step, ok, h, v)
    {
      if ok(h, v) && step(h, v).Some? {
        assert Decodes(j[h]) && StepsAt(env, j, step, h, v);
        StepStaysInOrder(env, j, end, h, v, step(h, v).value);
      }
    }
    WalkKeeps(step, ok, end, lo, w, r);
  }

  /** Nothing selected and nothing counted yet. */
  ghost predicate Fresh(w: Walk) {
    w.expected.None? && w.selected == [] && w.stats.blocksChecked == 0 && Accepted(w.stats) == 0
  }

  /** Main theorem.  If the audit of heights start..end ends without a failure
      counter, the selected blocks form the chain of ancestors of the tip, every
      non-tip root is explained, the five accepted counters add up to
      blocks_checked - 1, and an audit from height 1 is anchored at genesis. */
  lemma {:induction false} CleanAuditIsSound(env: Env, j: Journal, start: nat, end: nat, w: Walk, r: Walk)
    requires 0 < start <= end < |j| && Fresh(w)
    requires Audit(env, j, start, end, w) == Some(r) && !HasFailures(r.stats)
    ensures |r.selected| == end - start + 1 == r.stats.blocksChecked
    ensures Chain(env, j, end, r.selected) && Accepted(r.stats) == r.stats.blocksChecked - 1
    ensures start == 1 ==>
      var last := r.selected[|r.selected| - 1]; last.previous == env.zeroHash && last.previousRoot == env.zeroHash
  {
    StepOfSteps(env, j);
    CleanWalk(env, j, StepOf(env, j), end, start, w, r);
  }

  /** The block raises no failure counter when `signed` is what its child signed
      (None for the tip). */
  ghost predicate CleanBlock(env: Env, height: nat, c: Candidate, signed: Option<Bytes>) {
    var known := CaseAt(env.cases, height);
    && IdMatches(known, c)
    && (signed.Some? ==>
          var class_ := Classify(env, known, c, signed.value);
          !class_.ConstantMismatch? && !class_.LegacyDrop? && !class_.Unexplained?)
  }

  function SignedBy(expected: Option<Expectation>): Option<Bytes> {
    if expected.Some? then Some(expected.value.root) else None
  }

  lemma {:induction false} CountedFailure(env: Env, height: nat, c: Candidate, w: Walk)
    ensures HasFailures(Counted(env, height, c, w)) <==>
      HasFailures(w.stats) || !CleanBlock(env, height, c, SignedBy(w.expected))
  {
  }

  /** The step from w to w' selected a clean block. */
  ghost predicate CleanStep(env: Env, height: nat, w: Walk, w': Walk) {
    w'.selected != [] && CleanBlock(env, height, w'.selected[|w'.selected| - 1], SignedBy(w.expected))
  }

  /** Every block a walk selects from w on is clean. */
  ghost predicate AllClean(env: Env, step: Stepper, height: nat, lo: nat, w: Walk)
    requires 0 < lo
    decreases height
  {
    height >= lo && step(height, w).Some? ==>
      CleanStep(env, height, w, step(height, w).value) && AllClean(env, step, height - 1, lo, step(height, w).value)
  }

  lemma {:induction false} StepFails(env: Env, j: Journal, height: nat, w: Walk, w': Walk)
    requires height < |j| && Decodes(j[height]) && StepDown(env, height, Values(j[height]), w) == Some(w')
    ensures HasFailures(w'.stats) <==> HasFailures(w.stats) || !CleanStep(env, height, w, w')
  {
    CountedFailure(env, height, w'.selected[|w'.selected| - 1], w);
  }

  /** The audit reports failure exactly when some selected block is not clean. */
  lemma {:induction false} FailsExactlyOnUncleanBlock(env: Env, j: Journal, step: Stepper, height: nat, lo: nat, w: Walk, r: Walk)
    requires Steps(env, j, step) && 0 < lo && height < |j| && AllDecode(j, lo, height)
    requires WalkBy(step, height, lo, w) == Some(r)
    ensures HasFailures(r.stats) <==> HasFailures(w.stats) || !AllClean(env, step, height, lo, w)
    decreases height
  {
    if height >= lo {
      var w' := step(height, w).value;
      assert Decodes(j[height]) && StepsAt(env, j, step, height, w);
      StepFails(env, j, height, w, w');
      FailsExactlyOnUncleanBlock(env, j, step, height - 1, lo, w', r);
    }
  }

  /** With at most one candidate per id and height, the tip determines the chain:
      the selected blocks are exactly the ancestors of the source head. */
  lemma {:induction false} ChainUnique(env: Env, j: Journal, end: nat, a: seq<Candidate>, b: seq<Candidate>, k: nat)
    requires Chain(env, j, end, a) && Chain(env, j, end, b) && env.fullAudit
    requires forall h, c, d :: 0 <= h < |j| && Some(c) in j[h] && Some(d) in j[h] && c.blockId == d.blockId ==> c == d
    requires k < |a| && k < |b|
    ensures a[k] == b[k]
    decreases k
  {
    assert Linked(env, j, end, a, k) && Linked(env, j, end, b, k);
    if k > 0 { ChainUnique(env, j, end, a, b, k - 1); }
  }

  // ---- The chunked loop ------------------------------------------------------

  ghost function Then(step: Stepper, height: nat, lo: nat, r: Option<Walk>): Option<Walk>
    requires 0 < lo
  {
    match r
    case None => None
    case Some(w) => WalkBy(step, height, lo, w)
  }

  /** Walking to `lo` is walking to `mid` first and then on from there. */
  lemma {:induction false} WalkSplits(step: Stepper, height: nat, mid: nat, lo: nat, w: Walk)
    requires 0 < lo < mid <= height + 1
    ensures WalkBy(step, height, lo, w) == Then(step, mid - 1, lo, WalkBy(step, height, mid, w))
    decreases height
  {
    if height >= mid && step(height, w).Some? { WalkSplits(step, height - 1, mid, lo, step(height, w).value); }
  }

  /** Decoding every payload of a chunk. */
  method DecodeChunk(j: Journal, lo: nat, hi: nat) returns (ok: bool)
    requires lo <= hi < |j|
    ensures ok <==> AllDecode(j, lo, hi)
  {
    for h := lo to hi + 1
      invariant forall g :: lo <= g < h ==> Decodes(j[g])
    {
      for i := 0 to |j[h]|
        invariant forall k :: 0 <= k < i ==> j[h][k].Some?
      {
        if j[h][i].None? {
          assert !Decodes(j[h]);
          return false;
        }
      }
    }
    return true;
  }

  /** The sequential part of one chunk, from its highest height down. */
  method WalkChunk(env: Env, j: Journal, ghost step: Stepper, lo: nat, hi: nat, start: Walk) returns (r: Option<Walk>)
    requires 0 < lo <= hi < |j| && AllDecode(j, lo, hi) && Simulates(env) && Steps(env, j, step)
    ensures r == WalkBy(step, hi, lo, start)
  {
    var w := start;
    var height := hi;
    while height >= lo
      invariant lo - 1 <= height <= hi
      invariant WalkBy(step, hi, lo, start) == WalkBy(step, height, lo, w)
    {
      var next := TakeHeight(env, j, step, height, w);
      if next.None? {
        return None;
      }
      w := next.value;
      height := height - 1;
    }
    return Some(w);
  }

  method TakeHeight(env: Env, j: Journal, ghost step: Stepper, height: nat, w: Walk) returns (r: Option<Walk>)
    requires height < |j| && Decodes(j[height]) && Simulates(env) && Steps(env, j, step)
    ensures r == step(height, w)
  {
    assert StepsAt(env, j, step, height, w);
    r := TakeStep(env, height, Values(j[height]), w);
  }

  /** One turn of the chunk loop; `undecodable` reports a payload that does not decode. */
  method RunChunk(env: Env, j: Journal, ghost step: Stepper, start: nat, chunkEnd: nat, bucketSize: nat, w: Walk)
    returns (chunkStart: nat, undecodable: bool, r: Option<Walk>)
    requires 0 < start <= chunkEnd < |j| && bucketSize > 0 && Simulates(env) && Steps(env, j, step)
    ensures start <= chunkStart <= chunkEnd
    ensures undecodable <==> !AllDecode(j, chunkStart, chunkEnd)
    ensures !undecodable ==> r == WalkBy(step, chunkEnd, chunkStart, w)
  {
    BucketsPartition(bucketSize, chunkEnd, chunkEnd, BucketFor(chunkEnd, bucketSize));
    var bucketBegin := BucketStart(BucketFor(chunkEnd, bucketSize), bucketSize);
    chunkStart := if start >= bucketBegin then start else bucketBegin;
    var ok := DecodeChunk(j, chunkStart, chunkEnd);
    undecodable, r := !ok, None;
    if ok {
      r := WalkChunk(env, j, step, chunkStart, chunkEnd, w);
    }
  }

  /** The backward walk one bucket at a time. */
  method RunChunks(env: Env, j: Journal, ghost step: Stepper, start: nat, end: nat, bucketSize: nat, begin: Walk) returns (r: Option<Walk>)
    requires 0 < start <= end < |j| && bucketSize > 0 && Simulates(env) && Steps(env, j, step)
    ensures r == AuditBy(env, j, step, start, end, begin)
  {
    var w := begin;
    var chunkEnd := end;
    while true
      invariant start <= chunkEnd <= end
      invariant AllDecode(j, chunkEnd + 1, end)
      invariant WalkBy(step, end, start, begin) == WalkBy(step, chunkEnd, start, w)
      decreases chunkEnd
    {
      var chunkStart, undecodable, chunk := RunChunk(env, j, step, start, chunkEnd, bucketSize, w);
      if undecodable {
        return None;
      }
      if start < chunkStart { WalkSplits(step, chunkEnd, chunkStart, start, w); }
      if chunk.None? {
        return None;
      }
      w := chunk.value;
      if chunkStart == start {
        break;
      }
      chunkEnd := chunkStart - 1;
    }
    return if AnchoredAtGenesis(env, start, w) then Some(w) else None;
  }

  /** The result does not mention the bucket size: it is the unchunked audit, whatever the
      size. */
  method RunReplay(env: Env, j: Journal, start: nat, end: nat, bucketSize: nat, begin: Walk) returns (r: Option<Walk>)
    requires 0 < start <= end < |j| && bucketSize > 0 && Simulates(env)
    ensures r == Audit(env, j, start, end, begin)
  {
    StepOfSteps(env, j);
    r := RunChunks(env, j, StepOf(env, j), start, end, bucketSize, begin);
  }
}
