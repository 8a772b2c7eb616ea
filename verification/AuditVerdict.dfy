/**
  What the audit decides, in terms of the candidates' own fields: which blocks it selects,
  what each counter counts, and exactly when it passes
  (tools/state_delta_replay_audit.cpp).
 */
module AuditVerdict {
  import opened Arithmetic
  import opened Options
  import opened Bytes
  import opened DeltaReplay
  import opened AuditWalk

  // ---- Masks -----------------------------------------------------------------------

  /** Binary digit i of the mask. */
  predicate Bit(mask: nat, i: nat)
    decreases i
  {
    if i == 0 then mask % 2 == 1 else Bit(mask / 2, i - 1)
  }

  /** Entry i is kept exactly when digit i of the mask is clear, in order. */
  lemma {:induction false} KeptLast(entries: seq<Entry>, e: Entry, mask: nat)
    ensures Kept(entries + [e], mask) == Kept(entries, mask) + (if Bit(mask, |entries|) then [] else [e])
    decreases |entries|
  {
    if entries == [] {
      assert [e][1..] == [] && entries + [e] == [e];
      assert Kept([], mask / 2) == [];
    } else {
      KeptLast(entries[1..], e, mask / 2);
      assert (entries + [e])[1..] == entries[1..] + [e];
    }
  }

  function DroppedAt(entries: seq<Entry>, mask: nat, puts: bool): set<nat> {
    set i | 0 <= i < |entries| && Bit(mask, i) && entries[i].value.Some? == puts
  }

  lemma {:induction false} DroppedLast(entries: seq<Entry>, e: Entry, mask: nat, puts: bool)
    ensures Dropped(entries + [e], mask, puts) == Dropped(entries, mask, puts) + One(Bit(mask, |entries|) && e.value.Some? == puts)
    decreases |entries|
  {
    if entries == [] {
      assert [e][1..] == [] && entries + [e] == [e];
      assert Dropped([], mask / 2, puts) == 0;
    } else {
      DroppedLast(entries[1..], e, mask / 2, puts);
      assert (entries + [e])[1..] == entries[1..] + [e];
    }
  }

  /** The dropped puts, or removes, are those whose digit is set. */
  lemma {:induction false} DroppedCounts(entries: seq<Entry>, mask: nat, puts: bool)
    ensures Dropped(entries, mask, puts) == |DroppedAt(entries, mask, puts)|
    decreases |entries|
  {
    if entries == [] {
      assert DroppedAt(entries, mask, puts) == {};
    } else {
      var n := |entries| - 1;
      var front, e := entries[..n], entries[n];
      DroppedCounts(front, mask, puts);
      assert front + [e] == entries;
      DroppedLast(front, e, mask, puts);
      DroppedAtLast(front, e, mask, puts);
    }
  }

  lemma {:induction false} DroppedAtLast(entries: seq<Entry>, e: Entry, mask: nat, puts: bool)
    ensures |DroppedAt(entries + [e], mask, puts)| ==
      |DroppedAt(entries, mask, puts)| + One(Bit(mask, |entries|) && e.value.Some? == puts)
  {
    var more := if Bit(mask, |entries|) && e.value.Some? == puts then {|entries|} else {};
    assert DroppedAt(entries + [e], mask, puts) == DroppedAt(entries, mask, puts) + more;
  }

  function PutsAt(entries: seq<Entry>): set<nat> {
    set i | 0 <= i < |entries| && entries[i].value.Some?
  }

  lemma {:induction false} PutCountCounts(entries: seq<Entry>)
    ensures PutCount(entries) == |PutsAt(entries)| <= |entries|
    decreases |entries|
  {
    if entries == [] {
      assert PutsAt(entries) == {};
    } else {
      var n := |entries| - 1;
      PutCountCounts(entries[..n]);
      var more := if entries[n].value.Some? then {n} else {};
      assert PutsAt(entries) == PutsAt(entries[..n]) + more;
    }
  }

  // ---- Hexadecimal -------------------------------------------------------------------

  function Digit(n: nat): char
    requires n < 16
  {
    if n < 10 then ('0' as int + n) as char else ('a' as int + n - 10) as char
  }

  /** bytes_to_hex without the prefix. */
  function Hex(b: Bytes): string {
    if b == [] then "" else [Digit(b[0] / 16), Digit(b[0] % 16)] + Hex(b[1..])
  }

  /** hex_to_bytes undoes bytes_to_hex, so different byte strings are listed differently. */
  lemma {:induction false} HexRoundTrip(b: Bytes)
    ensures HexToBytes("0x" + Hex(b)) == b
  {
    assert ("0x" + Hex(b))[2..] == Hex(b);
    HexDigitsRead(b);
  }

  lemma {:induction false} HexDigitsRead(b: Bytes)
    ensures HexDigits(Hex(b)) == b
    decreases |b|
  {
    if b != [] {
      HexDigitsRead(b[1..]);
      assert Hex(b)[2..] == Hex(b[1..]);
      assert b == [b[0]] + b[1..];
    }
  }

  // ---- What each class means -----------------------------------------------------------

  /** The listed case has this kind and names exactly this block and these two roots. */
  predicate IsCase(known: Option<HistoricalCase>, kind: CaseKind, c: Candidate, signed: Bytes) {
    && known.Some? && known.value.kind == kind && c.blockId == HexToBytes(known.value.blockId)
    && c.replayedRoot == HexToBytes(known.value.computedRoot) && signed == HexToBytes(known.value.signedRoot)
  }

  /** The listed case names this block, or another one. */
  predicate Claims(known: Option<HistoricalCase>, c: Candidate) {
    known.Some? && c.blockId == HexToBytes(known.value.blockId)
  }

  predicate Foreign(known: Option<HistoricalCase>, c: Candidate) {
    known.Some? && c.blockId != HexToBytes(known.value.blockId)
  }

  predicate Repeats(c: Candidate, signed: Bytes) {
    c.replayedRoot != signed && c.duplicateKeys != 0 && c.computedRoot == signed
  }

  /** The replayed root is not the signed one, and repeated keys do not explain it. */
  predicate Differs(c: Candidate, signed: Bytes) {
    c.replayedRoot != signed && !(c.duplicateKeys != 0 && c.computedRoot == signed)
  }

  predicate IsOrdinary(known: Option<HistoricalCase>, c: Candidate, signed: Bytes) {
    known.None? && c.replayedRoot == signed
  }

  predicate IsTombstone(known: Option<HistoricalCase>, c: Candidate, signed: Bytes) {
    c.replayedRoot == signed && IsCase(known, ReplayableTombstone, c, signed)
  }

  predicate IsIncomplete(known: Option<HistoricalCase>, c: Candidate, signed: Bytes) {
    Differs(c, signed) && IsCase(known, IncompleteReceipt, c, signed)
  }

  predicate IsScar(known: Option<HistoricalCase>, c: Candidate, signed: Bytes) {
    Differs(c, signed) && IsCase(known, ConsensusScar, c, signed)
  }

  /** One of the five accepted reasons. */
  predicate AcceptedRoot(known: Option<HistoricalCase>, c: Candidate, signed: Bytes) {
    || IsOrdinary(known, c, signed) || IsTombstone(known, c, signed) || Repeats(c, signed)
    || IsIncomplete(known, c, signed) || IsScar(known, c, signed)
  }

  predicate Contradicts(known: Option<HistoricalCase>, c: Candidate, signed: Bytes) {
    Claims(known, c) && !AcceptedRoot(known, c, signed)
  }

  /** Leaving out some of at most twenty entries makes the replay give the signed root. */
  ghost predicate Droppable(env: Env, c: Candidate, signed: Bytes) {
    0 < |c.entries| <= 20 && exists m :: Drops(env, c.entries, signed, m)
  }

  ghost predicate IsLegacy(env: Env, known: Option<HistoricalCase>, c: Candidate, signed: Bytes) {
    Differs(c, signed) && !Claims(known, c) && Droppable(env, c, signed)
  }

  ghost predicate IsUnexplained(env: Env, known: Option<HistoricalCase>, c: Candidate, signed: Bytes) {
    Differs(c, signed) && !Claims(known, c) && !Droppable(env, c, signed)
  }

  /** Every class, in terms of the case, the ids, the roots and the repeated keys. */
  ghost predicate ClassIs(env: Env, known: Option<HistoricalCase>, c: Candidate, signed: Bytes, k: Class) {
    && (k.Ordinary? <==> IsOrdinary(known, c, signed)) && (k.KnownTombstone? <==> IsTombstone(known, c, signed))
    && (k.DuplicateFallback? <==> Repeats(c, signed)) && (k.KnownIncomplete? <==> IsIncomplete(known, c, signed))
    && (k.KnownScar? <==> IsScar(known, c, signed)) && (k.ConstantMismatch? <==> Contradicts(known, c, signed))
    && (k.LegacyDrop? <==> IsLegacy(env, known, c, signed)) && (k.Unexplained? <==> IsUnexplained(env, known, c, signed))
    && (k.Uncounted? <==> Foreign(known, c) && c.replayedRoot == signed)
  }

  lemma {:induction false} ClassMeans(env: Env, known: Option<HistoricalCase>, c: Candidate, signed: Bytes)
    requires Simulates(env)
    ensures ClassIs(env, known, c, signed, Classify(env, known, c, signed))
  {
    if c.replayedRoot == signed {
      ClassOfEqual(env, known, c, signed);
    } else if c.duplicateKeys != 0 && c.computedRoot == signed {
      ClassOfRepeats(env, known, c, signed);
    } else {
      ClassOfDifferent(env, known, c, signed);
    }
  }

  lemma {:induction false} ClassOfEqual(env: Env, known: Option<HistoricalCase>, c: Candidate, signed: Bytes)
    requires c.replayedRoot == signed
    ensures ClassIs(env, known, c, signed, Classify(env, known, c, signed))
  {
  }

  lemma {:induction false} ClassOfRepeats(env: Env, known: Option<HistoricalCase>, c: Candidate, signed: Bytes)
    requires Repeats(c, signed)
    ensures ClassIs(env, known, c, signed, Classify(env, known, c, signed))
  {
  }

  lemma {:induction false} ClassOfDifferent(env: Env, known: Option<HistoricalCase>, c: Candidate, signed: Bytes)
    requires Simulates(env) && Differs(c, signed)
    ensures ClassIs(env, known, c, signed, Classify(env, known, c, signed))
  {
    MaskMeans(env, c, signed);
    MismatchMeans(env, known, c, signed);
  }

  lemma {:induction false} MismatchMeans(env: Env, known: Option<HistoricalCase>, c: Candidate, signed: Bytes)
    ensures var k := ClassifyMismatch(env, known, c, signed);
      && (k.ConstantMismatch? <==> Claims(known, c))
      && (k.LegacyDrop? <==> !Claims(known, c) && LegacyMask(env, c.entries, signed).Some?)
      && (k.Unexplained? <==> !Claims(known, c) && LegacyMask(env, c.entries, signed).None?)
  {
  }

  lemma {:induction false} MaskMeans(env: Env, c: Candidate, signed: Bytes)
    requires Simulates(env)
    ensures LegacyMask(env, c.entries, signed).Some? <==> Droppable(env, c, signed)
    ensures Droppable(env, c, signed) ==> LegacyMask(env, c.entries, signed) == Some(LeastDrop(env, c, signed))
  {
    if 0 < |c.entries| <= 20 {
      var limit := Pow2(|c.entries|);
      var first := FirstMask(env, c.entries, signed, 1, limit);
      forall m | Drops(env, c.entries, signed, m)
        ensures first.Some? && first.value <= m
      {
        DropMatchesIsSimulated(env, c.entries, signed, m);
        FirstMaskIsLeast(env, c.entries, signed, 1, limit, m);
      }
      if first.Some? {
        DropMatchesIsSimulated(env, c.entries, signed, first.value);
        assert Drops(env, c.entries, signed, first.value);
      }
    }
  }

  ghost predicate IsLeastDrop(env: Env, c: Candidate, signed: Bytes, m: nat) {
    Drops(env, c.entries, signed, m) && forall k :: Drops(env, c.entries, signed, k) ==> m <= k
  }

  /** The numerically least mask that works. */
  ghost function LeastDrop(env: Env, c: Candidate, signed: Bytes): (m: nat)
    requires Droppable(env, c, signed)
    ensures IsLeastDrop(env, c, signed, m)
  {
    var k :| Drops(env, c.entries, signed, k);
    LeastExists(env, c, signed, k);
    var m :| IsLeastDrop(env, c, signed, m);
    m
  }

  lemma {:induction false} LeastExists(env: Env, c: Candidate, signed: Bytes, k: nat)
    requires Drops(env, c.entries, signed, k)
    ensures exists m :: IsLeastDrop(env, c, signed, m)
    decreases k
  {
    if i :| 0 <= i < k && Drops(env, c.entries, signed, i) {
      LeastExists(env, c, signed, i);
    } else {
      assert IsLeastDrop(env, c, signed, k);
    }
  }

  // ---- What each counter counts ----------------------------------------------------------

  function Plus(a: Stats, b: Stats): Stats {
    Stats(a.blocksChecked + b.blocksChecked,
          a.ordinary + b.ordinary, a.tombstones + b.tombstones, a.incomplete + b.incomplete,
          a.duplicateFallbacks + b.duplicateFallbacks, a.scars + b.scars,
          a.constantMismatches + b.constantMismatches, a.legacyDrops + b.legacyDrops,
          a.legacyTombstones + b.legacyTombstones, a.legacyPuts + b.legacyPuts, a.unexplained + b.unexplained,
          a.duplicateBlocks + b.duplicateBlocks, a.duplicateKeys + b.duplicateKeys, a.duplicateEntries + b.duplicateEntries,
          a.withoutRoot + b.withoutRoot, a.puts + b.puts, a.removes + b.removes)
  }

  /** What one selected block adds, apart from its class. */
  ghost function OwnPart(known: Option<HistoricalCase>, c: Candidate): Stats {
    Stats(1, 0, 0, 0, 0, 0, One(Foreign(known, c)), 0, 0, 0, 0,
          One(c.duplicateKeys != 0), c.duplicateKeys, if c.duplicateKeys == 0 then 0 else c.duplicateEntries,
          One(c.receiptRoot == []), |PutsAt(c.entries)|, if |PutsAt(c.entries)| <= |c.entries| then |c.entries| - |PutsAt(c.entries)| else 0)
  }

  /** What its class adds, given the root its child signed. */
  ghost function ClassPart(env: Env, known: Option<HistoricalCase>, c: Candidate, signed: Bytes): Stats {
    Stats(0, One(IsOrdinary(known, c, signed)), One(IsTombstone(known, c, signed)), One(IsIncomplete(known, c, signed)),
          One(Repeats(c, signed)), One(IsScar(known, c, signed)),
          One(Contradicts(known, c, signed)), One(IsLegacy(env, known, c, signed)),
          if IsLegacy(env, known, c, signed) then |DroppedAt(c.entries, LeastDrop(env, c, signed), false)| else 0,
          if IsLegacy(env, known, c, signed) then |DroppedAt(c.entries, LeastDrop(env, c, signed), true)| else 0,
          One(IsUnexplained(env, known, c, signed)),
          0, 0, 0, 0, 0, 0)
  }

  ghost function Contribution(env: Env, height: nat, c: Candidate, signed: Option<Bytes>): Stats {
    var known := CaseAt(env.cases, height);
    if signed.None? then OwnPart(known, c) else Plus(OwnPart(known, c), ClassPart(env, known, c, signed.value))
  }

  /** The root that the block above the k-th selected one signed. */
  function SignedAbove(sel: seq<Candidate>, k: nat): Option<Bytes>
    requires k < |sel|
  {
    if k == 0 then None else Some(sel[k - 1].previousRoot)
  }

  ghost function Contributions(env: Env, end: nat, sel: seq<Candidate>): seq<Stats>
    requires |sel| <= end + 1
  {
    seq(|sel|, k requires 0 <= k < |sel| => Contribution(env, end - k, sel[k], SignedAbove(sel, k)))
  }

  function Total(parts: seq<Stats>): Stats {
    if parts == [] then ZERO_STATS else Plus(Total(parts[..|parts| - 1]), parts[|parts| - 1])
  }

  /** The contributions of all selected blocks, added up. */
  ghost function TallyOf(env: Env, end: nat, sel: seq<Candidate>): Stats
    requires |sel| <= end + 1
  {
    Total(Contributions(env, end, sel))
  }

  lemma {:induction false} ClassCounts(env: Env, known: Option<HistoricalCase>, c: Candidate, signed: Bytes, s: Stats)
    requires Simulates(env)
    ensures CountClass(s, Classify(env, known, c, signed)) == Plus(s, ClassPart(env, known, c, signed))
  {
    ClassMeans(env, known, c, signed);
    if IsLegacy(env, known, c, signed) { LegacyCounts(env, known, c, signed); }
    PartOfClass(env, known, c, signed, Classify(env, known, c, signed), s);
  }

  lemma {:induction false} LegacyCounts(env: Env, known: Option<HistoricalCase>, c: Candidate, signed: Bytes)
    requires Simulates(env) && IsLegacy(env, known, c, signed)
    ensures Classify(env, known, c, signed) == LegacyDrop(
      |DroppedAt(c.entries, LeastDrop(env, c, signed), false)|, |DroppedAt(c.entries, LeastDrop(env, c, signed), true)|)
  {
    ClassMeans(env, known, c, signed);
    MaskMeans(env, c, signed);
    DroppedCounts(c.entries, LeastDrop(env, c, signed), false);
    DroppedCounts(c.entries, LeastDrop(env, c, signed), true);
  }

  lemma {:induction false} PartOfClass(env: Env, known: Option<HistoricalCase>, c: Candidate, signed: Bytes, k: Class, s: Stats)
    requires ClassIs(env, known, c, signed, k)
    requires IsLegacy(env, known, c, signed) ==> k == LegacyDrop(
      |DroppedAt(c.entries, LeastDrop(env, c, signed), false)|, |DroppedAt(c.entries, LeastDrop(env, c, signed), true)|)
    ensures CountClass(s, k) == Plus(s, ClassPart(env, known, c, signed))
  {
  }

  lemma {:induction false} OwnCounts(known: Option<HistoricalCase>, c: Candidate, s: Stats)
    ensures CountReceipt(CountId(CountDuplicates(s, c), known, c), c) == Plus(s, OwnPart(known, c))
  {
    PutCountCounts(c.entries);
  }

  /** The receipt part and the class part do not touch the same counters. */
  lemma {:induction false} PartsCommute(c: Candidate, s: Stats, part: Stats)
    requires part.blocksChecked == part.withoutRoot == part.puts == part.removes == 0
    ensures CountReceipt(Plus(s, part), c) == Plus(CountReceipt(s, c), part)
  {
  }

  lemma {:induction false} PlusAssociates(a: Stats, b: Stats, c: Stats)
    ensures Plus(Plus(a, b), c) == Plus(a, Plus(b, c))
  {
  }

  lemma {:induction false} StepCounts(env: Env, height: nat, c: Candidate, w: Walk)
    requires Simulates(env)
    ensures Counted(env, height, c, w) == Plus(w.stats, Contribution(env, height, c, SignedBy(w.expected)))
  {
    var known := CaseAt(env.cases, height);
    var s := CountId(CountDuplicates(w.stats, c), known, c);
    OwnCounts(known, c, w.stats);
    if w.expected.Some? {
      var part := ClassPart(env, known, c, w.expected.value.root);
      ClassCounts(env, known, c, w.expected.value.root, s);
      PartsCommute(c, s, part);
      PlusAssociates(w.stats, OwnPart(known, c), part);
    }
  }

  // ---- What the audit counts and when it passes ----------------------------------------------

  /** What the block after the last selected one is compared with. */
  function ExpectedNext(sel: seq<Candidate>): Option<Expectation> {
    if sel == [] then None else Some(Expectation(sel[|sel| - 1].previous, sel[|sel| - 1].previousRoot))
  }

  ghost predicate Tallied(env: Env, end: nat, height: nat, w: Walk) {
    |w.selected| + height == end && w.expected == ExpectedNext(w.selected) && w.stats == TallyOf(env, end, w.selected)
  }

  lemma {:induction false} StepTallies(env: Env, j: Journal, end: nat, height: nat, w: Walk, w': Walk)
    requires Simulates(env) && 0 < height <= end < |j| && Decodes(j[height]) && Tallied(env, end, height, w)
    requires StepDown(env, height, Values(j[height]), w) == Some(w')
    ensures Tallied(env, end, height - 1, w')
  {
    var c := w'.selected[|w'.selected| - 1];
    StepCounts(env, height, c, w);
    TallyMore(env, end, w.selected, c);
  }

  lemma {:induction false} TallyMore(env: Env, end: nat, sel: seq<Candidate>, c: Candidate)
    requires |sel| <= end
    ensures TallyOf(env, end, sel + [c]) ==
      Plus(TallyOf(env, end, sel), Contribution(env, end - |sel|, c, SignedBy(ExpectedNext(sel))))
  {
    var front := Contributions(env, end, sel);
    var last := Contribution(env, end - |sel|, c, SignedBy(ExpectedNext(sel)));
    assert Contributions(env, end, sel + [c]) == front + [last];
    assert (front + [last])[..|sel|] == front;
  }

  lemma {:induction false} WalkTallies(env: Env, j: Journal, step: Stepper, end: nat, lo: nat, w: Walk, r: Walk)
    requires Simulates(env) && Steps(env, j, step) && 0 < lo <= end < |j| && AllDecode(j, lo, end) && Tallied(env, end, end, w)
    requires WalkBy(step, end, lo, w) == Some(r)
    ensures Tallied(env, end, lo - 1, r)
  {
    var ok := (h: nat, v: Walk) => Tallied(env, end, h, v);
    forall h, v | lo <= h <= end
      ensures StepKeeps(step, ok, h, v)
    {
      if ok(h, v) && step(h, v).Some? {
        assert Decodes(j[h]) && StepsAt(env, j, step, h, v);
        StepTallies(env, j, end, h, v, step(h, v).value);
      }
    }
    WalkKeeps(step, ok, end, lo, w, r);
  }

  /** Every counter of an audit that ends is the sum of what the selected blocks contribute,
      each by its own fields, the case listed at its height and the root its child signed. */
  lemma {:induction false} AuditCounts(env: Env, j: Journal, start: nat, end: nat, r: Walk)
    requires Simulates(env) && 0 < start <= end < |j| && Audit(env, j, start, end, START) == Some(r)
    ensures |r.selected| == end - start + 1 && r.stats == TallyOf(env, end, r.selected)
  {
    StepOfSteps(env, j);
    WalkTallies(env, j, StepOf(env, j), end, start, START, r);
  }

  /** The k-th selected block raises no failure counter. */
  ghost predicate PassesAt(env: Env, end: nat, sel: seq<Candidate>, k: nat)
    requires k < |sel| && k <= end
  {
    var known := CaseAt(env.cases, end - k);
    !Foreign(known, sel[k]) && (k > 0 ==> AcceptedRoot(known, sel[k], sel[k - 1].previousRoot))
  }

  ghost predicate AllPass(env: Env, end: nat, sel: seq<Candidate>)
    requires |sel| <= end + 1
  {
    forall k :: 0 <= k < |sel| ==> PassesAt(env, end, sel, k)
  }

  lemma {:induction false} ContributionFails(env: Env, height: nat, c: Candidate, signed: Option<Bytes>)
    ensures HasFailures(Contribution(env, height, c, signed)) <==>
      || Foreign(CaseAt(env.cases, height), c)
      || (signed.Some? && !AcceptedRoot(CaseAt(env.cases, height), c, signed.value))
  {
  }

  lemma {:induction false} PlusFails(a: Stats, b: Stats)
    ensures HasFailures(Plus(a, b)) <==> HasFailures(a) || HasFailures(b)
  {
  }

  /** A total has failures exactly when one of its parts has. */
  lemma {:induction false} TotalFails(parts: seq<Stats>)
    ensures HasFailures(Total(parts)) <==> exists k :: 0 <= k < |parts| && HasFailures(parts[k])
    decreases |parts|
  {
    if parts != [] {
      var n := |parts| - 1;
      TotalFails(parts[..n]);
      PlusFails(Total(parts[..n]), parts[n]);
      assert forall k :: 0 <= k < n ==> parts[..n][k] == parts[k];
    }
  }

  lemma {:induction false} PartFails(env: Env, end: nat, sel: seq<Candidate>, k: nat)
    requires k < |sel| <= end + 1
    ensures HasFailures(Contributions(env, end, sel)[k]) <==> !PassesAt(env, end, sel, k)
  {
    ContributionFails(env, end - k, sel[k], SignedAbove(sel, k));
  }

  lemma {:induction false} TallyFails(env: Env, end: nat, sel: seq<Candidate>)
    requires |sel| <= end + 1
    ensures HasFailures(TallyOf(env, end, sel)) <==> !AllPass(env, end, sel)
  {
    var parts := Contributions(env, end, sel);
    TotalFails(parts);
    forall k | 0 <= k < |sel|
      ensures HasFailures(parts[k]) <==> !PassesAt(env, end, sel, k)
    {
      PartFails(env, end, sel, k);
    }
  }

  /** An audit that ends passes exactly when every selected block has the id of the case
      listed at its height, if any, and every block below the tip has an accepted root. */
  lemma {:induction false} AuditPassesExactly(env: Env, j: Journal, start: nat, end: nat, r: Walk)
    requires Simulates(env) && 0 < start <= end < |j| && Audit(env, j, start, end, START) == Some(r)
    ensures |r.selected| == end - start + 1 == r.stats.blocksChecked
    ensures !HasFailures(r.stats) <==> AllPass(env, end, r.selected)
  {
    AuditCounts(env, j, start, end, r);
    TallyFails(env, end, r.selected);
    TallyChecks(env, end, r.selected);
  }

  lemma {:induction false} TallyChecks(env: Env, end: nat, sel: seq<Candidate>)
    requires |sel| <= end + 1
    ensures TallyOf(env, end, sel).blocksChecked == |sel|
  {
    TotalChecks(Contributions(env, end, sel));
  }

  lemma {:induction false} TotalChecks(parts: seq<Stats>)
    requires forall k :: 0 <= k < |parts| ==> parts[k].blocksChecked == 1
    ensures Total(parts).blocksChecked == |parts|
    decreases |parts|
  {
    if parts != [] { TotalChecks(parts[..|parts| - 1]); }
  }

  /** Nothing unusual: no case listed at any selected height below the tip, and every
      replayed root is the one the child signed. */
  ghost predicate Healthy(env: Env, end: nat, sel: seq<Candidate>)
    requires |sel| <= end + 1
  {
    && (sel != [] ==> !Foreign(CaseAt(env.cases, end), sel[0]))
    && forall k :: 0 < k < |sel| ==> HealthyAt(env, end, sel, k)
  }

  ghost predicate HealthyAt(env: Env, end: nat, sel: seq<Candidate>, k: nat)
    requires 0 < k < |sel| && k <= end
  {
    CaseAt(env.cases, end - k).None? && sel[k].replayedRoot == sel[k - 1].previousRoot
  }

  lemma {:induction false} HealthyTally(env: Env, end: nat, sel: seq<Candidate>)
    requires 0 < |sel| <= end + 1 && Healthy(env, end, sel)
    ensures TallyOf(env, end, sel).ordinary == |sel| - 1
  {
    var parts := Contributions(env, end, sel);
    forall k | 0 <= k < |sel|
      ensures parts[k].ordinary == One(k > 0)
    {
      OrdinaryPart(env, end - k, sel[k], SignedAbove(sel, k));
      if k > 0 { assert HealthyAt(env, end, sel, k); }
    }
    TotalOrdinary(parts);
  }

  lemma {:induction false} TotalOrdinary(parts: seq<Stats>)
    requires parts != [] && forall k :: 0 <= k < |parts| ==> parts[k].ordinary == One(k > 0)
    ensures Total(parts).ordinary == |parts| - 1
    decreases |parts|
  {
    if |parts| > 1 { TotalOrdinary(parts[..|parts| - 1]); } else { assert Total(parts[..0]) == ZERO_STATS; }
  }

  lemma {:induction false} OrdinaryPart(env: Env, height: nat, c: Candidate, signed: Option<Bytes>)
    ensures Contribution(env, height, c, signed).ordinary == One(signed.Some? && IsOrdinary(CaseAt(env.cases, height), c, signed.value))
  {
  }

  /** A healthy chain passes, and all of it below the tip counts as ordinary. */
  lemma {:induction false} HealthyAuditPasses(env: Env, j: Journal, start: nat, end: nat, r: Walk)
    requires Simulates(env) && 0 < start <= end < |j| && Audit(env, j, start, end, START) == Some(r)
    requires |r.selected| <= end + 1 && Healthy(env, end, r.selected)
    ensures !HasFailures(r.stats) && r.stats.ordinary == r.stats.blocksChecked - 1
  {
    AuditPassesExactly(env, j, start, end, r);
    AuditCounts(env, j, start, end, r);
    HealthyTally(env, end, r.selected);
    HealthyPasses(env, end, r.selected);
  }

  lemma {:induction false} HealthyPasses(env: Env, end: nat, sel: seq<Candidate>)
    requires |sel| <= end + 1 && Healthy(env, end, sel)
    ensures AllPass(env, end, sel)
  {
    forall k | 0 <= k < |sel|
      ensures PassesAt(env, end, sel, k)
    {
      if k > 0 { assert HealthyAt(env, end, sel, k); }
    }
  }

  // ---- Which blocks the audit selects ----------------------------------------------------------

  /** c is the first candidate with the id. */
  ghost predicate IsFirst(cs: seq<Option<Candidate>>, id: Bytes, c: Candidate) {
    c.blockId == id && exists i :: 0 <= i < |cs| && cs[i] == Some(c) && NoneBefore(cs, id, i)
  }

  ghost predicate NoneBefore(cs: seq<Option<Candidate>>, id: Bytes, i: nat)
    requires i <= |cs|
  {
    forall m :: 0 <= m < i ==> cs[m].Some? && cs[m].value.blockId != id
  }

  /** Header and receipt agree with the height, the id and the replayed root. */
  predicate Agrees(c: Candidate, height: nat) {
    && c.height == height && (c.receiptHeight == 0 || c.receiptHeight == height)
    && (c.receiptId == [] || c.receiptId == c.blockId) && (c.receiptRoot == [] || c.receiptRoot == c.replayedRoot)
  }

  /** The tip is the source head, or the first candidate when the audit ends below it; every
      other block is the one its child names. */
  ghost predicate SelectedAt(env: Env, j: Journal, end: nat, sel: seq<Candidate>, k: nat)
    requires k < |sel| && k <= end < |j|
  {
    && Agrees(sel[k], end - k)
    && if k > 0 then IsFirst(j[end - k], sel[k - 1].previous, sel[k])
       else if env.fullAudit then IsFirst(j[end], env.sourceHeadId, sel[0])
       else j[end] != [] && j[end][0] == Some(sel[0])
  }

  ghost predicate Selection(env: Env, j: Journal, end: nat, sel: seq<Candidate>)
    requires |sel| <= end + 1 <= |j|
  {
    forall k :: 0 <= k < |sel| ==> SelectedAt(env, j, end, sel, k)
  }

  lemma {:induction false} FirstWithIdIs(cs: seq<Option<Candidate>>, id: Bytes, c: Candidate)
    requires Decodes(cs)
    ensures FirstWithId(Values(cs), id) == Some(c) <==> IsFirst(cs, id, c)
  {
    FirstFrom(Values(cs), id);
    if FirstWithId(Values(cs), id).Some? {
      var i :| 0 <= i < |cs| && FirstAt(Values(cs), id, i) && FirstWithId(Values(cs), id) == Some(Values(cs)[i]);
      assert NoneBefore(cs, id, i);
    }
    if IsFirst(cs, id, c) {
      var i :| 0 <= i < |cs| && cs[i] == Some(c) && NoneBefore(cs, id, i);
      assert Values(cs)[i] == c;
      assert FirstAt(Values(cs), id, i);
    }
  }

  ghost predicate FirstAt(cs: seq<Candidate>, id: Bytes, i: nat)
    requires i < |cs|
  {
    cs[i].blockId == id && forall m :: 0 <= m < i ==> cs[m].blockId != id
  }

  lemma {:induction false} FirstFrom(cs: seq<Candidate>, id: Bytes)
    ensures forall i :: 0 <= i < |cs| && FirstAt(cs, id, i) ==> FirstWithId(cs, id) == Some(cs[i])
    ensures FirstWithId(cs, id).Some? ==> exists i :: 0 <= i < |cs| && FirstAt(cs, id, i) && FirstWithId(cs, id) == Some(cs[i])
    decreases |cs|
  {
    if cs != [] {
      var rest := cs[1..];
      FirstFrom(rest, id);
      if cs[0].blockId == id {
        assert FirstAt(cs, id, 0);
      } else {
        forall i | 0 <= i < |cs| && FirstAt(cs, id, i)
          ensures FirstWithId(cs, id) == Some(cs[i])
        {
          assert rest[i - 1] == cs[i] && FirstAt(rest, id, i - 1);
        }
        if FirstWithId(cs, id).Some? {
          var i :| 0 <= i < |rest| && FirstAt(rest, id, i) && FirstWithId(rest, id) == Some(rest[i]);
          assert FirstAt(cs, id, i + 1) && cs[i + 1] == rest[i];
        }
      }
    }
  }

  lemma {:induction false} SelectMeans(env: Env, cs: seq<Option<Candidate>>, expected: Option<Expectation>, c: Candidate)
    requires Decodes(cs)
    ensures Select(env, Values(cs), expected) == Some(c) <==>
      if expected.Some? then IsFirst(cs, expected.value.id, c)
      else if env.fullAudit then IsFirst(cs, env.sourceHeadId, c)
      else cs != [] && cs[0] == Some(c)
  {
    FirstWithIdIs(cs, if expected.Some? then expected.value.id else env.sourceHeadId, c);
  }

  /** One step of the walk succeeds exactly on the block that has to be selected. */
  lemma {:induction false} StepSelects(env: Env, j: Journal, end: nat, height: nat, w: Walk, c: Candidate)
    requires height <= end < |j| && Decodes(j[height]) && |w.selected| + height == end && w.expected == ExpectedNext(w.selected)
    ensures SelectedAt(env, j, end, w.selected + [c], |w.selected|) <==>
      var next := StepDown(env, height, Values(j[height]), w);
      next.Some? && next.value.selected == w.selected + [c] && next.value.expected == ExpectedNext(w.selected + [c])
  {
    SelectMeans(env, j[height], w.expected, c);
    var next := StepDown(env, height, Values(j[height]), w);
    if next.Some? && next.value.selected == w.selected + [c] {
      SameLast(w.selected, next.value.selected[|w.selected|], c);
    }
  }

  lemma {:induction false} SameLast(sel: seq<Candidate>, a: Candidate, b: Candidate)
    requires sel + [a] == sel + [b]
    ensures a == b
  {
    assert (sel + [a])[|sel|] == a && (sel + [b])[|sel|] == b;
  }

  ghost predicate Selecting(env: Env, j: Journal, end: nat, height: nat, w: Walk)
    requires end < |j|
  {
    |w.selected| + height == end && w.expected == ExpectedNext(w.selected) && Selection(env, j, end, w.selected)
  }

  lemma {:induction false} SelectionGrows(env: Env, j: Journal, end: nat, sel: seq<Candidate>, c: Candidate)
    requires |sel| <= end < |j| && Selection(env, j, end, sel) && SelectedAt(env, j, end, sel + [c], |sel|)
    ensures Selection(env, j, end, sel + [c])
  {
    forall k | 0 <= k < |sel + [c]|
      ensures SelectedAt(env, j, end, sel + [c], k)
    {
      if k < |sel| { assert SelectedAt(env, j, end, sel, k); }
    }
  }

  lemma {:induction false} WalkSelects(env: Env, j: Journal, step: Stepper, end: nat, lo: nat, w: Walk, r: Walk)
    requires Steps(env, j, step) && 0 < lo <= end < |j| && AllDecode(j, lo, end) && Selecting(env, j, end, end, w)
    requires WalkBy(step, end, lo, w) == Some(r)
    ensures Selecting(env, j, end, lo - 1, r)
  {
    var ok := (h: nat, v: Walk) => Selecting(env, j, end, h, v);
    forall h, v | lo <= h <= end
      ensures StepKeeps(step, ok, h, v)
    {
      if ok(h, v) && step(h, v).Some? {
        assert Decodes(j[h]) && StepsAt(env, j, step, h, v);
        SelectingStep(env, j, end, h, v, step(h, v).value);
      }
    }
    WalkKeeps(step, ok, end, lo, w, r);
  }

  lemma {:induction false} SelectingStep(env: Env, j: Journal, end: nat, height: nat, w: Walk, w': Walk)
    requires 0 < height <= end < |j| && Decodes(j[height]) && Selecting(env, j, end, height, w)
    requires StepDown(env, height, Values(j[height]), w) == Some(w')
    ensures Selecting(env, j, end, height - 1, w')
  {
    var c := w'.selected[|w.selected|];
    StepSelects(env, j, end, height, w, c);
    SelectionGrows(env, j, end, w.selected, c);
  }

  /** A walk that has followed a selection so far follows it to the end. */
  lemma {:induction false} SelectionWalks(env: Env, j: Journal, step: Stepper, end: nat, lo: nat, sel: seq<Candidate>, k: nat, w: Walk)
    requires Steps(env, j, step) && 0 < lo <= end < |j| && AllDecode(j, lo, end) && |sel| == end - lo + 1 && Selection(env, j, end, sel)
    requires k <= |sel| && w.selected == sel[..k] && w.expected == ExpectedNext(sel[..k])
    ensures WalkBy(step, end - k, lo, w).Some?
    ensures var r := WalkBy(step, end - k, lo, w).value; r.selected == sel && r.expected == ExpectedNext(sel)
    decreases |sel| - k
  {
    if k == |sel| {
      assert sel[..k] == sel;
    } else {
      var w' := FollowStep(env, j, step, end, sel, k, w);
      SelectionWalks(env, j, step, end, lo, sel, k + 1, w');
    }
  }

  lemma {:induction false} FollowStep(env: Env, j: Journal, step: Stepper, end: nat, sel: seq<Candidate>, k: nat, w: Walk) returns (w': Walk)
    requires Steps(env, j, step) && k < |sel| && |sel| <= end + 1 <= |j| && Decodes(j[end - k]) && Selection(env, j, end, sel)
    requires w.selected == sel[..k] && w.expected == ExpectedNext(sel[..k])
    ensures step(end - k, w) == Some(w') && w'.selected == sel[..k + 1] && w'.expected == ExpectedNext(sel[..k + 1])
  {
    assert SelectedAt(env, j, end, sel, k);
    assert sel[..k + 1] == sel[..k] + [sel[k]];
    assert SelectedAt(env, j, end, sel[..k] + [sel[k]], k);
    StepSelects(env, j, end, end - k, w, sel[k]);
    assert StepsAt(env, j, step, end - k, w);
    w' := step(end - k, w).value;
  }

  /** The blocks of a whole audit, down to genesis when it starts there. */
  ghost predicate FullSelection(env: Env, j: Journal, start: nat, end: nat, sel: seq<Candidate>)
    requires 0 < start <= end < |j|
  {
    && |sel| == end - start + 1 && Selection(env, j, end, sel)
    && (start == 1 ==> sel[end - start].previous == env.zeroHash && sel[end - start].previousRoot == env.zeroHash)
  }

  /** The audit ends exactly when every payload decodes and there is a whole selection; it
      has then selected that one, which is the only one. */
  lemma {:induction false} AuditEndsExactly(env: Env, j: Journal, start: nat, end: nat)
    requires 0 < start <= end < |j|
    ensures var r := Audit(env, j, start, end, START);
      && (r.Some? ==> AllDecode(j, start, end) && FullSelection(env, j, start, end, r.value.selected))
      && (AllDecode(j, start, end) ==> forall sel :: FullSelection(env, j, start, end, sel) ==> r.Some? && r.value.selected == sel)
  {
    StepOfSteps(env, j);
    var r := Audit(env, j, start, end, START);
    if r.Some? { WalkSelects(env, j, StepOf(env, j), end, start, START, r.value); }
    if AllDecode(j, start, end) {
      forall sel | FullSelection(env, j, start, end, sel)
        ensures r.Some? && r.value.selected == sel
      {
        assert sel[..0] == [];
        SelectionWalks(env, j, StepOf(env, j), end, start, sel, 0, START);
      }
    }
  }

  /** Main theorem, both directions: the audit ends and passes exactly when every payload
      decodes and some whole selection has the listed ids and accepted roots throughout. */
  lemma {:induction false} AuditPassesIff(env: Env, j: Journal, start: nat, end: nat)
    requires Simulates(env) && 0 < start <= end < |j|
    ensures var r := Audit(env, j, start, end, START);
      r.Some? && !HasFailures(r.value.stats) <==>
        AllDecode(j, start, end) && exists sel :: FullSelection(env, j, start, end, sel) && AllPass(env, end, sel)
  {
    AuditEndsExactly(env, j, start, end);
    var r := Audit(env, j, start, end, START);
    if r.Some? { AuditPassesExactly(env, j, start, end, r.value); }
  }

  /** The result of an audit of the journal, in the terms of its candidates. */
  ghost predicate Verdict(env: Env, j: Journal, start: nat, end: nat, r: Option<Walk>) {
    && 0 < start <= end < |j|
    && (r.Some? <==> AllDecode(j, start, end) && exists sel :: FullSelection(env, j, start, end, sel))
    && (r.Some? ==>
          && FullSelection(env, j, start, end, r.value.selected)
          && r.value.stats == TallyOf(env, end, r.value.selected)
          && (!HasFailures(r.value.stats) <==> AllPass(env, end, r.value.selected)))
  }

  lemma {:induction false} AuditGivesVerdict(env: Env, j: Journal, start: nat, end: nat)
    requires Simulates(env) && 0 < start <= end < |j|
    ensures Verdict(env, j, start, end, Audit(env, j, start, end, START))
  {
    AuditEndsExactly(env, j, start, end);
    var r := Audit(env, j, start, end, START);
    if r.Some? {
      AuditCounts(env, j, start, end, r.value);
      AuditPassesExactly(env, j, start, end, r.value);
    }
  }
}
