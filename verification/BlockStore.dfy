/**
  The block store: a map from block id to block record, over any number of forks.

  Every record carries skip-list pointers that are computed, when the block is
  added, by walking the pointers already stored.  `Ancestor` is the independent
  reference: it follows `header.previous` one block at a time.  The index is
  correct when every stored pointer agrees with `Ancestor`.
 */
module BlockStore {
  import opened Arithmetic
  import opened Options
  import opened Sequences
  import opened SkipList

  type Id = string

  datatype Block = Block(id: Id, height: nat, previous: Id, body: string)

  datatype Record = Record(
    blockId: Id, height: nat, block: Block, receipt: Option<string>, previousIds: seq<Id>)

  type Records = map<Id, Record>

  datatype Topology = Topology(id: Id, height: nat, previous: Id)

  datatype Error = BlockNotPresent | UnexpectedHeight | InvalidArgument

  datatype Lookup = Found(id: Id) | Threw(error: Error)

  datatype Item = Item(blockId: Id, height: nat, block: Option<Block>, receipt: Option<string>)

  datatype Response = Items(items: seq<Item>) | Uncaught(error: Error)

  const MAX_BLOCK_REQUEST: nat := 1000

  const GENESIS_ID: Id := seq(34, _ => '\0')

  // ---- Reference: following header.previous ----------------------------------

  /** The id reached from `id` by following header.previous n times. */
  function Ancestor(records: Records, id: Id, n: nat): Option<Id>
    decreases n
  {
    if n == 0 then Some(id)
    else if id in records then Ancestor(records, records[id].block.previous, n - 1)
    else None
  }

  lemma {:induction false} AncestorCompose(records: Records, id: Id, a: nat, b: nat)
    requires Ancestor(records, id, a).Some?
    ensures Ancestor(records, id, a + b) == Ancestor(records, Ancestor(records, id, a).value, b)
    decreases a
  {
    if a > 0 { AncestorCompose(records, records[id].block.previous, a - 1, b); }
  }

  lemma {:induction false} AncestorExtends(records: Records, more: Records, id: Id, n: nat)
    requires Ancestor(records, id, n).Some?
    requires forall x :: x in records ==> x in more && more[x] == records[x]
    ensures Ancestor(more, id, n) == Ancestor(records, id, n)
    decreases n
  {
    if n > 0 { AncestorExtends(records, more, records[id].block.previous, n - 1); }
  }

  // ---- The index invariant ---------------------------------------------------

  ghost predicate PointersOk(records: Records, id: Id, pointers: seq<Id>) {
    forall i :: 0 <= i < |pointers| ==> PointerOk(records, id, i, pointers[i])
  }

  ghost predicate PointerOk(records: Records, id: Id, i: nat, pointer: Id) {
    Ancestor(records, id, Pow2(i)) == Some(pointer)
  }

  ghost predicate RecordOk(records: Records, id: Id)
    requires id in records
  {
    var r := records[id];
    && id != "" && r.blockId == id && r.block.id == id && r.block.height == r.height
    && (r.height >= 2 ==> ParentStored(records, r.block))
    && |r.previousIds| == (if r.height == 0 then 0 else TrailingZeros(r.height) + 1)
    && PointersOk(records, id, r.previousIds)
  }

  ghost predicate ParentStored(records: Records, b: Block) {
    b.previous in records && records[b.previous].height == b.height - 1
  }

  ghost predicate WellIndexed(records: Records) {
    forall id {:trigger RecordOk(records, id)} :: id in records ==> RecordOk(records, id)
  }

  /** Walking down from height H passes through stored blocks of heights H-1, H-2, ... */
  lemma {:induction false} AncestorHeight(records: Records, id: Id, n: nat)
    requires WellIndexed(records) && id in records && n <= records[id].height
    ensures Ancestor(records, id, n).Some?
    ensures n < records[id].height || n == 0 ==>
      var a := Ancestor(records, id, n).value;
      a in records && records[a].height == records[id].height - n
    decreases n
  {
    assert RecordOk(records, id);
    if n > 0 && records[id].height >= 2 { AncestorHeight(records, records[id].block.previous, n - 1); }
  }

  // ---- Skip-list lookup ------------------------------------------------------

  /** What get_ancestor_id_at_height computes, on any index whatever. */
  function AncestorAt(records: Records, id: Id, target: nat, expected: Option<nat>): (r: Lookup)
    decreases if expected.None? then 1 else 0, if expected.None? then 0 else expected.value
  {
    if id !in records then Threw(BlockNotPresent)
    else
      var record := records[id];
      if expected.Some? && record.height != expected.value then Threw(UnexpectedHeight)
      else if record.height == target then Found(record.blockId)
      else
        match SkipIndex(target, record.height)
        case InvalidArgument => Threw(Error.InvalidArgument)
        case Jump(idx, h) =>
          if idx >= |record.previousIds| then Threw(UnexpectedHeight)
          else if h == target then Found(record.previousIds[idx])
          else AncestorAt(records, record.previousIds[idx], target, Some(h))
  }

  /** On a well-formed index the skip-list walk is the parent walk, and never throws. */
  lemma {:induction false} LookupRefinesParentWalk(records: Records, id: Id, target: nat, expected: Option<nat>)
    requires WellIndexed(records) && id in records && target <= records[id].height
    requires expected == None || expected == Some(records[id].height)
    ensures Ancestor(records, id, records[id].height - target).Some?
    ensures AncestorAt(records, id, target, expected)
         == Found(Ancestor(records, id, records[id].height - target).value)
    decreases records[id].height
  {
    var r := records[id];
    assert RecordOk(records, id);
    if target < r.height {
      SkipIndexIsBest(target, r.height);
      var jump := SkipIndex(target, r.height);
      var next := r.previousIds[jump.index];
      JumpLands(records, id, jump.index, jump.height, next, target);
      LookupJumps(records, id, target, expected, jump.index, jump.height, next);
      if jump.height != target {
        LookupRefinesParentWalk(records, next, target, Some(jump.height));
      }
    }
  }

  /** One turn of the lookup loop. */
  lemma {:induction false} LookupJumps(records: Records, id: Id, target: nat, expected: Option<nat>, index: nat, h: nat, next: Id)
    requires id in records && (expected == None || expected == Some(records[id].height))
    requires target < records[id].height && SkipIndex(target, records[id].height) == Jump(index, h)
    requires index < |records[id].previousIds| && records[id].previousIds[index] == next
    ensures AncestorAt(records, id, target, expected) == if h == target then Found(next) else AncestorAt(records, next, target, Some(h))
  {
  }

  /** A stored pointer jumps along the parent walk. */
  lemma {:induction false} JumpLands(records: Records, id: Id, index: nat, h: nat, next: Id, target: nat)
    requires WellIndexed(records) && id in records && target <= h && h + Pow2(index) == records[id].height
    requires index < |records[id].previousIds| && records[id].previousIds[index] == next
    ensures Ancestor(records, id, records[id].height - h) == Some(next)
    ensures Ancestor(records, id, records[id].height - target) == Ancestor(records, next, h - target)
    ensures h > 0 ==> next in records && records[next].height == h
  {
    assert RecordOk(records, id);
    assert PointerOk(records, id, index, next);
    AncestorHeight(records, id, Pow2(index));
    AncestorCompose(records, id, Pow2(index), h - target);
  }

  /** Everything get_ancestor_id_at_height can do on a well-formed index. */
  lemma {:induction false} LookupOutcome(records: Records, id: Id, target: nat)
    requires WellIndexed(records)
    ensures var r := AncestorAt(records, id, target, None);
      if id !in records then r == Threw(BlockNotPresent)
      else if target > records[id].height then r == Threw(Error.InvalidArgument)
      else
        var a := Ancestor(records, id, records[id].height - target);
        a.Some? && r == Found(a.value)
  {
    if id in records && target <= records[id].height {
      LookupRefinesParentWalk(records, id, target, None);
    }
  }

  // ---- Adding a block --------------------------------------------------------

  /** The pointer of a new block to height h: the parent itself, or an ancestor
      looked up from it. */
  function PointerFor(records: Records, b: Block, h: nat): Lookup {
    if h + 1 == b.height then Found(b.previous) else AncestorAt(records, b.previous, h, None)
  }

  /** The pointers to the given heights, or None when a lookup throws. */
  function Pointers(records: Records, b: Block, hs: seq<nat>): (p: Option<seq<Id>>)
    ensures p.Some? ==> |p.value| == |hs|
  {
    if hs == [] then Some([])
    else
      match (Pointers(records, b, hs[..|hs| - 1]), PointerFor(records, b, hs[|hs| - 1]))
      case (Some(front), Found(a)) => Some(front + [a])
      case _ => None
  }

  function NewPointers(records: Records, b: Block): Option<seq<Id>> {
    if b.height > 1 then Pointers(records, b, PreviousHeights(b.height))
    else if b.height == 1 then Some([b.previous])
    else Some([])
  }

  function Stored(records: Records, b: Block, receipt: Option<string>): Records {
    if b.id in records then records
    else match NewPointers(records, b)
         case None => records
         case Some(p) => records[b.id := Record(b.id, b.height, b, receipt, p)]
  }

  /** What the caller of add_block has to respect for the index to stay correct. */
  ghost predicate Extends(records: Records, b: Block) {
    b.id != "" && (b.height >= 2 ==> ParentStored(records, b))
  }

  /** The blocks add_block itself turns away: even height, and the parent missing
      or too low for the ancestor two heights down to be reachable from it. */
  ghost predicate Rejected(records: Records, b: Block) {
    && b.height >= 2 && b.height % 2 == 0
    && (b.previous !in records || records[b.previous].height + 2 < b.height)
  }

  /** Pointer i of a child of `parent` is the parent's ancestor 2^i - 1 blocks down. */
  ghost predicate LeadsTo(records: Records, parent: Id, i: nat, pointer: Id) {
    Ancestor(records, parent, Pow2(i) - 1) == Some(pointer)
  }

  lemma {:induction false} PointerFollowsParents(records: Records, b: Block, i: nat, h: nat)
    requires WellIndexed(records) && ParentStored(records, b) && PointsTo(b.height, i, h)
    ensures PointerFor(records, b, h).Found?
    ensures LeadsTo(records, b.previous, i, PointerFor(records, b, h).id)
  {
    var stride := Pow2(i);
    if stride > 1 {
      LookupRefinesParentWalk(records, b.previous, h, None);
      assert records[b.previous].height - h == stride - 1;
    }
  }

  ghost predicate AllLead(records: Records, parent: Id, p: seq<Id>) {
    forall i :: 0 <= i < |p| ==> LeadsTo(records, parent, i, p[i])
  }

  lemma {:induction false} AllLeadAppend(records: Records, parent: Id, front: seq<Id>, last: Id)
    requires AllLead(records, parent, front) && LeadsTo(records, parent, |front|, last)
    ensures AllLead(records, parent, front + [last])
  {
    forall i | 0 <= i < |front + [last]|
      ensures LeadsTo(records, parent, i, (front + [last])[i])
    {
      if i < |front| { assert (front + [last])[i] == front[i]; }
    }
  }

  lemma {:induction false} PointersFollowParents(records: Records, b: Block, hs: seq<nat>)
    requires WellIndexed(records) && ParentStored(records, b)
    requires forall i :: 0 <= i < |hs| ==> PointsTo(b.height, i, hs[i])
    ensures Pointers(records, b, hs).Some?
    ensures AllLead(records, b.previous, Pointers(records, b, hs).value)
    decreases |hs|
  {
    if hs != [] {
      var n := |hs| - 1;
      PointersFollowParents(records, b, hs[..n]);
      PointerFollowsParents(records, b, n, hs[n]);
      AllLeadAppend(records, b.previous, Pointers(records, b, hs[..n]).value, PointerFor(records, b, hs[n]).id);
    }
  }

  lemma {:induction false} NewPointerOk(records: Records, more: Records, b: Block, i: nat, pointer: Id)
    requires b.id in more && more[b.id].block == b
    requires forall x :: x in records ==> x in more && more[x] == records[x]
    requires LeadsTo(records, b.previous, i, pointer)
    ensures PointerOk(more, b.id, i, pointer)
  {
    AncestorExtends(records, more, b.previous, Pow2(i) - 1);
  }

  lemma {:induction false} NewRecordOk(records: Records, b: Block, receipt: Option<string>, p: seq<Id>)
    requires WellIndexed(records) && b.id !in records && Extends(records, b)
    requires NewPointers(records, b) == Some(p)
    ensures RecordOk(records[b.id := Record(b.id, b.height, b, receipt, p)], b.id)
  {
    var more := records[b.id := Record(b.id, b.height, b, receipt, p)];
    if b.height >= 2 {
      PreviousHeightsPoint(b.height);
      PointersFollowParents(records, b, PreviousHeights(b.height));
    } else if b.height == 1 {
      assert LeadsTo(records, b.previous, 0, p[0]);
    }
    forall i | 0 <= i < |p|
      ensures PointerOk(more, b.id, i, p[i])
    {
      NewPointerOk(records, more, b, i, p[i]);
    }
  }

  lemma {:induction false} OldRecordOk(records: Records, more: Records, id: Id)
    requires id in records && RecordOk(records, id)
    requires forall x :: x in records ==> x in more && more[x] == records[x]
    ensures RecordOk(more, id)
  {
    var p := records[id].previousIds;
    forall i | 0 <= i < |p|
      ensures PointerOk(more, id, i, p[i])
    {
      assert PointerOk(records, id, i, p[i]);
      AncestorExtends(records, more, id, Pow2(i));
    }
  }

  lemma {:induction false} AddKeepsIndex(records: Records, b: Block, receipt: Option<string>)
    requires WellIndexed(records)
    requires b.id in records || Extends(records, b)
    ensures WellIndexed(Stored(records, b, receipt))
    ensures b.id in Stored(records, b, receipt)
  {
    if b.id !in records {
      if b.height >= 2 {
        PreviousHeightsPoint(b.height);
        PointersFollowParents(records, b, PreviousHeights(b.height));
      }
      var p := NewPointers(records, b).value;
      NewRecordOk(records, b, receipt, p);
      var more := Stored(records, b, receipt);
      forall id | id in more
        ensures RecordOk(more, id)
      {
        if id in records { OldRecordOk(records, more, id); }
      }
    }
  }

  /** add_block turns a block away exactly when `Rejected` holds. */
  lemma {:induction false} RejectedExactly(records: Records, b: Block)
    requires WellIndexed(records)
    ensures NewPointers(records, b).None? <==> Rejected(records, b)
  {
    if b.height >= 2 {
      PreviousHeightsPoint(b.height);
      var hs := PreviousHeights(b.height);
      if Rejected(records, b) {
        RejectedThrows(records, b, hs);
      } else {
        forall i | 0 <= i < |hs|
          ensures PointerFor(records, b, hs[i]).Found?
        {
          PointerSome(records, b, i, hs[i]);
        }
        PointersSome(records, b, hs);
      }
    }
  }

  lemma {:induction false} RejectedThrows(records: Records, b: Block, hs: seq<nat>)
    requires WellIndexed(records) && Rejected(records, b)
    requires |hs| >= 2 && PointsTo(b.height, 1, hs[1])
    ensures Pointers(records, b, hs).None?
  {
    assert Pow2(1) == 2;
    LookupOutcome(records, b.previous, hs[1]);
    PointersNone(records, b, hs, 1);
  }

  lemma {:induction false} PointerSome(records: Records, b: Block, i: nat, h: nat)
    requires WellIndexed(records) && b.height >= 2 && PointsTo(b.height, i, h)
    requires i == 0 || (b.previous in records && records[b.previous].height + 2 >= b.height)
    ensures PointerFor(records, b, h).Found?
  {
    if i > 0 {
      Pow2Monotone(1, i);
      LookupRefinesParentWalk(records, b.previous, h, None);
    }
  }

  lemma {:induction false} PointersNone(records: Records, b: Block, hs: seq<nat>, i: nat)
    requires i < |hs| && PointerFor(records, b, hs[i]).Threw?
    ensures Pointers(records, b, hs).None?
    decreases |hs|
  {
    if i < |hs| - 1 { PointersNone(records, b, hs[..|hs| - 1], i); }
  }

  lemma {:induction false} PointersSome(records: Records, b: Block, hs: seq<nat>)
    requires forall i :: 0 <= i < |hs| ==> PointerFor(records, b, hs[i]).Found?
    ensures Pointers(records, b, hs).Some?
    decreases |hs|
  {
    if hs != [] { PointersSome(records, b, hs[..|hs| - 1]); }
  }

  /** add_block does not check the parent at odd heights, so it can break the
      index.  It keeps it exactly in these cases. */
  lemma {:induction false} AddKeepsIndexExactly(records: Records, b: Block, receipt: Option<string>)
    requires WellIndexed(records)
    ensures WellIndexed(Stored(records, b, receipt))
       <==> b.id in records || Rejected(records, b) || Extends(records, b)
  {
    RejectedExactly(records, b);
    var more := Stored(records, b, receipt);
    if b.id in records || Extends(records, b) {
      AddKeepsIndex(records, b, receipt);
    } else if !Rejected(records, b) {
      assert b.id in more;
      assert !RecordOk(more, b.id);
    }
  }

  /** The family add_block lets through: an odd-height block with no stored parent
      is stored, and a lookup through it then throws. */
  lemma {:induction false} OrphanIsStored(records: Records, b: Block, receipt: Option<string>)
    requires WellIndexed(records) && b.id !in records
    requires b.height >= 3 && b.height % 2 == 1
    requires b.previous !in records && b.previous != b.id
    ensures b.id in Stored(records, b, receipt)
    ensures AncestorAt(Stored(records, b, receipt), b.id, 1, None) == Threw(BlockNotPresent)
  {
    RejectedExactly(records, b);
    var hs := PreviousHeights(b.height);
    PreviousHeightsPoint(b.height);
    assert PointsTo(b.height, 0, hs[0]) && Pow2(0) == 1 && hs == [b.height - 1];
    assert Pointers(records, b, []) == Some([]) && hs[..0] == [] && [] + [b.previous] == [b.previous];
    var more := Stored(records, b, receipt);
    assert SkipIndex(1, b.height) == Jump(0, b.height - 1);
    assert AncestorAt(more, b.previous, 1, Some(b.height - 1)) == Threw(BlockNotPresent);
  }

  // ---- What a record holds -----------------------------------------------------

  /** The record carries this block and this receipt, filed under the block's id. */
  predicate Carries(r: Record, b: Block, receipt: Option<string>) {
    r.blockId == b.id && r.height == b.height && r.block == b && r.receipt == receipt
  }

  /** add_block on any index: a known id or a block turned away changes nothing, and any
      other block is stored with its receipt beside the unchanged other records. */
  ghost predicate AddEffect(records: Records, b: Block, receipt: Option<string>, turnedAway: bool, more: Records) {
    if b.id in records || turnedAway then more == records
    else more.Keys == records.Keys + {b.id} && Carries(more[b.id], b, receipt) && forall id :: id in records ==> more[id] == records[id]
  }

  lemma {:induction false} StoredHolds(records: Records, b: Block, receipt: Option<string>)
    ensures AddEffect(records, b, receipt, NewPointers(records, b).None?, Stored(records, b, receipt))
  {
  }

  // ---- Highest block ---------------------------------------------------------

  function Raised(highest: Option<Topology>, records: Records, b: Block, more: Records): Option<Topology> {
    if more == records || highest.None? || b.height <= highest.value.height then highest
    else Some(Topology(b.id, b.height, b.previous))
  }

  /** The metadata names a stored block of maximal height (or genesis). */
  ghost predicate HighestOk(records: Records, highest: Option<Topology>) {
    highest.Some? ==>
      && (forall id :: id in records ==> records[id].height <= highest.value.height)
      && (highest.value.height > 0 ==>
            && highest.value.id in records
            && records[highest.value.id].height == highest.value.height
            && records[highest.value.id].block.previous == highest.value.previous)
  }

  // ---- Whole runs ------------------------------------------------------------

  datatype Request = Request(block: Block, receipt: Option<string>)

  datatype State = State(records: Records, highest: Option<Topology>)

  function Step(s: State, q: Request): State {
    var more := Stored(s.records, q.block, q.receipt);
    State(more, Raised(s.highest, s.records, q.block, more))
  }

  function Run(s: State, qs: seq<Request>): State {
    if qs == [] then s else Step(Run(s, qs[..|qs| - 1]), qs[|qs| - 1])
  }

  /** Every request extends the store as it stands when the request arrives. */
  ghost predicate Admissible(s: State, qs: seq<Request>) {
    forall i :: 0 <= i < |qs| ==> AdmissibleAt(s, qs, i)
  }

  ghost predicate AdmissibleAt(s: State, qs: seq<Request>, i: nat)
    requires i < |qs|
  {
    var before := Run(s, qs[..i]).records;
    qs[i].block.id in before || Extends(before, qs[i].block)
  }

  lemma {:induction false} AdmissibleFront(s: State, qs: seq<Request>)
    requires Admissible(s, qs) && qs != []
    ensures Admissible(s, qs[..|qs| - 1])
  {
    var front := qs[..|qs| - 1];
    forall i | 0 <= i < |front|
      ensures AdmissibleAt(s, front, i)
    {
      assert AdmissibleAt(s, qs, i);
      assert front[..i] == qs[..i];
    }
  }

  lemma {:induction false} RunKeepsIndex(s: State, qs: seq<Request>)
    requires WellIndexed(s.records) && Admissible(s, qs)
    ensures WellIndexed(Run(s, qs).records)
    ensures forall i :: 0 <= i < |qs| ==> qs[i].block.id in Run(s, qs).records
    decreases |qs|
  {
    if qs != [] {
      var front, q := qs[..|qs| - 1], qs[|qs| - 1];
      AdmissibleFront(s, qs);
      RunKeepsIndex(s, front);
      assert AdmissibleAt(s, qs, |front|);
      StepKeepsIndex(Run(s, front), q);
      forall i | 0 <= i < |qs|
        ensures qs[i].block.id in Run(s, qs).records
      {
        if i < |front| { assert front[i] == qs[i]; }
      }
    }
  }

  lemma {:induction false} StepKeepsIndex(s: State, q: Request)
    requires WellIndexed(s.records) && (q.block.id in s.records || Extends(s.records, q.block))
    ensures WellIndexed(Step(s, q).records) && q.block.id in Step(s, q).records
    ensures forall id :: id in s.records ==> id in Step(s, q).records
  {
    AddKeepsIndex(s.records, q.block, q.receipt);
  }

  lemma {:induction false} RunKeepsHighest(s: State, qs: seq<Request>)
    requires HighestOk(s.records, s.highest)
    ensures HighestOk(Run(s, qs).records, Run(s, qs).highest)
    decreases |qs|
  {
    if qs != [] {
      RunKeepsHighest(s, qs[..|qs| - 1]);
    }
  }

  /** Request i is the first with its id that is not turned away. */
  ghost predicate FirstStored(s: State, qs: seq<Request>, i: nat)
    requires i < |qs|
  {
    StoredNow(s, qs, i) && forall k :: 0 <= k < i && qs[k].block.id == qs[i].block.id ==> !StoredNow(s, qs, k)
  }

  /** Request i is not turned away by the store as it stands when it arrives. */
  ghost predicate StoredNow(s: State, qs: seq<Request>, i: nat)
    requires i < |qs|
  {
    NewPointers(Run(s, qs[..i]).records, qs[i].block).Some?
  }

  /** The stored record of an id is that of some first request for it. */
  ghost predicate HoldsFirst(s: State, qs: seq<Request>, id: Id, r: Record) {
    exists i :: 0 <= i < |qs| && FirstStored(s, qs, i) && qs[i].block.id == id && Carries(r, qs[i].block, qs[i].receipt)
  }

  /** Some request for the id was not turned away. */
  ghost predicate SomeStored(s: State, qs: seq<Request>, id: Id) {
    exists i :: 0 <= i < |qs| && qs[i].block.id == id && StoredNow(s, qs, i)
  }

  /** Whole runs from an empty store: an id is stored exactly when some request for it was
      not turned away, and its record carries the block and receipt of the first such. */
  lemma {:induction false} RunHoldsFirst(s: State, qs: seq<Request>, id: Id)
    requires s.records == map[]
    ensures id in Run(s, qs).records <==> SomeStored(s, qs, id)
    ensures id in Run(s, qs).records ==> HoldsFirst(s, qs, id, Run(s, qs).records[id])
    decreases |qs|
  {
    if qs != [] {
      var front := qs[..|qs| - 1];
      RunHoldsFirst(s, front, id);
      RunAdds(s, qs);
      HoldsFirstNext(s, qs, id, Run(s, front).records, Run(s, qs).records);
    }
  }

  lemma {:induction false} RunAdds(s: State, qs: seq<Request>)
    requires qs != []
    ensures var n := |qs| - 1;
      AddEffect(Run(s, qs[..n]).records, qs[n].block, qs[n].receipt, !StoredNow(s, qs, n), Run(s, qs).records)
  {
    StoredHolds(Run(s, qs[..|qs| - 1]).records, qs[|qs| - 1].block, qs[|qs| - 1].receipt);
  }

  lemma {:induction false} StoredNowSame(s: State, qs: seq<Request>, i: nat)
    requires i < |qs| - 1
    ensures StoredNow(s, qs, i) <==> StoredNow(s, qs[..|qs| - 1], i)
  {
    assert qs[..i] == qs[..|qs| - 1][..i];
  }

  lemma {:induction false} FirstStoredSame(s: State, qs: seq<Request>, i: nat)
    requires i < |qs| - 1
    ensures FirstStored(s, qs, i) <==> FirstStored(s, qs[..|qs| - 1], i)
  {
    forall k | 0 <= k <= i
      ensures StoredNow(s, qs, k) <==> StoredNow(s, qs[..|qs| - 1], k)
    {
      StoredNowSame(s, qs, k);
    }
  }

  lemma {:induction false} SomeStoredNext(s: State, qs: seq<Request>, id: Id)
    requires qs != []
    ensures var n := |qs| - 1;
      SomeStored(s, qs, id) <==> SomeStored(s, qs[..n], id) || (qs[n].block.id == id && StoredNow(s, qs, n))
  {
    forall i | 0 <= i < |qs| - 1
      ensures StoredNow(s, qs, i) <==> StoredNow(s, qs[..|qs| - 1], i)
    {
      StoredNowSame(s, qs, i);
    }
  }

  lemma {:induction false} HeldStays(s: State, qs: seq<Request>, id: Id, r: Record)
    requires qs != [] && HoldsFirst(s, qs[..|qs| - 1], id, r)
    ensures HoldsFirst(s, qs, id, r)
  {
    var front := qs[..|qs| - 1];
    var i :| 0 <= i < |front| && FirstStored(s, front, i) && front[i].block.id == id && Carries(r, front[i].block, front[i].receipt);
    FirstStoredSame(s, qs, i);
  }

  lemma {:induction false} HeldFirst(s: State, qs: seq<Request>, r: Record)
    requires qs != [] && StoredNow(s, qs, |qs| - 1) && !SomeStored(s, qs[..|qs| - 1], qs[|qs| - 1].block.id)
    requires Carries(r, qs[|qs| - 1].block, qs[|qs| - 1].receipt)
    ensures HoldsFirst(s, qs, qs[|qs| - 1].block.id, r)
  {
    forall k | 0 <= k < |qs| - 1 && qs[k].block.id == qs[|qs| - 1].block.id
      ensures !StoredNow(s, qs, k)
    {
      StoredNowSame(s, qs, k);
    }
    assert FirstStored(s, qs, |qs| - 1);
  }

  lemma {:induction false} HoldsFirstNext(s: State, qs: seq<Request>, id: Id, before: Records, after: Records)
    requires qs != []
    requires AddEffect(before, qs[|qs| - 1].block, qs[|qs| - 1].receipt, !StoredNow(s, qs, |qs| - 1), after)
    requires id in before <==> SomeStored(s, qs[..|qs| - 1], id)
    requires id in before ==> HoldsFirst(s, qs[..|qs| - 1], id, before[id])
    ensures id in after <==> SomeStored(s, qs, id)
    ensures id in after ==> HoldsFirst(s, qs, id, after[id])
  {
    SomeStoredNext(s, qs, id);
    if id in before {
      HeldStays(s, qs, id, before[id]);
    } else if id in after {
      HeldFirst(s, qs, after[id]);
    }
  }

  /** Main theorem.  After any admissible sequence of add_block calls on an empty
      store, looking up height t from any stored block of height H >= t returns
      the id reached by following header.previous H - t times. */
  lemma {:induction false} RunLookupIsParentWalk(qs: seq<Request>, highest: Option<Topology>, id: Id, t: nat)
    requires Admissible(State(map[], highest), qs)
    requires id in Run(State(map[], highest), qs).records
    requires t <= Run(State(map[], highest), qs).records[id].height
    ensures var records := Run(State(map[], highest), qs).records;
      && Ancestor(records, id, records[id].height - t).Some?
      && AncestorAt(records, id, t, None) == Found(Ancestor(records, id, records[id].height - t).value)
  {
    RunKeepsIndex(State(map[], highest), qs);
    LookupRefinesParentWalk(Run(State(map[], highest), qs).records, id, t, None);
  }

  // ---- Range queries ---------------------------------------------------------

  function ItemOf(r: Record, returnBlock: bool, returnReceipt: bool): Item {
    Item(r.blockId, r.height,
         if returnBlock then Some(r.block) else None,
         if returnReceipt then r.receipt else None)
  }

  /** fill_blocks: walk down through pointer 0, stopping at the first surprise. */
  function Fill(records: Records, id: Id, count: nat, expected: Option<int>, rb: bool, rr: bool): (items: seq<Item>)
    decreases count
  {
    if count == 0 || id == "" || id !in records then []
    else
      var r := records[id];
      if expected.Some? && r.height != expected.value then []
      else
        var next := if |r.previousIds| > 0 then r.previousIds[0] else "";
        [ItemOf(r, rb, rr)] + Fill(records, next, count - 1, Some(r.height - 1), rb, rr)
  }

  /** The items of a downward walk in ascending order. */
  function Upward<T>(s: seq<T>): seq<T> {
    seq(|s|, i requires 0 <= i < |s| => s[|s| - 1 - i])
  }

  /** Item k of a downward walk is the k-th ancestor's. */
  ghost predicate WalkItem(records: Records, id: Id, k: nat, rb: bool, rr: bool, item: Item) {
    var a := Ancestor(records, id, k);
    a.Some? && a.value in records && item == ItemOf(records[a.value], rb, rr)
  }

  lemma {:induction false} FillHead(records: Records, id: Id, count: nat, expected: Option<int>, rb: bool, rr: bool)
    requires WellIndexed(records) && id in records && 0 < count <= records[id].height
    requires expected == None || expected == Some(records[id].height as int)
    ensures Fill(records, id, count, expected, rb, rr)
      == [ItemOf(records[id], rb, rr)] + Fill(records, records[id].block.previous, count - 1, Some(records[id].height - 1), rb, rr)
  {
    var r := records[id];
    assert RecordOk(records, id);
    assert PointerOk(records, id, 0, r.previousIds[0]);
    assert Ancestor(records, id, 1) == Ancestor(records, r.block.previous, 0);
  }

  /** On a well-formed index, fill_blocks walks down parent by parent. */
  lemma {:induction false} FillWalksParents(records: Records, id: Id, count: nat, expected: Option<int>, rb: bool, rr: bool)
    requires WellIndexed(records) && id in records && count <= records[id].height
    requires expected == None || expected == Some(records[id].height as int)
    ensures |Fill(records, id, count, expected, rb, rr)| == count
    ensures forall k :: 0 <= k < count ==> WalkItem(records, id, k, rb, rr, Fill(records, id, count, expected, rb, rr)[k])
    decreases count
  {
    if count > 0 {
      var r := records[id];
      var rest := Fill(records, r.block.previous, count - 1, Some(r.height - 1), rb, rr);
      FillHead(records, id, count, expected, rb, rr);
      assert RecordOk(records, id);
      if count > 1 { FillWalksParents(records, r.block.previous, count - 1, Some(r.height - 1), rb, rr); }
      forall k | 0 <= k < count
        ensures WalkItem(records, id, k, rb, rr, ([ItemOf(r, rb, rr)] + rest)[k])
      {
        if k > 0 { assert WalkItem(records, r.block.previous, k - 1, rb, rr, rest[k - 1]); }
      }
    }
  }

  /** get_blocks_by_height catches two of the three exceptions. */
  function OnThrow(e: Error): Response {
    if e == Error.InvalidArgument then Uncaught(e) else Items([])
  }

  function BlocksByHeight(records: Records, head: Id, start: nat, num: nat, rb: bool, rr: bool): Response {
    BlocksInRange(records, head, start, if num <= MAX_BLOCK_REQUEST then num else MAX_BLOCK_REQUEST, rb, rr)
  }

  function BlocksInRange(records: Records, head: Id, start: nat, n: nat, rb: bool, rr: bool): Response {
    if start == 0 || n == 0 then Items([])
    else match AncestorAt(records, head, start, None)
      case Threw(e) => OnThrow(e)
      case Found(startId) =>
        if n == 1 then Items(Fill(records, startId, n, None, rb, rr))
        else BlocksDownFrom(records, AncestorAt(records, head, start + n - 1, None), n, rb, rr)
  }

  function BlocksDownFrom(records: Records, top: Lookup, n: nat, rb: bool, rr: bool): Response {
    match top
    case Threw(e) => OnThrow(e)
    case Found(endId) => Items(Upward(Fill(records, endId, n, None, rb, rr)))
  }

  /** The n ancestors of `head` at heights start .. start + n - 1, ascending. */
  ghost predicate IsRange(records: Records, head: Id, start: nat, n: nat, rb: bool, rr: bool, items: seq<Item>)
    requires head in records
  {
    && |items| == n
    && forall i :: 0 <= i < n ==> IsRangeItem(records, head, start + i, rb, rr, items[i])
  }

  ghost predicate IsRangeItem(records: Records, head: Id, height: nat, rb: bool, rr: bool, item: Item)
    requires head in records
  {
    && height <= records[head].height
    && var a := Ancestor(records, head, records[head].height - height);
    && a.Some? && a.value in records && records[a.value].height == height
    && item == ItemOf(records[a.value], rb, rr) && item.blockId == a.value
  }

  lemma {:induction false} RangeItem(records: Records, head: Id, top: nat, k: nat, rb: bool, rr: bool, endId: Id, item: Item)
    requires WellIndexed(records) && head in records && k < top <= records[head].height
    requires Ancestor(records, head, records[head].height - top) == Some(endId) && WalkItem(records, endId, k, rb, rr, item)
    ensures IsRangeItem(records, head, top - k, rb, rr, item)
  {
    AncestorCompose(records, head, records[head].height - top, k);
    AncestorHeight(records, head, records[head].height - (top - k));
    assert RecordOk(records, Ancestor(records, head, records[head].height - (top - k)).value);
  }

  /** The blocks collected downward from `endId` and reversed form the range. */
  lemma {:induction false} RangeDownFrom(records: Records, head: Id, start: nat, n: nat, rb: bool, rr: bool, endId: Id)
    requires WellIndexed(records) && head in records
    requires start > 0 && n > 0 && start + n - 1 <= records[head].height
    requires Ancestor(records, head, records[head].height - (start + n - 1)) == Some(endId)
    ensures IsRange(records, head, start, n, rb, rr, Upward(Fill(records, endId, n, None, rb, rr)))
  {
    AncestorHeight(records, head, records[head].height - (start + n - 1));
    FillWalksParents(records, endId, n, None, rb, rr);
    var fill := Fill(records, endId, n, None, rb, rr);
    forall i | 0 <= i < n
      ensures IsRangeItem(records, head, start + i, rb, rr, Upward(fill)[i])
    {
      RangeItemAt(records, head, start, n, rb, rr, endId, fill, i);
    }
  }

  lemma {:induction false} RangeItemAt(records: Records, head: Id, start: nat, n: nat, rb: bool, rr: bool, endId: Id, fill: seq<Item>, i: nat)
    requires WellIndexed(records) && head in records && i < n == |fill|
    requires start > 0 && start + n - 1 <= records[head].height
    requires Ancestor(records, head, records[head].height - (start + n - 1)) == Some(endId)
    requires WalkItem(records, endId, n - 1 - i, rb, rr, fill[n - 1 - i])
    ensures IsRangeItem(records, head, start + i, rb, rr, Upward(fill)[i])
  {
    RangeItem(records, head, start + n - 1, n - 1 - i, rb, rr, endId, fill[n - 1 - i]);
  }

  /** Height-range query on a well-formed index: every outcome. */
  lemma {:induction false} RangeQuery(records: Records, head: Id, start: nat, num: nat, rb: bool, rr: bool)
    requires WellIndexed(records)
    ensures var n := if num <= MAX_BLOCK_REQUEST then num else MAX_BLOCK_REQUEST;
      var r := BlocksByHeight(records, head, start, num, rb, rr);
      if start == 0 || n == 0 || head !in records then r == Items([])
      else if start + n - 1 > records[head].height then r == Uncaught(Error.InvalidArgument)
      else r.Items? && IsRange(records, head, start, n, rb, rr, r.items)
  {
    var n := if num <= MAX_BLOCK_REQUEST then num else MAX_BLOCK_REQUEST;
    if start > 0 && n > 0 {
      if head in records && start + n - 1 <= records[head].height {
        RangeWithin(records, head, start, n, rb, rr);
      } else {
        RangeBeyond(records, head, start, n, rb, rr);
      }
    }
  }

  lemma {:induction false} RangeBeyond(records: Records, head: Id, start: nat, n: nat, rb: bool, rr: bool)
    requires WellIndexed(records) && start > 0 && n > 0
    requires head in records ==> start + n - 1 > records[head].height
    ensures BlocksInRange(records, head, start, n, rb, rr) == if head in records then Uncaught(Error.InvalidArgument) else Items([])
  {
    LookupOutcome(records, head, start);
    LookupOutcome(records, head, start + n - 1);
  }

  lemma {:induction false} RangeWithin(records: Records, head: Id, start: nat, n: nat, rb: bool, rr: bool)
    requires WellIndexed(records) && start > 0 && n > 0
    requires head in records && start + n - 1 <= records[head].height
    ensures var r := BlocksInRange(records, head, start, n, rb, rr);
      r.Items? && IsRange(records, head, start, n, rb, rr, r.items)
  {
    LookupRefinesParentWalk(records, head, start, None);
    LookupRefinesParentWalk(records, head, start + n - 1, None);
    var endId := Ancestor(records, head, records[head].height - (start + n - 1)).value;
    RangeValue(records, head, start, n, rb, rr, endId);
    RangeDownFrom(records, head, start, n, rb, rr, endId);
  }

  lemma {:induction false} RangeValue(records: Records, head: Id, start: nat, n: nat, rb: bool, rr: bool, endId: Id)
    requires start > 0 && n > 0 && AncestorAt(records, head, start, None).Found?
    requires AncestorAt(records, head, start + n - 1, None) == Found(endId)
    ensures BlocksInRange(records, head, start, n, rb, rr) == Items(Upward(Fill(records, endId, n, None, rb, rr)))
  {
    if n == 1 {
      assert start + n - 1 == start;
      OneItem(records, endId, n, rb, rr);
    }
  }

  lemma {:induction false} OneItem(records: Records, id: Id, n: nat, rb: bool, rr: bool)
    requires n == 1
    ensures Upward(Fill(records, id, n, None, rb, rr)) == Fill(records, id, n, None, rb, rr)
  {
    FillLength(records, id, n, None, rb, rr);
    SingletonUpward(Fill(records, id, n, None, rb, rr));
  }

  lemma {:induction false} FillLength(records: Records, id: Id, n: nat, expected: Option<int>, rb: bool, rr: bool)
    ensures |Fill(records, id, n, expected, rb, rr)| <= n
    decreases n
  {
    if n > 0 && id in records {
      var r := records[id];
      FillLength(records, if |r.previousIds| > 0 then r.previousIds[0] else "", n - 1, Some(r.height - 1), rb, rr);
    }
  }

  lemma {:induction false} SingletonUpward<T>(s: seq<T>)
    requires |s| <= 1
    ensures Upward(s) == s
  {
  }

  /** What a caller sees of a range: the block when asked for, the receipt when asked for,
      and neither otherwise. */
  lemma {:induction false} RangeShows(records: Records, head: Id, start: nat, n: nat, rb: bool, rr: bool, items: seq<Item>, i: nat)
    requires WellIndexed(records) && head in records && IsRange(records, head, start, n, rb, rr, items) && i < n
    ensures items[i].blockId in records && items[i].height == start + i
    ensures items[i].block == if rb then Some(records[items[i].blockId].block) else None
    ensures items[i].receipt == if rr then records[items[i].blockId].receipt else None
  {
    assert IsRangeItem(records, head, start + i, rb, rr, items[i]);
  }

  /** Consecutive items of a range are parent and child. */
  lemma {:induction false} RangeIsLinked(records: Records, head: Id, start: nat, n: nat, rb: bool, rr: bool, items: seq<Item>, i: nat)
    requires WellIndexed(records) && head in records
    requires IsRange(records, head, start, n, rb, rr, items) && start > 0 && i + 1 < n
    ensures items[i + 1].blockId in records
    ensures records[items[i + 1].blockId].block.previous == items[i].blockId
    ensures items[i + 1].height == items[i].height + 1
  {
    assert IsRangeItem(records, head, start + i, rb, rr, items[i]);
    assert IsRangeItem(records, head, start + (i + 1), rb, rr, items[i + 1]);
    var above := records[head].height - (start + i + 1);
    AncestorCompose(records, head, above, 1);
    var child := items[i + 1].blockId;
    assert Ancestor(records, child, 1) == Ancestor(records, records[child].block.previous, 0);
  }

  // ---- The service object ----------------------------------------------------

  class BlockStore {
    var records: Records
    var highest: Option<Topology>

    constructor ()
      ensures records == map[] && highest == None
    {
      records, highest := map[], None;
    }

    method Initialize()
      modifies this
      ensures records == old(records)
      ensures old(highest).Some? ==> highest == old(highest)
      ensures old(highest).None? ==> highest == Some(Topology(GENESIS_ID, 0, ""))
      ensures old(records) == map[] && old(highest).None? ==> WellIndexed(records) && HighestOk(records, highest)
    {
      if highest.None? {
        highest := Some(Topology(GENESIS_ID, 0, ""));
      }
    }

    /** The loop of get_ancestor_id_at_height; `jumps` counts the pointers followed. */
    method GetAncestorIdAtHeight(blockId: Id, target: nat) returns (r: Lookup, ghost jumps: nat)
      ensures r == AncestorAt(records, blockId, target, None)
      ensures blockId in records ==> jumps <= Jumps(target, records[blockId].height)
      ensures blockId in records && r.Found? ==> jumps == Jumps(target, records[blockId].height)
      ensures blockId in records && records[blockId].height > 0 ==> jumps <= 2 * Log2(records[blockId].height) + 1
    {
      var currentId := blockId;
      var expected: Option<nat> := None;
      jumps := 0;
      ghost var h0 := if blockId in records then records[blockId].height else 0;
      if h0 > 0 { LogarithmicLookup(target, h0); }
      while true
        invariant AncestorAt(records, blockId, target, None) == AncestorAt(records, currentId, target, expected)
        invariant expected.None? ==> currentId == blockId && jumps == 0
        invariant expected.Some? ==> blockId in records
        invariant expected.Some? ==> Jumps(target, h0) == jumps + Jumps(target, expected.value)
        decreases if expected.None? then 1 else 0, if expected.None? then 0 else expected.value
      {
        if currentId !in records {
          return Threw(BlockNotPresent), jumps;
        }
        var record := records[currentId];
        if expected.Some? && record.height != expected.value {
          return Threw(UnexpectedHeight), jumps;
        }
        if record.height == target {
          return Found(record.blockId), jumps;
        }
        var jump := GetPreviousHeightIndex(target, record.height);
        if jump.InvalidArgument? {
          return Threw(Error.InvalidArgument), jumps;
        }
        if jump.index >= |record.previousIds| {
          return Threw(UnexpectedHeight), jumps;
        }
        currentId := record.previousIds[jump.index];
        jumps := jumps + 1;
        if jump.height == target {
          return Found(currentId), jumps;
        }
        expected := Some(jump.height);
      }
    }

    method FillBlocks(startId: Id, count: nat, rb: bool, rr: bool) returns (items: seq<Item>)
      ensures items == Fill(records, startId, count, None, rb, rr)
    {
      items := [];
      var currentId := startId;
      var expected: Option<int> := None;
      var i := 0;
      while i < count && currentId != ""
        invariant 0 <= i <= count
        invariant Fill(records, startId, count, None, rb, rr)
               == items + Fill(records, currentId, count - i, expected, rb, rr)
      {
        if currentId !in records {
          return;
        }
        var record := records[currentId];
        if expected.Some? && record.height != expected.value {
          return;
        }
        ghost var before := items;
        items := items + [ItemOf(record, rb, rr)];
        currentId := if |record.previousIds| > 0 then record.previousIds[0] else "";
        expected := Some(record.height - 1);
        i := i + 1;
        Reassociate(before, [ItemOf(record, rb, rr)], Fill(records, currentId, count - i, expected, rb, rr));
      }
    }

    method GetBlocksByHeight(head: Id, start: nat, num: nat, rb: bool, rr: bool) returns (r: Response)
      ensures r == BlocksByHeight(records, head, start, num, rb, rr)
    {
      r := GetRange(head, start, if num <= MAX_BLOCK_REQUEST then num else MAX_BLOCK_REQUEST, rb, rr);
    }

    method GetRange(head: Id, start: nat, n: nat, rb: bool, rr: bool) returns (r: Response)
      ensures r == BlocksInRange(records, head, start, n, rb, rr)
    {
      if start == 0 || n == 0 {
        return Items([]);
      }
      var first, _ := GetAncestorIdAtHeight(head, start);
      if first.Threw? {
        return OnThrow(first.error);
      }
      r := GetOneBlock(first.id, rb, rr);
      if n > 1 {
        r := GetBlocksDownFrom(head, start + n - 1, n, rb, rr);
      }
    }

    method GetOneBlock(id: Id, rb: bool, rr: bool) returns (r: Response)
      ensures forall n :: n == 1 ==> r == Items(Fill(records, id, n, None, rb, rr))
    {
      var items := FillBlocks(id, 1, rb, rr);
      r := Items(items);
    }

    /** The part of get_blocks_by_height that runs for more than one block. */
    method GetBlocksDownFrom(head: Id, endHeight: nat, n: nat, rb: bool, rr: bool) returns (r: Response)
      ensures r == BlocksDownFrom(records, AncestorAt(records, head, endHeight, None), n, rb, rr)
    {
      var last, _ := GetAncestorIdAtHeight(head, endHeight);
      if last.Threw? {
        return OnThrow(last.error);
      }
      var items := FillBlocks(last.id, n, rb, rr);
      return Items(Upward(items));
    }

    /** The skip-list part of add_block: None when an ancestor lookup throws. */
    method BuildPointers(b: Block) returns (p: Option<seq<Id>>)
      ensures p == Pointers(records, b, PreviousHeights(b.height))
    {
      var heights := GetPreviousHeights(b.height);
      var pointers: seq<Id> := [];
      for i := 0 to |heights|
        invariant Pointers(records, b, heights[..i]) == Some(pointers)
      {
        var h := heights[i];
        assert heights[..i + 1][..i] == heights[..i];
        if h + 1 == b.height {
          pointers := pointers + [b.previous];
        } else {
          var found, _ := GetAncestorIdAtHeight(b.previous, h);
          if found.Threw? {
            PointersNone(records, b, heights, i);
            return None;
          }
          pointers := pointers + [found.id];
        }
      }
      assert heights[..|heights|] == heights;
      return Some(pointers);
    }

    method AddBlock(b: Block, receipt: Option<string>)
      modifies this
      ensures State(records, highest) == Step(old(State(records, highest)), Request(b, receipt))
      ensures AddEffect(old(records), b, receipt, NewPointers(old(records), b).None?, records)
      ensures old(WellIndexed(records)) ==> AddEffect(old(records), b, receipt, Rejected(old(records), b), records)
      ensures old(HighestOk(records, highest)) ==> HighestOk(records, highest)
      ensures old(WellIndexed(records)) && (b.id in old(records) || Extends(old(records), b)) ==>
        WellIndexed(records) && b.id in records
    {
      TakeRequest(b, receipt);
      StepFacts(old(State(records, highest)), Request(b, receipt));
    }

    method TakeRequest(b: Block, receipt: Option<string>)
      modifies this
      ensures State(records, highest) == Step(old(State(records, highest)), Request(b, receipt))
    {
      if b.id in records {
        return;
      }
      var pointers: seq<Id> := [];
      if b.height > 1 {
        var built := BuildPointers(b);
        if built.None? {
          return;
        }
        pointers := built.value;
      } else if b.height == 1 {
        pointers := [b.previous];
      }
      records := records[b.id := Record(b.id, b.height, b, receipt, pointers)];
      if highest.Some? && b.height > highest.value.height {
        highest := Some(Topology(b.id, b.height, b.previous));
      }
    }
  }

  /** What one request does to the store. */
  lemma {:induction false} StepFacts(s: State, q: Request)
    ensures AddEffect(s.records, q.block, q.receipt, NewPointers(s.records, q.block).None?, Step(s, q).records)
    ensures WellIndexed(s.records) ==> AddEffect(s.records, q.block, q.receipt, Rejected(s.records, q.block), Step(s, q).records)
    ensures HighestOk(s.records, s.highest) ==> HighestOk(Step(s, q).records, Step(s, q).highest)
    ensures WellIndexed(s.records) && (q.block.id in s.records || Extends(s.records, q.block)) ==>
      WellIndexed(Step(s, q).records) && q.block.id in Step(s, q).records
  {
    StoredHolds(s.records, q.block, q.receipt);
    if WellIndexed(s.records) { RejectedExactly(s.records, q.block); }
    if WellIndexed(s.records) && (q.block.id in s.records || Extends(s.records, q.block)) { StepKeepsIndex(s, q); }
  }
}
