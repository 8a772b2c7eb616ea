/**
  Replaying the state delta of a receipt.

  A receipt lists entries: puts (key and value) and removes (key only).  Its Merkle
  root is taken over the entries sorted by key; the sort is unstable, so the code
  may order entries with equal keys either way.  `Replay` is what applying the
  entries to an empty delta gives; `Emission` serializes a delta again.  Hashing and
  the Merkle tree are one function parameter, applied to the sorted pairs.
 */
module DeltaReplay {
  import opened Arithmetic
  import opened Options
  import opened Bytes
  import opened Listing
  import opened Sequences

  datatype Entry = Entry(key: Bytes, value: Option<Bytes>)

  type Pair = (Bytes, Bytes)

  type Merkle = seq<Pair> -> Bytes

  /** Pending values and tombstones; a key can be in both. */
  datatype Delta = Delta(values: map<Bytes, Bytes>, removes: set<Bytes>)

  // ---- Merkle roots over an unstable sort ------------------------------------

  function PairOf(e: Entry): Pair {
    (e.key, if e.value.Some? then e.value.value else [])
  }

  function PairsOf(entries: seq<Entry>): seq<Pair> {
    if entries == [] then [] else PairsOf(entries[..|entries| - 1]) + [PairOf(entries[|entries| - 1])]
  }

  /** Entry i hashes with its key and its value; a tombstone hashes like an empty value. */
  lemma {:induction false} PairsAt(entries: seq<Entry>, i: nat)
    requires i < |entries|
    ensures |PairsOf(entries)| == |entries| && PairsOf(entries)[i].0 == entries[i].key
    ensures PairsOf(entries)[i].1 == match entries[i].value case Some(v) => v case None => []
    decreases |entries|
  {
    var n := |entries| - 1;
    if i < n { PairsAt(entries[..n], i); } else if n > 0 { PairsAt(entries[..n], n - 1); } else { assert PairsOf(entries[..0]) == []; }
  }

  ghost predicate Sorted(ps: seq<Pair>) {
    forall i, j :: 0 <= i < j < |ps| ==> !Less(ps[j].0, ps[i].0)
  }

  /** `out` is a result std::sort may produce for `pairs`. */
  ghost predicate IsSortOf(out: seq<Pair>, pairs: seq<Pair>) {
    multiset(out) == multiset(pairs) && Sorted(out)
  }

  /** `root` is a result compute_delta_entries_merkle_root may return. */
  ghost predicate IsRoot(m: Merkle, entries: seq<Entry>, root: Bytes) {
    exists out :: IsSortOf(out, PairsOf(entries)) && root == m(out)
  }

  ghost predicate KeyDetermines(ps: seq<Pair>) {
    forall p, q :: p in ps && q in ps && p.0 == q.0 ==> p == q
  }

  lemma {:induction false} SortedHead(a: seq<Pair>, p: Pair)
    requires Sorted(a) && p in a
    ensures !Less(p.0, a[0].0)
  {
    var i :| 0 <= i < |a| && a[i] == p;
    LessTotal(p.0, p.0);
  }

  lemma {:induction false} TailMultiset(a: seq<Pair>)
    requires a != []
    ensures multiset(a[1..]) == multiset(a) - multiset{a[0]}
    ensures forall p :: p in a[1..] ==> p in a
  {
    assert a == [a[0]] + a[1..];
  }

  lemma {:induction false} SortedHeadsAgree(a: seq<Pair>, b: seq<Pair>)
    requires multiset(a) == multiset(b) && Sorted(a) && Sorted(b) && KeyDetermines(a) && a != [] && b != []
    ensures a[0] == b[0]
  {
    assert a[0] in multiset(b) && b[0] in multiset(a);
    SortedHead(a, b[0]);
    SortedHead(b, a[0]);
    LessTotal(a[0].0, b[0].0);
  }

  /** If equal keys mean equal pairs, sorting has only one possible result. */
  lemma {:induction false} SortUnique(a: seq<Pair>, b: seq<Pair>)
    requires multiset(a) == multiset(b) && Sorted(a) && Sorted(b) && KeyDetermines(a)
    ensures a == b
    decreases |a|
  {
    assert |a| == |multiset(a)| == |multiset(b)| == |b|;
    if a != [] {
      SortedHeadsAgree(a, b);
      TailMultiset(a);
      TailMultiset(b);
      SortUnique(a[1..], b[1..]);
      assert a == [a[0]] + a[1..] && b == [b[0]] + b[1..];
    }
  }

  // ---- Counting pairs --------------------------------------------------------

  /** How often pair p is emitted for a delta: once from the values, once from the
      tombstones (with the pending value of the key, if there is one). */
  function PairCount(d: Delta, p: Pair): nat {
    One(p.0 in d.values && d.values[p.0] == p.1) + One(p.0 in d.removes && TombstoneValue(d, p.0) == p.1)
  }

  function TombstoneValue(d: Delta, k: Bytes): Bytes {
    if k in d.values then d.values[k] else []
  }

  lemma {:induction false} PairsOfAppend(entries: seq<Entry>, e: Entry)
    ensures PairsOf(entries + [e]) == PairsOf(entries) + [PairOf(e)]
  {
    assert (entries + [e])[..|entries|] == entries;
  }

  lemma {:induction false} PairsOfConcat(a: seq<Entry>, b: seq<Entry>)
    ensures PairsOf(a + b) == PairsOf(a) + PairsOf(b)
    decreases |b|
  {
    if b == [] {
      assert a + b == a && PairsOf(a) + [] == PairsOf(a);
    } else {
      var front, last := b[..|b| - 1], b[|b| - 1];
      PairsOfConcat(a, front);
      Reassociate(a, front, [last]);
      assert b == front + [last];
      PairsOfAppend(a + front, last);
      Reassociate(PairsOf(a), PairsOf(front), [PairOf(last)]);
    }
  }

  // ---- Replaying and serializing ---------------------------------------------

  function ApplyEntry(d: Delta, e: Entry): Delta {
    match e.value
    case Some(v) => Delta(d.values[e.key := v], d.removes)
    case None => Delta(d.values - {e.key}, d.removes + {e.key})
  }

  function ReplayFrom(d: Delta, entries: seq<Entry>): Delta {
    if entries == [] then d
    else ApplyEntry(ReplayFrom(d, entries[..|entries| - 1]), entries[|entries| - 1])
  }

  const EMPTY: Delta := Delta(map[], {})

  function Replay(entries: seq<Entry>): Delta {
    ReplayFrom(EMPTY, entries)
  }

  /** Entry i is the last one for key k. */
  ghost predicate LastFor(entries: seq<Entry>, k: Bytes, i: nat)
    requires i < |entries|
  {
    entries[i].key == k && forall m :: i < m < |entries| ==> entries[m].key != k
  }

  ghost predicate IsRemove(entries: seq<Entry>, k: Bytes, i: nat)
    requires i < |entries|
  {
    entries[i].key == k && entries[i].value.None?
  }

  /** The last entry for k puts v. */
  ghost predicate LastPuts(entries: seq<Entry>, k: Bytes, v: Bytes) {
    exists i :: 0 <= i < |entries| && LastFor(entries, k, i) && entries[i].value == Some(v)
  }

  /** What replaying any entries leaves: a key is tombstoned exactly when some entry removes
      it, whatever is put later, and it has a pending value exactly when its last entry is a
      put, with that value. */
  lemma {:induction false} ReplayMeans(entries: seq<Entry>, k: Bytes)
    ensures k in Replay(entries).removes <==> exists i :: 0 <= i < |entries| && IsRemove(entries, k, i)
    ensures forall v :: (k in Replay(entries).values && Replay(entries).values[k] == v) <==> LastPuts(entries, k, v)
    decreases |entries|
  {
    if entries != [] {
      var front, e := entries[..|entries| - 1], entries[|entries| - 1];
      ReplayMeans(front, k);
      assert entries == front + [e];
      RemovesMore(front, e, k);
      forall v
        ensures LastPuts(entries, k, v) <==> if e.key == k then e.value == Some(v) else LastPuts(front, k, v)
      {
        LastPutsMore(front, e, k, v);
      }
    }
  }

  lemma {:induction false} RemovesMore(front: seq<Entry>, e: Entry, k: Bytes)
    ensures (exists i :: 0 <= i < |front| + 1 && IsRemove(front + [e], k, i)) <==>
      (exists i :: 0 <= i < |front| && IsRemove(front, k, i)) || (e.key == k && e.value.None?)
  {
    var entries := front + [e];
    forall i | 0 <= i < |front|
      ensures IsRemove(entries, k, i) <==> IsRemove(front, k, i)
    {
    }
    assert IsRemove(entries, k, |front|) <==> e.key == k && e.value.None?;
  }

  lemma {:induction false} LastPutsMore(front: seq<Entry>, e: Entry, k: Bytes, v: Bytes)
    ensures LastPuts(front + [e], k, v) <==> if e.key == k then e.value == Some(v) else LastPuts(front, k, v)
  {
    var entries := front + [e];
    if e.key == k {
      assert LastFor(entries, k, |front|);
    } else {
      forall i | 0 <= i < |front|
        ensures LastFor(entries, k, i) <==> LastFor(front, k, i)
      {
        assert LastFor(entries, k, i) ==> forall m :: i < m < |front| ==> entries[m] == front[m];
      }
    }
  }

  lemma {:induction false} ReplayAppend(d: Delta, entries: seq<Entry>, e: Entry)
    ensures ReplayFrom(d, entries + [e]) == ApplyEntry(ReplayFrom(d, entries), e)
  {
    assert (entries + [e])[..|entries|] == entries;
  }

  lemma {:induction false} ReplayConcat(d: Delta, a: seq<Entry>, b: seq<Entry>)
    ensures ReplayFrom(d, a + b) == ReplayFrom(ReplayFrom(d, a), b)
    decreases |b|
  {
    if b == [] {
      assert a + b == a;
    } else {
      var front, last := b[..|b| - 1], b[|b| - 1];
      ReplayConcat(d, a, front);
      assert a + b == (a + front) + [last];
      ReplayAppend(d, a + front, last);
    }
  }

  function Puts(d: Delta, ks: seq<Bytes>): seq<Entry>
    requires forall i :: 0 <= i < |ks| ==> ks[i] in d.values
  {
    if ks == [] then []
    else Puts(d, ks[..|ks| - 1]) + [Entry(ks[|ks| - 1], Some(d.values[ks[|ks| - 1]]))]
  }

  /** Tombstones; a key that also has a pending value carries it. */
  function Tombstones(d: Delta, ks: seq<Bytes>): seq<Entry> {
    if ks == [] then []
    else
      var k := ks[|ks| - 1];
      Tombstones(d, ks[..|ks| - 1]) + [Entry(k, if k in d.values then Some(d.values[k]) else None)]
  }

  /** The serialized form of a delta, for given iteration orders. */
  function Emission(d: Delta, vs: seq<Bytes>, rs: seq<Bytes>): seq<Entry>
    requires forall i :: 0 <= i < |vs| ==> vs[i] in d.values
  {
    Puts(d, vs) + Tombstones(d, rs)
  }

  ghost predicate IsEmission(d: Delta, vs: seq<Bytes>, rs: seq<Bytes>, e: seq<Entry>) {
    Lists(vs, d.values.Keys) && Lists(rs, d.removes) && e == Emission(d, vs, rs)
  }

  lemma {:induction false} PutsCount(d: Delta, ks: seq<Bytes>, S: set<Bytes>, p: Pair)
    requires Lists(ks, S) && S <= d.values.Keys
    ensures multiset(PairsOf(Puts(d, ks)))[p] == One(p.0 in S && d.values[p.0] == p.1)
    decreases |ks|
  {
    if ks != [] {
      var front, k := ks[..|ks| - 1], ks[|ks| - 1];
      ListsFront(ks, S);
      PutsCount(d, front, S - {k}, p);
      PairsOfAppend(Puts(d, front), Entry(k, Some(d.values[k])));
    }
  }

  lemma {:induction false} TombstonesCount(d: Delta, ks: seq<Bytes>, S: set<Bytes>, p: Pair)
    requires Lists(ks, S)
    ensures multiset(PairsOf(Tombstones(d, ks)))[p] == One(p.0 in S && TombstoneValue(d, p.0) == p.1)
    decreases |ks|
  {
    if ks != [] {
      var front, k := ks[..|ks| - 1], ks[|ks| - 1];
      ListsFront(ks, S);
      TombstonesCount(d, front, S - {k}, p);
      PairsOfAppend(Tombstones(d, front), Entry(k, if k in d.values then Some(d.values[k]) else None));
    }
  }

  /** Whatever the iteration order, a delta is serialized to the same pairs. */
  lemma {:induction false} EmissionCount(d: Delta, vs: seq<Bytes>, rs: seq<Bytes>, e: seq<Entry>, p: Pair)
    requires IsEmission(d, vs, rs, e)
    ensures multiset(PairsOf(e))[p] == PairCount(d, p)
  {
    PutsCount(d, vs, d.values.Keys, p);
    TombstonesCount(d, rs, d.removes, p);
    PairsOfConcat(Puts(d, vs), Tombstones(d, rs));
  }

  lemma {:induction false} EmissionKeyDetermines(d: Delta, vs: seq<Bytes>, rs: seq<Bytes>, e: seq<Entry>)
    requires IsEmission(d, vs, rs, e)
    ensures KeyDetermines(PairsOf(e))
  {
    forall p, q | p in PairsOf(e) && q in PairsOf(e) && p.0 == q.0
      ensures p == q
    {
      EmissionCount(d, vs, rs, e, p);
      EmissionCount(d, vs, rs, e, q);
      assert multiset(PairsOf(e))[p] > 0 && multiset(PairsOf(e))[q] > 0;
    }
  }

  // ---- Theorem: the simulated root is unique ---------------------------------

  /** `root` is a result the full simulation may compute for the entries. */
  ghost predicate IsSimulatedRoot(m: Merkle, entries: seq<Entry>, root: Bytes) {
    exists vs, rs, e :: IsEmission(Replay(entries), vs, rs, e) && IsRoot(m, e, root)
  }

  lemma {:induction false} RootOfEmissionUnique(m: Merkle, d: Delta,
      vs: seq<Bytes>, rs: seq<Bytes>, e: seq<Entry>, root: Bytes,
      vs': seq<Bytes>, rs': seq<Bytes>, e': seq<Entry>, root': Bytes)
    requires IsEmission(d, vs, rs, e) && IsRoot(m, e, root)
    requires IsEmission(d, vs', rs', e') && IsRoot(m, e', root')
    ensures root == root'
  {
    var out :| IsSortOf(out, PairsOf(e)) && root == m(out);
    var out' :| IsSortOf(out', PairsOf(e')) && root' == m(out');
    SamePairs(d, vs, rs, e, vs', rs', e');
    EmissionKeyDetermines(d, vs, rs, e);
    KeyDeterminesPermuted(PairsOf(e), out);
    SortUnique(out, out');
  }

  lemma {:induction false} SamePairs(d: Delta,
      vs: seq<Bytes>, rs: seq<Bytes>, e: seq<Entry>, vs': seq<Bytes>, rs': seq<Bytes>, e': seq<Entry>)
    requires IsEmission(d, vs, rs, e) && IsEmission(d, vs', rs', e')
    ensures multiset(PairsOf(e)) == multiset(PairsOf(e'))
  {
    forall p: Pair
      ensures multiset(PairsOf(e))[p] == multiset(PairsOf(e'))[p]
    {
      EmissionCount(d, vs, rs, e, p);
      EmissionCount(d, vs', rs', e', p);
    }
  }

  lemma {:induction false} KeyDeterminesPermuted(a: seq<Pair>, b: seq<Pair>)
    requires KeyDetermines(a) && multiset(a) == multiset(b)
    ensures KeyDetermines(b)
  {
    forall p, q | p in b && q in b && p.0 == q.0
      ensures p == q
    {
      assert p in multiset(a) && q in multiset(a);
    }
  }

  /** No tie-breaking of the sort and no iteration order changes the simulated root. */
  lemma {:induction false} SimulatedRootUnique(m: Merkle, entries: seq<Entry>, r: Bytes, r': Bytes)
    requires IsSimulatedRoot(m, entries, r) && IsSimulatedRoot(m, entries, r')
    ensures r == r'
  {
    var vs, rs, e :| IsEmission(Replay(entries), vs, rs, e) && IsRoot(m, e, r);
    var vs', rs', e' :| IsEmission(Replay(entries), vs', rs', e') && IsRoot(m, e', r');
    RootOfEmissionUnique(m, Replay(entries), vs, rs, e, r, vs', rs', e', r');
  }

  /** Some sort of the pairs exists. */
  lemma {:induction false} SortExists(pairs: seq<Pair>) returns (out: seq<Pair>)
    ensures IsSortOf(out, pairs)
    decreases |pairs|
  {
    if pairs == [] {
      out := [];
    } else {
      var front, last := pairs[..|pairs| - 1], pairs[|pairs| - 1];
      var sorted := SortExists(front);
      out := InsertExists(sorted, last);
      assert pairs == front + [last];
    }
  }

  lemma {:induction false} InsertExists(sorted: seq<Pair>, p: Pair) returns (out: seq<Pair>)
    requires Sorted(sorted)
    ensures Sorted(out) && multiset(out) == multiset(sorted) + multiset{p}
  {
    var j := |sorted|;
    while j > 0 && Less(p.0, sorted[j - 1].0)
      invariant 0 <= j <= |sorted|
      invariant forall k :: j <= k < |sorted| ==> Less(p.0, sorted[k].0)
    {
      j := j - 1;
    }
    InsertSorted(sorted, p, j);
    out := sorted[..j] + [p] + sorted[j..];
    assert sorted == sorted[..j] + sorted[j..];
  }

  lemma {:induction false} SimulationExists(m: Merkle, entries: seq<Entry>) returns (root: Bytes)
    ensures IsSimulatedRoot(m, entries, root)
  {
    var d := Replay(entries);
    var vs := ListingExists(d.values.Keys);
    var rs := ListingExists(d.removes);
    var e := Emission(d, vs, rs);
    var out := SortExists(PairsOf(e));
    root := m(out);
    assert IsEmission(d, vs, rs, e) && IsRoot(m, e, root);
  }

  /** The root that the simulation computes. */
  ghost function SimulatedRoot(m: Merkle, entries: seq<Entry>): (root: Bytes)
    ensures IsSimulatedRoot(m, entries, root)
  {
    assert exists root :: IsSimulatedRoot(m, entries, root) by { var root := SimulationExists(m, entries); }
    var root :| IsSimulatedRoot(m, entries, root);
    root
  }

  // ---- Theorem: without duplicate keys the shortcut is exact ------------------

  ghost predicate DistinctKeys(entries: seq<Entry>) {
    forall i, j :: 0 <= i < j < |entries| ==> entries[i].key != entries[j].key
  }

  lemma {:induction false} ReplayKeys(entries: seq<Entry>, k: Bytes)
    requires forall i :: 0 <= i < |entries| ==> entries[i].key != k
    ensures k !in Replay(entries).values && k !in Replay(entries).removes
    decreases |entries|
  {
    if entries != [] { ReplayKeys(entries[..|entries| - 1], k); }
  }

  lemma {:induction false} DistinctReplayCount(entries: seq<Entry>, p: Pair)
    requires DistinctKeys(entries)
    ensures multiset(PairsOf(entries))[p] == PairCount(Replay(entries), p)
    decreases |entries|
  {
    if entries != [] {
      var front, last := entries[..|entries| - 1], entries[|entries| - 1];
      DistinctReplayCount(front, p);
      ReplayKeys(front, last.key);
    }
  }

  /** With distinct keys, sorting the entries directly is one way to run the simulation. */
  lemma {:induction false} ShortcutIsSimulated(m: Merkle, entries: seq<Entry>, root: Bytes)
    requires DistinctKeys(entries) && IsRoot(m, entries, root)
    ensures IsSimulatedRoot(m, entries, root)
  {
    var d := Replay(entries);
    var vs := ListingExists(d.values.Keys);
    var rs := ListingExists(d.removes);
    var e := Emission(d, vs, rs);
    var out :| IsSortOf(out, PairsOf(entries)) && root == m(out);
    forall p: Pair
      ensures multiset(out)[p] == multiset(PairsOf(e))[p]
    {
      DistinctReplayCount(entries, p);
      EmissionCount(d, vs, rs, e, p);
    }
    assert IsEmission(d, vs, rs, e) && IsSortOf(out, PairsOf(e));
  }

  lemma {:induction false} ShortcutIsExact(m: Merkle, entries: seq<Entry>, shortcut: Bytes, simulated: Bytes)
    requires DistinctKeys(entries)
    requires IsRoot(m, entries, shortcut) && IsSimulatedRoot(m, entries, simulated)
    ensures shortcut == simulated
  {
    ShortcutIsSimulated(m, entries, shortcut);
    SimulatedRootUnique(m, entries, shortcut, simulated);
  }

  // ---- Theorem: serializing and replaying normalizes the delta ----------------

  lemma {:induction false} ReplayPuts(d: Delta, ks: seq<Bytes>, S: set<Bytes>)
    requires Lists(ks, S) && S <= d.values.Keys
    ensures Replay(Puts(d, ks)).removes == {}
    ensures Replay(Puts(d, ks)).values == map k | k in S :: d.values[k]
    decreases |ks|
  {
    if ks != [] {
      var front, k := ks[..|ks| - 1], ks[|ks| - 1];
      ListsFront(ks, S);
      ReplayPuts(d, front, S - {k});
      ReplayAppend(EMPTY, Puts(d, front), Entry(k, Some(d.values[k])));
    }
  }

  lemma {:induction false} ReplayTombstones(d: Delta, ks: seq<Bytes>, S: set<Bytes>)
    requires Lists(ks, S)
    ensures ReplayFrom(Delta(d.values, {}), Tombstones(d, ks)) == Delta(d.values, S - d.values.Keys)
    decreases |ks|
  {
    var start := Delta(d.values, {});
    if ks == [] {
      assert S == {};
    } else {
      var front, k := ks[..|ks| - 1], ks[|ks| - 1];
      ListsFront(ks, S);
      ReplayTombstones(d, front, S - {k});
      ReplayAppend(start, Tombstones(d, front), Entry(k, if k in d.values then Some(d.values[k]) else None));
      OneTombstone(d, S, k);
    }
  }

  /** The tombstone entry of k adds k to the removes unless k has a value. */
  lemma {:induction false} OneTombstone(d: Delta, S: set<Bytes>, k: Bytes)
    requires k in S
    ensures ApplyEntry(Delta(d.values, S - {k} - d.values.Keys), Entry(k, if k in d.values then Some(d.values[k]) else None))
      == Delta(d.values, S - d.values.Keys)
  {
    if k in d.values {
      assert d.values[k := d.values[k]] == d.values;
      assert S - {k} - d.values.Keys == S - d.values.Keys;
    } else {
      assert d.values - {k} == d.values;
      assert (S - {k} - d.values.Keys) + {k} == S - d.values.Keys;
    }
  }

  function Normalized(d: Delta): Delta {
    Delta(d.values, d.removes - d.values.Keys)
  }

  /** Replaying a serialized delta (V, R) gives (V, R minus the keys of V). */
  lemma {:induction false} ReplayOfEmission(d: Delta, vs: seq<Bytes>, rs: seq<Bytes>, e: seq<Entry>)
    requires IsEmission(d, vs, rs, e)
    ensures Replay(e) == Normalized(d)
  {
    ReplayConcat(EMPTY, Puts(d, vs), Tombstones(d, rs));
    ReplayPuts(d, vs, d.values.Keys);
    assert (map k | k in d.values.Keys :: d.values[k]) == d.values;
    ReplayTombstones(d, rs, d.removes);
  }

  /** That is a fixed point. */
  lemma {:induction false} NormalizedIsFixed(d: Delta, vs: seq<Bytes>, rs: seq<Bytes>, e: seq<Entry>)
    requires IsEmission(Normalized(d), vs, rs, e)
    ensures Replay(e) == Normalized(d)
  {
    ReplayOfEmission(Normalized(d), vs, rs, e);
    assert (d.removes - d.values.Keys) - d.values.Keys == d.removes - d.values.Keys;
  }

  lemma {:induction false} EmissionKeys(d: Delta, vs: seq<Bytes>, rs: seq<Bytes>)
    requires forall i :: 0 <= i < |vs| ==> vs[i] in d.values
    ensures |Puts(d, vs)| == |vs| && forall i :: 0 <= i < |vs| ==> Puts(d, vs)[i].key == vs[i]
    ensures |Tombstones(d, rs)| == |rs| && forall i :: 0 <= i < |rs| ==> Tombstones(d, rs)[i].key == rs[i]
    decreases |vs| + |rs|
  {
    if vs != [] { EmissionKeys(d, vs[..|vs| - 1], []); }
    if rs != [] { EmissionKeys(d, [], rs[..|rs| - 1]); }
  }

  /** A receipt repeats a key exactly when the delta it was written from holds a
      pending value and a tombstone for one key. */
  lemma {:induction false} DuplicatesComeFromRewrites(d: Delta, vs: seq<Bytes>, rs: seq<Bytes>, e: seq<Entry>)
    requires IsEmission(d, vs, rs, e)
    ensures DistinctKeys(e) <==> d.values.Keys !! d.removes
  {
    EmissionKeys(d, vs, rs);
    assert forall i :: 0 <= i < |e| ==> e[i].key == (vs + rs)[i];
    if k :| k in d.values.Keys && k in d.removes {
      var i :| 0 <= i < |vs| && vs[i] == k;
      var j :| 0 <= j < |rs| && rs[j] == k;
      assert e[i].key == e[|vs| + j].key;
    }
    if d.values.Keys !! d.removes {
      forall i, j | 0 <= i < j < |e|
        ensures e[i].key != e[j].key
      {
        if i < |vs| <= j { assert vs[i] in d.values.Keys && rs[j - |vs|] in d.removes; }
      }
    }
  }

  /** The effect of a delta on a state. */
  function Effect(state: map<Bytes, Bytes>, d: Delta): map<Bytes, Bytes> {
    (state - d.removes) + d.values
  }

  lemma {:induction false} NormalizedSameEffect(state: map<Bytes, Bytes>, d: Delta)
    ensures Effect(state, Normalized(d)) == Effect(state, d)
  {
    var a, b := Effect(state, Normalized(d)), Effect(state, d);
    assert a.Keys == b.Keys;
    forall k | k in a.Keys
      ensures a[k] == b[k]
    {
    }
  }

  // ---- The code --------------------------------------------------------------

  /** std::sort by key; an insertion sort stands in for it. */
  method SortByKey(pairs: seq<Pair>) returns (out: seq<Pair>)
    ensures IsSortOf(out, pairs)
  {
    out := [];
    for i := 0 to |pairs|
      invariant Sorted(out) && multiset(out) == multiset(pairs[..i])
    {
      out := Insert(out, pairs[i]);
      assert pairs[..i + 1] == pairs[..i] + [pairs[i]];
    }
    assert pairs[..|pairs|] == pairs;
  }

  method Insert(sorted: seq<Pair>, p: Pair) returns (out: seq<Pair>)
    requires Sorted(sorted)
    ensures Sorted(out) && multiset(out) == multiset(sorted) + multiset{p}
  {
    var j := |sorted|;
    while j > 0 && Less(p.0, sorted[j - 1].0)
      invariant 0 <= j <= |sorted|
      invariant forall k :: j <= k < |sorted| ==> Less(p.0, sorted[k].0)
    {
      j := j - 1;
    }
    InsertSorted(sorted, p, j);
    out := sorted[..j] + [p] + sorted[j..];
    assert sorted == sorted[..j] + sorted[j..];
  }

  lemma {:induction false} InsertSorted(s: seq<Pair>, p: Pair, j: nat)
    requires Sorted(s) && j <= |s|
    requires forall k :: j <= k < |s| ==> Less(p.0, s[k].0)
    requires j > 0 ==> !Less(p.0, s[j - 1].0)
    ensures Sorted(s[..j] + [p] + s[j..])
  {
    var out := s[..j] + [p] + s[j..];
    forall a, b | 0 <= a < b < |out|
      ensures !Less(out[b].0, out[a].0)
    {
      if a < j && b == j {
        NotLessBelow(p.0, s[j - 1].0, s[a].0, a == j - 1 || !Less(s[j - 1].0, s[a].0));
      } else if a == j {
        LessTotal(p.0, s[b - 1].0);
      }
    }
  }

  lemma {:induction false} NotLessBelow(p: Bytes, x: Bytes, y: Bytes, ordered: bool)
    requires !Less(p, x) && ordered && (ordered ==> x == y || !Less(x, y))
    ensures !Less(p, y)
  {
    LessTotal(p, x);
    LessTotal(x, y);
    LessTotal(p, y);
    if Less(p, y) {
      if Less(x, p) { LessTransitive(x, p, y); }
    }
  }

  /** compute_delta_entries_merkle_root. */
  method ComputeRoot(m: Merkle, entries: seq<Entry>) returns (root: Bytes)
    ensures IsRoot(m, entries, root)
  {
    var pairs: seq<Pair> := [];
    for i := 0 to |entries|
      invariant pairs == PairsOf(entries[..i])
    {
      pairs := pairs + [PairOf(entries[i])];
      assert entries[..i + 1][..i] == entries[..i];
    }
    assert entries[..|entries|] == entries;
    var out := SortByKey(pairs);
    root := m(out);
  }

  function KeySet(entries: seq<Entry>): set<Bytes> {
    if entries == [] then {} else KeySet(entries[..|entries| - 1]) + {entries[|entries| - 1].key}
  }

  function DuplicateKeys(entries: seq<Entry>): set<Bytes> {
    if entries == [] then {}
    else
      var front, k := entries[..|entries| - 1], entries[|entries| - 1].key;
      DuplicateKeys(front) + (if k in KeySet(front) then {k} else {})
  }

  lemma {:induction false} KeySetMembers(entries: seq<Entry>, k: Bytes)
    ensures k in KeySet(entries) <==> exists i :: 0 <= i < |entries| && entries[i].key == k
    decreases |entries|
  {
    if entries != [] {
      var front := entries[..|entries| - 1];
      KeySetMembers(front, k);
      if i :| 0 <= i < |front| && front[i].key == k { assert entries[i].key == k; }
      if i :| 0 <= i < |entries| && entries[i].key == k {
        if i < |front| { assert front[i].key == k; }
      }
    }
  }

  /** The keys counted as duplicate are those that occur at two positions. */
  lemma {:induction false} DuplicateKeysMembers(entries: seq<Entry>, k: Bytes)
    ensures k in DuplicateKeys(entries) <==>
      exists i, j :: 0 <= i < j < |entries| && entries[i].key == k && entries[j].key == k
    decreases |entries|
  {
    if entries != [] {
      var front, n := entries[..|entries| - 1], |entries| - 1;
      DuplicateKeysMembers(front, k);
      KeySetMembers(front, k);
      if i, j :| 0 <= i < j < |front| && front[i].key == k && front[j].key == k {
        assert entries[i].key == k && entries[j].key == k;
      }
      if entries[n].key == k && k in KeySet(front) {
        var i :| 0 <= i < |front| && front[i].key == k;
        assert entries[i].key == k && entries[n].key == k;
      }
      if i, j :| 0 <= i < j < |entries| && entries[i].key == k && entries[j].key == k {
        assert front[i].key == k;
        if j < n { assert front[j].key == k; }
      }
    }
  }

  lemma {:induction false} NoDuplicatesIsDistinct(entries: seq<Entry>)
    ensures DuplicateKeys(entries) == {} <==> DistinctKeys(entries)
  {
    if DuplicateKeys(entries) == {} {
      forall i, j | 0 <= i < j < |entries|
        ensures entries[i].key != entries[j].key
      {
        DuplicateKeysMembers(entries, entries[i].key);
      }
    } else {
      var k :| k in DuplicateKeys(entries);
      DuplicateKeysMembers(entries, k);
    }
  }

  /** The duplicate census: keys that occur more than once, and surplus entries. */
  method FindDuplicates(entries: seq<Entry>) returns (duplicates: set<Bytes>, surplus: nat)
    ensures duplicates == DuplicateKeys(entries)
    ensures surplus == |entries| - |KeySet(entries)|
  {
    var seen: set<Bytes> := {};
    duplicates, surplus := {}, 0;
    for i := 0 to |entries|
      invariant seen == KeySet(entries[..i])
      invariant duplicates == DuplicateKeys(entries[..i])
      invariant surplus == i - |seen|
    {
      var k := entries[i].key;
      assert entries[..i + 1][..i] == entries[..i];
      if k in seen {
        duplicates := duplicates + {k};
        surplus := surplus + 1;
        assert seen + {k} == seen;
      }
      seen := seen + {k};
    }
    assert entries[..|entries|] == entries;
  }

  /** The full simulation. */
  method Simulate(m: Merkle, entries: seq<Entry>) returns (root: Bytes)
    ensures IsSimulatedRoot(m, entries, root)
  {
    var d := EMPTY;
    for i := 0 to |entries|
      invariant d == Replay(entries[..i])
    {
      d := ApplyEntry(d, entries[i]);
      assert entries[..i + 1][..i] == entries[..i];
    }
    assert entries[..|entries|] == entries;
    var vs := ListSet(d.values.Keys);
    var rs := ListSet(d.removes);
    var e := Emission(d, vs, rs);
    assert IsEmission(d, vs, rs, e);
    root := ComputeRoot(m, e);
  }

  datatype Analysis = Analysis(root: Bytes, duplicateKeys: nat, duplicateEntries: nat)

  /** analyze_replayed_delta_entries: whichever way it takes, the result is the simulated
      root, unless the shortcut is handed a wrong serialized root. */
  method AnalyzeReplayed(m: Merkle, entries: seq<Entry>, serializedRoot: Option<Bytes>) returns (a: Analysis)
    ensures serializedRoot.None? || IsRoot(m, entries, serializedRoot.value) || !DistinctKeys(entries) ==> IsSimulatedRoot(m, entries, a.root)
    ensures a.duplicateKeys == 0 <==> DistinctKeys(entries)
    ensures a.duplicateKeys == |DuplicateKeys(entries)|
    ensures a.duplicateEntries == if DistinctKeys(entries) then 0 else |entries| - |KeySet(entries)|
    ensures serializedRoot.Some? && a.duplicateKeys == 0 ==> a.root == serializedRoot.value
  {
    var duplicates, surplus := FindDuplicates(entries);
    NoDuplicatesIsDistinct(entries);
    if duplicates == {} {
      var root;
      if serializedRoot.Some? {
        root := serializedRoot.value;
      } else {
        root := ComputeRoot(m, entries);
      }
      if IsRoot(m, entries, root) { ShortcutIsSimulated(m, entries, root); }
      return Analysis(root, 0, 0);
    }
    var root := Simulate(m, entries);
    assert |duplicates| > 0;
    return Analysis(root, |duplicates|, surplus);
  }
}
