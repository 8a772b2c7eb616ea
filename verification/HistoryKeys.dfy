/**
  The keys of the account-history index and what iterating over them finds
  (src/account_history/account_history.cpp).  Record keys are an address followed by a
  big-endian number of w bytes; the code has w = 8.
 */
module HistoryKeys {
  import opened Bytes
  import opened Listing

  function RecordKey(a: Bytes, w: nat, i: nat): Bytes {
    a + BigEndian(i, w)
  }

  /** "meta:" */
  const META: Bytes := [109, 101, 116, 97, 58]

  function MetaKey(a: Bytes): Bytes {
    META + a
  }

  /** The key does not start with the address. */
  predicate Outside(k: Bytes, a: Bytes) {
    !(a <= k)
  }

  /** The keys of the two addresses do not mix: neither address starts with the other,
      nor does a counter key start with an address. */
  predicate Apart(a: Bytes, b: Bytes) {
    && (a != b ==> Outside(a, b) && Outside(b, a))
    && Outside(MetaKey(a), b) && Outside(MetaKey(b), a)
  }

  /** Addresses as the chain makes them: one length, and told apart from "meta:". */
  predicate AddressOk(a: Bytes, length: nat) {
    |a| == length && Outside(META, a) && Outside(a, META)
  }

  lemma {:induction false} OneLengthIsApart(a: Bytes, b: Bytes, length: nat)
    requires AddressOk(a, length) && AddressOk(b, length)
    ensures Apart(a, b)
  {
    MetaOutside(a, b, length);
    MetaOutside(b, a, length);
  }

  // ---- Order -----------------------------------------------------------------

  lemma {:induction false} RecordOrder(a: Bytes, w: nat, i: nat, j: nat)
    requires i < Pow256(w) && j < Pow256(w)
    ensures Less(RecordKey(a, w, i), RecordKey(a, w, j)) <==> i < j
  {
    LessAfterPrefix(a, BigEndian(i, w), BigEndian(j, w));
    BigEndianOrder(i, j, w);
  }

  lemma {:induction false} RecordDistinct(a: Bytes, w: nat, i: nat, j: nat)
    requires i < Pow256(w) && j < Pow256(w) && RecordKey(a, w, i) == RecordKey(a, w, j)
    ensures i == j
  {
    RecordOrder(a, w, i, j);
    RecordOrder(a, w, j, i);
    LessTotal(RecordKey(a, w, i), RecordKey(a, w, j));
  }

  /** A key outside a prefix compares alike with everything under the prefix. */
  lemma {:induction false} OutsideCompares(k: Bytes, a: Bytes, x: Bytes, y: Bytes)
    requires Outside(k, a)
    ensures Less(k, a + x) <==> Less(k, a + y)
    ensures Less(k, a + x) <==> !Less(a + y, k)
    decreases |a|
  {
    if k != [] && k[0] == a[0] {
      OutsideTail(k, a);
      OutsideCompares(k[1..], a[1..], x, y);
    }
    assert (a + x)[1..] == a[1..] + x && (a + y)[1..] == a[1..] + y;
  }

  lemma {:induction false} OutsideTail(k: Bytes, a: Bytes)
    requires Outside(k, a) && k != [] && k[0] == a[0]
    ensures Outside(k[1..], a[1..])
  {
    assert k == [k[0]] + k[1..] && a == [a[0]] + a[1..];
  }

  lemma {:induction false} OtherRecordOutside(a: Bytes, b: Bytes, w: nat, j: nat)
    requires Apart(a, b) && a != b
    ensures Outside(RecordKey(b, w, j), a)
  {
    var k := RecordKey(b, w, j);
    assert |b| <= |a| <= |k| ==> k[..|a|][..|b|] == b;
    assert |a| <= |b| ==> k[..|a|] == b[..|a|];
  }

  lemma {:induction false} MetaOutside(a: Bytes, b: Bytes, length: nat)
    requires AddressOk(a, length)
    ensures Outside(MetaKey(b), a)
  {
    var k := MetaKey(b);
    assert k[..|META|] == META;
    assert |a| <= |META| ==> k[..|a|] == META[..|a|];
    assert |META| <= |a| <= |k| ==> k[..|a|][..|META|] == META;
    assert |k| <= |a| ==> a[..|k|][..|META|] == a[..|META|];
  }

  // ---- The keys around one address -------------------------------------------

  ghost predicate IsRecord(k: Bytes, a: Bytes, w: nat, n: nat) {
    exists i :: 0 <= i < n && k == RecordKey(a, w, i)
  }

  /** Exactly the first n record keys of a are present, and nothing else under a. */
  ghost predicate Around(keys: set<Bytes>, a: Bytes, w: nat, n: nat) {
    && n < Pow256(w)
    && (forall i :: 0 <= i < n ==> RecordKey(a, w, i) in keys)
    && (forall k :: k in keys ==> Outside(k, a) || IsRecord(k, a, w, n))
  }

  /** What an ordered iterator runs through: every key once, ascending. */
  ghost predicate Iterates(ks: seq<Bytes>, keys: set<Bytes>) {
    && Ascending(ks) && (forall i :: 0 <= i < |ks| ==> KeyAt(ks, keys, i))
    && forall k {:trigger Has(ks, k)} :: k in keys ==> Has(ks, k)
  }

  ghost predicate KeyAt(ks: seq<Bytes>, keys: set<Bytes>, i: nat)
    requires i < |ks|
  {
    ks[i] in keys
  }

  ghost predicate Has(ks: seq<Bytes>, k: Bytes) {
    exists i :: 0 <= i < |ks| && ks[i] == k
  }

  method Iterate(keys: set<Bytes>) returns (ks: seq<Bytes>)
    ensures Iterates(ks, keys)
  {
    ks := SortSet(keys);
    forall i | 0 <= i < |ks|
      ensures KeyAt(ks, keys, i)
    {
      assert ks[i] in keys;
    }
    forall k | k in keys
      ensures Has(ks, k)
    {
      assert k in ks;
    }
  }

  /** p is where an iterator placed by Seek(key) stands. */
  ghost predicate IsSeek(ks: seq<Bytes>, key: Bytes, p: nat) {
    p <= |ks| && forall i :: 0 <= i < |ks| ==> (IsBelow(ks, key, i) <==> i < p)
  }

  ghost predicate IsBelow(ks: seq<Bytes>, key: Bytes, i: nat)
    requires i < |ks|
  {
    Less(ks[i], key)
  }

  /** p is one past where an iterator placed by SeekForPrev(key) stands. */
  ghost predicate IsSeekForPrev(ks: seq<Bytes>, key: Bytes, p: nat) {
    p <= |ks| && forall i :: 0 <= i < |ks| ==> (IsAbove(ks, key, i) <==> p <= i)
  }

  ghost predicate IsAbove(ks: seq<Bytes>, key: Bytes, i: nat)
    requires i < |ks|
  {
    Less(key, ks[i])
  }

  /** How one key of the index compares with the record keys of a. */
  lemma {:induction false} Compare(keys: set<Bytes>, a: Bytes, w: nat, n: nat, k: Bytes, s: nat) returns (j: nat)
    requires Around(keys, a, w, n) && k in keys && s < Pow256(w)
    ensures Outside(k, a) ==> (Less(k, RecordKey(a, w, s)) <==> !Less(RecordKey(a, w, s), k)) && k != RecordKey(a, w, s)
    ensures !Outside(k, a) ==> j < n && k == RecordKey(a, w, j)
    ensures !Outside(k, a) ==> (Less(k, RecordKey(a, w, s)) <==> j < s) && (Less(RecordKey(a, w, s), k) <==> s < j)
  {
    j := 0;
    if Outside(k, a) {
      OutsideCompares(k, a, BigEndian(s, w), BigEndian(s, w));
      LessTotal(k, k);
    } else {
      assert IsRecord(k, a, w, n);
      j :| 0 <= j < n && k == RecordKey(a, w, j);
      RecordOrder(a, w, j, s);
      RecordOrder(a, w, s, j);
    }
  }

  /** Moving the seek key within the records of a moves past exactly the records between. */
  lemma {:induction false} OutsideAgrees(k: Bytes, a: Bytes, w: nat, s: nat, t: nat)
    requires Outside(k, a)
    ensures Less(k, RecordKey(a, w, s)) <==> Less(k, RecordKey(a, w, t))
  {
    OutsideCompares(k, a, BigEndian(s, w), BigEndian(t, w));
  }

  lemma {:induction false} SeekAt(ks: seq<Bytes>, keys: set<Bytes>, a: Bytes, w: nat, n: nat, s: nat, p: nat)
    requires Iterates(ks, keys) && Around(keys, a, w, n) && s < n
    requires IsSeek(ks, RecordKey(a, w, s), p)
    ensures p < |ks| && ks[p] == RecordKey(a, w, s)
  {
    var key := RecordKey(a, w, s);
    assert Has(ks, key);
    var i :| 0 <= i < |ks| && ks[i] == key;
    LessTotal(key, key);
    assert !IsBelow(ks, key, i);
    assert !IsBelow(ks, key, p);
    assert p < i ==> Precedes(ks, p, i);
  }

  lemma {:induction false} SeekNext(ks: seq<Bytes>, keys: set<Bytes>, a: Bytes, w: nat, n: nat, s: nat, p: nat)
    requires Iterates(ks, keys) && Around(keys, a, w, n) && s < n
    requires IsSeek(ks, RecordKey(a, w, s), p)
    ensures p < |ks| && ks[p] == RecordKey(a, w, s) && IsSeek(ks, RecordKey(a, w, s + 1), p + 1)
  {
    SeekAt(ks, keys, a, w, n, s, p);
    var next := RecordKey(a, w, s + 1);
    forall i | 0 <= i < |ks|
      ensures IsBelow(ks, next, i) <==> i < p + 1
    {
      assert KeyAt(ks, keys, i);
      assert IsBelow(ks, RecordKey(a, w, s), i) <==> i < p;
      var j := Compare(keys, a, w, n, ks[i], s);
      var j' := Compare(keys, a, w, n, ks[i], s + 1);
      if Outside(ks[i], a) {
        OutsideAgrees(ks[i], a, w, s, s + 1);
        Distinguish(ks, a, w, s, i, p);
      } else {
        RecordDistinct(a, w, j, j');
        SamePlace(ks, a, w, s, i, p, j);
      }
    }
  }

  lemma {:induction false} Distinguish(ks: seq<Bytes>, a: Bytes, w: nat, s: nat, i: nat, p: nat)
    requires p < |ks| && ks[p] == RecordKey(a, w, s) && i < |ks| && Outside(ks[i], a)
    ensures i != p
  {
    assert RecordKey(a, w, s)[..|a|] == a;
  }

  lemma {:induction false} SamePlace(ks: seq<Bytes>, a: Bytes, w: nat, s: nat, i: nat, p: nat, j: nat)
    requires Ascending(ks) && p < |ks| && ks[p] == RecordKey(a, w, s) && i < |ks| && ks[i] == RecordKey(a, w, j)
    requires j < Pow256(w) && s < Pow256(w)
    ensures i == p <==> j == s
  {
    if i == p { RecordDistinct(a, w, j, s); }
    LessTotal(ks[p], ks[p]);
    assert i < p ==> Precedes(ks, i, p);
    assert p < i ==> Precedes(ks, p, i);
  }

  /** i records further, the iterator stands i keys further. */
  lemma {:induction false} SeekForward(ks: seq<Bytes>, keys: set<Bytes>, a: Bytes, w: nat, n: nat, s: nat, p: nat, i: nat)
    requires Iterates(ks, keys) && Around(keys, a, w, n)
    requires IsSeek(ks, RecordKey(a, w, s), p) && (i > 0 ==> s + i <= n)
    ensures IsSeek(ks, RecordKey(a, w, s + i), p + i)
    ensures i > 0 ==> ks[p + i - 1] == RecordKey(a, w, s + i - 1)
    decreases i
  {
    if i > 0 {
      var t, q := s + (i - 1), p + (i - 1);
      SeekForward(ks, keys, a, w, n, s, p, i - 1);
      SeekNext(ks, keys, a, w, n, t, q);
    }
  }

  lemma {:induction false} KeyAhead(ks: seq<Bytes>, keys: set<Bytes>, a: Bytes, w: nat, n: nat, s: nat, p: nat, i: nat)
    requires Iterates(ks, keys) && Around(keys, a, w, n) && IsSeek(ks, RecordKey(a, w, s), p) && s + i < n
    ensures p + i < |ks| && ks[p + i] == RecordKey(a, w, s + i)
  {
    SeekForward(ks, keys, a, w, n, s, p, i);
    SeekAt(ks, keys, a, w, n, s + i, p + i);
  }

  /** Past the last record, a forward scan meets no further key of the address. */
  lemma {:induction false} SeekPastEnd(ks: seq<Bytes>, keys: set<Bytes>, a: Bytes, w: nat, n: nat, s: nat, p: nat)
    requires Iterates(ks, keys) && Around(keys, a, w, n) && n <= s < Pow256(w) && IsSeek(ks, RecordKey(a, w, s), p)
    ensures p < |ks| ==> !(a <= ks[p])
  {
    if p < |ks| {
      assert KeyAt(ks, keys, p) && !IsBelow(ks, RecordKey(a, w, s), p);
      var j := Compare(keys, a, w, n, ks[p], s);
    }
  }

  lemma {:induction false} SeekBack(ks: seq<Bytes>, keys: set<Bytes>, a: Bytes, w: nat, n: nat, m: nat, p: nat)
    requires Iterates(ks, keys) && Around(keys, a, w, n) && 0 < m <= n
    requires IsSeek(ks, RecordKey(a, w, m), p)
    ensures p > 0 && ks[p - 1] == RecordKey(a, w, m - 1) && IsSeek(ks, RecordKey(a, w, m - 1), p - 1)
  {
    var key := RecordKey(a, w, m - 1);
    assert Has(ks, key);
    var q :| 0 <= q < |ks| && ks[q] == key;
    ListedIsSeek(ks, q);
    SeekNext(ks, keys, a, w, n, m - 1, q);
    SeekUnique(ks, RecordKey(a, w, m), p, q + 1);
  }

  lemma {:induction false} SeekBackward(ks: seq<Bytes>, keys: set<Bytes>, a: Bytes, w: nat, n: nat, m: nat, p: nat, i: nat)
    requires Iterates(ks, keys) && Around(keys, a, w, n)
    requires IsSeek(ks, RecordKey(a, w, m), p) && i <= m <= n
    ensures i <= p <= |ks| && IsSeek(ks, RecordKey(a, w, m - i), p - i)
    ensures i > 0 ==> ks[p - i] == RecordKey(a, w, m - i)
    decreases i
  {
    if i > 0 {
      SeekBackward(ks, keys, a, w, n, m, p, i - 1);
      SeekBack(ks, keys, a, w, n, m - (i - 1), p - (i - 1));
    }
  }

  lemma {:induction false} KeyBehind(ks: seq<Bytes>, keys: set<Bytes>, a: Bytes, w: nat, n: nat, m: nat, p: nat, i: nat)
    requires Iterates(ks, keys) && Around(keys, a, w, n) && IsSeek(ks, RecordKey(a, w, m), p) && i < m <= n
    ensures i < p <= |ks| && ks[p - 1 - i] == RecordKey(a, w, m - 1 - i)
  {
    SeekBackward(ks, keys, a, w, n, m, p, i + 1);
  }

  lemma {:induction false} ListedIsSeek(ks: seq<Bytes>, q: nat)
    requires Ascending(ks) && q < |ks|
    ensures IsSeek(ks, ks[q], q)
  {
    forall i | 0 <= i < |ks|
      ensures IsBelow(ks, ks[q], i) <==> i < q
    {
      LessTotal(ks[i], ks[q]);
      assert i < q ==> Precedes(ks, i, q);
      assert q < i ==> Precedes(ks, q, i);
    }
  }

  lemma {:induction false} SeekUnique(ks: seq<Bytes>, key: Bytes, p: nat, q: nat)
    requires IsSeek(ks, key, p) && IsSeek(ks, key, q)
    ensures p == q
  {
    assert p < |ks| ==> (IsBelow(ks, key, p) <==> p < q);
    assert q < |ks| ==> (IsBelow(ks, key, q) <==> q < p);
  }

  /** Before the first record, a backward scan meets no further key of the address. */
  lemma {:induction false} SeekBeforeStart(ks: seq<Bytes>, keys: set<Bytes>, a: Bytes, w: nat, n: nat, p: nat)
    requires Iterates(ks, keys) && Around(keys, a, w, n) && IsSeek(ks, RecordKey(a, w, 0), p)
    ensures p > 0 ==> !(a <= ks[p - 1])
  {
    if p > 0 {
      assert KeyAt(ks, keys, p - 1) && IsBelow(ks, RecordKey(a, w, 0), p - 1);
      var j := Compare(keys, a, w, n, ks[p - 1], 0);
    }
  }

  /** SeekForPrev on record `start` stands on it, or on the last record before it. */
  lemma {:induction false} SeekForPrevStart(ks: seq<Bytes>, keys: set<Bytes>, a: Bytes, w: nat, n: nat, start: nat, p: nat)
    requires Iterates(ks, keys) && Around(keys, a, w, n) && start < Pow256(w) && IsSeekForPrev(ks, RecordKey(a, w, start), p)
    ensures IsSeek(ks, RecordKey(a, w, if start < n then start + 1 else n), p)
  {
    var m := if start < n then start + 1 else n;
    forall i | 0 <= i < |ks|
      ensures IsBelow(ks, RecordKey(a, w, m), i) <==> i < p
    {
      assert KeyAt(ks, keys, i) && (IsAbove(ks, RecordKey(a, w, start), i) <==> p <= i);
      var j := Compare(keys, a, w, n, ks[i], start);
      var j' := Compare(keys, a, w, n, ks[i], m);
      if Outside(ks[i], a) {
        OutsideAgrees(ks[i], a, w, start, m);
      } else {
        RecordDistinct(a, w, j, j');
      }
    }
  }
}
