/** Sets of byte strings written out as sequences, in any order or ascending. */
module Listing {
  import opened Bytes

  /** `ks` lists the set S without repetition. */
  ghost predicate Lists(ks: seq<Bytes>, S: set<Bytes>) {
    && (forall k :: k in S <==> k in ks)
    && (forall i, j :: 0 <= i < j < |ks| ==> ks[i] != ks[j])
  }

  ghost predicate Ascending(ks: seq<Bytes>) {
    forall i, j :: 0 <= i < j < |ks| ==> Precedes(ks, i, j)
  }

  ghost predicate Precedes(ks: seq<Bytes>, i: nat, j: nat)
    requires i < j < |ks|
  {
    Less(ks[i], ks[j])
  }

  lemma {:induction false} ListsFront(ks: seq<Bytes>, S: set<Bytes>)
    requires Lists(ks, S) && ks != []
    ensures Lists(ks[..|ks| - 1], S - {ks[|ks| - 1]})
  {
    var front := ks[..|ks| - 1];
    forall k | k in S - {ks[|ks| - 1]}
      ensures k in front
    {
      var i :| 0 <= i < |ks| && ks[i] == k;
      assert front[i] == k;
    }
  }

  lemma {:induction false} ListsCardinality(ks: seq<Bytes>, S: set<Bytes>)
    requires Lists(ks, S)
    ensures |ks| == |S|
    decreases |ks|
  {
    if ks == [] {
      assert S == {};
    } else {
      ListsFront(ks, S);
      ListsCardinality(ks[..|ks| - 1], S - {ks[|ks| - 1]});
    }
  }

  lemma {:induction false} ListingExists(S: set<Bytes>) returns (ks: seq<Bytes>)
    ensures Lists(ks, S)
    decreases |S|
  {
    if S == {} {
      ks := [];
    } else {
      var k :| k in S;
      ks := ListingExists(S - {k});
      ks := ks + [k];
    }
  }

  /** Iterating a container; the order is left open. */
  method ListSet(S: set<Bytes>) returns (ks: seq<Bytes>)
    ensures Lists(ks, S)
  {
    ks := [];
    var rest := S;
    while rest != {}
      invariant rest <= S && Lists(ks, S - rest)
      decreases |rest|
    {
      var k :| k in rest;
      rest := rest - {k};
      ks := ks + [k];
    }
  }

  /** Collecting names and sorting them. */
  method SortSet(S: set<Bytes>) returns (ks: seq<Bytes>)
    ensures Lists(ks, S) && Ascending(ks)
  {
    ks := [];
    var rest := S;
    while rest != {}
      invariant rest <= S && Lists(ks, S - rest) && Ascending(ks)
      decreases |rest|
    {
      var k :| k in rest;
      ks := InsertAscending(ks, S - rest, k);
      assert S - rest + {k} == S - (rest - {k});
      rest := rest - {k};
    }
  }

  method InsertAscending(ks: seq<Bytes>, ghost S: set<Bytes>, k: Bytes) returns (r: seq<Bytes>)
    requires Lists(ks, S) && Ascending(ks) && k !in S
    ensures Lists(r, S + {k}) && Ascending(r)
  {
    var j := 0;
    while j < |ks| && Less(ks[j], k)
      invariant 0 <= j <= |ks|
      invariant forall i :: 0 <= i < j ==> Less(ks[i], k)
    {
      j := j + 1;
    }
    r := ks[..j] + [k] + ks[j..];
    InsertedAscends(ks, k, j);
    InsertedLists(ks, S, k, j);
  }

  lemma {:induction false} InsertedAscends(ks: seq<Bytes>, k: Bytes, j: nat)
    requires Ascending(ks) && j <= |ks| && k !in ks
    requires forall i :: 0 <= i < j ==> Less(ks[i], k)
    requires j < |ks| ==> !Less(ks[j], k)
    ensures Ascending(ks[..j] + [k] + ks[j..])
  {
    var r := ks[..j] + [k] + ks[j..];
    forall a, b | 0 <= a < b < |r|
      ensures Precedes(r, a, b)
    {
      if a == j {
        LessTotal(ks[j], k);
        if b > j + 1 {
          assert Precedes(ks, j, b - 1);
          LessTransitive(k, ks[j], ks[b - 1]);
        }
      } else if b != j {
        assert Precedes(ks, if a < j then a else a - 1, if b < j then b else b - 1);
      }
    }
  }

  lemma {:induction false} InsertedLists(ks: seq<Bytes>, S: set<Bytes>, k: Bytes, j: nat)
    requires Lists(ks, S) && j <= |ks| && k !in S
    ensures Lists(ks[..j] + [k] + ks[j..], S + {k})
  {
    var r := ks[..j] + [k] + ks[j..];
    forall x | x in S + {k}
      ensures x in r
    {
      if x == k {
        assert r[j] == k;
      } else {
        var i :| 0 <= i < |ks| && ks[i] == x;
        assert r[if i < j then i else i + 1] == x;
      }
    }
  }

  function Above(S: set<Bytes>, k: Bytes): set<Bytes> {
    set m | m in S && Less(k, m)
  }

  /** In an ascending listing, what stands after k is what is greater than k. */
  lemma {:induction false} AfterIsAbove(ks: seq<Bytes>, S: set<Bytes>, i: nat)
    requires Lists(ks, S) && Ascending(ks) && i < |ks|
    ensures |Above(S, ks[i])| == |ks| - 1 - i
  {
    var rest := ks[i + 1..];
    forall m | m in Above(S, ks[i])
      ensures m in rest
    {
      var j :| 0 <= j < |ks| && ks[j] == m;
      LessTotal(ks[i], ks[j]);
      assert j < i ==> Precedes(ks, j, i);
      assert rest[j - i - 1] == m;
    }
    forall m | m in rest
      ensures m in Above(S, ks[i])
    {
      var j :| 0 <= j < |rest| && rest[j] == m;
      assert m == ks[i + 1 + j] && Precedes(ks, i, i + 1 + j);
    }
    ListsCardinality(rest, Above(S, ks[i]));
  }
}
