/**
  Byte strings: big-endian numbers and lexicographic order.

  Three components depend on these: the journal record codec, the bucket files
  and the account-history keys.
 */
module Bytes {

  type byte = x: int | 0 <= x < 256

  type Bytes = seq<byte>

  function Pow256(n: nat): (p: nat)
    ensures p > 0
  {
    if n == 0 then 1 else 256 * Pow256(n - 1)
  }

  /** The last n base-256 digits of v, most significant first. */
  function BigEndian(v: nat, n: nat): (s: Bytes)
    ensures |s| == n
    decreases n, v
  {
    if n == 0 then [] else BigEndian(v / 256, n - 1) + [v % 256]
  }

  function Value(s: Bytes): nat {
    if s == [] then 0 else Value(s[..|s| - 1]) * 256 + s[|s| - 1]
  }

  /** v >> (8 * i). */
  function Shifted(v: nat, i: nat): nat
    decreases i, v
  {
    if i == 0 then v else Shifted(v, i - 1) / 256
  }

  lemma {:induction false} ValueOfBigEndian(v: nat, n: nat)
    requires v < Pow256(n)
    ensures Value(BigEndian(v, n)) == v
    decreases n
  {
    if n > 0 {
      ValueOfBigEndian(v / 256, n - 1);
      assert BigEndian(v, n)[..n - 1] == BigEndian(v / 256, n - 1);
    }
  }

  lemma {:induction false} ValueBound(s: Bytes)
    ensures Value(s) < Pow256(|s|)
    decreases |s|
  {
    if s != [] { ValueBound(s[..|s| - 1]); }
  }

  lemma {:induction false} BigEndianOfValue(s: Bytes)
    ensures BigEndian(Value(s), |s|) == s
    decreases |s|
  {
    if s != [] {
      BigEndianOfValue(s[..|s| - 1]);
      assert s == s[..|s| - 1] + [s[|s| - 1]];
    }
  }

  lemma {:induction false} BigEndianInjective(v: nat, w: nat, n: nat)
    requires v < Pow256(n) && w < Pow256(n) && BigEndian(v, n) == BigEndian(w, n)
    ensures v == w
  {
    ValueOfBigEndian(v, n);
    ValueOfBigEndian(w, n);
  }

  // ---- Lexicographic order (std::string operator<) ---------------------------

  predicate Less(a: Bytes, b: Bytes) {
    b != [] && (a == [] || a[0] < b[0] || (a[0] == b[0] && Less(a[1..], b[1..])))
  }

  lemma {:induction false} LessTotal(a: Bytes, b: Bytes)
    ensures Less(a, b) || a == b || Less(b, a)
    ensures !(Less(a, b) && Less(b, a)) && (a == b ==> !Less(a, b))
    decreases |a|
  {
    if a != [] && b != [] && a[0] == b[0] {
      LessTotal(a[1..], b[1..]);
      assert a == [a[0]] + a[1..] && b == [b[0]] + b[1..];
    }
  }

  lemma {:induction false} LessTransitive(a: Bytes, b: Bytes, c: Bytes)
    requires Less(a, b) && Less(b, c)
    ensures Less(a, c)
    decreases |a|
  {
    if a != [] && a[0] == b[0] == c[0] { LessTransitive(a[1..], b[1..], c[1..]); }
  }

  lemma {:induction false} LessAfterPrefix(p: Bytes, a: Bytes, b: Bytes)
    ensures Less(p + a, p + b) <==> Less(a, b)
    decreases |p|
  {
    if p == [] {
      assert p + a == a && p + b == b;
    } else {
      LessAfterPrefix(p[1..], a, b);
      assert (p + a)[1..] == p[1..] + a && (p + b)[1..] == p[1..] + b;
    }
  }

  /** For strings of one length, the part after a split matters only on a tie. */
  lemma {:induction false} LessOfSplit(p: Bytes, q: Bytes, a: Bytes, b: Bytes)
    requires |p| == |q|
    ensures Less(p + a, q + b) <==> Less(p, q) || (p == q && Less(a, b))
    decreases |p|
  {
    if p == q {
      LessAfterPrefix(p, a, b);
      LessTotal(p, p);
    } else {
      assert (p + a)[1..] == p[1..] + a && (q + b)[1..] == q[1..] + b;
      if p[0] == q[0] {
        LessOfSplit(p[1..], q[1..], a, b);
        assert p == [p[0]] + p[1..] && q == [q[0]] + q[1..];
      }
    }
  }

  /** The order of encoded numbers is the order of the numbers. */
  lemma {:induction false} BigEndianOrder(v: nat, w: nat, n: nat)
    requires v < Pow256(n) && w < Pow256(n)
    ensures Less(BigEndian(v, n), BigEndian(w, n)) <==> v < w
    decreases n
  {
    if n > 0 {
      BigEndianOrder(v / 256, w / 256, n - 1);
      LessOfSplit(BigEndian(v / 256, n - 1), BigEndian(w / 256, n - 1), [v % 256], [w % 256]);
      assert Less([v % 256], [w % 256]) <==> v % 256 < w % 256;
      if BigEndian(v / 256, n - 1) == BigEndian(w / 256, n - 1) {
        BigEndianInjective(v / 256, w / 256, n - 1);
      }
    }
  }

  // ---- The loops that write and read 64-bit numbers --------------------------

  /** append_u64: the byte value >> (8 * i), for i = 7 down to 0. */
  method AppendU64(out: Bytes, value: nat) returns (r: Bytes)
    ensures r == out + BigEndian(value, 8)
  {
    r := out;
    var i: nat := 8;
    while i > 0
      invariant i <= 8
      invariant r == out + BigEndian(Shifted(value, i), 8 - i)
    {
      i := i - 1;
      r := r + [Shifted(value, i) % 256];
    }
  }

  datatype U64Read = U64(value: nat, offset: nat) | Truncated

  /** read_u64: eight bytes at `offset`, or the "truncated" exception. */
  method ReadU64(value: Bytes, offset: nat) returns (r: U64Read)
    requires offset <= |value|
    ensures |value| - offset < 8 <==> r == Truncated
    ensures r.U64? ==> r.offset == offset + 8 && r.value == Value(value[offset..offset + 8])
  {
    if |value| - offset < 8 {
      return Truncated;
    }
    var result: nat := 0;
    for i := 0 to 8
      invariant result == Value(value[offset..offset + i])
    {
      assert value[offset..offset + i + 1][..i] == value[offset..offset + i];
      result := result * 256 + value[offset + i];
    }
    return U64(result, offset + 8);
  }
}
