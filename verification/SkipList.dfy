/**
  The power-of-two skip list behind ancestor lookups.

  A block at height h > 0 stores one pointer for every i <= TrailingZeros(h), to
  its ancestor at height h - 2^i.  A lookup of a lower height follows, at every
  block, the longest pointer that does not overshoot.  This module is about
  heights only: which pointers exist, which one is followed, and how many are
  followed.
 */
module SkipList {
  import opened Arithmetic

  datatype SkipResult = Jump(index: nat, height: nat) | InvalidArgument

  /** countr_zero: the exponent of the largest power of two dividing h. */
  function TrailingZeros(h: nat): (z: nat)
    requires h > 0
    ensures Pow2(z) <= h
  {
    if h % 2 == 1 then 0 else 1 + TrailingZeros(h / 2)
  }

  /** floor(log2(h)). */
  function Log2(h: nat): (l: nat)
    requires h > 0
    ensures Pow2(l) <= h < Pow2(l + 1)
  {
    if h == 1 then 0 else 1 + Log2(h / 2)
  }

  lemma {:induction false} Pow2Monotone(a: nat, b: nat)
    requires a <= b
    ensures Pow2(a) <= Pow2(b)
    decreases b - a
  {
    if a < b { Pow2Monotone(a, b - 1); }
  }

  lemma {:induction false} Pow2Strict(a: nat, b: nat)
    requires Pow2(a) < Pow2(b)
    ensures a < b
  {
    if b <= a { Pow2Monotone(b, a); }
  }

  /** The jump taken from `current` toward `goal`: the longest stored pointer that
      does not go below the goal. */
  ghost predicate IsBestJump(goal: nat, current: nat, index: nat)
    requires current > 0
  {
    && index <= TrailingZeros(current)
    && Pow2(index) <= current
    && current - Pow2(index) >= goal
    && (index < TrailingZeros(current) ==> current < goal + Pow2(index + 1))
  }

  lemma {:induction false} BestJumpUnique(goal: nat, current: nat, i: nat, j: nat)
    requires current > 0
    requires IsBestJump(goal, current, i) && IsBestJump(goal, current, j)
    ensures i == j
  {
    if i < j { Pow2Monotone(i + 1, j); }
    if j < i { Pow2Monotone(j + 1, i); }
  }

  /** Pointer i of a block at `height` leads 2^i blocks down, to height `h`. */
  ghost predicate PointsTo(height: nat, i: nat, h: nat) {
    h + Pow2(i) == height
  }

  /** The heights a block at `height` points to: height - 1, height - 2, height - 4, ... */
  function PreviousHeights(height: nat): seq<nat> {
    if height == 0 then [] else FirstHeights(height, TrailingZeros(height) + 1)
  }

  lemma PreviousHeightsPoint(height: nat)
    requires height > 0
    ensures |PreviousHeights(height)| == TrailingZeros(height) + 1
    ensures forall i :: 0 <= i < |PreviousHeights(height)| ==> PointsTo(height, i, PreviousHeights(height)[i])
  {
  }

  function FirstHeights(height: nat, n: nat): (hs: seq<nat>)
    requires height > 0 && n <= TrailingZeros(height) + 1
    ensures |hs| == n
    ensures forall i :: 0 <= i < n ==> PointsTo(height, i, hs[i])
  {
    if n == 0 then []
    else
      Pow2Monotone(n - 1, TrailingZeros(height));
      FirstHeights(height, n - 1) + [height - Pow2(n - 1)]
  }

  /** get_previous_heights. */
  method GetPreviousHeights(height: nat) returns (result: seq<nat>)
    ensures result == PreviousHeights(height)
  {
    if height == 0 {
      return [];
    }
    var zeros := TrailingZeros(height);
    result := [];
    for i := 0 to zeros + 1
      invariant result == FirstHeights(height, i)
    {
      Pow2Monotone(i, zeros);
      result := result + [height - Pow2(i)];
    }
  }

  /** get_previous_height_index. */
  method GetPreviousHeightIndex(goal: nat, current: nat) returns (r: SkipResult)
    ensures goal >= current <==> r.InvalidArgument?
    ensures goal < current ==>
      IsBestJump(goal, current, r.index) && r.height == current - Pow2(r.index)
    ensures r == SkipIndex(goal, current)
  {
    if goal >= current {
      return InvalidArgument;
    }
    SkipIndexIsBest(goal, current);
    var zeros := TrailingZeros(current);
    var lastIdx, lastH := 0, 0;
    var i := 0;
    while i <= zeros
      invariant 0 <= i <= zeros + 1
      invariant i > 0 ==>
        && lastIdx == i - 1 && Pow2(lastIdx) <= current
        && lastH == current - Pow2(lastIdx) && lastH >= goal
    {
      Pow2Monotone(i, zeros);
      var h := current - Pow2(i);
      if h < goal {
        BestJumpUnique(goal, current, i - 1, SkipIndex(goal, current).index);
        return Jump(i - 1, lastH);
      }
      lastIdx, lastH := i, h;
      i := i + 1;
    }
    BestJumpUnique(goal, current, lastIdx, SkipIndex(goal, current).index);
    return Jump(lastIdx, lastH);
  }

  /** The best jump as a function: search down from the longest pointer. */
  function SkipIndex(goal: nat, current: nat): (r: SkipResult)
    ensures goal >= current <==> r.InvalidArgument?
    ensures r.Jump? ==> goal <= r.height < current
  {
    if goal >= current then InvalidArgument
    else
      var i := LongestFrom(goal, current, TrailingZeros(current));
      Jump(i, current - Pow2(i))
  }

  lemma {:induction false} SkipIndexIsBest(goal: nat, current: nat)
    requires goal < current
    ensures var r := SkipIndex(goal, current);
      IsBestJump(goal, current, r.index) && r.height == current - Pow2(r.index)
  {
  }

  function LongestFrom(goal: nat, current: nat, i: nat): (j: nat)
    requires goal < current && i <= TrailingZeros(current)
    requires i < TrailingZeros(current) ==> current < goal + Pow2(i + 1)
    ensures IsBestJump(goal, current, j)
  {
    if goal + Pow2(i) <= current then i else LongestFrom(goal, current, i - 1)
  }

  // ---- How the jumps line up -------------------------------------------------

  /** Taking the full stride strictly raises the number of trailing zeros. */
  lemma {:induction false} FullStrideRaises(h: nat)
    requires h > 0 && h > Pow2(TrailingZeros(h))
    ensures TrailingZeros(h - Pow2(TrailingZeros(h))) > TrailingZeros(h)
  {
    if h % 2 == 0 { FullStrideRaises(h / 2); }
  }

  /** Taking a shorter stride 2^i leaves exactly i trailing zeros. */
  lemma {:induction false} ShortStrideLeaves(h: nat, i: nat)
    requires h > 0 && i < TrailingZeros(h)
    ensures h > Pow2(i) && TrailingZeros(h - Pow2(i)) == i
  {
    if i > 0 { ShortStrideLeaves(h / 2, i - 1); }
  }

  /** Number of pointers followed by a lookup of `goal` from `current`. */
  function Jumps(goal: nat, current: nat): (n: nat)
    decreases current
  {
    if goal >= current then 0 else 1 + Jumps(goal, SkipIndex(goal, current).height)
  }

  /** Once the stride is shorter than the pointers allow, exponents only fall. */
  lemma {:induction false} FallingBound(goal: nat, current: nat, n: nat)
    requires current > 0 && n <= TrailingZeros(current)
    requires current < goal + Pow2(n)
    ensures Jumps(goal, current) <= n
    decreases current
  {
    if goal < current {
      SkipIndexIsBest(goal, current);
      var i := SkipIndex(goal, current).index;
      Pow2Strict(i, n);
      ShortStrideLeaves(current, i);
      FallingBound(goal, current - Pow2(i), i);
    }
  }

  lemma {:induction false} RisingBound(goal: nat, current: nat, l: nat)
    requires 0 < current < Pow2(l + 1)
    ensures TrailingZeros(current) <= l
    ensures Jumps(goal, current) <= l + 1 - TrailingZeros(current) + l
    decreases current
  {
    var z := TrailingZeros(current);
    Pow2Strict(z, l + 1);
    if goal < current {
      SkipIndexIsBest(goal, current);
      var i := SkipIndex(goal, current).index;
      var next := current - Pow2(i);
      if i < z {
        FallingBound(goal, current, i + 1);
      } else if goal < next {
        FullStrideRaises(current);
        RisingBound(goal, next, l);
      }
    }
  }

  /** A lookup from height h makes at most 2 * floor(log2 h) + 1 jumps. */
  lemma {:induction false} LogarithmicLookup(goal: nat, h: nat)
    requires h > 0
    ensures Jumps(goal, h) <= 2 * Log2(h) + 1
  {
    RisingBound(goal, h, Log2(h));
  }
}
