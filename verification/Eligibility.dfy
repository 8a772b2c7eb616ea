/** Proof-of-burn eligibility and time quanta (src/block_production/block_producer.cpp). */
module Eligibility {
  import opened Arithmetic
  import opened Bytes

  const TWO128: nat := 0x1_0000_0000_0000_0000_0000_0000_0000_0000
  const TWO256: nat := TWO128 * TWO128

  // ---- Decoding --------------------------------------------------------------

  lemma {:induction false} Remainder(x: nat, d: nat, q: nat, r: nat)
    requires d > 0 && x == d * q + r && r < d
    ensures x % d == r
  {
    Quotient(x, d, q);
    DivMod(x, d);
  }

  /** Shifting a truncated value by one digit leaves room for the next digit. */
  lemma {:induction false} DigitFits(v: nat, m: nat, modulus: nat, k: nat, s: nat, b: byte)
    requires modulus == 256 * m && v * 256 == modulus * k + s && s < modulus
    ensures s + b < modulus
  {
    assert modulus * k == 256 * (m * k);
    assert s == 256 * (v - m * k);
  }

  lemma {:induction false} ShiftStep(a: nat, modulus: nat, q: nat, v: nat, k: nat, s: nat)
    requires a == modulus * q + v && v * 256 == modulus * k + s
    ensures a * 256 == modulus * (256 * q + k) + s
  {
    assert modulus * (256 * q + k) == 256 * (modulus * q) + modulus * k;
  }

  /** decode_big_endian_unsigned into an unsigned type: higher digits fall off. */
  method DecodeBigEndian(bytes: Bytes, modulus: nat, ghost m: nat) returns (value: nat)
    requires m > 0 && modulus == 256 * m
    ensures value == Value(bytes) % modulus
  {
    value := 0;
    ghost var q := 0;
    for i := 0 to |bytes|
      invariant value < modulus && Value(bytes[..i]) == modulus * q + value
    {
      value, q := DecodeDigit(Value(bytes[..i]), value, bytes[i], modulus, m, q);
      assert bytes[..i + 1][..i] == bytes[..i];
    }
    assert bytes[..|bytes|] == bytes;
    Remainder(Value(bytes), modulus, q, value);
  }

  method DecodeDigit(ghost a: nat, value: nat, b: byte, modulus: nat, ghost m: nat, ghost q: nat) returns (next: nat, ghost p: nat)
    requires m > 0 && modulus == 256 * m && value < modulus && a == modulus * q + value
    ensures next < modulus && a * 256 + b == modulus * p + next
  {
    var s, k := Shift(value, modulus);
    DigitFits(value, m, modulus, k, s, b);
    ShiftStep(a, modulus, q, value, k, s);
    next, p := s + b, 256 * q + k;
  }

  method Shift(value: nat, modulus: nat) returns (s: nat, ghost k: nat)
    requires modulus > 0
    ensures value * 256 == modulus * k + s && s < modulus
  {
    s, k := value * 256 % modulus, value * 256 / modulus;
    DivMod(value * 256, modulus);
  }

  // ---- Eligibility -----------------------------------------------------------

  /** The target: floor((2^128 - 1) / difficulty). */
  function Quota(difficulty: nat): nat
    requires difficulty > 0
  {
    (TWO128 - 1) / difficulty
  }

  /** A proof value wins when it lies below stake times quota. */
  predicate Wins(p: nat, vhp: nat, difficulty: nat) {
    vhp > 0 && difficulty > 0 && p < vhp * Quota(difficulty)
  }

  /** The comparison after dividing by the stake is the comparison before it. */
  lemma {:induction false} DividedComparison(p: nat, vhp: nat, target: nat)
    requires vhp > 0
    ensures p / vhp < target <==> p < vhp * target
  {
    DivMod(p, vhp);
    if p / vhp < target {
      MulGap(target, p / vhp, vhp);
    } else if p / vhp > target {
      MulGap(p / vhp, target, vhp);
    }
  }

  /** difficulty_met: the top 128 bits of the proof hash decide. */
  method DifficultyMet(digest: Bytes, vhp: nat, difficulty: Bytes) returns (met: bool)
    ensures met <==> Wins(Value(digest) % TWO256 / TWO128, vhp, Value(difficulty) % TWO128)
  {
    if vhp == 0 {
      return false;
    }
    var d := DecodeBigEndian(difficulty, TWO128, TWO128 / 256);
    if d == 0 {
      return false;
    }
    var target := (TWO128 - 1) / d;
    var proof := DecodeBigEndian(digest, TWO256, TWO256 / 256);
    DividedComparison(proof / TWO128, vhp, target);
    return proof / TWO128 / vhp < target;
  }

  /** How many of the proof values 0 .. values-1 win. */
  function Winners(values: nat, vhp: nat, difficulty: nat): nat {
    if values == 0 then 0
    else Winners(values - 1, vhp, difficulty) + if Wins(values - 1, vhp, difficulty) then 1 else 0
  }

  /** Of any number of equally likely proof values (2^128 in the code), exactly
      stake times quota win, or all of them. */
  lemma {:induction false} WinnersAreStakeTimesQuota(values: nat, vhp: nat, difficulty: nat)
    requires vhp > 0 && difficulty > 0
    ensures Winners(values, vhp, difficulty) == Min(values, vhp * Quota(difficulty))
  {
    if values > 0 {
      WinnersAreStakeTimesQuota(values - 1, vhp, difficulty);
    }
  }

  lemma {:induction false} QuotaAntitone(d: nat, e: nat)
    requires 0 < d <= e
    ensures Quota(e) <= Quota(d)
  {
    var q, p := Quota(e), Quota(d);
    DivMod(TWO128 - 1, d);
    DivMod(TWO128 - 1, e);
    MulMonotone(d, e, q);
    if q > p {
      MulGap(q, p, d);
    }
  }

  lemma {:induction false} MulMonotone(a: nat, b: nat, c: nat)
    requires a <= b
    ensures a * c <= b * c && c * a <= c * b
  {
    if a < b { MulGap(b, a, c); }
  }

  /** More stake never loses a win, and neither does an easier difficulty. */
  lemma {:induction false} EligibilityMonotone(p: nat, vhp: nat, moreVhp: nat, difficulty: nat, easier: nat)
    requires vhp <= moreVhp && 0 < easier <= difficulty && Wins(p, vhp, difficulty)
    ensures Wins(p, moreVhp, easier)
  {
    QuotaAntitone(easier, difficulty);
    MulMonotone(vhp, moreVhp, Quota(difficulty));
    MulMonotone(Quota(difficulty), Quota(easier), moreVhp);
  }

  /** While the quota is not exhausted, the number of wins is additive in the stake:
      splitting stake between producers changes no one's total chance. */
  lemma {:induction false} EligibilityProportional(values: nat, a: nat, b: nat, difficulty: nat)
    requires a > 0 && b > 0 && difficulty > 0 && (a + b) * Quota(difficulty) <= values
    ensures Winners(values, a + b, difficulty) == Winners(values, a, difficulty) + Winners(values, b, difficulty)
  {
    var q := Quota(difficulty);
    assert (a + b) * q == a * q + b * q;
    WinnersAreStakeTimesQuota(values, a + b, difficulty);
    WinnersAreStakeTimesQuota(values, a, difficulty);
    WinnersAreStakeTimesQuota(values, b, difficulty);
  }

  // ---- Time quanta -----------------------------------------------------------

  /** The first multiple of the step after both times. */
  predicate IsNextQuantum(time: nat, now: nat, quantumLength: nat, next: nat) {
    var step := if quantumLength > 0 then quantumLength else 10;
    next % step == 0 && next > time && next > now && (next - step <= time || next - step <= now)
  }

  /** next_time_quantum. */
  method NextTimeQuantum(time: nat, now: nat, quantumLength: nat) returns (next: nat)
    ensures IsNextQuantum(time, now, quantumLength, next)
  {
    next := if time < now then now else time;
    var step := if quantumLength > 0 then quantumLength else 10;
    var remainder := next % step;
    ghost var q := next / step;
    DivMod(next, step);
    NextMultiple(step, q);
    if remainder > 0 {
      next := next + (step - remainder);
    } else {
      next := next + step;
    }
  }

  lemma {:induction false} NextMultiple(step: nat, q: nat)
    requires step > 0
    ensures (step * q + step) % step == 0
  {
    Quotient(step * q + step, step, q + 1);
    DivMod(step * q + step, step);
  }
}
