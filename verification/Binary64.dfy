/**
 Sizes and counts travel as JSON numbers and are decoded into `float64` before being truncated
 back to integers. `Decode(n)` is the integer the receiver ends up with when `n` was sent:
 `n` rounded to 53 significant bits, ties to even (section 6 of RFC 8259, binary64).
 */
module Binary64 {
  const EXACT_LIMIT: nat := 0x20_0000_0000_0000

  function ShiftLeft(m: nat, e: nat): nat {
    if e == 0 then m else 2 * ShiftLeft(m, e - 1)
  }

  function ShiftRight(n: nat, e: nat): nat {
    if e == 0 then n else ShiftRight(n / 2, e - 1)
  }

  /** The binary exponent of the last of the 53 significant bits of `n`. */
  function Exponent(n: nat): nat {
    if n < EXACT_LIMIT then 0 else 1 + Exponent(n / 2)
  }

  /** The value of the last of the 53 significant bits of `n`. */
  function Unit(n: nat): nat {
    ShiftLeft(1, Exponent(n))
  }

  /** The first 53 significant bits of `n`, as an integer. */
  function Significand(n: nat): nat {
    ShiftRight(n, Exponent(n))
  }

  /** What is left of `n` without the bits behind the first 53. */
  function Cut(n: nat): (r: nat)
    ensures r <= n < r + Unit(n)
  {
    ShiftBounds(n, Exponent(n));
    ShiftLeft(Significand(n), Exponent(n))
  }

  function Decode(n: nat): nat {
    var rest := n - Cut(n);
    if 2 * rest > Unit(n) || (2 * rest == Unit(n) && Significand(n) % 2 == 1) then
      ShiftLeft(Significand(n) + 1, Exponent(n))
    else
      Cut(n)
  }

  /** `n` is a 53-bit significand times a power of two. */
  ghost predicate Representable(n: nat) {
    exists m: nat, k: nat :: IsScaled(n, m, k)
  }

  predicate IsScaled(n: nat, m: nat, k: nat) {
    m < EXACT_LIMIT && n == ShiftLeft(m, k)
  }

  /** Dropping the last `e` bits rounds down to a multiple of the unit. */
  lemma {:induction false} ShiftBounds(n: nat, e: nat)
    ensures ShiftLeft(ShiftRight(n, e), e) <= n < ShiftLeft(ShiftRight(n, e), e) + ShiftLeft(1, e)
  {
    if e > 0 {
      ShiftBounds(n / 2, e - 1);
    }
  }

  lemma {:induction false} ShiftLeftNext(m: nat, e: nat)
    ensures ShiftLeft(m + 1, e) == ShiftLeft(m, e) + ShiftLeft(1, e)
  {
    if e > 0 {
      ShiftLeftNext(m, e - 1);
    }
  }

  lemma {:induction false} SignificandBound(n: nat)
    ensures Significand(n) < EXACT_LIMIT
  {
    if n >= EXACT_LIMIT {
      SignificandBound(n / 2);
    }
  }

  /** A representable number has no bits behind its first 53. */
  lemma {:induction false} ScaledIsNotCut(n: nat, m: nat, k: nat)
    requires IsScaled(n, m, k)
    ensures Cut(n) == n
  {
    if n >= EXACT_LIMIT {
      assert n == 2 * ShiftLeft(m, k - 1);
      ScaledIsNotCut(n / 2, m, k - 1);
    }
  }

  /** Among the multiples of the unit, what arrives is one nearest to `n`, an even one in case of a tie. */
  lemma DecodeRoundsToNearestEven(n: nat) returns (m: nat)
    ensures Decode(n) == ShiftLeft(m, Exponent(n))
    ensures 2 * Decode(n) <= 2 * n + Unit(n) && 2 * n <= 2 * Decode(n) + Unit(n)
    ensures 2 * Decode(n) == 2 * n + Unit(n) || 2 * n == 2 * Decode(n) + Unit(n) ==> m % 2 == 0
  {
    ShiftLeftNext(Significand(n), Exponent(n));
    m := if Decode(n) == Cut(n) then Significand(n) else Significand(n) + 1;
  }

  /** A number survives the trip exactly when it has at most 53 significant bits. */
  lemma DecodeExactIff(n: nat)
    ensures Decode(n) == n <==> Representable(n)
  {
    SignificandBound(n);
    ShiftLeftNext(Significand(n), Exponent(n));
    if Cut(n) == n {
      assert IsScaled(n, Significand(n), Exponent(n));
    } else if Representable(n) {
      var m: nat, k: nat :| IsScaled(n, m, k);
      ScaledIsNotCut(n, m, k);
    }
  }

  /** Every size and count up to 2^53 arrives unchanged. */
  lemma DecodeExact(n: nat)
    requires n <= EXACT_LIMIT
    ensures Decode(n) == n
  {
    assert IsScaled(EXACT_LIMIT, EXACT_LIMIT / 2, 1);
    assert n < EXACT_LIMIT ==> IsScaled(n, n, 0);
    DecodeExactIff(n);
  }

  /** The bound is sharp: the next integer arrives one too small. */
  lemma DecodeFirstLoss()
    ensures Decode(EXACT_LIMIT + 1) == EXACT_LIMIT
  {
    assert Exponent((EXACT_LIMIT + 1) / 2) == 0;
    assert Exponent(EXACT_LIMIT + 1) == 1;
    assert Significand(EXACT_LIMIT + 1) == ShiftRight((EXACT_LIMIT + 1) / 2, 0);
    assert Significand(EXACT_LIMIT + 1) == EXACT_LIMIT / 2;
    assert ShiftLeft(EXACT_LIMIT / 2, 1) == EXACT_LIMIT;
  }
}
