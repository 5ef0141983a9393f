/** IEEE 754 binary64 restricted to integers: 53 bits of precision (IEEE 754-2019, section 3.3) and
    round-to-nearest, ties to even (section 4.3.1). Overflow to infinity is not part of this model. */
module Float64 {

  const TWO_53: int := 0x20_0000_0000_0000

  const MIN_INT64: int := -0x8000_0000_0000_0000
  const MAX_INT64: int := 0x7fff_ffff_ffff_ffff

  /** The leading 53 bits of a magnitude. */
  function Significand(n: nat): nat {
    if n < TWO_53 then n else Significand(n / 2)
  }

  /** The weight of the last of those bits: the distance to the next binary64 number. */
  function Ulp(n: nat): nat {
    if n < TWO_53 then 1 else 2 * Ulp(n / 2)
  }

  /** The magnitude with every bit after the leading 53 cleared, Significand(n) * Ulp(n). */
  function Truncate(n: nat): nat {
    if n < TWO_53 then n else 2 * Truncate(n / 2)
  }

  function Abs(n: int): nat { if n < 0 then -n else n }

  predicate Representable(n: int) { Truncate(Abs(n)) == Abs(n) }

  function RoundNat(n: nat): int {
    var low, u := Truncate(n), Ulp(n);
    if 2 * (n - low) < u || (2 * (n - low) == u && Significand(n) % 2 == 0) then low else low + u
  }

  function Round(n: int): int {
    if n < 0 then -RoundNat(-n) else RoundNat(n)
  }

  /** int64 to float64 conversion, and float64 addition, of integer-valued floats. */
  function FromInt64(n: int): int { Round(n) }

  function Add(x: int, y: int): int { Round(x + y) }

  /** Conversion of an integer-valued float64 to int64; out-of-range values give the amd64 indefinite value. */
  function ToInt64(x: int): int {
    if MIN_INT64 <= x <= MAX_INT64 then x else MIN_INT64
  }

  /** Integers up to 2^53 in magnitude survive rounding. */
  lemma RoundExact(n: int)
    requires -TWO_53 <= n <= TWO_53
    ensures Round(n) == n
  {
    assert Truncate(TWO_53) == 2 * Truncate(TWO_53 / 2);
  }

  /** The bound is tight: 2^53 + 1 is the first integer that is rounded away. */
  lemma FirstInexact()
    ensures Round(TWO_53 + 1) == TWO_53
  {
    var half := (TWO_53 + 1) / 2;
    assert half == TWO_53 / 2;
    assert Truncate(TWO_53 + 1) == 2 * Truncate(half) && Ulp(TWO_53 + 1) == 2 * Ulp(half);
    assert Significand(TWO_53 + 1) == Significand(half) == half;
  }

  /** Rounding keeps the sign: a positive number stays positive. */
  lemma RoundPositive(n: int)
    ensures Round(n) > 0 <==> n > 0
  {
    TruncateBounds(Abs(n));
    NoneBetween(Abs(n), 1);
  }

  lemma {:induction false} TruncateBounds(n: nat)
    ensures Truncate(n) <= n < Truncate(n) + Ulp(n)
    ensures n >= TWO_53 ==> Truncate(n) >= TWO_53
  {
    if n >= TWO_53 {
      TruncateBounds(n / 2);
    }
  }

  /** No representable magnitude lies strictly between the two neighbours of n. */
  lemma {:induction false} NoneBetween(n: nat, m: nat)
    requires Representable(m)
    ensures m <= n ==> m <= Truncate(n)
    ensures m > n ==> m >= Truncate(n) + Ulp(n)
  {
    TruncateBounds(n);
    if n >= TWO_53 && m >= TWO_53 {
      assert m == 2 * Truncate(m / 2);
      NoneBetween(n / 2, m / 2);
    }
  }

  /** Both neighbours are representable, also where the upper one opens the next binade. */
  lemma {:induction false} NeighboursRepresentable(n: nat)
    ensures Representable(Truncate(n)) && Representable(Truncate(n) + Ulp(n))
  {
    TruncateBounds(n);
    if n < TWO_53 {
      RoundExact(n + 1);
      assert Truncate(TWO_53) == 2 * Truncate(TWO_53 / 2);
    } else {
      NeighboursRepresentable(n / 2);
      var low, u := Truncate(n / 2), Ulp(n / 2);
      assert Truncate(2 * low) == 2 * Truncate(2 * low / 2);
      assert Truncate(2 * (low + u)) == 2 * Truncate(2 * (low + u) / 2);
    }
  }

  /** Rounding is correct: the result is representable, no representable integer is closer. */
  lemma RoundNearest(n: int, m: int)
    requires Representable(m)
    ensures Representable(Round(n))
    ensures Abs(Round(n) - n) <= Abs(m - n)
  {
    TruncateBounds(Abs(n));
    NeighboursRepresentable(Abs(n));
    NoneBetween(Abs(n), Abs(m));
    NoneBetween(Abs(n), 0);
  }

  /** Exactly the representable integers survive rounding. */
  lemma RoundsToItself(n: int)
    ensures Round(n) == n <==> Representable(n)
  {
    RoundNearest(n, 0);
    if Representable(n) { RoundNearest(n, n); }
  }

  /** The neighbours of n carry the significand of n and its successor (which wraps into the next binade). */
  lemma {:induction false} NeighbourSignificands(n: nat)
    requires n >= TWO_53
    ensures Significand(Truncate(n)) == Significand(n) < TWO_53
    ensures Significand(Truncate(n) + Ulp(n)) ==
            if Significand(n) + 1 < TWO_53 then Significand(n) + 1 else TWO_53 / 2
  {
    TruncateBounds(n);
    var low, u := Truncate(n / 2), Ulp(n / 2);
    if n / 2 >= TWO_53 {
      NeighbourSignificands(n / 2);
    } else {
      assert Significand(TWO_53) == Significand(TWO_53 / 2);
    }
    assert (2 * low) / 2 == low && (2 * (low + u)) / 2 == low + u;
  }

  /** Halfway cases go to the neighbour with the even significand. */
  lemma TiesToEven(n: nat)
    requires n >= TWO_53 && 2 * (n - Truncate(n)) == Ulp(n)
    ensures Significand(RoundNat(n)) % 2 == 0
  {
    TruncateBounds(n);
    NeighbourSignificands(n);
  }
}
