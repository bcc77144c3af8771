/** The conversion of an unsigned 32-bit integer to single precision: 24 significant bits, ties to even. */
module SinglePrecision {
  const SIGNIFICANT: nat := 0x100_0000

  /** The distance between neighbouring values of single precision at n. */
  function Spacing(n: nat): (u: nat)
    ensures 1 <= u && (u == 1 || u <= n)
  {
    if n < SIGNIFICANT then 1
    else if n < 2 * SIGNIFICANT then 2
    else if n < 4 * SIGNIFICANT then 4
    else if n < 8 * SIGNIFICANT then 8
    else if n < 16 * SIGNIFICANT then 16
    else if n < 32 * SIGNIFICANT then 32
    else if n < 64 * SIGNIFICANT then 64
    else if n < 128 * SIGNIFICANT then 128
    else 256
  }

  function RoundTo(n: nat, u: nat): (s: nat)
    requires 1 <= u
    ensures s == n / u * u || s == (n / u + 1) * u
  {
    var q, r := n / u, n % u;
    if 2 * r < u || (2 * r == u && q % 2 == 0) then q * u else (q + 1) * u
  }

  function Single(n: nat): nat {
    RoundTo(n, Spacing(n))
  }

  lemma RoundedNear(n: nat, u: nat)
    requires 1 <= u
    ensures 2 * RoundTo(n, u) <= 2 * n + u && 2 * n <= 2 * RoundTo(n, u) + u
  {
    var q, r := n / u, n % u;
    assert n == q * u + r && (q + 1) * u == q * u + u;
  }

  /** Rounding at most doubles a value, and leaves the smaller ones alone. */
  lemma SingleBound(n: nat)
    ensures Single(n) <= 2 * n
    ensures n < SIGNIFICANT ==> Single(n) == n
  {
    RoundedNear(n, Spacing(n));
  }

  /** Up to this value rounding goes up by one at the most; here it goes up by two. */
  const OVERSHOOT: nat := 33_554_438

  lemma FirstOvershoot(n: nat)
    ensures n < OVERSHOOT ==> Single(n) <= n + 1
    ensures Single(OVERSHOOT) == OVERSHOOT + 2
  {
    RoundedNear(n, Spacing(n));
    assert 2 * SIGNIFICANT <= OVERSHOOT < 4 * SIGNIFICANT;
  }
}
