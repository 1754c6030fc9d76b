/** `Math.round` of ECMA-262 6th edition, section 20.2.2.28, on finite numbers.

    Numbers are modelled as mathematical reals: NaN, the infinities, -0 and
    binary floating-point precision are not part of this model. */
module JsMath {

  /** `Math.round(x)`: the integer closest to `x`, ties broken toward +infinity.
      The interval in the postcondition has width one and is open on the left
      and closed on the right, so it pins down exactly one integer. */
  function Round(x: real): (n: int)
    ensures x - 0.5 < n as real <= x + 0.5
  {
    (x + 0.5).Floor
  }

  /** The rounding interval characterises `Round`: an integer is `Round(x)`
      exactly when it lies in `(x - 1/2, x + 1/2]`. */
  lemma RoundCharacterisation(x: real, m: int)
    ensures m == Round(x) <==> x - 0.5 < m as real <= x + 0.5
  {
    var n := Round(x);
    if x - 0.5 < m as real <= x + 0.5 {
      assert (m - n) as real < 1.0 && (n - m) as real < 1.0;
    }
  }

  /** No integer is strictly closer to `x` than `Round(x)`, and at a tie the
      result is the upper neighbour. */
  lemma RoundIsNearest(x: real, m: int)
    ensures Dist(Round(x) as real, x) <= Dist(m as real, x)
    ensures Dist(Round(x) as real, x) == Dist(m as real, x) ==> Round(x) >= m
  {
    var n := Round(x);
    if m < n {
      assert m as real <= n as real - 1.0;
    } else if m > n {
      assert m as real >= n as real + 1.0;
    }
  }

  /** Absolute distance between two reals. */
  function Dist(a: real, b: real): (d: real)
    ensures d >= 0.0
    ensures d == a - b || d == b - a
  {
    if a >= b then a - b else b - a
  }

  /** Rounding an integer gives the integer back. */
  lemma RoundOfInteger(k: int)
    ensures Round(k as real) == k
  {
    RoundCharacterisation(k as real, k);
  }

  /** `Round` is monotone: a larger input never rounds to a smaller index. */
  lemma RoundMonotone(x: real, y: real)
    requires x <= y
    ensures Round(x) <= Round(y)
  {
  }

  /** Examples: 2.6 rounds to 3, 2.4 to 2, the tie 2.5 up to 3
      and the tie -2.5 up to -2 (toward +infinity, not away from zero). */
  lemma RoundExamples()
    ensures Round(2.6) == 3
    ensures Round(2.4) == 2
    ensures Round(2.5) == 3
    ensures Round(-2.5) == -2
    ensures Round(-0.4) == 0
  {
    RoundCharacterisation(2.6, 3);
    RoundCharacterisation(2.4, 2);
    RoundCharacterisation(2.5, 3);
    RoundCharacterisation(-2.5, -2);
    RoundCharacterisation(-0.4, 0);
  }
}
