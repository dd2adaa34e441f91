/** The pairing groups of the bn256 curve, seen through their exponents.

    G1, G2 and GT are cyclic groups of the same prime order q, so a point k*G is
    represented by k reduced modulo q: adding points adds exponents, and the
    bilinear pairing of a*G1 and b*G2 is the (a*b)-th power of the GT generator.
    Two points are equal exactly when their reduced exponents are. */
module Groups {
  type G1 = int
  type G2 = int
  type GT = int

  const ZERO: int := 0

  function BaseMult(q: int, k: int): int
    requires q > 0
  {
    k % q
  }

  function Add(q: int, a: int, b: int): int
    requires q > 0
  {
    (a + b) % q
  }

  function ScalarMult(q: int, g: int, k: int): int
    requires q > 0
  {
    (g * k) % q
  }

  function Neg(q: int, g: int): int
    requires q > 0
  {
    (-g) % q
  }

  function Pair(q: int, a: G1, b: G2): GT
    requires q > 0
  {
    (a * b) % q
  }

  /** The exponent of the product of all pairings of corresponding points. */
  function PairingProduct(q: int, g1s: seq<G1>, g2s: seq<G2>): GT
    requires q > 0 && |g1s| == |g2s|
  {
    if |g1s| == 0 then 0
    else (PairingProduct(q, g1s[..|g1s| - 1], g2s[..|g2s| - 1])
          + Pair(q, g1s[|g1s| - 1], g2s[|g2s| - 1])) % q
  }

  predicate PairingCheck(q: int, g1s: seq<G1>, g2s: seq<G2>)
    requires q > 0 && |g1s| == |g2s|
  {
    PairingProduct(q, g1s, g2s) == 0
  }
}
