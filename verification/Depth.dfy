/** The arithmetic behind the pool's safety, on the two reserves and the LP supply alone. */
module Depth {
  import opened Numbers

  datatype Depth = Depth(sol: nat, tok: nat, lp: nat)

  /** Neither reserve per LP token went down from a to b. */
  predicate SharesGrow(a: Depth, b: Depth) {
    b.sol * a.lp >= a.sol * b.lp && b.tok * a.lp >= a.tok * b.lp
  }

  /** The product of the reserves per squared LP token did not go down from a to b. */
  predicate DepthGrows(a: Depth, b: Depth) {
    (b.sol * b.tok) * (a.lp * a.lp) >= (a.sol * a.tok) * (b.lp * b.lp)
  }

  /** x/a >= y/b on either side of a common middle. */
  lemma RatioTransitive(x: nat, a: nat, y: nat, b: nat, z: nat, c: nat)
    requires b > 0
    requires y * a >= x * b && z * b >= y * c
    ensures z * a >= x * c
  {
    MulMono(x * b, y * a, c);
    MulMono(y * c, z * b, a);
    assert (x * b) * c == (x * c) * b;
    assert (z * b) * a == (z * a) * b;
    assert (y * a) * c == (y * c) * a;
    MulCancel(x * c, z * a, b);
  }

  lemma SharesTransitive(a: Depth, b: Depth, c: Depth)
    requires b.lp > 0 && SharesGrow(a, b) && SharesGrow(b, c)
    ensures SharesGrow(a, c)
  {
    RatioTransitive(a.sol, a.lp, b.sol, b.lp, c.sol, c.lp);
    RatioTransitive(a.tok, a.lp, b.tok, b.lp, c.tok, c.lp);
  }

  lemma DepthTransitive(a: Depth, b: Depth, c: Depth)
    requires b.lp > 0 && DepthGrows(a, b) && DepthGrows(b, c)
    ensures DepthGrows(a, c)
  {
    MulStrict(0, b.lp, b.lp);
    RatioTransitive(a.sol * a.tok, a.lp * a.lp, b.sol * b.tok, b.lp * b.lp, c.sol * c.tok, c.lp * c.lp);
  }

  /** When both shares grow, so does the depth. */
  lemma SharesGiveDepth(a: Depth, b: Depth)
    requires SharesGrow(a, b)
    ensures DepthGrows(a, b)
  {
    MulMono(a.sol * b.lp, b.sol * a.lp, a.tok * b.lp);
    MulMono(a.tok * b.lp, b.tok * a.lp, b.sol * a.lp);
    assert (a.sol * b.lp) * (a.tok * b.lp) == (a.sol * a.tok) * (b.lp * b.lp);
    assert (b.tok * a.lp) * (b.sol * a.lp) == (b.sol * b.tok) * (a.lp * a.lp);
  }

  /** A deposit of t tokens that pays at least its share of SOL and mints at most its share of LP. */
  lemma DepositGrowsShares(a: Depth, t: nat, s: nat, m: nat)
    requires a.tok > 0
    requires s * a.tok >= t * a.sol
    requires m * a.tok <= a.lp * t
    ensures SharesGrow(a, Depth(a.sol + s, a.tok + t, a.lp + m))
  {
    // m * sol <= s * lp, by way of m*tok*sol <= lp*t*sol <= lp*s*tok
    MulMono(m * a.tok, a.lp * t, a.sol);
    MulMono(t * a.sol, s * a.tok, a.lp);
    assert (m * a.tok) * a.sol == (m * a.sol) * a.tok;
    assert (a.lp * t) * a.sol == (t * a.sol) * a.lp;
    assert (s * a.tok) * a.lp == (s * a.lp) * a.tok;
    MulCancel(m * a.sol, s * a.lp, a.tok);
    assert (a.sol + s) * a.lp == a.sol * a.lp + s * a.lp;
    assert a.sol * (a.lp + m) == a.sol * a.lp + m * a.sol;
    assert (a.tok + t) * a.lp == a.tok * a.lp + a.lp * t;
    assert a.tok * (a.lp + m) == a.tok * a.lp + m * a.tok;
  }

  /** Burning b LP for at most its share of each side. */
  lemma RedeemGrowsShares(a: Depth, b: nat, x: nat, y: nat)
    requires b <= a.lp && x <= a.sol && y <= a.tok
    requires x * a.lp <= b * a.sol && y * a.lp <= b * a.tok
    ensures SharesGrow(a, Depth(a.sol - x, a.tok - y, a.lp - b))
  {
    assert (a.sol - x) * a.lp == a.sol * a.lp - x * a.lp;
    assert a.sol * (a.lp - b) == a.sol * a.lp - b * a.sol;
    assert (a.tok - y) * a.lp == a.tok * a.lp - y * a.lp;
    assert a.tok * (a.lp - b) == a.tok * a.lp - b * a.tok;
  }

  /** Adding to a reserve or burning LP for nothing. */
  lemma GiftGrowsShares(a: Depth, b: Depth)
    requires a.sol <= b.sol && a.tok <= b.tok && b.lp <= a.lp
    ensures SharesGrow(a, b)
  {
    MulBounds(a.sol, b.lp, b.sol, a.lp);
    MulBounds(a.tok, b.lp, b.tok, a.lp);
  }

  /** With the LP supply unchanged, a growing product is growing depth. */
  lemma ProductGivesDepth(a: Depth, b: Depth)
    requires a.lp == b.lp && a.sol * a.tok <= b.sol * b.tok
    ensures DepthGrows(a, b)
  {
    MulMono(a.sol * a.tok, b.sol * b.tok, a.lp * a.lp);
  }

  /** lp^2 <= sol*tok survives every step in which depth grows. */
  lemma RootBoundKept(a: Depth, b: Depth)
    requires a.lp > 0 && DepthGrows(a, b)
    requires a.lp * a.lp <= a.sol * a.tok
    ensures b.lp * b.lp <= b.sol * b.tok
  {
    MulMono(a.lp * a.lp, a.sol * a.tok, b.lp * b.lp);
    MulStrict(0, a.lp, a.lp);
    assert (a.lp * a.lp) * (b.lp * b.lp) == (b.lp * b.lp) * (a.lp * a.lp);
    MulCancel(b.lp * b.lp, b.sol * b.tok, a.lp * a.lp);
  }

  /** Growing shares with no less LP means no less of either reserve. */
  lemma RoundTripKeepsReserves(a: Depth, b: Depth)
    requires SharesGrow(a, b) && 0 < a.lp <= b.lp
    ensures b.sol >= a.sol && b.tok >= a.tok
  {
    MulMono(a.lp, b.lp, a.sol);
    MulCancel(a.sol, b.sol, a.lp);
    MulMono(a.lp, b.lp, a.tok);
    MulCancel(a.tok, b.tok, a.lp);
  }

  /** Growing depth with k of the LP supply out of reach. */
  lemma DepthFloor(a: Depth, b: Depth, k: nat)
    requires DepthGrows(a, b) && k <= b.lp
    ensures (b.sol * b.tok) * (a.lp * a.lp) >= (a.sol * a.tok) * (k * k)
  {
    MulBounds(k, k, b.lp, b.lp);
    MulMono(k * k, b.lp * b.lp, a.sol * a.tok);
  }

  /** A reserve whose share grew while b LP left paid at most the share of b. */
  lemma PaidAtMost(r: nat, r': nat, l: nat, b: nat, x: nat)
    requires l > 0 && b <= l && r' * l >= r * (l - b)
    requires b * r < x * l + l
    ensures r - r' <= x
  {
    assert r * (l - b) == r * l - b * r;
    assert (r - r') * l == r * l - r' * l;
    if r - r' > x {
      MulMono(x + 1, r - r', l);
    }
  }

  lemma SharesPayAtMost(a: Depth, b: Depth, x: nat, y: nat)
    requires SharesGrow(a, b) && 0 < a.lp && b.lp <= a.lp
    requires (a.lp - b.lp) * a.sol < x * a.lp + a.lp
    requires (a.lp - b.lp) * a.tok < y * a.lp + a.lp
    ensures a.sol - b.sol <= x && a.tok - b.tok <= y
  {
    PaidAtMost(a.sol, b.sol, a.lp, a.lp - b.lp, x);
    PaidAtMost(a.tok, b.tok, a.lp, a.lp - b.lp, y);
  }
}
