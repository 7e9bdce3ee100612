/** The freshly created pool, and four places where the code does less, or something else,
    than its comments say: each with the exact condition under which the promise holds. */
module BornPool {
  import opened Wrappers
  import opened Numbers
  import opened PoolMath
  import opened Ledger
  import opened Solvency
  import opened Guarantees

  // ----- the creator can leave -----

  /** The smallest net token deposit from which the creator can later redeem everything. */
  const EXIT_TOKENS: nat := 4_999_996

  /** Both sides of the floored 20% lock. */
  lemma LockIsAFifth(lp: u64)
    ensures lp - 4 <= 5 * CreatorLock(lp) <= lp
  {
  }

  /** Redeeming four fifths (and up to four units more) of l LP leaves a whole token in the
      vault exactly when it held EXIT_TOKENS. */
  lemma KeepsOneToken(t: nat, l: nat, c: nat, out: nat)
    requires 0 < c <= l && 4 * l <= 5 * c <= 4 * l + 4
    requires out * l <= c * t < out * l + l
    requires t >= EXIT_TOKENS ==> l >= 100_000_000 - 1000
    ensures t - out >= MIN_POOL_RESERVE_TOKENS <==> t >= EXIT_TOKENS
  {
    if t >= EXIT_TOKENS && out >= t - 999_999 {
      ExitLeavesToken(t, l, c, out);
    }
    if t < EXIT_TOKENS && out <= t - 1_000_000 {
      ExitTakesToken(t, l, c, out);
    }
  }

  lemma ExitLeavesToken(t: nat, l: nat, c: nat, out: nat)
    requires 5 * c <= 4 * l + 4 && out * l <= c * t
    requires t >= EXIT_TOKENS && l >= 100_000_000 - 1000
    ensures out < t - 999_999
  {
    // (t - 999_999)*l <= c*t would give (t - 4_999_995)*l <= 4*t, which l > 20_000_000 excludes
    var tl := t * l;
    assert (t - 999_999) * l == tl - 999_999 * l;
    assert (t - 4_999_995) * l == tl - 4_999_995 * l;
    assert (4 * l + 4) * t == 4 * tl + 4 * t;
    assert (5 * c) * t == 5 * (c * t);
    MulMono(5 * c, 4 * l + 4, t);
    MulMono(20_000_000, l, t - 4_999_995);
    assert l * (t - 4_999_995) == (t - 4_999_995) * l;
    if out >= t - 999_999 {
      MulMono(t - 999_999, out, l);
    }
  }

  lemma ExitTakesToken(t: nat, l: nat, c: nat, out: nat)
    requires 0 < l && 4 * l <= 5 * c && c * t < out * l + l
    requires t < EXIT_TOKENS
    ensures out > t - 1_000_000
  {
    // c*t < (t - 999_999)*l would give 4*l*t <= 5*c*t < 5*(t - 999_999)*l, so t*l > 4_999_995*l
    var tl := t * l;
    assert (out + 1) * l == out * l + l;
    assert (t - 999_999) * l == tl - 999_999 * l;
    assert (4 * l) * t == 4 * tl;
    assert (5 * c) * t == 5 * (c * t);
    MulMono(4 * l, 5 * c, t);
    MulMono(t, 4_999_995, l);
    if out <= t - 1_000_000 {
      MulMono(out + 1, t - 999_999, l);
    }
  }

  lemma KeepsSol(s: nat, l: nat, c: nat, out: nat)
    requires l >= 5000 && 5 * c <= 4 * l + 4
    requires out * l <= c * s && s >= MIN_INITIAL_SOL
    ensures s - out >= MIN_POOL_RESERVE_SOL
  {
    MulMono(5 * c, 4 * l + 4, s);
    assert (4 * l + 4) * s == 4 * (l * s) + 4 * s;
    assert (5 * c) * s == 5 * (c * s);
    if s - out < MIN_POOL_RESERVE_SOL {
      MulMono(s - 99_999_999, out, l);
      assert (s - 99_999_999) * l == l * s - 99_999_999 * l;
      // l*s <= 4*s + 499_999_995*l, but l*s >= 5000*s/2 + 2.5e9*l
      MulMono(5000, l, s);
      MulMono(5_000_000_000, s, l);
      assert false;
    }
  }

  /** In a pool nobody has touched yet, the creator can redeem all their LP (with no minimums)
      exactly when at least 4_999_996 token units reached the vault at creation. The creation
      gate checks the gross amount, so a mint with a transfer fee can fall below that: then
      the redemption is refused as MinimumLiquidityRequired. */
  lemma CreatorExitIff(rent: u64, prefunded: u64, p: Pool, creator: Holder, args: CreateArgs, net: u64, now: u64,
                       born: Pool)
    requires Uninitialised(rent, prefunded) == Some(p)
    requires Create(p, creator, args, net, now) == Success(born)
    ensures var exit := Remove(born, creator, RemoveArgs(born.Balance(creator), 0, 0), 0);
            && (exit.Success? <==> net >= 4_999_996)
            && (exit.Failure? ==> exit.error == MinimumLiquidityRequired)
  {
    var lp := CreateEffect(rent, prefunded, p, creator, args, net, now, born);
    CreateAlive(rent, prefunded, p, creator, args, net, now, born);
    BornSupply(args.initialSolAmount, net, lp);
    LockIsAFifth(lp);
    var c := lp - CreatorLock(lp);
    assert born.Balance(creator) == c && born.supply == lp && born.vault == net;
    assert born.SolReserve() >= MIN_INITIAL_SOL && lp >= 5000;
    hide Create, InitialLp, Alive, CreatorLock, FloorSqrt;
    var x := LpRedeemFloor(c, born.SolReserve(), lp);
    var y := LpRedeemFloor(c, net, lp);
    KeepsSol(born.SolReserve(), lp, c, x);
    KeepsOneToken(net, lp, c, y);
    hide CalcLpRedeem;
  }

  lemma BornSupply(sol: u64, net: u64, lp: u64)
    requires InitialLp(sol, net) == Success(lp) && sol >= MIN_INITIAL_SOL && net > 0
    ensures lp >= 70710 - 1000
    ensures net >= EXIT_TOKENS ==> lp >= 100_000_000 - 1000
  {
    MulBounds(1, MIN_INITIAL_SOL, net, sol);
    InitialLpAtLeast(sol, net, lp, 70710);
    if net >= EXIT_TOKENS {
      MulBounds(EXIT_TOKENS, MIN_INITIAL_SOL, net, sol);
      InitialLpAtLeast(sol, net, lp, 100_000_000);
    }
  }

  // ----- what min_lp_out bounds -----

  /** The documented promise is that the provider receives at least min_lp_out after the lock.
      The code compares it with the whole mint, so the promise is met exactly when the quote
      covers the lock as well; a minimum equal to the quote passes and is always missed. */
  lemma MinLpOutIgnoresLock(p: Pool, provider: Holder, args: AddArgs, net: u64, q: Pool, m: AddMetrics)
    requires Alive(p) && Add(p, provider, args, net) == Success((q, m))
    ensures var quote := p.supply * net / p.vault;
            && m.lpToProvider + m.lpLocked == quote >= args.minLpOut
            && m.lpLocked == ProviderLock(quote)
            && (m.lpToProvider >= args.minLpOut <==> quote >= args.minLpOut + ProviderLock(quote))
            && (args.minLpOut == quote ==> m.lpToProvider < args.minLpOut)
  {
    AddGrowsShares(p, provider, args, net, q, m);
    AddParts(p, provider, args, net, q, m);
    hide Add;
  }

  // ----- the lock ratio does not ratchet -----

  /** The design notes say the locked share of the supply only goes up. An accepted deposit, quoted
      at floor(supply*net/vault) LP, keeps it exactly when the lock on that quote is at least the
      share already locked. */
  lemma LockRatioIff(p: Pool, provider: Holder, args: AddArgs, net: u64, q: Pool, m: AddMetrics)
    requires Alive(p) && Add(p, provider, args, net) == Success((q, m))
    ensures var quote := p.supply * net / p.vault;
            && quote <= U64_MAX
            && (q.locked * p.supply >= p.locked * q.supply
                <==> ProviderLock(quote) * p.supply >= p.locked * quote)
  {
    AddGrowsShares(p, provider, args, net, q, m);
    AddParts(p, provider, args, net, q, m);
    var quote := p.supply * net / p.vault;
    assert quote == m.lpToProvider + m.lpLocked && ProviderLock(quote) == m.lpLocked;
    assert q.locked == p.locked + m.lpLocked && q.supply == p.supply + quote;
    hide *;
    MixedRatio(p.locked, p.supply, m.lpLocked, quote);
  }

  /** Mixing k of n into j of l raises the ratio j/l exactly when k/n is at least j/l. */
  lemma MixedRatio(j: int, l: int, k: int, n: int)
    ensures (j + k) * l >= j * (l + n) <==> k * l >= j * n
  {
    assert (j + k) * l == j * l + k * l;
    assert j * (l + n) == j * l + j * n;
  }

  lemma LockBelowASixth(lp: u64)
    requires lp >= 6
    ensures 6 * ProviderLock(lp) <= lp
  {
  }

  /** The first deposit into a new pool lowers the locked share, unless it mints under 6 units. */
  lemma FirstDepositLowersLockRatio(rent: u64, prefunded: u64, p: Pool, creator: Holder, args: CreateArgs,
                                    net: u64, now: u64, born: Pool,
                                    provider: Holder, add: AddArgs, net2: u64, q: Pool, m: AddMetrics)
    requires Uninitialised(rent, prefunded) == Some(p)
    requires Create(p, creator, args, net, now) == Success(born)
    requires Add(born, provider, add, net2) == Success((q, m))
    requires m.lpToProvider + m.lpLocked >= 6
    ensures q.locked * born.supply < born.locked * q.supply
  {
    var lp := CreateEffect(rent, prefunded, p, creator, args, net, now, born);
    CreateAlive(rent, prefunded, p, creator, args, net, now, born);
    BornSupply(args.initialSolAmount, net, lp);
    LockIsAFifth(lp);
    AddParts(born, provider, add, net2, q, m);
    var minted := m.lpToProvider + m.lpLocked;
    LockBelowASixth(minted);
    LockRatioIff(born, provider, add, net2, q, m);
    assert born.locked == CreatorLock(lp) && born.supply == lp;
    hide Create, Add, InitialLp, Alive, FloorSqrt, CreatorLock, ProviderLock;
    BelowTheLockedShare(m.lpLocked, minted, born.locked, lp);
  }

  lemma BelowTheLockedShare(k: nat, minted: nat, locked: nat, lp: nat)
    requires 6 * k <= minted && minted > 0 && lp > 24 && lp - 4 <= 5 * locked
    ensures k * lp < locked * minted
  {
    MulMono(6 * k, minted, lp);
    MulMono(lp - 4, 5 * locked, minted);
    MulStrict(24, lp, minted);
    assert (lp - 4) * minted == lp * minted - 4 * minted;
    assert 6 * k * lp == 6 * (k * lp);
    assert 5 * locked * minted == 5 * (locked * minted);
  }
}
