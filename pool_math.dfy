/**
 * Constant-product pool arithmetic of a binary prediction market
 * (src/lib/predictions/utils.ts).  Pools are exact reals; the square root
 * of the sale quadratic is a caller-supplied function, see IsSquareRoot.
 */
module PoolMath {
  import opened Wrappers

  // Sign facts about products that the solver does not find on its own inside larger proofs.

  lemma ProductSigns(a: real, b: real)
    ensures a > 0.0 && b > 0.0 ==> a * b > 0.0
    ensures a >= 0.0 && b >= 0.0 ==> a * b >= 0.0
    ensures a <= 0.0 && b >= 0.0 ==> a * b <= 0.0
    ensures a * a >= 0.0
  {
    if a < 0.0 {
      assert a * a == (-a) * (-a);
    }
  }

  lemma ProductMonotone(a: real, b: real, c: real)
    requires a < b && c > 0.0
    ensures a * c < b * c
  {
    ProductSigns(b - a, c);
  }

  lemma ProductZero(a: real, b: real)
    requires a * b == 0.0 && b != 0.0
    ensures a == 0.0
  {
  }

  /** A quotient times its divisor gives back the dividend. */
  lemma QuotientTimesDivisor(k: real, d: real, q: real)
    requires d != 0.0 && q == k / d
    ensures q * d == k && d * q == k
  {
  }

  /** A number that gives `n` when multiplied by `d` is the quotient `n / d`. */
  lemma QuotientOfProduct(n: real, d: real, q: real)
    requires d != 0.0 && q * d == n
    ensures q == n / d
  {
  }

  /** Distributivity, stated once so that larger proofs need no nonlinear search. */
  lemma Distributes(z: real, a: real, b: real, sum: real)
    requires sum == a + b
    ensures z * sum == z * a + b * z
  {
  }

  /** Two numbers with a positive sum and a positive product are both positive. */
  lemma BothPositive(a: real, b: real)
    requires a + b > 0.0 && a * b > 0.0
    ensures a > 0.0 && b > 0.0
  {
    ProductSigns(a, b);
    ProductSigns(b, a);
  }

  /** The non-negative root of a positive square is positive and below any non-negative `t` with a larger square. */
  lemma RootBounds(r: real, t: real)
    requires r >= 0.0 && t >= 0.0 && r * r > 0.0 && r * r < t * t
    ensures 0.0 < r < t
  {
    ProductSigns(r, r);
    assert (r - t) * (r + t) == r * r - t * t;
    ProductSigns(r - t, r + t);
  }

  /** The outcome a share bets on. */
  datatype Side = Yes | No

  /** The pool holding the shares of `side`. */
  function BuyPool(yesPool: real, noPool: real, side: Side): real
  {
    if side == Yes then yesPool else noPool
  }

  /** The pool opposing `side`, which receives the money paid for `side`. */
  function CounterPool(yesPool: real, noPool: real, side: Side): real
  {
    if side == Yes then noPool else yesPool
  }

  /** Implied price of `side`: the opposing pool's share of the total, 0.5 for an empty total. */
  function Probability(yesPool: real, noPool: real, side: Side): (p: real)
    ensures yesPool + noPool == 0.0 ==> p == 0.5
    ensures yesPool + noPool != 0.0 ==> p * (yesPool + noPool) == CounterPool(yesPool, noPool, side)
  {
    var totalPool := yesPool + noPool;
    if totalPool == 0.0 then 0.5
    else if side == Yes then noPool / totalPool
    else yesPool / totalPool
  }

  /** The two implied prices always add up to one (also for the 0.5/0.5 fallback). */
  lemma ProbabilitiesSumToOne(yesPool: real, noPool: real)
    ensures Probability(yesPool, noPool, Yes) + Probability(yesPool, noPool, No) == 1.0
  {
    var t := yesPool + noPool;
    if t != 0.0 {
      assert Probability(yesPool, noPool, Yes) + Probability(yesPool, noPool, No) == (noPool + yesPool) / t;
    }
  }

  /** Equal pools price both sides at one half; positive pools give a price strictly between 0 and 1. */
  lemma ProbabilityBounds(yesPool: real, noPool: real, side: Side)
    ensures yesPool == noPool ==> Probability(yesPool, noPool, side) == 0.5
    ensures yesPool > 0.0 && noPool > 0.0 ==> 0.0 < Probability(yesPool, noPool, side) < 1.0
  {
    var t := yesPool + noPool;
    var p := Probability(yesPool, noPool, side);
    if yesPool == noPool && t != 0.0 {
      assert p * t == yesPool;
      assert p * t == p * yesPool + p * noPool;
      assert (2.0 * p - 1.0) * yesPool == 0.0;
      ProductZero(2.0 * p - 1.0, yesPool);
    }
    if yesPool > 0.0 && noPool > 0.0 {
      var c := CounterPool(yesPool, noPool, side);
      assert p * t == c && 0.0 < c < t;
      if p <= 0.0 {
        ProductSigns(p, t);
      }
      if p >= 1.0 {
        ProductSigns(p - 1.0, t);
      }
    }
  }

  /** What a purchase yields: the shares issued and the pools afterwards. */
  datatype Purchase = Purchase(userShares: real, yesPoolAfter: real, noPoolAfter: real)

  /**
   * Shares bought for `amount` on `side`.  The counter pool grows by `amount` and
   * the bought pool shrinks so that the pool product stays constant.  When the new
   * counter pool is zero the source divides by zero and obtains a non-finite
   * number; that case is `None` here.
   */
  function BoughtShares(yesPool: real, noPool: real, amount: real, side: Side): (r: Option<Purchase>)
    ensures r.None? <==> CounterPool(yesPool, noPool, side) + amount == 0.0
    ensures r.Some? ==> r.value.yesPoolAfter * r.value.noPoolAfter == yesPool * noPool
    ensures r.Some? ==>
      CounterPool(r.value.yesPoolAfter, r.value.noPoolAfter, side) == CounterPool(yesPool, noPool, side) + amount
    ensures r.Some? ==>
      r.value.userShares == amount + BuyPool(yesPool, noPool, side) - BuyPool(r.value.yesPoolAfter, r.value.noPoolAfter, side)
    ensures r.Some? ==>
      BuyPool(r.value.yesPoolAfter, r.value.noPoolAfter, side) * (CounterPool(yesPool, noPool, side) + amount)
      == BuyPool(yesPool, noPool, side) * CounterPool(yesPool, noPool, side)
  {
    var buyPool := BuyPool(yesPool, noPool, side);
    var counterPool := CounterPool(yesPool, noPool, side);
    var constant := buyPool * counterPool;
    var newCounterPool := counterPool + amount;
    if newCounterPool == 0.0 then None
    else
      var newBuyPool := constant / newCounterPool;
      var differenceInBuyPool := buyPool - newBuyPool;
      var userShares := amount + differenceInBuyPool;
      var yesPoolAfter := if side == Yes then newBuyPool else newCounterPool;
      var noPoolAfter := if side == Yes then newCounterPool else newBuyPool;
      assert newBuyPool * newCounterPool == constant;
      Some(Purchase(userShares, yesPoolAfter, noPoolAfter))
  }

  /** Closed form of a purchase: shares == amount * (yes + no + amount) / (counter + amount). */
  lemma BuyClosedForm(yesPool: real, noPool: real, amount: real, side: Side)
    requires CounterPool(yesPool, noPool, side) + amount != 0.0
    ensures BoughtShares(yesPool, noPool, amount, side).Some?
    ensures BoughtShares(yesPool, noPool, amount, side).value.userShares
         == amount * (yesPool + noPool + amount) / (CounterPool(yesPool, noPool, side) + amount)
  {
    var p := BoughtShares(yesPool, noPool, amount, side).value;
    BuyIdentity(amount, BuyPool(yesPool, noPool, side), CounterPool(yesPool, noPool, side),
                BuyPool(p.yesPoolAfter, p.noPoolAfter, side), p.userShares, yesPool + noPool + amount);
    QuotientOfProduct(amount * (yesPool + noPool + amount), CounterPool(yesPool, noPool, side) + amount, p.userShares);
  }

  /** The algebra of the closed form, over the purchase's own quantities. */
  lemma BuyIdentity(amount: real, b: real, c: real, nb: real, shares: real, total: real)
    requires nb * (c + amount) == b * c
    requires shares == amount + b - nb && total == b + c + amount
    ensures shares * (c + amount) == amount * total
  {
    assert shares * (c + amount) == amount * (c + amount) + b * (c + amount) - nb * (c + amount);
    assert b * (c + amount) == b * c + b * amount;
    assert amount * total == amount * (c + amount) + amount * b;
  }

  /**
   * With positive pools and a positive amount the bought pool shrinks and the buyer
   * receives more shares than the amount paid.
   */
  lemma BuyMovesPools(yesPool: real, noPool: real, amount: real, side: Side)
    requires yesPool > 0.0 && noPool > 0.0 && amount > 0.0
    ensures BoughtShares(yesPool, noPool, amount, side).Some?
    ensures var p := BoughtShares(yesPool, noPool, amount, side).value;
      && 0.0 < BuyPool(p.yesPoolAfter, p.noPoolAfter, side) < BuyPool(yesPool, noPool, side)
      && p.userShares > amount
  {
    var p := BoughtShares(yesPool, noPool, amount, side).value;
    ShrunkPool(BuyPool(yesPool, noPool, side), CounterPool(yesPool, noPool, side), CounterPool(yesPool, noPool, side) + amount,
               BuyPool(p.yesPoolAfter, p.noPoolAfter, side));
  }

  /** The pool `nb` with `nb * d == b * c`, for positive `b`, `c` and `d > c`, lies strictly between 0 and `b`. */
  lemma ShrunkPool(b: real, c: real, d: real, nb: real)
    requires b > 0.0 && c > 0.0 && d > c && nb * d == b * c
    ensures 0.0 < nb < b
  {
    ProductSigns(b, c);
    ProductMonotone(c, d, b);
    ProductSigns(nb, d);
    assert (nb - b) * d == nb * d - b * d;
    ProductSigns(nb - b, d);
  }

  /**
   * A purchase with a non-positive amount never passes the schema's check
   * constraints: the counter pool ends non-positive, or the issued shares are
   * non-positive.
   */
  lemma NonPositiveBuyViolatesChecks(yesPool: real, noPool: real, amount: real, side: Side)
    requires yesPool > 0.0 && noPool > 0.0 && amount <= 0.0
    ensures var r := BoughtShares(yesPool, noPool, amount, side);
      r.None? || r.value.userShares <= 0.0 || CounterPool(r.value.yesPoolAfter, r.value.noPoolAfter, side) <= 0.0
  {
    var c := CounterPool(yesPool, noPool, side);
    if c + amount > 0.0 {
      BuyClosedForm(yesPool, noPool, amount, side);
      var d := c + amount;
      var num := amount * (yesPool + noPool + amount);
      assert yesPool + noPool + amount > 0.0;
      assert num <= 0.0;
      assert BoughtShares(yesPool, noPool, amount, side).value.userShares == num / d;
    }
  }

  /** A square-root function as the source's Math.sqrt is used: exact on non-negative arguments. */
  ghost predicate IsSquareRoot(sqrt: real -> real)
  {
    forall d :: d >= 0.0 ==> sqrt(d) >= 0.0 && sqrt(d) * sqrt(d) == d
  }

  /** A square root of the square of a non-negative number is that number. */
  lemma SquareRootOfSquare(sqrt: real -> real, q: real, d: real)
    requires IsSquareRoot(sqrt) && q >= 0.0 && d == q * q
    ensures sqrt(d) == q
  {
    ProductSigns(q, q);
    assert sqrt(d) >= 0.0 && sqrt(d) * sqrt(d) == q * q;
    DifferenceOfSquares(sqrt(d), q);
  }

  /** (a - b)(a + b) == a^2 - b^2, with equal squares of non-negative numbers forcing equality. */
  lemma DifferenceOfSquares(a: real, b: real)
    requires a >= 0.0 && b >= 0.0 && a * a == b * b
    ensures a == b
  {
    assert (a - b) * (a + b) == a * a - b * b;
    if a != b {
      ProductZero(a - b, a + b);
    }
  }

  /** What a sale yields: the money returned and the pools afterwards. */
  datatype Sale = Sale(salePrice: real, yesPoolAfter: real, noPoolAfter: real)

  /** The one error the pool math raises: "Invalid market state: negative discriminant". */
  datatype PoolError = NegativeDiscriminant

  /** The yes pool once the sold shares are added to it. */
  function SaleYesPool(yesPool: real, shareAmount: real, side: Side): real
  {
    if side == Yes then yesPool + shareAmount else yesPool
  }

  /** The no pool once the sold shares are added to it. */
  function SaleNoPool(noPool: real, shareAmount: real, side: Side): real
  {
    if side == No then noPool + shareAmount else noPool
  }

  /**
   * Discriminant b^2 - 4c of the sale quadratic
   * s^2 - (newYes + newNo) s + (newYes * newNo - k) = 0.
   */
  function Discriminant(yesPool: real, noPool: real, shareAmount: real, side: Side): (d: real)
    ensures d == (SaleYesPool(yesPool, shareAmount, side) - SaleNoPool(noPool, shareAmount, side))
               * (SaleYesPool(yesPool, shareAmount, side) - SaleNoPool(noPool, shareAmount, side))
               + 4.0 * (yesPool * noPool)
  {
    var k := yesPool * noPool;
    var newYesPool := SaleYesPool(yesPool, shareAmount, side);
    var newNoPool := SaleNoPool(noPool, shareAmount, side);
    var b := -(newYesPool + newNoPool);
    var c := newYesPool * newNoPool - k;
    b * b - 4.0 * c
  }

  /** The discriminant is at least four times the pool product, the square in it being non-negative. */
  lemma DiscriminantAtLeast(yesPool: real, noPool: real, shareAmount: real, side: Side)
    ensures Discriminant(yesPool, noPool, shareAmount, side) >= 4.0 * (yesPool * noPool)
  {
    ProductSigns(SaleYesPool(yesPool, shareAmount, side) - SaleNoPool(noPool, shareAmount, side),
                 SaleYesPool(yesPool, shareAmount, side) - SaleNoPool(noPool, shareAmount, side));
  }

  /** A negative discriminant, the sale's only error, needs pools of opposite sign. */
  lemma NegativeDiscriminantNeedsMixedPools(yesPool: real, noPool: real, shareAmount: real, side: Side)
    requires Discriminant(yesPool, noPool, shareAmount, side) < 0.0
    ensures yesPool * noPool < 0.0
  {
    DiscriminantAtLeast(yesPool, noPool, shareAmount, side);
  }

  /**
   * Money returned for selling `shareAmount` shares of `side`: the smaller root of
   * the sale quadratic, removed from both pools.  `sqrt` stands for Math.sqrt.
   */
  function SaleAmount(yesPool: real, noPool: real, shareAmount: real, side: Side, sqrt: real -> real)
    : (r: Result<Sale, PoolError>)
    ensures r.Failure? <==> Discriminant(yesPool, noPool, shareAmount, side) < 0.0
    ensures r.Success? ==>
      && r.value.yesPoolAfter == SaleYesPool(yesPool, shareAmount, side) - r.value.salePrice
      && r.value.noPoolAfter == SaleNoPool(noPool, shareAmount, side) - r.value.salePrice
  {
    var newYesPool := SaleYesPool(yesPool, shareAmount, side);
    var newNoPool := SaleNoPool(noPool, shareAmount, side);
    var b := -(newYesPool + newNoPool);
    var discriminant := Discriminant(yesPool, noPool, shareAmount, side);
    if discriminant < 0.0 then Failure(NegativeDiscriminant)
    else
      var salePrice := (-b - sqrt(discriminant)) / 2.0;
      Success(Sale(salePrice, newYesPool - salePrice, newNoPool - salePrice))
  }

  /** The sale price solves the quadratic, so a sale keeps the pool product. */
  lemma SaleKeepsProduct(yesPool: real, noPool: real, shareAmount: real, side: Side, sqrt: real -> real)
    requires IsSquareRoot(sqrt)
    requires SaleAmount(yesPool, noPool, shareAmount, side, sqrt).Success?
    ensures var s := SaleAmount(yesPool, noPool, shareAmount, side, sqrt).value;
      s.yesPoolAfter * s.noPoolAfter == yesPool * noPool
  {
    assert Discriminant(yesPool, noPool, shareAmount, side) >= 0.0;
    SmallerRootProduct(SaleYesPool(yesPool, shareAmount, side), SaleNoPool(noPool, shareAmount, side), yesPool * noPool,
                       sqrt(Discriminant(yesPool, noPool, shareAmount, side)),
                       SaleAmount(yesPool, noPool, shareAmount, side, sqrt).value.salePrice,
                       SaleAmount(yesPool, noPool, shareAmount, side, sqrt).value.yesPoolAfter,
                       SaleAmount(yesPool, noPool, shareAmount, side, sqrt).value.noPoolAfter);
  }

  /**
   * The smaller root p = (y + n - r) / 2 of s^2 - (y + n) s + (y n - k) = 0, where
   * r * r is the discriminant, takes both pools `y - p` and `n - p` to the product `k`.
   */
  lemma SmallerRootProduct(y: real, n: real, k: real, r: real, p: real, ya: real, na: real)
    requires r * r == (y - n) * (y - n) + 4.0 * k
    requires p == (y + n - r) / 2.0 && ya == y - p && na == n - p
    ensures ya * na == k
  {
    assert ya == (y - n + r) / 2.0 && na == (n - y + r) / 2.0;
    assert 4.0 * (ya * na) == (r + (y - n)) * (r - (y - n));
    assert (r + (y - n)) * (r - (y - n)) == r * r - (y - n) * (y - n);
  }

  /**
   * Selling a positive number of shares against positive pools always succeeds,
   * returns a positive price, leaves both pools positive and keeps the product.
   */
  lemma SaleIsSound(yesPool: real, noPool: real, shareAmount: real, side: Side, sqrt: real -> real)
    requires IsSquareRoot(sqrt)
    requires yesPool > 0.0 && noPool > 0.0 && shareAmount > 0.0
    ensures SaleAmount(yesPool, noPool, shareAmount, side, sqrt).Success?
    ensures var s := SaleAmount(yesPool, noPool, shareAmount, side, sqrt).value;
      && s.salePrice > 0.0
      && s.yesPoolAfter > 0.0 && s.noPoolAfter > 0.0
      && s.yesPoolAfter * s.noPoolAfter == yesPool * noPool
  {
    ProductSigns(yesPool, noPool);
    DiscriminantAtLeast(yesPool, noPool, shareAmount, side);
    SaleGrowsProduct(yesPool, noPool, shareAmount, side);
    assert sqrt(Discriminant(yesPool, noPool, shareAmount, side)) >= 0.0;
    SmallerRootSound(SaleYesPool(yesPool, shareAmount, side), SaleNoPool(noPool, shareAmount, side), yesPool * noPool,
                     sqrt(Discriminant(yesPool, noPool, shareAmount, side)),
                     SaleAmount(yesPool, noPool, shareAmount, side, sqrt).value.salePrice,
                     SaleAmount(yesPool, noPool, shareAmount, side, sqrt).value.yesPoolAfter,
                     SaleAmount(yesPool, noPool, shareAmount, side, sqrt).value.noPoolAfter);
  }

  /** Adding sold shares to one of two positive pools strictly raises their product. */
  lemma SaleGrowsProduct(yesPool: real, noPool: real, shareAmount: real, side: Side)
    requires yesPool > 0.0 && noPool > 0.0 && shareAmount > 0.0
    ensures SaleYesPool(yesPool, shareAmount, side) * SaleNoPool(noPool, shareAmount, side) > yesPool * noPool
  {
    if side == Yes {
      Distributes(noPool, yesPool, shareAmount, SaleYesPool(yesPool, shareAmount, side));
      ProductSigns(shareAmount, noPool);
    } else {
      Distributes(yesPool, noPool, shareAmount, SaleNoPool(noPool, shareAmount, side));
      ProductSigns(yesPool, shareAmount);
    }
  }

  /**
   * The smaller root p of s^2 - (y + n) s + (y n - k) = 0, for positive y, n and
   * 0 < k < y n, is positive and leaves positive pools `y - p` and `n - p` whose product is `k`.
   */
  lemma SmallerRootSound(y: real, n: real, k: real, r: real, p: real, ya: real, na: real)
    requires y > 0.0 && n > 0.0 && 0.0 < k < y * n
    requires r >= 0.0 && r * r == (y - n) * (y - n) + 4.0 * k
    requires p == (y + n - r) / 2.0 && ya == y - p && na == n - p
    ensures p > 0.0 && ya > 0.0 && na > 0.0 && ya * na == k
  {
    ProductSigns(y - n, y - n);
    SquaresDiffer(y, n);
    RootBounds(r, y + n);
    SmallerRootProduct(y, n, k, r, p, ya, na);
    BothPositive(ya, na);
  }

  /** (y + n)^2 exceeds (y - n)^2 by 4 y n. */
  lemma SquaresDiffer(y: real, n: real)
    ensures (y + n) * (y + n) == (y - n) * (y - n) + 4.0 * (y * n)
  {
  }

  /**
   * No-fee round trip: selling the shares of a purchase against the pools the
   * purchase left returns exactly the amount paid and restores the original pools.
   */
  lemma BuyThenSellRoundTrip(yesPool: real, noPool: real, amount: real, side: Side, sqrt: real -> real)
    requires IsSquareRoot(sqrt)
    requires CounterPool(yesPool, noPool, side) + amount != 0.0 && yesPool + noPool >= 0.0
    ensures BoughtShares(yesPool, noPool, amount, side).Some?
    ensures var p := BoughtShares(yesPool, noPool, amount, side).value;
      SaleAmount(p.yesPoolAfter, p.noPoolAfter, p.userShares, side, sqrt) == Success(Sale(amount, yesPool, noPool))
  {
    var p := BoughtShares(yesPool, noPool, amount, side).value;
    assert SaleYesPool(p.yesPoolAfter, p.userShares, side) == yesPool + amount;
    assert SaleNoPool(p.noPoolAfter, p.userShares, side) == noPool + amount;
    RoundTripDiscriminant(SaleYesPool(p.yesPoolAfter, p.userShares, side), SaleNoPool(p.noPoolAfter, p.userShares, side),
                          p.yesPoolAfter * p.noPoolAfter, yesPool, noPool, Discriminant(p.yesPoolAfter, p.noPoolAfter, p.userShares, side));
    SquareRootOfSquare(sqrt, yesPool + noPool, Discriminant(p.yesPoolAfter, p.noPoolAfter, p.userShares, side));
  }

  /** After a purchase the sale's discriminant is the square of the original total. */
  lemma RoundTripDiscriminant(y: real, n: real, k: real, a: real, b: real, d: real)
    requires y - n == a - b && k == a * b && d == (y - n) * (y - n) + 4.0 * k
    ensures d == (a + b) * (a + b)
  {
    assert (y - n) * (y - n) == (a - b) * (a - b);
    SquaresDiffer(a, b);
  }
}
