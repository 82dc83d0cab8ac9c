/**
 * The reference constant-product market maker of the simulator script: JA
 * reserves `x`, NEIN reserves `y`, and the product `k` fixed when the maker is
 * built. Python's float division raises `ZeroDivisionError` on a zero divisor;
 * that is the `ZeroDivision` failure here, raised at the point of the
 * division, so that assignments made before it remain.
 */
module Amm {
  import opened Wrappers
  import opened PoolMath

  datatype AmmError = ZeroDivision

  /** What a trade returns: the amount paid out, and the JA price before and after. */
  datatype Trade = Trade(amount: real, oldPrice: real, newPrice: real)

  /** The JA price after a JA buy of `points` strictly exceeds the price before it. */
  lemma JaBuyRaisesPrice(x: real, y: real, points: real, x': real, y': real)
    requires x > 0.0 && y > 0.0 && points > 0.0
    requires y' == y + points && x' * y' == x * y
    ensures x' > 0.0 && y' > 0.0
    ensures Probability(x', y', Yes) > Probability(x, y, Yes)
  {
    assert x' > 0.0 by {
      if x' <= 0.0 {
        ProductSigns(x', y');
        ProductSigns(x, y);
      }
    }
    assert y' * y' > y * y by {
      ProductMonotone(y, y', y');
      ProductMonotone(y, y', y);
    }
    assert x * (y' * y') > x * (y * y) by {
      ProductMonotone(y * y, y' * y', x);
    }
    // y' * (x + y) > y * (x' + y'), from y' * y' * x > y * y * x divided by y'
    assert y' * x > y * x' by {
      assert y * x' * y' == y * (x * y);
      assert y' * x * y' == x * (y' * y');
      ProductMonotone(y * x', y' * x, y');
    }
    assert y' * (x + y) > y * (x' + y');
    var p := Probability(x, y, Yes);
    var p' := Probability(x', y', Yes);
    assert p == y / (x + y);
    assert p' == y' / (x' + y');
    CrossMultiplied(y, x + y, y', x' + y');
  }

  /** The JA price after a NEIN buy of `points` is strictly below the price before it. */
  lemma NeinBuyLowersPrice(x: real, y: real, points: real, x': real, y': real)
    requires x > 0.0 && y > 0.0 && points > 0.0
    requires x' == x + points && x' * y' == x * y
    ensures x' > 0.0 && y' > 0.0
    ensures Probability(x', y', Yes) < Probability(x, y, Yes)
  {
    assert y' > 0.0 by {
      if y' <= 0.0 {
        ProductSigns(y', x');
        ProductSigns(x, y);
      }
    }
    assert x' * x' > x * x by {
      ProductMonotone(x, x', x');
      ProductMonotone(x, x', x);
    }
    assert y * x' > y' * x by {
      assert y' * x * x' == x * (x * y);
      assert y * x' * x' == y * (x' * x');
      assert y * (x' * x') > y * (x * x) by {
        ProductMonotone(x * x, x' * x', y);
      }
      ProductMonotone(y' * x, y * x', x');
    }
    assert y * (x' + y') > y' * (x + y);
    CrossMultiplied(y', x' + y', y, x + y);
  }

  /** `a / b > c / d` for positive denominators when `a * d > c * b`. */
  lemma CrossMultiplied(c: real, d: real, a: real, b: real)
    requires b > 0.0 && d > 0.0
    requires a * d > c * b
    ensures a / b > c / d
  {
    var q := a / b;
    var q' := c / d;
    assert q * b == a;
    assert q' * d == c;
    assert q * b * d > q' * d * b;
    assert (q - q') * (b * d) > 0.0;
    ProductSigns(b, d);
    if q - q' <= 0.0 {
      ProductSigns(q - q', b * d);
      assert false;
    }
  }

  /** A JA sale of a positive number of shares pays out a positive amount. */
  lemma JaSalePaysOut(x: real, y: real, shares: real)
    requires x > 0.0 && y > 0.0 && shares > 0.0
    ensures y - x * y / (x + shares) > 0.0
  {
    var x' := x + shares;
    assert x * y / x' < y by {
      assert (x * y / x') * x' == x * y;
      assert y * x' > x * y by {
        ProductMonotone(x, x', y);
      }
      CrossMultiplied(x * y, x', y, 1.0);
    }
  }

  /** Started from a pool whose product is `k`, a JA buy is the yes-buy of the pool math. */
  lemma JaBuyIsPoolBuy(x: real, y: real, points: real, k: real, shares: real, x': real, y': real)
    requires x * y == k && y + points != 0.0
    requires shares == points * (x + y + points) / (y + points) && y' == y + points && x' == k / y'
    ensures BoughtShares(x, y, points, Yes) == Some(Purchase(shares, x', y'))
  {
    BuyClosedForm(x, y, points, Yes);
    var p := BoughtShares(x, y, points, Yes).value;
    assert p.yesPoolAfter == x * y / (y + points);
    assert p.noPoolAfter == y + points;
  }

  /** Started from a pool whose product is `k`, a NEIN buy is the no-buy of the pool math. */
  lemma NeinBuyIsPoolBuy(x: real, y: real, points: real, k: real, shares: real, x': real, y': real)
    requires x * y == k && x + points != 0.0
    requires shares == points * (x + y + points) / (x + points) && x' == x + points && y' == k / x'
    ensures BoughtShares(x, y, points, No) == Some(Purchase(shares, x', y'))
  {
    BuyClosedForm(x, y, points, No);
    var p := BoughtShares(x, y, points, No).value;
    assert p.noPoolAfter == y * x / (x + points);
    assert y * x == k;
    assert p.yesPoolAfter == x + points;
  }

  /** The reserves `BuyJa` writes keep `k`, and from a positive pool of product `k` they raise the JA price. */
  lemma JaBuyStep(x: real, y: real, points: real, k: real, x': real, y': real)
    requires y' == y + points && y' != 0.0 && x' == k / y'
    ensures x' * y' == k
    ensures x > 0.0 && y > 0.0 && points > 0.0 && x * y == k ==>
      x' > 0.0 && y' > 0.0 && Probability(x', y', Yes) > Probability(x, y, Yes)
  {
    QuotientTimesDivisor(k, y', x');
    if x > 0.0 && y > 0.0 && points > 0.0 && x * y == k {
      JaBuyRaisesPrice(x, y, points, x', y');
    }
  }

  /** The reserves `BuyNein` writes keep `k`, and from a positive pool of product `k` they lower the JA price. */
  lemma NeinBuyStep(x: real, y: real, points: real, k: real, x': real, y': real)
    requires x' == x + points && x' != 0.0 && y' == k / x'
    ensures x' * y' == k
    ensures x > 0.0 && y > 0.0 && points > 0.0 && x * y == k ==>
      x' > 0.0 && y' > 0.0 && Probability(x', y', Yes) < Probability(x, y, Yes)
  {
    QuotientTimesDivisor(k, x', y');
    if x > 0.0 && y > 0.0 && points > 0.0 && x * y == k {
      NeinBuyLowersPrice(x, y, points, x', y');
    }
  }

  class PolymarketAmm {
    var x: real
    var y: real
    const k: real

    /** `__init__`: the reserves as given, and their product as the invariant. */
    constructor(jaReserves: real, neinReserves: real)
      ensures x == jaReserves && y == neinReserves && k == jaReserves * neinReserves
    {
      x := jaReserves;
      y := neinReserves;
      k := jaReserves * neinReserves;
    }

    /** `get_price_ja`: the NEIN reserves' share of the total, the yes probability of the pool math. */
    function PriceJa(): (p: Result<real, AmmError>)
      reads this
      ensures p.Failure? <==> x + y == 0.0
      ensures p.Success? ==> p.value == Probability(x, y, Yes)
      ensures p.Success? && x > 0.0 && y > 0.0 ==> 0.0 < p.value < 1.0
    {
      if x + y == 0.0 then Failure(ZeroDivision)
      else
        ProbabilityBounds(x, y, Yes);
        Success(y / (x + y))
    }

    /**
     * `buy_ja`: the NEIN reserves take the points and the JA reserves shrink to
     * keep `k`. Started from a pool whose product is `k`, the shares and new
     * reserves are those of the pool math's yes-buy (`JaBuyIsPoolBuy`).
     */
    method BuyJa(points: real) returns (r: Result<Trade, AmmError>)
      modifies this
      ensures old(x + y) == 0.0 || old(y) + points == 0.0 ==> r == Failure(ZeroDivision) && x == old(x) && y == old(y)
      ensures old(x + y) != 0.0 && old(y) + points != 0.0 ==>
        && y == old(y) + points && x == k / y && x * y == k
        && (r.Failure? <==> x + y == 0.0)
      ensures r.Success? ==>
        && r.value.amount == points * (old(x) + old(y) + points) / (old(y) + points)
        && r.value.oldPrice == Probability(old(x), old(y), Yes)
        && r.value.newPrice == Probability(x, y, Yes)
      ensures old(x) > 0.0 && old(y) > 0.0 && points > 0.0 && old(x) * old(y) == k ==>
        r.Success? && r.value.newPrice > r.value.oldPrice
    {
      var oldPrice := PriceJa();
      if oldPrice.Failure? || y + points == 0.0 {
        return Failure(ZeroDivision);
      }
      var sharesOut := points * (x + y + points) / (y + points);
      ghost var x0, y0 := x, y;
      y := y + points;
      x := k / y;
      JaBuyStep(x0, y0, points, k, x, y);
      var newPrice := PriceJa();
      if newPrice.Failure? {
        return Failure(ZeroDivision);
      }
      r := Success(Trade(sharesOut, oldPrice.value, newPrice.value));
    }

    /** `buy_nein`: the mirror image of `BuyJa`, the pool math's no-buy (`NeinBuyIsPoolBuy`). */
    method BuyNein(points: real) returns (r: Result<Trade, AmmError>)
      modifies this
      ensures old(x + y) == 0.0 || old(x) + points == 0.0 ==> r == Failure(ZeroDivision) && x == old(x) && y == old(y)
      ensures old(x + y) != 0.0 && old(x) + points != 0.0 ==>
        && x == old(x) + points && y == k / x && x * y == k
        && (r.Failure? <==> x + y == 0.0)
      ensures r.Success? ==>
        && r.value.amount == points * (old(x) + old(y) + points) / (old(x) + points)
        && r.value.oldPrice == Probability(old(x), old(y), Yes)
        && r.value.newPrice == Probability(x, y, Yes)
      ensures old(x) > 0.0 && old(y) > 0.0 && points > 0.0 && old(x) * old(y) == k ==>
        r.Success? && r.value.newPrice < r.value.oldPrice
    {
      var oldPrice := PriceJa();
      if oldPrice.Failure? || x + points == 0.0 {
        return Failure(ZeroDivision);
      }
      var sharesOut := points * (x + y + points) / (x + points);
      ghost var x0, y0 := x, y;
      x := x + points;
      y := k / x;
      NeinBuyStep(x0, y0, points, k, x, y);
      var newPrice := PriceJa();
      if newPrice.Failure? {
        return Failure(ZeroDivision);
      }
      r := Success(Trade(sharesOut, oldPrice.value, newPrice.value));
    }

    /**
     * `sell_ja`: JA reserves grow by the shares, NEIN reserves shrink to keep
     * `k`, and the payout is the drop in NEIN reserves. When the new JA
     * reserves are zero the division fails after `x` was already updated.
     */
    method SellJa(shares: real) returns (r: Result<Trade, AmmError>)
      modifies this
      ensures old(x + y) == 0.0 ==> r == Failure(ZeroDivision) && x == old(x) && y == old(y)
      ensures old(x + y) != 0.0 ==> x == old(x) + shares
      ensures old(x + y) != 0.0 && x == 0.0 ==> r == Failure(ZeroDivision) && y == old(y)
      ensures old(x + y) != 0.0 && x != 0.0 ==>
        && y == k / x && x * y == k
        && (r.Failure? <==> x + y == 0.0)
      ensures r.Success? ==>
        && r.value.amount == old(y) - y
        && r.value.oldPrice == Probability(old(x), old(y), Yes)
        && r.value.newPrice == Probability(x, y, Yes)
      ensures old(x) > 0.0 && old(y) > 0.0 && shares > 0.0 && old(x) * old(y) == k ==>
        r.Success? && r.value.amount > 0.0
    {
      var oldPrice := PriceJa();
      if oldPrice.Failure? {
        return Failure(ZeroDivision);
      }
      ghost var x0, y0 := x, y;
      x := x + shares;
      if x == 0.0 {
        return Failure(ZeroDivision);
      }
      var dy := y - k / x;
      y := k / x;
      QuotientTimesDivisor(k, x, y);
      var newPrice := PriceJa();
      if newPrice.Failure? {
        return Failure(ZeroDivision);
      }
      r := Success(Trade(dy, oldPrice.value, newPrice.value));
      if x0 > 0.0 && y0 > 0.0 && shares > 0.0 && x0 * y0 == k {
        JaSalePaysOut(x0, y0, shares);
      }
    }
  }
}
