/**
 * The prediction-market engine (src/lib/server/predictions/predictions.ts).
 *
 * Each exported operation runs inside one database transaction, so each is a method on
 * the `Database` that either commits all of its writes or fails and leaves every table as
 * it was.  The schema's check constraints are what make some writes fail: a write that
 * would store a non-positive pool or a non-positive share amount aborts the transaction
 * (ConstraintViolation).  Fresh ids (crypto.randomUUID) and the current time (new Date)
 * are parameters; the clock never runs backwards.
 *
 * What each operation decides is a function on the tables (BuyPlan, SellPlan, PaidShares,
 * ApplyPayouts, ...); the methods perform the writes and are proved against those
 * functions, and the lemmas below state what the functions guarantee.
 */
module Predictions {
  import opened Wrappers
  import opened PoolMath
  import opened Schema
  import opened Store
  import Seqs

  /** The errors the engine throws (each one rolls the transaction back). */
  datatype EngineError =
    | MarketNotFound      // 'Market not found'
    | MarketNotOpen       // 'Market is not open for trading' / '... for resolution'
    | PortfolioNotFound   // 'Portfolio not found'
    | CurrencyNotHeld     // 'Portfolio does not have the required currency'
    | InsufficientBalance // 'Insufficient balance in portfolio currency'
    | SharesNotFound      // 'Shares not found for this portfolio'
    | InvalidMarketState  // thrown by the sale-price quadratic
    | ConstraintViolation // a check constraint rejected a write

  /** A market-history row recording the given pools and the implied 'yes' probability. */
  function PoolSnapshot(marketId: MarketId, yesPool: real, noPool: real, now: Timestamp): (h: HistoryEntry)
    ensures h.marketId == marketId && h.yesPool == yesPool && h.noPool == noPool && h.date == now
    ensures yesPool == noPool ==> h.probability == 0.5
    ensures yesPool > 0.0 && noPool > 0.0 ==> 0.0 < h.probability < 1.0
  {
    ProbabilityBounds(yesPool, noPool, Yes);
    HistoryEntry(marketId, yesPool, noPool, Probability(yesPool, noPool, Yes), now)
  }

  // ---------------------------------------------------------------------------
  // createManualPredictionMarket
  // ---------------------------------------------------------------------------

  /**
   * Opens a binary text market whose pools each hold half of `poolSize`, and logs its
   * opening snapshot.  A non-positive `poolSize` breaks the pool checks and nothing is
   * written.
   */
  method CreateMarket(db: Database, marketId: MarketId, title: string, text: string, endDate: Timestamp,
                      deciderId: UserId, poolSize: real, currencyId: CurrencyId, now: Timestamp)
    returns (r: Result<MarketId, EngineError>)
    requires db.Valid()
    requires marketId !in db.markets
    requires ClockAfter(db.marketHistory, now)
    modifies db
    ensures db.Valid()
    ensures r.Failure? <==> poolSize <= 0.0
    ensures r.Failure? ==> r.error == ConstraintViolation && unchanged(db)
    ensures r.Success? ==>
      var m := NewTextMarket(marketId, title, text, endDate, deciderId, poolSize / 2.0, poolSize / 2.0, currencyId, now);
      && r.value == marketId
      && db.markets == old(db.markets)[marketId := m]
      && m.status == Pending && m.result == NullResult && m.yesPool == m.noPool == poolSize / 2.0
      && db.marketHistory == old(db.marketHistory) + [HistoryEntry(marketId, poolSize / 2.0, poolSize / 2.0, 0.5, now)]
      && db.shares == old(db.shares) && db.balances == old(db.balances)
      && db.transactions == old(db.transactions) && db.CatalogueOf() == old(db.CatalogueOf())
  {
    var half := poolSize / 2.0;
    var m := NewTextMarket(marketId, title, text, endDate, deciderId, half, half, currencyId, now);
    if !MarketChecks(m) {
      return Failure(ConstraintViolation);
    }
    var entry := PoolSnapshot(marketId, half, half, now);
    ProbabilityBounds(half, half, Yes);
    AppendKeepsSorted(db.marketHistory, entry);
    db.markets := db.markets[marketId := m];
    db.marketHistory := db.marketHistory + [entry];
    r := Success(marketId);
  }

  // ---------------------------------------------------------------------------
  // buyPredictionMarketShares
  // ---------------------------------------------------------------------------

  /**
   * What a purchase of `amount` on `side` decides, checked in the order the source
   * checks: market, status, portfolio, balance row, balance, then the check constraints
   * of the pool update and of the share insert.
   */
  function BuyPlan(markets: map<MarketId, Market>, portfolios: map<PortfolioId, Portfolio>,
                   balances: map<BalanceKey, real>, marketId: MarketId, portfolioId: PortfolioId,
                   amount: real, side: Side): (r: Result<Purchase, EngineError>)
    ensures r.Success? ==>
      && marketId in markets && markets[marketId].status == Pending && portfolioId in portfolios
      && (portfolioId, markets[marketId].currencyId) in balances
      && BoughtShares(markets[marketId].yesPool, markets[marketId].noPool, amount, side) == Some(r.value)
  {
    if marketId !in markets then Failure(MarketNotFound)
    else
      var m := markets[marketId];
      if m.status != Pending then Failure(MarketNotOpen)
      else if portfolioId !in portfolios then Failure(PortfolioNotFound)
      else if (portfolioId, m.currencyId) !in balances then Failure(CurrencyNotHeld)
      else if balances[(portfolioId, m.currencyId)] < amount then Failure(InsufficientBalance)
      else match BoughtShares(m.yesPool, m.noPool, amount, side)
        case None => Failure(ConstraintViolation)
        case Some(p) =>
          if p.yesPoolAfter > 0.0 && p.noPoolAfter > 0.0 && p.userShares > 0.0 then Success(p)
          else Failure(ConstraintViolation)
  }

  /** The prediction_cost row of a purchase: money leaves the portfolio, linked to the new share. */
  function CostRecord(portfolioId: PortfolioId, currencyId: CurrencyId, amount: real, userShares: real,
                      shareId: ShareId, now: Timestamp): (r: TransactionRecord)
    requires userShares != 0.0
    ensures r.portfolioId == portfolioId && r.kind == PredictionCost && r.executedAt == now && r.shareId == Some(shareId)
    ensures r.totalValue == -amount && r.fromCurrencyId == currencyId && r.toCurrencyId == currencyId
    ensures r.pricePerUnit.Some? && r.pricePerUnit.value * userShares == amount
  {
    TransactionRecord(portfolioId, PredictionCost, -amount, None, Some(amount / userShares), 0.0,
                      currencyId, currencyId, now, Some(shareId))
  }

  /**
   * The writes a trade commits together: the market's new pools, the new share table,
   * the debited or credited balance row, the transaction row and a history snapshot.
   */
  method CommitTrade(db: Database, marketId: MarketId, yesPool: real, noPool: real, shares: seq<Share>,
                     key: BalanceKey, balance: real, record: TransactionRecord, now: Timestamp)
    requires db.Valid()
    requires marketId in db.markets && yesPool > 0.0 && noPool > 0.0
    requires (forall i :: 0 <= i < |shares| ==> ShareChecks(shares[i])) && UniqueShareIds(shares)
    requires ClockAfter(db.marketHistory, now)
    modifies db
    ensures db.Valid()
    ensures db.markets == old(db.markets)[marketId := old(db.markets)[marketId].(yesPool := yesPool, noPool := noPool)]
    ensures db.shares == shares
    ensures db.balances == old(db.balances)[key := balance]
    ensures db.transactions == old(db.transactions) + [record]
    ensures db.marketHistory == old(db.marketHistory) + [PoolSnapshot(marketId, yesPool, noPool, now)]
    ensures db.CatalogueOf() == old(db.CatalogueOf())
  {
    var entry := PoolSnapshot(marketId, yesPool, noPool, now);
    AppendKeepsSorted(db.marketHistory, entry);
    db.markets := db.markets[marketId := db.markets[marketId].(yesPool := yesPool, noPool := noPool)];
    db.shares := shares;
    db.balances := db.balances[key := balance];
    db.transactions := db.transactions + [record];
    db.marketHistory := db.marketHistory + [entry];
  }

  /** Adding a row whose id is new keeps share ids unique. */
  lemma AppendKeepsUnique(shares: seq<Share>, share: Share)
    requires UniqueShareIds(shares)
    requires forall i :: 0 <= i < |shares| ==> shares[i].id != share.id
    ensures UniqueShareIds(shares + [share])
  {
  }

  method BuyShares(db: Database, marketId: MarketId, portfolioId: PortfolioId, amount: real, side: Side,
                   shareId: ShareId, now: Timestamp)
    returns (r: Result<(ShareId, real), EngineError>)
    requires db.Valid()
    requires forall i :: 0 <= i < |db.shares| ==> db.shares[i].id != shareId
    requires ClockAfter(db.marketHistory, now)
    modifies db
    ensures db.Valid()
    ensures match BuyPlan(old(db.markets), old(db.portfolios), old(db.balances), marketId, portfolioId, amount, side)
      case Failure(e) => r == Failure(e) && unchanged(db)
      case Success(p) =>
        var m := old(db.markets)[marketId];
        var key := (portfolioId, m.currencyId);
        && r == Success((shareId, p.userShares))
        && db.markets == old(db.markets)[marketId := m.(yesPool := p.yesPoolAfter, noPool := p.noPoolAfter)]
        && db.shares == old(db.shares) + [Share(shareId, portfolioId, marketId, p.userShares, m.currencyId, side, now)]
        && db.balances == old(db.balances)[key := old(db.balances)[key] - amount]
        && db.transactions == old(db.transactions) + [CostRecord(portfolioId, m.currencyId, amount, p.userShares, shareId, now)]
        && db.marketHistory == old(db.marketHistory) + [PoolSnapshot(marketId, p.yesPoolAfter, p.noPoolAfter, now)]
        && db.CatalogueOf() == old(db.CatalogueOf())
  {
    if marketId !in db.markets {
      return Failure(MarketNotFound);
    }
    var m := db.markets[marketId];
    if m.status != Pending {
      return Failure(MarketNotOpen);
    }
    if portfolioId !in db.portfolios {
      return Failure(PortfolioNotFound);
    }
    var key := (portfolioId, m.currencyId);
    if key !in db.balances {
      return Failure(CurrencyNotHeld);
    }
    var held := db.balances[key];
    if held < amount {
      return Failure(InsufficientBalance);
    }
    var bought := BoughtShares(m.yesPool, m.noPool, amount, side);
    if bought.None? {
      // the counter pool would become 0: the pool check rejects the update
      return Failure(ConstraintViolation);
    }
    var p := bought.value;
    if !(p.yesPoolAfter > 0.0 && p.noPoolAfter > 0.0) {
      return Failure(ConstraintViolation);
    }
    if !(p.userShares > 0.0) {
      return Failure(ConstraintViolation);
    }
    var share := Share(shareId, portfolioId, marketId, p.userShares, m.currencyId, side, now);
    AppendKeepsUnique(db.shares, share);
    CommitTrade(db, marketId, p.yesPoolAfter, p.noPoolAfter, db.shares + [share], key, held - amount,
                CostRecord(portfolioId, m.currencyId, amount, p.userShares, shareId, now), now);
    r := Success((shareId, p.userShares));
  }

  /**
   * A purchase that goes through on a market satisfying the pool checks spent a positive
   * amount the portfolio held, issued more shares than it cost, kept the pool product, and
   * moved the counter pool up by exactly the amount.
   */
  lemma BuySpendsHeldFunds(markets: map<MarketId, Market>, portfolios: map<PortfolioId, Portfolio>,
                           balances: map<BalanceKey, real>, marketId: MarketId, portfolioId: PortfolioId,
                           amount: real, side: Side)
    requires marketId in markets && MarketChecks(markets[marketId])
    requires BuyPlan(markets, portfolios, balances, marketId, portfolioId, amount, side).Success?
    ensures var m := markets[marketId];
      var p := BuyPlan(markets, portfolios, balances, marketId, portfolioId, amount, side).value;
      && amount > 0.0
      && balances[(portfolioId, m.currencyId)] - amount >= 0.0
      && p.userShares > amount
      && p.yesPoolAfter * p.noPoolAfter == m.yesPool * m.noPool
      && CounterPool(p.yesPoolAfter, p.noPoolAfter, side) == CounterPool(m.yesPool, m.noPool, side) + amount
      && BuyPool(p.yesPoolAfter, p.noPoolAfter, side) < BuyPool(m.yesPool, m.noPool, side)
  {
    var m := markets[marketId];
    if amount <= 0.0 {
      NonPositiveBuyViolatesChecks(m.yesPool, m.noPool, amount, side);
      assert false;
    }
    BuyMovesPools(m.yesPool, m.noPool, amount, side);
  }

  /**
   * The other direction: a positive purchase on an open market that satisfies the pool
   * checks, by an existing portfolio holding at least `amount`, always goes through.
   */
  lemma FundedBuySucceeds(markets: map<MarketId, Market>, portfolios: map<PortfolioId, Portfolio>,
                          balances: map<BalanceKey, real>, marketId: MarketId, portfolioId: PortfolioId,
                          amount: real, side: Side)
    requires marketId in markets && MarketChecks(markets[marketId]) && markets[marketId].status == Pending
    requires portfolioId in portfolios
    requires (portfolioId, markets[marketId].currencyId) in balances
    requires balances[(portfolioId, markets[marketId].currencyId)] >= amount > 0.0
    ensures BuyPlan(markets, portfolios, balances, marketId, portfolioId, amount, side).Success?
  {
    var m := markets[marketId];
    BuyMovesPools(m.yesPool, m.noPool, amount, side);
  }

  /**
   * The ways a purchase is refused: a missing or closed market, a missing portfolio, a
   * missing balance row, a balance below the amount, and (on a market satisfying the
   * pool checks) a non-positive amount.
   */
  lemma BuyRejections(markets: map<MarketId, Market>, portfolios: map<PortfolioId, Portfolio>,
                      balances: map<BalanceKey, real>, marketId: MarketId, portfolioId: PortfolioId,
                      amount: real, side: Side)
    ensures var r := BuyPlan(markets, portfolios, balances, marketId, portfolioId, amount, side);
      && (marketId !in markets ==> r == Failure(MarketNotFound))
      && (marketId in markets && markets[marketId].status != Pending ==> r == Failure(MarketNotOpen))
      && (marketId in markets && markets[marketId].status == Pending && portfolioId !in portfolios
          ==> r == Failure(PortfolioNotFound))
      && ((marketId in markets && markets[marketId].status == Pending && portfolioId in portfolios
           && (portfolioId, markets[marketId].currencyId) !in balances) ==> r == Failure(CurrencyNotHeld))
      && ((marketId in markets && markets[marketId].status == Pending && portfolioId in portfolios
           && (portfolioId, markets[marketId].currencyId) in balances
           && balances[(portfolioId, markets[marketId].currencyId)] < amount) ==> r == Failure(InsufficientBalance))
      && (marketId in markets && MarketChecks(markets[marketId]) && amount <= 0.0 ==> r.Failure?)
  {
    if marketId in markets && MarketChecks(markets[marketId]) && amount <= 0.0 {
      var m := markets[marketId];
      NonPositiveBuyViolatesChecks(m.yesPool, m.noPool, amount, side);
    }
  }

  // ---------------------------------------------------------------------------
  // sellPredictionMarketShares
  // ---------------------------------------------------------------------------

  /** The share row the sale query finds: id and owner match (the market is not compared). */
  function FindShareAsWritten(shares: seq<Share>, portfolioId: PortfolioId, shareId: ShareId): (r: Option<Share>)
    ensures r.Some? ==> r.value in shares && r.value.id == shareId && r.value.portfolioId == portfolioId
    ensures r.None? <==> forall s :: s in shares ==> !(s.id == shareId && s.portfolioId == portfolioId)
  {
    var hits := Seqs.Filter((s: Share) => s.id == shareId && s.portfolioId == portfolioId, shares);
    if |hits| == 0 then None else Some(hits[0])
  }

  /** The share row a sale on `marketId` is meant to find: id, owner and market all match. */
  function FindShare(shares: seq<Share>, marketId: MarketId, portfolioId: PortfolioId, shareId: ShareId)
    : (r: Option<Share>)
    ensures r.Some? ==> r.value in shares && r.value.id == shareId && r.value.portfolioId == portfolioId
                        && r.value.marketId == marketId
    ensures r.None? <==>
      forall s :: s in shares ==> !(s.id == shareId && s.portfolioId == portfolioId && s.marketId == marketId)
  {
    var hits := Seqs.Filter((s: Share) => s.id == shareId && s.portfolioId == portfolioId && s.marketId == marketId,
                            shares);
    if |hits| == 0 then None else Some(hits[0])
  }

  /** The share table after deleting the rows with id `shareId`. */
  function RemoveShare(shares: seq<Share>, shareId: ShareId): (r: seq<Share>)
    ensures forall s :: s in r <==> s in shares && s.id != shareId
  {
    Seqs.Filter((s: Share) => s.id != shareId, shares)
  }

  datatype SaleQuote = SaleQuote(share: Share, sale: Sale)

  /**
   * What a sale decides once the share lookup has run (`found`), in the source's order:
   * market, status, share, the quadratic, the pool checks of the update, the balance row.
   */
  function SellPlanWith(markets: map<MarketId, Market>, found: Option<Share>, balances: map<BalanceKey, real>,
                        marketId: MarketId, portfolioId: PortfolioId, sqrt: real -> real)
    : (r: Result<SaleQuote, EngineError>)
    ensures r.Success? ==>
      && marketId in markets && markets[marketId].status == Pending
      && found == Some(r.value.share)
      && (portfolioId, markets[marketId].currencyId) in balances
      && SaleAmount(markets[marketId].yesPool, markets[marketId].noPool, r.value.share.amount,
                    r.value.share.choice, sqrt) == Success(r.value.sale)
      && r.value.sale.yesPoolAfter > 0.0 && r.value.sale.noPoolAfter > 0.0
  {
    if marketId !in markets then Failure(MarketNotFound)
    else
      var m := markets[marketId];
      if m.status != Pending then Failure(MarketNotOpen)
      else match found
        case None => Failure(SharesNotFound)
        case Some(s) =>
          match SaleAmount(m.yesPool, m.noPool, s.amount, s.choice, sqrt)
          case Failure(_) => Failure(InvalidMarketState)
          case Success(sale) =>
            if !(sale.yesPoolAfter > 0.0 && sale.noPoolAfter > 0.0) then Failure(ConstraintViolation)
            else if (portfolioId, m.currencyId) !in balances then Failure(CurrencyNotHeld)
            else Success(SaleQuote(s, sale))
  }

  /** The sale as the source performs it: the share is looked up by id and owner only. */
  function SellPlanAsWritten(markets: map<MarketId, Market>, shares: seq<Share>, balances: map<BalanceKey, real>,
                             marketId: MarketId, portfolioId: PortfolioId, shareId: ShareId, sqrt: real -> real)
    : (r: Result<SaleQuote, EngineError>)
    ensures r.Success? ==> r.value.share in shares && r.value.share.id == shareId
                           && r.value.share.portfolioId == portfolioId
  {
    SellPlanWith(markets, FindShareAsWritten(shares, portfolioId, shareId), balances, marketId, portfolioId, sqrt)
  }

  /** The sale as intended: only a share of the market being traded can be sold there. */
  function SellPlan(markets: map<MarketId, Market>, shares: seq<Share>, balances: map<BalanceKey, real>,
                    marketId: MarketId, portfolioId: PortfolioId, shareId: ShareId, sqrt: real -> real)
    : (r: Result<SaleQuote, EngineError>)
    ensures r.Success? ==> r.value.share in shares && r.value.share.id == shareId
                           && r.value.share.portfolioId == portfolioId && r.value.share.marketId == marketId
  {
    SellPlanWith(markets, FindShare(shares, marketId, portfolioId, shareId), balances, marketId, portfolioId, sqrt)
  }

  /**
   * The prediction_sale row of a sale.  Its share link names the share the same sale
   * deletes; the column is declared a foreign key with ON DELETE SET NULL, which this
   * model does not enforce, so the id stays as plain data.
   */
  function SaleRecord(portfolioId: PortfolioId, currencyId: CurrencyId, salePrice: real, shareAmount: real,
                      shareId: ShareId, now: Timestamp): (r: TransactionRecord)
    requires shareAmount != 0.0
    ensures r.portfolioId == portfolioId && r.kind == PredictionSale && r.executedAt == now && r.shareId == Some(shareId)
    ensures r.totalValue == salePrice && r.fromCurrencyId == currencyId && r.toCurrencyId == currencyId
    ensures r.pricePerUnit.Some? && r.pricePerUnit.value * shareAmount == salePrice
  {
    TransactionRecord(portfolioId, PredictionSale, salePrice, None, Some(salePrice / shareAmount), 0.0,
                      currencyId, currencyId, now, Some(shareId))
  }

  method SellShares(db: Database, marketId: MarketId, portfolioId: PortfolioId, shareId: ShareId,
                    sqrt: real -> real, now: Timestamp)
    returns (r: Result<real, EngineError>)
    requires db.Valid()
    requires ClockAfter(db.marketHistory, now)
    modifies db
    ensures db.Valid()
    ensures match SellPlan(old(db.markets), old(db.shares), old(db.balances), marketId, portfolioId, shareId, sqrt)
      case Failure(e) => r == Failure(e) && unchanged(db)
      case Success(q) =>
        var m := old(db.markets)[marketId];
        var key := (portfolioId, m.currencyId);
        && q.share.amount > 0.0
        && r == Success(q.sale.salePrice)
        && db.markets == old(db.markets)[marketId := m.(yesPool := q.sale.yesPoolAfter, noPool := q.sale.noPoolAfter)]
        && db.shares == RemoveShare(old(db.shares), shareId)
        && db.balances == old(db.balances)[key := old(db.balances)[key] + q.sale.salePrice]
        && db.transactions == old(db.transactions) + [SaleRecord(portfolioId, m.currencyId, q.sale.salePrice, q.share.amount, shareId, now)]
        && db.marketHistory == old(db.marketHistory) + [PoolSnapshot(marketId, q.sale.yesPoolAfter, q.sale.noPoolAfter, now)]
        && db.CatalogueOf() == old(db.CatalogueOf())
  {
    if marketId !in db.markets {
      return Failure(MarketNotFound);
    }
    var m := db.markets[marketId];
    if m.status != Pending {
      return Failure(MarketNotOpen);
    }
    var found := FindShare(db.shares, marketId, portfolioId, shareId);
    if found.None? {
      return Failure(SharesNotFound);
    }
    var share := found.value;
    var quote := SaleAmount(m.yesPool, m.noPool, share.amount, share.choice, sqrt);
    if quote.Failure? {
      return Failure(InvalidMarketState);
    }
    var sale := quote.value;
    if !(sale.yesPoolAfter > 0.0 && sale.noPoolAfter > 0.0) {
      return Failure(ConstraintViolation);
    }
    var key := (portfolioId, m.currencyId);
    if key !in db.balances {
      // the pool update and the share deletion are rolled back with the throw
      return Failure(CurrencyNotHeld);
    }
    assert ShareChecks(share);
    RemoveKeepsUnique(db.shares, shareId);
    CommitTrade(db, marketId, sale.yesPoolAfter, sale.noPoolAfter, RemoveShare(db.shares, shareId), key,
                db.balances[key] + sale.salePrice, SaleRecord(portfolioId, m.currencyId, sale.salePrice, share.amount, shareId, now), now);
    r := Success(sale.salePrice);
  }

  /** Deleting rows keeps share ids unique and keeps the share check. */
  lemma RemoveKeepsUnique(shares: seq<Share>, shareId: ShareId)
    requires UniqueShareIds(shares)
    ensures UniqueShareIds(RemoveShare(shares, shareId))
  {
    var r := RemoveShare(shares, shareId);
    forall i, j | 0 <= i < j < |r|
      ensures r[i].id != r[j].id
    {
      assert r[i] in shares && r[j] in shares;
      assert r[i].id != shareId;
      assert r[i] != r[j] by {
        FilterDistinct(shares, shareId, i, j);
      }
      var a :| 0 <= a < |shares| && shares[a] == r[i];
      var b :| 0 <= b < |shares| && shares[b] == r[j];
      assert a != b;
    }
  }

  /** Rows kept by a deletion stay pairwise distinct when ids were unique. */
  lemma {:induction false} FilterDistinct(shares: seq<Share>, shareId: ShareId, i: int, j: int)
    requires UniqueShareIds(shares)
    requires 0 <= i < j < |RemoveShare(shares, shareId)|
    ensures RemoveShare(shares, shareId)[i] != RemoveShare(shares, shareId)[j]
    decreases |shares|
  {
    var n := |shares|;
    var front := shares[..n - 1];
    var last := shares[n - 1];
    assert shares == front + [last];
    Seqs.FilterConcat((s: Share) => s.id != shareId, front, [last]);
    var r := RemoveShare(shares, shareId);
    var rf := RemoveShare(front, shareId);
    assert UniqueShareIds(front);
    if j < |rf| {
      assert r[i] == rf[i] && r[j] == rf[j];
      FilterDistinct(front, shareId, i, j);
    } else {
      assert r[j] == last;
      assert rf[i] in front;
      assert r[i] == rf[i];
      assert r[i].id != last.id;
    }
  }

  /**
   * On a state the schema allows and with an exact square root, a sale never trips the
   * quadratic's error or the pool checks; it goes through exactly when the market is open,
   * the portfolio owns the share in that market and holds the market's currency; and then
   * its price is positive and the pool product is kept.
   */
  lemma SellOnValidState(markets: map<MarketId, Market>, shares: seq<Share>, balances: map<BalanceKey, real>,
                         marketId: MarketId, portfolioId: PortfolioId, shareId: ShareId, sqrt: real -> real)
    requires IsSquareRoot(sqrt)
    requires marketId in markets ==> MarketChecks(markets[marketId])
    requires forall i :: 0 <= i < |shares| ==> ShareChecks(shares[i])
    ensures var r := SellPlan(markets, shares, balances, marketId, portfolioId, shareId, sqrt);
      && r != Failure(InvalidMarketState) && r != Failure(ConstraintViolation)
      && (r.Success? <==>
            && marketId in markets && markets[marketId].status == Pending
            && FindShare(shares, marketId, portfolioId, shareId).Some?
            && (portfolioId, markets[marketId].currencyId) in balances)
      && (r.Success? ==>
            && r.value.sale.salePrice > 0.0
            && r.value.sale.yesPoolAfter * r.value.sale.noPoolAfter == markets[marketId].yesPool * markets[marketId].noPool)
  {
    var found := FindShare(shares, marketId, portfolioId, shareId);
    if marketId in markets && found.Some? {
      var m := markets[marketId];
      assert ShareChecks(found.value);
      SaleIsSound(m.yesPool, m.noPool, found.value.amount, found.value.choice, sqrt);
    }
  }

  /**
   * The lookup as written lets a portfolio sell, on an open market A, a share it holds in
   * another market B (here one already resolved): the sale is priced against A's pools,
   * while the intended lookup refuses it.
   */
  lemma SellAsWrittenAcceptsForeignShare(sqrt: real -> real)
    requires IsSquareRoot(sqrt)
    ensures var a := Market("A", BinaryText, Pending, NullResult, "a", None, 50.0, 50.0, "EUR", None, None, None, None, 0, 0);
      var b := a.(id := "B", status := Resolved, result := SideWon(Yes));
      var markets := map["A" := a, "B" := b];
      var shares := [Share("S", "P", "B", 10.0, "EUR", Yes, 0)];
      var balances := map[("P", "EUR") := 0.0];
      && SellPlanAsWritten(markets, shares, balances, "A", "P", "S", sqrt).Success?
      && SellPlanAsWritten(markets, shares, balances, "A", "P", "S", sqrt).value.share.marketId == "B"
      && SellPlan(markets, shares, balances, "A", "P", "S", sqrt) == Failure(SharesNotFound)
  {
    var s := Share("S", "P", "B", 10.0, "EUR", Yes, 0);
    var shares := [s];
    Seqs.FilterKeepsAll((x: Share) => x.id == "S" && x.portfolioId == "P", shares);
    assert FindShareAsWritten(shares, "P", "S") == Some(s);
    SaleIsSound(50.0, 50.0, 10.0, Yes, sqrt);
  }

  // ---------------------------------------------------------------------------
  // resolvePredictionMarket
  // ---------------------------------------------------------------------------

  /**
   * The shares a resolution pays: those of the market on the winning side, or every share
   * of the market when the result is 'null'.
   */
  function PaidShares(shares: seq<Share>, marketId: MarketId, result: MarketResult): (r: seq<Share>)
    ensures forall s :: s in r <==>
      s in shares && s.marketId == marketId && (result.NullResult? || s.choice == result.side)
  {
    Seqs.Filter((s: Share) => s.marketId == marketId && (result.NullResult? || s.choice == result.side), shares)
  }

  /** Currency paid per share: 1 for a winning share, 0.5 as a refund when the result is 'null'. */
  function PayoutRate(result: MarketResult): real
  {
    if result.NullResult? then 0.5 else 1.0
  }

  /** The prediction_win or prediction_draw row of one paid share (no share link, default fee). */
  function PayoutRecord(s: Share, currencyId: CurrencyId, result: MarketResult, now: Timestamp): (r: TransactionRecord)
    ensures r.portfolioId == s.portfolioId && r.executedAt == now && r.shareId.None?
    ensures r.kind == PredictionDraw <==> result.NullResult?
    ensures r.kind == PredictionWin <==> !result.NullResult?
    ensures r.pricePerUnit.Some? && r.totalValue == s.amount * r.pricePerUnit.value
  {
    TransactionRecord(s.portfolioId, if result.NullResult? then PredictionDraw else PredictionWin,
                      Payout(s, PayoutRate(result)), None, Some(PayoutRate(result)), 0.0,
                      currencyId, currencyId, now, None)
  }

  /** One payout row per paid share, in the order the shares are paid. */
  function PayoutRecords(paid: seq<Share>, currencyId: CurrencyId, result: MarketResult, now: Timestamp)
    : (r: seq<TransactionRecord>)
    ensures |r| == |paid|
    ensures forall i :: 0 <= i < |r| ==>
      && r[i].portfolioId == paid[i].portfolioId
      && r[i].totalValue == Payout(paid[i], PayoutRate(result))
      && r[i].kind == (if result.NullResult? then PredictionDraw else PredictionWin)
      && r[i].shareId.None?
  {
    seq(|paid|, i requires 0 <= i < |paid| => PayoutRecord(paid[i], currencyId, result, now))
  }

  /** What one paid share credits at `rate` per unit. */
  function Payout(s: Share, rate: real): real
  {
    s.amount * rate
  }

  /** The balances after paying every share of `paid`, one after the other, at `rate`. */
  function ApplyPayouts(balances: map<BalanceKey, real>, paid: seq<Share>, currencyId: CurrencyId, rate: real)
    : map<BalanceKey, real>
    decreases |paid|
  {
    if |paid| == 0 then balances
    else
      var last := paid[|paid| - 1];
      Credit(ApplyPayouts(balances, paid[..|paid| - 1], currencyId, rate), (last.portfolioId, currencyId), Payout(last, rate))
  }

  /** The total share amount a portfolio holds among `shares`. */
  function AmountOf(shares: seq<Share>, portfolioId: PortfolioId): real
    decreases |shares|
  {
    if |shares| == 0 then 0.0
    else
      var last := shares[|shares| - 1];
      AmountOf(shares[..|shares| - 1], portfolioId) + (if last.portfolioId == portfolioId then last.amount else 0.0)
  }

  /** The fold pays the last share after all the others. */
  lemma ApplyPayoutsLast(balances: map<BalanceKey, real>, paid: seq<Share>, currencyId: CurrencyId, rate: real)
    requires |paid| > 0
    ensures ApplyPayouts(balances, paid, currencyId, rate)
         == Credit(ApplyPayouts(balances, paid[..|paid| - 1], currencyId, rate),
                   (paid[|paid| - 1].portfolioId, currencyId), Payout(paid[|paid| - 1], rate))
  {
  }

  /** What the paid shares of one portfolio credit at `rate`, summed share by share. */
  function PaidTo(paid: seq<Share>, portfolioId: PortfolioId, rate: real): real
    decreases |paid|
  {
    if |paid| == 0 then 0.0
    else
      var last := paid[|paid| - 1];
      PaidTo(paid[..|paid| - 1], portfolioId, rate) + (if last.portfolioId == portfolioId then Payout(last, rate) else 0.0)
  }

  /** The per-share credits of a portfolio add up to `rate` times the amount it holds. */
  lemma {:induction false} PaidToScales(paid: seq<Share>, portfolioId: PortfolioId, rate: real)
    ensures PaidTo(paid, portfolioId, rate) == rate * AmountOf(paid, portfolioId)
    decreases |paid|
  {
    if |paid| > 0 {
      var front := paid[..|paid| - 1];
      var last := paid[|paid| - 1];
      PaidToScales(front, portfolioId, rate);
      Distributes(rate, AmountOf(front, portfolioId), if last.portfolioId == portfolioId then last.amount else 0.0,
                  AmountOf(paid, portfolioId));
    } else {
      Distributes(rate, 0.0, 0.0, AmountOf(paid, portfolioId));
    }
  }

  /** The fold credits each portfolio's balance row with exactly its per-share credits. */
  lemma {:induction false} PaidToCredited(balances: map<BalanceKey, real>, paid: seq<Share>, currencyId: CurrencyId,
                                          rate: real, portfolioId: PortfolioId)
    ensures BalanceOf(ApplyPayouts(balances, paid, currencyId, rate), (portfolioId, currencyId))
         == BalanceOf(balances, (portfolioId, currencyId)) + PaidTo(paid, portfolioId, rate)
    decreases |paid|
  {
    if |paid| > 0 {
      var front := paid[..|paid| - 1];
      var last := paid[|paid| - 1];
      PaidToCredited(balances, front, currencyId, rate, portfolioId);
      ApplyPayoutsLast(balances, paid, currencyId, rate);
      CreditChangesOneRow(ApplyPayouts(balances, front, currencyId, rate), (last.portfolioId, currencyId),
                          Payout(last, rate), (portfolioId, currencyId));
    }
  }

  /** A portfolio's balance in the market currency grows by `rate` times the amount it holds among the paid shares. */
  lemma PayoutCredits(balances: map<BalanceKey, real>, paid: seq<Share>, currencyId: CurrencyId,
                      rate: real, portfolioId: PortfolioId)
    ensures BalanceOf(ApplyPayouts(balances, paid, currencyId, rate), (portfolioId, currencyId))
         == BalanceOf(balances, (portfolioId, currencyId)) + rate * AmountOf(paid, portfolioId)
  {
    PaidToCredited(balances, paid, currencyId, rate, portfolioId);
    PaidToScales(paid, portfolioId, rate);
  }

  /**
   * Paying touches only rows of the market currency, and creates exactly the missing rows
   * of the portfolios that hold a paid share.
   */
  lemma {:induction false} PayoutRows(balances: map<BalanceKey, real>, paid: seq<Share>, currencyId: CurrencyId,
                                      rate: real, key: BalanceKey)
    ensures key in ApplyPayouts(balances, paid, currencyId, rate) <==>
      key in balances || (key.1 == currencyId && exists i :: 0 <= i < |paid| && paid[i].portfolioId == key.0)
    ensures key.1 != currencyId && key in balances ==> ApplyPayouts(balances, paid, currencyId, rate)[key] == balances[key]
    decreases |paid|
  {
    if |paid| > 0 {
      var front := paid[..|paid| - 1];
      PayoutRows(balances, front, currencyId, rate, key);
      if key.1 == currencyId && (exists i :: 0 <= i < |front| && front[i].portfolioId == key.0) {
        var i :| 0 <= i < |front| && front[i].portfolioId == key.0;
        assert paid[i] == front[i];
      }
      if key.1 == currencyId && (exists i :: 0 <= i < |paid| && paid[i].portfolioId == key.0) {
        var i :| 0 <= i < |paid| && paid[i].portfolioId == key.0;
        if i < |front| {
          assert front[i] == paid[i];
        }
      }
    }
  }

  /** Only paid shares count: a portfolio without any adds nothing. */
  lemma {:induction false} AmountOfAbsent(shares: seq<Share>, portfolioId: PortfolioId)
    requires forall i :: 0 <= i < |shares| ==> shares[i].portfolioId != portfolioId
    ensures AmountOf(shares, portfolioId) == 0.0
    decreases |shares|
  {
    if |shares| > 0 {
      AmountOfAbsent(shares[..|shares| - 1], portfolioId);
    }
  }

  /** Marks an open market resolved, logs its unchanged pools, and pays the shares `PaidShares` selects. */
  method ResolveMarket(db: Database, marketId: MarketId, result: MarketResult, now: Timestamp)
    returns (r: Result<(), EngineError>)
    requires db.Valid()
    requires ClockAfter(db.marketHistory, now)
    modifies db
    ensures db.Valid()
    ensures marketId !in old(db.markets) ==> r == Failure(MarketNotFound) && unchanged(db)
    ensures marketId in old(db.markets) && old(db.markets)[marketId].status != Pending ==>
      r == Failure(MarketNotOpen) && unchanged(db)
    ensures marketId in old(db.markets) && old(db.markets)[marketId].status == Pending ==>
      var m := old(db.markets)[marketId];
      var paid := PaidShares(old(db.shares), marketId, result);
      && r == Success(())
      && db.markets == old(db.markets)[marketId := m.(status := Resolved, result := result)]
      && db.marketHistory == old(db.marketHistory) + [PoolSnapshot(marketId, m.yesPool, m.noPool, now)]
      && db.shares == old(db.shares)
      && db.balances == ApplyPayouts(old(db.balances), paid, m.currencyId, PayoutRate(result))
      && db.transactions == old(db.transactions) + PayoutRecords(paid, m.currencyId, result, now)
      && db.CatalogueOf() == old(db.CatalogueOf())
  {
    if marketId !in db.markets {
      return Failure(MarketNotFound);
    }
    var m := db.markets[marketId];
    if m.status != Pending {
      return Failure(MarketNotOpen);
    }
    db.markets := db.markets[marketId := m.(status := Resolved, result := result)];
    var entry := PoolSnapshot(marketId, m.yesPool, m.noPool, now);
    AppendKeepsSorted(db.marketHistory, entry);
    db.marketHistory := db.marketHistory + [entry];
    var paid := PaidShares(db.shares, marketId, result);
    var credited, records := PayShares(db.balances, paid, m.currencyId, result, now);
    db.balances := credited;
    db.transactions := db.transactions + records;
    r := Success(());
  }

  /**
   * The payout loop of a resolution, over the rows the transaction will commit: credits
   * each paid share to its owner's balance in the market currency, creating a missing row
   * at 0 first, and produces one payout row per share.
   */
  method PayShares(balances: map<BalanceKey, real>, paid: seq<Share>, currencyId: CurrencyId,
                   result: MarketResult, now: Timestamp)
    returns (credited: map<BalanceKey, real>, records: seq<TransactionRecord>)
    ensures credited == ApplyPayouts(balances, paid, currencyId, PayoutRate(result))
    ensures records == PayoutRecords(paid, currencyId, result, now)
  {
    var rate := PayoutRate(result);
    credited, records := balances, [];
    for i := 0 to |paid|
      invariant credited == ApplyPayouts(balances, paid[..i], currencyId, rate)
      invariant records == PayoutRecords(paid[..i], currencyId, result, now)
    {
      var share := paid[i];
      PayoutStep(balances, paid, i, currencyId, rate, credited);
      PayoutRecordsStep(paid, i, currencyId, result, now);
      credited := CreditRow(credited, (share.portfolioId, currencyId), Payout(share, rate));
      records := records + [PayoutRecord(share, currencyId, result, now)];
    }
    assert paid[..|paid|] == paid;
  }

  /**
   * One payout's balance update: the row is read, or inserted at 0 when it is missing,
   * and then set to its previous amount plus `x`.
   */
  method CreditRow(balances: map<BalanceKey, real>, key: BalanceKey, x: real) returns (credited: map<BalanceKey, real>)
    ensures credited == Credit(balances, key, x)
  {
    var previousAmount := 0.0;
    if key in balances {
      previousAmount := balances[key];
    }
    credited := balances[key := previousAmount + x];
  }

  /** Crediting one more paid share extends the fold by that share. */
  lemma PayoutStep(balances: map<BalanceKey, real>, paid: seq<Share>, i: nat, currencyId: CurrencyId, rate: real,
                   credited: map<BalanceKey, real>)
    requires i < |paid|
    requires credited == ApplyPayouts(balances, paid[..i], currencyId, rate)
    ensures Credit(credited, (paid[i].portfolioId, currencyId), Payout(paid[i], rate))
         == ApplyPayouts(balances, paid[..i + 1], currencyId, rate)
  {
    assert paid[..i + 1][..i] == paid[..i];
  }

  /** One more paid share extends the payout rows by that share's row. */
  lemma PayoutRecordsStep(paid: seq<Share>, i: nat, currencyId: CurrencyId, result: MarketResult, now: Timestamp)
    requires i < |paid|
    ensures PayoutRecords(paid[..i + 1], currencyId, result, now)
         == PayoutRecords(paid[..i], currencyId, result, now) + [PayoutRecord(paid[i], currencyId, result, now)]
  {
    var longer := PayoutRecords(paid[..i + 1], currencyId, result, now);
    var shorter := PayoutRecords(paid[..i], currencyId, result, now) + [PayoutRecord(paid[i], currencyId, result, now)];
    forall k | 0 <= k < i + 1
      ensures longer[k] == shorter[k]
    {
      assert paid[..i + 1][k] == paid[k];
      if k < i {
        assert paid[..i][k] == paid[k];
      }
    }
  }

  /**
   * A resolution with a winning side pays each portfolio one unit per winning share it
   * owns, creates no row for a portfolio without winning shares, and pays nothing for a
   * losing share; a 'null' resolution refunds half of every share of the market.
   */
  lemma ResolutionPayouts(shares: seq<Share>, balances: map<BalanceKey, real>, marketId: MarketId,
                          currencyId: CurrencyId, result: MarketResult, portfolioId: PortfolioId)
    ensures var paid := PaidShares(shares, marketId, result);
      var after := ApplyPayouts(balances, paid, currencyId, PayoutRate(result));
      && BalanceOf(after, (portfolioId, currencyId))
         == BalanceOf(balances, (portfolioId, currencyId)) + PayoutRate(result) * AmountOf(paid, portfolioId)
      && (result.SideWon? ==> PayoutRate(result) == 1.0)
      && (result.NullResult? ==> PayoutRate(result) == 0.5 && forall s :: s in shares && s.marketId == marketId ==> s in paid)
      && (forall s :: s in shares && result.SideWon? && s.choice != result.side ==> s !in paid)
      && ((forall s :: s in paid ==> s.portfolioId != portfolioId) ==>
            AmountOf(paid, portfolioId) == 0.0
            && ((portfolioId, currencyId) in after <==> (portfolioId, currencyId) in balances))
  {
    var paid := PaidShares(shares, marketId, result);
    PayoutCredits(balances, paid, currencyId, PayoutRate(result), portfolioId);
    PayoutRows(balances, paid, currencyId, PayoutRate(result), (portfolioId, currencyId));
    if forall s :: s in paid ==> s.portfolioId != portfolioId {
      AmountOfAbsent(paid, portfolioId);
    }
  }

  /** Once a market is no longer pending, every later purchase, sale or resolution is refused. */
  lemma ClosedMarketRejects(markets: map<MarketId, Market>, portfolios: map<PortfolioId, Portfolio>,
                            shares: seq<Share>, balances: map<BalanceKey, real>, marketId: MarketId,
                            portfolioId: PortfolioId, shareId: ShareId, amount: real, side: Side, sqrt: real -> real)
    requires marketId in markets && markets[marketId].status == Resolved
    ensures BuyPlan(markets, portfolios, balances, marketId, portfolioId, amount, side) == Failure(MarketNotOpen)
    ensures SellPlan(markets, shares, balances, marketId, portfolioId, shareId, sqrt) == Failure(MarketNotOpen)
  {
  }

  // ---------------------------------------------------------------------------
  // getPredictionMarketData and getUserPredictionMarketPositions
  // ---------------------------------------------------------------------------

  /** The history rows of one market, in log order. */
  function HistoryOf(history: seq<HistoryEntry>, marketId: MarketId): (r: seq<HistoryEntry>)
    ensures forall e :: e in r <==> e in history && e.marketId == marketId
  {
    Seqs.Filter((e: HistoryEntry) => e.marketId == marketId, history)
  }

  /** Selecting one market's rows from a date-ordered log yields them in date order. */
  lemma {:induction false} HistoryOfSorted(history: seq<HistoryEntry>, marketId: MarketId)
    requires HistorySorted(history)
    ensures HistorySorted(HistoryOf(history, marketId))
    decreases |history|
  {
    if |history| > 0 {
      var front, last := history[..|history| - 1], history[|history| - 1];
      HistoryOfSorted(front, marketId);
      var kept := HistoryOf(front, marketId);
      forall i | 0 <= i < |kept|
        ensures kept[i].date <= last.date
      {
        assert kept[i] in front;
      }
      if last.marketId == marketId {
        SortedSnoc(kept, last);
      }
    }
  }

  /** An entry dated no earlier than every entry of a date-ordered log extends it in order. */
  lemma SortedSnoc(h: seq<HistoryEntry>, e: HistoryEntry)
    requires HistorySorted(h)
    requires forall i :: 0 <= i < |h| ==> h[i].date <= e.date
    ensures HistorySorted(h + [e])
  {
    assert forall i :: 0 <= i < |h| ==> (h + [e])[i] == h[i];
  }

  datatype MarketView = MarketView(market: Market, history: seq<HistoryEntry>)

  /**
   * Each requested market that exists, once, with its history in date order.  The rows
   * come in the order of the requested ids.
   */
  method MarketData(db: Database, marketIds: seq<MarketId>) returns (views: seq<MarketView>)
    requires db.Valid()
    ensures forall i :: 0 <= i < |views| ==>
      && views[i].market.id in marketIds && views[i].market.id in db.markets
      && views[i].market == db.markets[views[i].market.id]
      && views[i].history == HistoryOf(db.marketHistory, views[i].market.id)
      && HistorySorted(views[i].history)
    ensures forall i, j :: 0 <= i < j < |views| ==> views[i].market.id != views[j].market.id
    ensures forall id :: id in marketIds && id in db.markets ==> exists i :: 0 <= i < |views| && views[i].market.id == id
  {
    views := CollectViews(db.markets, db.marketHistory, marketIds);
  }

  /** The loop of `getMarketData` over the market table and the history log. */
  method CollectViews(markets: map<MarketId, Market>, history: seq<HistoryEntry>, marketIds: seq<MarketId>)
    returns (views: seq<MarketView>)
    requires forall id :: id in markets ==> markets[id].id == id
    requires HistorySorted(history)
    ensures forall i :: 0 <= i < |views| ==>
      && views[i].market.id in marketIds && views[i].market.id in markets
      && views[i].market == markets[views[i].market.id]
      && views[i].history == HistoryOf(history, views[i].market.id)
      && HistorySorted(views[i].history)
    ensures forall i, j :: 0 <= i < j < |views| ==> views[i].market.id != views[j].market.id
    ensures forall id :: id in marketIds && id in markets ==> exists i :: 0 <= i < |views| && views[i].market.id == id
  {
    views := [];
    for k := 0 to |marketIds|
      invariant forall i :: 0 <= i < |views| ==>
        && views[i].market.id in marketIds[..k] && views[i].market.id in markets
        && views[i].market == markets[views[i].market.id]
        && views[i].history == HistoryOf(history, views[i].market.id)
        && HistorySorted(views[i].history)
      invariant forall i, j :: 0 <= i < j < |views| ==> views[i].market.id != views[j].market.id
      invariant forall id :: id in marketIds[..k] && id in markets ==>
        exists i :: 0 <= i < |views| && views[i].market.id == id
    {
      var id := marketIds[k];
      if id in markets && forall i :: 0 <= i < |views| ==> views[i].market.id != id {
        HistoryOfSorted(history, id);
        ghost var before := views;
        views := views + [MarketView(markets[id], HistoryOf(history, id))];
        assert forall i :: 0 <= i < |before| ==> views[i] == before[i];
        assert views[|views| - 1].market.id == id;
      }
      assert marketIds[..k + 1] == marketIds[..k] + [id];
    }
    assert marketIds[..|marketIds|] == marketIds;
  }

  /**
   * The shares of a portfolio, restricted to the given markets when a list is supplied
   * (an empty list then selects nothing).
   */
  function Positions(shares: seq<Share>, portfolioId: PortfolioId, marketIds: Option<seq<MarketId>>)
    : (r: seq<Share>)
    ensures forall s :: s in r <==>
      s in shares && s.portfolioId == portfolioId && (marketIds.None? || s.marketId in marketIds.value)
    ensures marketIds == Some([]) ==> r == []
  {
    var r := Seqs.Filter((s: Share) => s.portfolioId == portfolioId && (marketIds.None? || s.marketId in marketIds.value),
                         shares);
    assert r != [] ==> r[0] in r;
    r
  }
}
