/**
 * Rows of the tables the market engine and the ledger touch
 * (src/lib/server/db/schema.ts): their enums, defaults, check constraints and
 * the cascade rules of their foreign keys.  Random ids of log rows are not kept;
 * timestamps are integer milliseconds.
 */
module Schema {
  import opened Wrappers
  import opened PoolMath
  import Seqs

  type MarketId = string
  type ShareId = string
  type PortfolioId = string
  type CurrencyId = string
  type CategoryId = string
  type UserId = string
  /** Milliseconds since the Unix epoch. */
  type Timestamp = int

  // ----- prediction_market -----

  datatype MarketKind = BinaryText | PriceTarget
  datatype MarketStatus = Pending | Resolved | Cancelled
  /** The `result` column: 'yes' or 'no' (a side won) or 'null' (unresolved or void). */
  datatype MarketResult = SideWon(side: Side) | NullResult
  datatype Direction = Above | Below

  datatype Market = Market(
    id: MarketId,
    kind: MarketKind,
    status: MarketStatus,
    result: MarketResult,
    title: string,
    text: Option<string>,
    yesPool: real,
    noPool: real,
    currencyId: CurrencyId,
    deciderId: Option<UserId>,
    assetId: Option<string>,
    targetPrice: Option<real>,
    direction: Option<Direction>,
    endDate: Timestamp,
    createdAt: Timestamp)

  /** A binary text market as inserted, with the column defaults: status 'pending', result 'null'. */
  function NewTextMarket(id: MarketId, title: string, text: string, endDate: Timestamp, deciderId: UserId,
                         yesPool: real, noPool: real, currencyId: CurrencyId, createdAt: Timestamp): (m: Market)
    ensures m.status == Pending && m.result == NullResult && m.kind == BinaryText
    ensures m.id == id && m.yesPool == yesPool && m.noPool == noPool && m.currencyId == currencyId
    ensures m.assetId.None? && m.targetPrice.None? && m.direction.None?
  {
    Market(id, BinaryText, Pending, NullResult, title, Some(text), yesPool, noPool, currencyId,
           Some(deciderId), None, None, None, endDate, createdAt)
  }

  /** Check constraints yesPoolPositive and noPoolPositive. */
  predicate MarketChecks(m: Market)
  {
    m.yesPool > 0.0 && m.noPool > 0.0
  }

  // ----- prediction_market_share -----

  datatype Share = Share(
    id: ShareId,
    portfolioId: PortfolioId,
    marketId: MarketId,
    amount: real,
    currencyId: CurrencyId,
    choice: Side,
    createdAt: Timestamp)

  /** Check constraint amountPositive. */
  predicate ShareChecks(s: Share)
  {
    s.amount > 0.0
  }

  // ----- prediction_market_history -----

  datatype HistoryEntry = HistoryEntry(
    marketId: MarketId,
    yesPool: real,
    noPool: real,
    probability: real,
    date: Timestamp)

  // ----- transaction -----

  /**
   * Transaction types.  The first thirteen are the column's enum; PredictionSale and
   * PredictionDraw are written by the market engine but missing from that enum.
   */
  datatype TransactionType =
    | Buy | Sell | Deposit | Withdrawal | Sent | Received | Gift | Fee | CurrencyConversion
    | PredictionCost | PredictionWin | PredictionLoss | PredictionReimbursement
    | PredictionSale | PredictionDraw

  /** Membership in the enum declared for the `type` column. */
  predicate DeclaredTransactionType(t: TransactionType)
  {
    !(t.PredictionSale? || t.PredictionDraw?)
  }

  datatype TransactionRecord = TransactionRecord(
    portfolioId: PortfolioId,
    kind: TransactionType,
    totalValue: real,
    units: Option<real>,
    pricePerUnit: Option<real>,
    fee: real,
    fromCurrencyId: CurrencyId,
    toCurrencyId: CurrencyId,
    executedAt: Timestamp,
    shareId: Option<ShareId>)

  // ----- portfolio, portfolio_currency and catalogue tables -----

  datatype Portfolio = Portfolio(id: PortfolioId, userId: UserId, name: string)

  /** A portfolio_currency row is identified by its (portfolio, currency) pair. */
  type BalanceKey = (PortfolioId, CurrencyId)

  datatype Currency = Currency(id: CurrencyId, name: string, symbol: string, isRealWorld: bool)

  datatype Category = Category(id: CategoryId, name: string, description: Option<string>)

  datatype ExchangePair = ExchangePair(
    fromCurrencyId: CurrencyId,
    toCurrencyId: CurrencyId,
    symbol: string,
    staticConversionRate: Option<real>,
    name: Option<string>)

  datatype Asset = Asset(symbol: string, name: string, categoryId: CategoryId, currencyId: CurrencyId)

  // ----- cascade rules -----

  /** A transaction row with its share link cleared if it points at `shareId`. */
  function UnlinkShare(t: TransactionRecord, shareId: ShareId): TransactionRecord
  {
    if t.shareId == Some(shareId) then t.(shareId := None) else t
  }

  /**
   * ON DELETE SET NULL of transaction.prediction_market_share_id: deleting a share
   * clears exactly the links that point at it and changes nothing else.
   */
  function DeleteShareLinks(txs: seq<TransactionRecord>, shareId: ShareId): (r: seq<TransactionRecord>)
    ensures |r| == |txs|
    ensures forall i :: 0 <= i < |r| ==> r[i].shareId != Some(shareId)
    ensures forall i :: 0 <= i < |r| ==> r[i].(shareId := txs[i].shareId) == txs[i]
    ensures forall i :: 0 <= i < |r| && txs[i].shareId != Some(shareId) ==> r[i] == txs[i]
  {
    seq(|txs|, i requires 0 <= i < |txs| => UnlinkShare(txs[i], shareId))
  }

  /** The rows that survive deleting portfolio `p` (ON DELETE CASCADE into its children). */
  datatype PortfolioChildren = PortfolioChildren(
    balances: map<BalanceKey, real>,
    transactions: seq<TransactionRecord>,
    shares: seq<Share>)

  /**
   * ON DELETE CASCADE from portfolio into portfolio_currency, transaction and
   * prediction_market_share: every row of `p` goes and every other row stays.
   */
  function DeletePortfolioCascade(rows: PortfolioChildren, p: PortfolioId): (r: PortfolioChildren)
    ensures forall k :: k in r.balances <==> k in rows.balances && k.0 != p
    ensures forall k :: k in r.balances ==> r.balances[k] == rows.balances[k]
    ensures forall t :: t in r.transactions <==> t in rows.transactions && t.portfolioId != p
    ensures forall s :: s in r.shares <==> s in rows.shares && s.portfolioId != p
  {
    PortfolioChildren(
      map k | k in rows.balances && k.0 != p :: rows.balances[k],
      Seqs.Filter((t: TransactionRecord) => t.portfolioId != p, rows.transactions),
      Seqs.Filter((s: Share) => s.portfolioId != p, rows.shares))
  }
}
