/**
 * The SQLite database the server writes through (src/lib/server/db/index.ts), as one
 * object whose fields are the tables.  Every exported operation of the market engine and
 * of the ledger helpers is a method over this object.
 *
 * Tables keyed by a primary key the operations look rows up by are maps; tables whose rows
 * are scanned in storage order (shares, the two logs, exchange pairs, assets) are sequences.
 * A portfolio_currency row is identified by its (portfolio, currency) pair.
 */
module Store {
  import opened Schema

  /** Dates of a history log never decrease (rows are appended with the current time). */
  predicate HistorySorted(h: seq<HistoryEntry>)
  {
    forall i, j :: 0 <= i < j < |h| ==> h[i].date <= h[j].date
  }

  /** `now` is not earlier than anything already in the log: the clock never runs backwards. */
  predicate ClockAfter(h: seq<HistoryEntry>, now: Timestamp)
  {
    forall i :: 0 <= i < |h| ==> h[i].date <= now
  }

  /** The share table holds at most one row per id. */
  predicate UniqueShareIds(shares: seq<Share>)
  {
    forall i, j :: 0 <= i < j < |shares| ==> shares[i].id != shares[j].id
  }

  /** The exchange_pair.symbol column is unique. */
  predicate UniquePairSymbols(pairs: seq<ExchangePair>)
  {
    forall i, j :: 0 <= i < j < |pairs| ==> pairs[i].symbol != pairs[j].symbol
  }

  /** The tables the market engine only reads. */
  datatype Catalogue = Catalogue(
    currencies: map<CurrencyId, Currency>,
    categories: map<CategoryId, Category>,
    exchangePairs: seq<ExchangePair>,
    assets: seq<Asset>,
    portfolios: map<PortfolioId, Portfolio>)

  class Database {
    var currencies: map<CurrencyId, Currency>
    var categories: map<CategoryId, Category>
    var exchangePairs: seq<ExchangePair>
    var assets: seq<Asset>
    var portfolios: map<PortfolioId, Portfolio>
    var balances: map<BalanceKey, real>
    var transactions: seq<TransactionRecord>
    var markets: map<MarketId, Market>
    var shares: seq<Share>
    var marketHistory: seq<HistoryEntry>

    /**
     * What the schema guarantees of every committed state: primary keys agree with the
     * rows they index, the check constraints of prediction_market and
     * prediction_market_share hold, share ids and pair symbols are unique, and the
     * market history is in date order.
     */
    ghost predicate Valid()
      reads this
    {
      && (forall id :: id in currencies ==> currencies[id].id == id)
      && (forall id :: id in categories ==> categories[id].id == id)
      && (forall id :: id in portfolios ==> portfolios[id].id == id)
      && (forall id :: id in markets ==> markets[id].id == id && MarketChecks(markets[id]))
      && (forall i :: 0 <= i < |shares| ==> ShareChecks(shares[i]))
      && UniqueShareIds(shares)
      && UniquePairSymbols(exchangePairs)
      && HistorySorted(marketHistory)
    }

    function CatalogueOf(): Catalogue
      reads this
    {
      Catalogue(currencies, categories, exchangePairs, assets, portfolios)
    }

    /** A freshly migrated, empty database. */
    constructor ()
      ensures Valid()
      ensures currencies == map[] && categories == map[] && exchangePairs == [] && assets == []
      ensures portfolios == map[] && balances == map[] && transactions == []
      ensures markets == map[] && shares == [] && marketHistory == []
    {
      currencies := map[];
      categories := map[];
      exchangePairs := [];
      assets := [];
      portfolios := map[];
      balances := map[];
      transactions := [];
      markets := map[];
      shares := [];
      marketHistory := [];
    }
  }

  /** The balance of a portfolio_currency row, reading an absent row as 0. */
  function BalanceOf(balances: map<BalanceKey, real>, key: BalanceKey): real
  {
    if key in balances then balances[key] else 0.0
  }

  /**
   * Adds `x` to the balance row `key`, inserting the row when it is missing; every other
   * row is left as it was.
   */
  function Credit(balances: map<BalanceKey, real>, key: BalanceKey, x: real): (credited: map<BalanceKey, real>)
    ensures credited.Keys == balances.Keys + {key}
    ensures credited[key] == BalanceOf(balances, key) + x
    ensures forall other :: other in balances && other != key ==> credited[other] == balances[other]
  {
    balances[key := BalanceOf(balances, key) + x]
  }

  /** A credit creates at most its own row, moves it by exactly `x`, and keeps every other row. */
  lemma CreditChangesOneRow(balances: map<BalanceKey, real>, key: BalanceKey, x: real, other: BalanceKey)
    ensures Credit(balances, key, x).Keys == balances.Keys + {key}
    ensures BalanceOf(Credit(balances, key, x), key) == BalanceOf(balances, key) + x
    ensures other != key ==> BalanceOf(Credit(balances, key, x), other) == BalanceOf(balances, other)
  {
  }

  /** Two changes to one row add up, whether or not the row existed. */
  lemma CreditsCompose(balances: map<BalanceKey, real>, key: BalanceKey, x: real, y: real)
    ensures Credit(Credit(balances, key, x), key, y) == Credit(balances, key, x + y)
  {
  }

  /** Changes to different rows commute. */
  lemma CreditsCommute(balances: map<BalanceKey, real>, k1: BalanceKey, x: real, k2: BalanceKey, y: real)
    requires k1 != k2
    ensures Credit(Credit(balances, k1, x), k2, y) == Credit(Credit(balances, k2, y), k1, x)
  {
  }

  /** Appending an entry dated `now` keeps a log sorted when the clock has not run backwards. */
  lemma AppendKeepsSorted(h: seq<HistoryEntry>, e: HistoryEntry)
    requires HistorySorted(h) && ClockAfter(h, e.date)
    ensures HistorySorted(h + [e])
  {
  }
}
