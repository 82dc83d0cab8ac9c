/**
 * Ledger and seeding helpers (src/lib/server/db/actions.ts): the balance upsert, the
 * creation of a new portfolio with its starting capital, the idempotent seeding of base
 * currencies, asset categories and exchange pairs, and the pagination arithmetic.
 */
module Actions {
  import opened Wrappers
  import opened Schema
  import opened Store
  import Seqs

  datatype ActionError =
    | EurNotFound          // 'EUR currency not found'
    | DuplicatePairSymbol  // the unique exchange_pair.symbol rejected an insert

  // ---------------------------------------------------------------------------
  // updatePortfolioCurrency
  // ---------------------------------------------------------------------------

  /**
   * Adds `amountChange` to the (portfolio, currency) row, inserting the row with that
   * amount when it does not exist.  Returns the row's new amount.
   */
  method UpdatePortfolioCurrency(db: Database, portfolioId: PortfolioId, currencyId: CurrencyId, amountChange: real)
    returns (amount: real)
    modifies db
    ensures var key := (portfolioId, currencyId);
      && (key in old(db.balances) ==> db.balances == old(db.balances)[key := old(db.balances)[key] + amountChange])
      && (key !in old(db.balances) ==> db.balances == old(db.balances)[key := amountChange])
      && db.balances == Credit(old(db.balances), key, amountChange)
      && amount == db.balances[key]
    ensures db.transactions == old(db.transactions) && db.markets == old(db.markets) && db.shares == old(db.shares)
    ensures db.marketHistory == old(db.marketHistory) && db.CatalogueOf() == old(db.CatalogueOf())
  {
    var key := (portfolioId, currencyId);
    if key in db.balances {
      var existing := db.balances[key];
      db.balances := db.balances[key := existing + amountChange];
    } else {
      db.balances := db.balances[key := amountChange];
    }
    amount := db.balances[key];
  }

  // ---------------------------------------------------------------------------
  // createUserPortfolio
  // ---------------------------------------------------------------------------

  /** The starting gift, in EUR. */
  const StartingCapital: real := 100000.0

  /** The balance rows of a new portfolio: one per known currency, the gift in EUR and 0 elsewhere. */
  function StartingBalances(portfolioId: PortfolioId, currencies: set<CurrencyId>): (r: map<BalanceKey, real>)
    ensures forall k :: k in r <==> k.0 == portfolioId && k.1 in currencies
    ensures forall k :: k in r ==> r[k] == (if k.1 == "EUR" then StartingCapital else 0.0)
  {
    map c | c in currencies :: (portfolioId, c) := if c == "EUR" then StartingCapital else 0.0
  }

  /** Adding one currency to the set adds exactly its row. */
  lemma StartingBalancesAdd(portfolioId: PortfolioId, currencies: set<CurrencyId>, c: CurrencyId)
    ensures StartingBalances(portfolioId, currencies + {c})
         == StartingBalances(portfolioId, currencies)[(portfolioId, c) := if c == "EUR" then StartingCapital else 0.0]
  {
  }

  /** The 'gift' row recording the starting capital. */
  function GiftRecord(portfolioId: PortfolioId, now: Timestamp): (r: TransactionRecord)
    ensures r.portfolioId == portfolioId && r.kind == Gift && r.executedAt == now
    ensures r.totalValue == StartingCapital && r.fromCurrencyId == "EUR" && r.toCurrencyId == "EUR"
    ensures r.units.None? && r.pricePerUnit.None? && r.fee == 0.0 && r.shareId.None?
  {
    TransactionRecord(portfolioId, Gift, StartingCapital, None, None, 0.0, "EUR", "EUR", now, None)
  }

  /**
   * The loop over the known currencies: a row at 0 for every currency but EUR, then the
   * EUR row with the starting capital.
   */
  method NewPortfolioRows(portfolioId: PortfolioId, known: set<CurrencyId>) returns (rows: map<BalanceKey, real>)
    requires "EUR" in known
    ensures rows == StartingBalances(portfolioId, known)
  {
    rows := map[];
    var pending := known - {"EUR"};
    while pending != {}
      invariant pending <= known - {"EUR"}
      invariant rows == StartingBalances(portfolioId, known - {"EUR"} - pending)
      decreases pending
    {
      var c :| c in pending;
      StartingBalancesAdd(portfolioId, known - {"EUR"} - pending, c);
      assert known - {"EUR"} - (pending - {c}) == known - {"EUR"} - pending + {c};
      rows := rows[(portfolioId, c) := 0.0];
      pending := pending - {c};
    }
    StartingBalancesAdd(portfolioId, known - {"EUR"}, "EUR");
    assert known - {"EUR"} + {"EUR"} == known;
    rows := rows[(portfolioId, "EUR") := StartingCapital];
  }

  /**
   * Creates a portfolio for `userId` holding the starting capital.  Without a EUR currency
   * the whole transaction is rolled back.
   */
  method CreateUserPortfolio(db: Database, portfolioId: PortfolioId, userId: UserId, name: string, now: Timestamp)
    returns (r: Result<Portfolio, ActionError>)
    requires db.Valid()
    requires portfolioId !in db.portfolios
    requires forall k :: k in db.balances ==> k.0 != portfolioId
    modifies db
    ensures db.Valid()
    ensures r.Failure? <==> "EUR" !in old(db.currencies)
    ensures r.Failure? ==> r.error == EurNotFound && unchanged(db)
    ensures r.Success? ==>
      && r.value == Portfolio(portfolioId, userId, name)
      && db.portfolios == old(db.portfolios)[portfolioId := r.value]
      && db.balances == old(db.balances) + StartingBalances(portfolioId, old(db.currencies).Keys)
      && db.transactions == old(db.transactions) + [GiftRecord(portfolioId, now)]
      && db.currencies == old(db.currencies) && db.categories == old(db.categories)
      && db.exchangePairs == old(db.exchangePairs) && db.assets == old(db.assets)
      && db.markets == old(db.markets) && db.shares == old(db.shares) && db.marketHistory == old(db.marketHistory)
  {
    var portfolio := Portfolio(portfolioId, userId, name);
    if "EUR" !in db.currencies {
      return Failure(EurNotFound);
    }
    var rows := NewPortfolioRows(portfolioId, db.currencies.Keys);
    db.portfolios := db.portfolios[portfolioId := portfolio];
    db.balances := db.balances + rows;
    db.transactions := db.transactions + [GiftRecord(portfolioId, now)];
    r := Success(portfolio);
  }

  /**
   * A created portfolio holds exactly one row per known currency: the starting capital in
   * EUR and nothing in every other currency; rows of other portfolios are untouched.
   */
  lemma StartingCapitalRows(balances: map<BalanceKey, real>, portfolioId: PortfolioId,
                            currencies: set<CurrencyId>, key: BalanceKey)
    requires "EUR" in currencies
    requires forall k :: k in balances ==> k.0 != portfolioId
    ensures var after := balances + StartingBalances(portfolioId, currencies);
      && (key.0 == portfolioId ==> (key in after <==> key.1 in currencies))
      && (key.0 == portfolioId && key.1 in currencies ==> after[key] == (if key.1 == "EUR" then StartingCapital else 0.0))
      && (key.0 != portfolioId ==> (key in after <==> key in balances) && (key in balances ==> after[key] == balances[key]))
      && after[(portfolioId, "EUR")] == StartingCapital
  {
  }

  // ---------------------------------------------------------------------------
  // assertBaseCurrencies
  // ---------------------------------------------------------------------------

  const Eur := Currency("EUR", "Euro", "€", true)
  const Usd := Currency("USD", "US Dollar", "$", true)
  const Gcn := Currency("GCN", "Gnag Coin", "💸", false)

  /** Adds `c` under its id unless that id is taken. */
  function EnsureCurrency(currencies: map<CurrencyId, Currency>, c: Currency): (r: map<CurrencyId, Currency>)
    ensures r.Keys == currencies.Keys + {c.id}
    ensures forall id :: id in currencies ==> r[id] == currencies[id]
    ensures c.id !in currencies ==> r[c.id] == c
  {
    if c.id in currencies then currencies else currencies[c.id := c]
  }

  /** The currency table once EUR, USD and GCN are ensured. */
  function WithBaseCurrencies(currencies: map<CurrencyId, Currency>): (r: map<CurrencyId, Currency>)
    ensures "EUR" in r && "USD" in r && "GCN" in r
    ensures forall id :: id in currencies ==> id in r && r[id] == currencies[id]
    ensures forall id :: id in r ==> id in currencies || id in {"EUR", "USD", "GCN"}
  {
    EnsureCurrency(EnsureCurrency(EnsureCurrency(currencies, Eur), Usd), Gcn)
  }

  /** Ensuring the base currencies a second time changes nothing. */
  lemma BaseCurrenciesIdempotent(currencies: map<CurrencyId, Currency>)
    ensures WithBaseCurrencies(WithBaseCurrencies(currencies)) == WithBaseCurrencies(currencies)
  {
  }

  /** A missing base currency is created with its fixed name, symbol and real-world flag. */
  lemma BaseCurrencyRows(currencies: map<CurrencyId, Currency>)
    ensures "EUR" !in currencies ==> WithBaseCurrencies(currencies)["EUR"] == Currency("EUR", "Euro", "€", true)
    ensures "USD" !in currencies ==> WithBaseCurrencies(currencies)["USD"] == Currency("USD", "US Dollar", "$", true)
    ensures "GCN" !in currencies ==> WithBaseCurrencies(currencies)["GCN"] == Currency("GCN", "Gnag Coin", "💸", false)
  {
  }

  /** Every row stays filed under its own id. */
  lemma BaseCurrenciesKeyed(currencies: map<CurrencyId, Currency>)
    requires forall id :: id in currencies ==> currencies[id].id == id
    ensures forall id :: id in WithBaseCurrencies(currencies) ==> WithBaseCurrencies(currencies)[id].id == id
  {
  }

  /** Returns the EUR, USD and GCN rows, creating any that are missing. */
  method AssertBaseCurrencies(db: Database) returns (eur: Currency, usd: Currency, gcn: Currency)
    requires db.Valid()
    modifies db
    ensures db.Valid()
    ensures db.currencies == WithBaseCurrencies(old(db.currencies))
    ensures eur == db.currencies["EUR"] && usd == db.currencies["USD"] && gcn == db.currencies["GCN"]
    ensures db.categories == old(db.categories) && db.exchangePairs == old(db.exchangePairs)
    ensures db.assets == old(db.assets) && db.portfolios == old(db.portfolios) && db.balances == old(db.balances)
    ensures db.transactions == old(db.transactions) && db.markets == old(db.markets)
    ensures db.shares == old(db.shares) && db.marketHistory == old(db.marketHistory)
  {
    var currencies := db.currencies;
    if "EUR" !in currencies {
      currencies := currencies["EUR" := Eur];
    }
    if "USD" !in currencies {
      currencies := currencies["USD" := Usd];
    }
    if "GCN" !in currencies {
      currencies := currencies["GCN" := Gcn];
    }
    assert currencies == WithBaseCurrencies(db.currencies);
    BaseCurrenciesKeyed(db.currencies);
    db.currencies := currencies;
    eur, usd, gcn := currencies["EUR"], currencies["USD"], currencies["GCN"];
  }

  // ---------------------------------------------------------------------------
  // assertAssetCategories
  // ---------------------------------------------------------------------------

  /** The categories the application needs: equity, etf and future. */
  const BaseCategories: seq<Category> :=
    [Category("equity", "Equity", None), Category("etf", "ETF", None), Category("future", "Future", None)]

  /** The category table after inserting, in order, each entry of `todo` whose id is absent. */
  function EnsureCategories(categories: map<CategoryId, Category>, todo: seq<Category>)
    : (r: map<CategoryId, Category>)
    ensures forall id :: id in categories ==> id in r && r[id] == categories[id]
    ensures forall i :: 0 <= i < |todo| ==> todo[i].id in r
    ensures forall id :: id in r ==> id in categories || exists i :: 0 <= i < |todo| && todo[i].id == id
    ensures (forall id :: id in categories ==> categories[id].id == id) ==> forall id :: id in r ==> r[id].id == id
    decreases |todo|
  {
    if |todo| == 0 then categories
    else
      var c := todo[0];
      var next := EnsureCategories(if c.id in categories then categories else categories[c.id := c], todo[1..]);
      assert forall i :: 1 <= i < |todo| ==> todo[i] == todo[1..][i - 1];
      next
  }

  /** Ensuring the categories again changes nothing. */
  lemma {:induction false} CategoriesIdempotent(categories: map<CategoryId, Category>, todo: seq<Category>)
    ensures EnsureCategories(EnsureCategories(categories, todo), todo) == EnsureCategories(categories, todo)
  {
    EnsureCategoriesNoop(EnsureCategories(categories, todo), todo);
  }

  /** When every id of `todo` is present, nothing is inserted. */
  lemma {:induction false} EnsureCategoriesNoop(categories: map<CategoryId, Category>, todo: seq<Category>)
    requires forall i :: 0 <= i < |todo| ==> todo[i].id in categories
    ensures EnsureCategories(categories, todo) == categories
    decreases |todo|
  {
    if |todo| > 0 {
      EnsureCategoriesNoop(categories, todo[1..]);
    }
  }

  /** The seeding loop of `assertAssetCategories` over a copy of the category table. */
  method SeedCategories(categories: map<CategoryId, Category>, todo: seq<Category>)
    returns (table: map<CategoryId, Category>)
    ensures table == EnsureCategories(categories, todo)
  {
    table := categories;
    for i := 0 to |todo|
      invariant EnsureCategories(table, todo[i..]) == EnsureCategories(categories, todo)
    {
      var category := todo[i];
      assert todo[i..][1..] == todo[i + 1..];
      if category.id !in table {
        table := table[category.id := category];
      }
    }
    assert todo[|todo|..] == [];
  }

  /** The category seeding of `assertAssetCategories`, over any list of categories. */
  method SeedCategoryTable(db: Database, todo: seq<Category>)
    requires db.Valid()
    modifies db
    ensures db.Valid()
    ensures db.categories == EnsureCategories(old(db.categories), todo)
    ensures db.currencies == old(db.currencies) && db.exchangePairs == old(db.exchangePairs)
    ensures db.assets == old(db.assets) && db.portfolios == old(db.portfolios) && db.balances == old(db.balances)
    ensures db.transactions == old(db.transactions) && db.markets == old(db.markets)
    ensures db.shares == old(db.shares) && db.marketHistory == old(db.marketHistory)
  {
    var table := SeedCategories(db.categories, todo);
    db.categories := table;
  }

  /** `assertAssetCategories`: the three base categories are ensured. */
  method AssertAssetCategories(db: Database)
    requires db.Valid()
    modifies db
    ensures db.Valid()
    ensures db.categories == EnsureCategories(old(db.categories), BaseCategories)
    ensures db.currencies == old(db.currencies) && db.exchangePairs == old(db.exchangePairs)
    ensures db.assets == old(db.assets) && db.portfolios == old(db.portfolios) && db.balances == old(db.balances)
    ensures db.transactions == old(db.transactions) && db.markets == old(db.markets)
    ensures db.shares == old(db.shares) && db.marketHistory == old(db.marketHistory)
  {
    SeedCategoryTable(db, BaseCategories);
  }

  // ---------------------------------------------------------------------------
  // assertCurrencyConversions
  // ---------------------------------------------------------------------------

  /** The exchange pairs the application needs, with their market symbols. */
  const BasePairs: seq<ExchangePair> := [
    ExchangePair("EUR", "USD", "EURUSD=X", None, None),
    ExchangePair("USD", "EUR", "USDEUR=X", None, None),
    ExchangePair("EUR", "GCN", "EURGCN", Some(1.0), None),
    ExchangePair("GCN", "EUR", "GNCEUR", Some(1.0), None)]

  /** A pair between these two currencies, in this direction, is present. */
  predicate HasPair(pairs: seq<ExchangePair>, fromId: CurrencyId, toId: CurrencyId)
  {
    exists i :: 0 <= i < |pairs| && pairs[i].fromCurrencyId == fromId && pairs[i].toCurrencyId == toId
  }

  /** A pair with this symbol is present. */
  predicate HasSymbol(pairs: seq<ExchangePair>, symbol: string)
  {
    exists i :: 0 <= i < |pairs| && pairs[i].symbol == symbol
  }

  /** The pair table after the seeding loop, and whether an insert failed partway. */
  datatype PairOutcome = PairOutcome(pairs: seq<ExchangePair>, failed: bool)

  /**
   * The seeding loop over `todo`: a pair whose direction is absent is inserted, unless its
   * symbol is taken, which throws and stops the loop with the earlier inserts in place
   * (the helper does not run in a transaction).
   */
  function EnsurePairs(pairs: seq<ExchangePair>, todo: seq<ExchangePair>): (r: PairOutcome)
    ensures |pairs| <= |r.pairs| && r.pairs[..|pairs|] == pairs
    ensures !r.failed ==> forall q :: q in todo ==> HasPair(r.pairs, q.fromCurrencyId, q.toCurrencyId)
    ensures forall j :: |pairs| <= j < |r.pairs| ==>
      && r.pairs[j] in todo
      && !HasPair(pairs, r.pairs[j].fromCurrencyId, r.pairs[j].toCurrencyId)
      && !HasPair(r.pairs[..j], r.pairs[j].fromCurrencyId, r.pairs[j].toCurrencyId)
    ensures r.failed ==>
      exists q :: q in todo && !HasPair(r.pairs, q.fromCurrencyId, q.toCurrencyId) && HasSymbol(r.pairs, q.symbol)
    decreases |todo|
  {
    if |todo| == 0 then PairOutcome(pairs, false)
    else
      var p := todo[0];
      assert todo == [p] + todo[1..];
      if HasPair(pairs, p.fromCurrencyId, p.toCurrencyId) then
        var r := EnsurePairs(pairs, todo[1..]);
        PrefixKeepsPair(pairs, r.pairs, p.fromCurrencyId, p.toCurrencyId);
        r
      else if HasSymbol(pairs, p.symbol) then PairOutcome(pairs, true)
      else
        var grown := pairs + [p];
        var r := EnsurePairs(grown, todo[1..]);
        assert grown[|pairs|] == p;
        PrefixKeepsPair(grown, r.pairs, p.fromCurrencyId, p.toCurrencyId);
        assert r.pairs[..|pairs|] == grown[..|pairs|] == pairs;
        InsertedPairsAbsent(pairs, grown, r.pairs);
        r
  }

  /**
   * The rows a run appends after an inserted pair `p` were absent from the
   * longer table, so they are absent from the shorter one, and `p` itself was
   * absent from the table it was appended to.
   */
  lemma InsertedPairsAbsent(pairs: seq<ExchangePair>, grown: seq<ExchangePair>, longer: seq<ExchangePair>)
    requires |grown| == |pairs| + 1 && grown[..|pairs|] == pairs
    requires !HasPair(pairs, grown[|pairs|].fromCurrencyId, grown[|pairs|].toCurrencyId)
    requires |grown| <= |longer| && longer[..|grown|] == grown
    requires forall j :: |grown| <= j < |longer| ==>
      !HasPair(longer[..j], longer[j].fromCurrencyId, longer[j].toCurrencyId)
    ensures forall j :: |pairs| <= j < |longer| ==>
      && !HasPair(pairs, longer[j].fromCurrencyId, longer[j].toCurrencyId)
      && !HasPair(longer[..j], longer[j].fromCurrencyId, longer[j].toCurrencyId)
  {
    forall j | |pairs| <= j < |longer|
      ensures !HasPair(pairs, longer[j].fromCurrencyId, longer[j].toCurrencyId)
      ensures !HasPair(longer[..j], longer[j].fromCurrencyId, longer[j].toCurrencyId)
    {
      if j == |pairs| {
        assert longer[j] == grown[|pairs|];
        assert longer[..j] == pairs;
      } else {
        assert longer[..j][..|pairs|] == pairs;
        if HasPair(pairs, longer[j].fromCurrencyId, longer[j].toCurrencyId) {
          PrefixKeepsPair(pairs, longer[..j], longer[j].fromCurrencyId, longer[j].toCurrencyId);
          assert false;
        }
      }
    }
  }

  /** The seeding loop keeps the pair symbols distinct: it appends only pairs whose symbol is free. */
  lemma {:induction false} EnsurePairsKeepsUnique(pairs: seq<ExchangePair>, todo: seq<ExchangePair>)
    requires UniquePairSymbols(pairs)
    ensures UniquePairSymbols(EnsurePairs(pairs, todo).pairs)
    decreases |todo|
  {
    if |todo| > 0 {
      var p := todo[0];
      if HasPair(pairs, p.fromCurrencyId, p.toCurrencyId) {
        EnsurePairsKeepsUnique(pairs, todo[1..]);
      } else if !HasSymbol(pairs, p.symbol) {
        AppendKeepsUnique(pairs, p);
        EnsurePairsKeepsUnique(pairs + [p], todo[1..]);
      }
    }
  }

  /** Appending a pair whose symbol is absent keeps the symbols distinct. */
  lemma AppendKeepsUnique(pairs: seq<ExchangePair>, p: ExchangePair)
    ensures UniquePairSymbols(pairs) && !HasSymbol(pairs, p.symbol) ==> UniquePairSymbols(pairs + [p])
  {
    if UniquePairSymbols(pairs) && !HasSymbol(pairs, p.symbol) {
      var grown := pairs + [p];
      forall i, j | 0 <= i < j < |grown| ensures grown[i].symbol != grown[j].symbol {
        if j == |pairs| {
          assert grown[i] == pairs[i];
        } else {
          assert grown[i] == pairs[i] && grown[j] == pairs[j];
        }
      }
    }
  }

  /** A pair present in a table is present in any table extending it. */
  lemma PrefixKeepsPair(pairs: seq<ExchangePair>, longer: seq<ExchangePair>, fromId: CurrencyId, toId: CurrencyId)
    requires |pairs| <= |longer| && longer[..|pairs|] == pairs
    requires HasPair(pairs, fromId, toId)
    ensures HasPair(longer, fromId, toId)
  {
    var i :| 0 <= i < |pairs| && pairs[i].fromCurrencyId == fromId && pairs[i].toCurrencyId == toId;
    assert longer[i] == pairs[i];
  }

  /** When every direction of `todo` is already present, the loop inserts nothing and succeeds. */
  lemma {:induction false} EnsurePairsNoop(pairs: seq<ExchangePair>, todo: seq<ExchangePair>)
    requires forall i :: 0 <= i < |todo| ==> HasPair(pairs, todo[i].fromCurrencyId, todo[i].toCurrencyId)
    ensures EnsurePairs(pairs, todo) == PairOutcome(pairs, false)
    decreases |todo|
  {
    if |todo| > 0 {
      assert forall i :: 1 <= i < |todo| ==> todo[i] == todo[1..][i - 1];
      EnsurePairsNoop(pairs, todo[1..]);
    }
  }

  /**
   * Seeding the pairs again changes nothing: after a successful run every
   * direction is present, and after a failed run the rerun skips the same
   * pairs and stops at the same clashing insert.
   */
  lemma {:induction false} PairsIdempotent(pairs: seq<ExchangePair>, todo: seq<ExchangePair>)
    ensures EnsurePairs(EnsurePairs(pairs, todo).pairs, todo) == EnsurePairs(pairs, todo)
    decreases |todo|
  {
    if |todo| > 0 {
      var p := todo[0];
      var r := EnsurePairs(pairs, todo);
      if HasPair(pairs, p.fromCurrencyId, p.toCurrencyId) {
        PairsIdempotent(pairs, todo[1..]);
        PrefixKeepsPair(pairs, r.pairs, p.fromCurrencyId, p.toCurrencyId);
      } else if !HasSymbol(pairs, p.symbol) {
        var grown := pairs + [p];
        PairsIdempotent(grown, todo[1..]);
        assert HasPair(grown, p.fromCurrencyId, p.toCurrencyId) by {
          assert grown[|pairs|] == p;
        }
        PrefixKeepsPair(grown, r.pairs, p.fromCurrencyId, p.toCurrencyId);
      }
    }
  }

  /** The seeding loop of `assertCurrencyConversions` over a copy of the pair table. */
  method SeedPairs(pairs: seq<ExchangePair>, todo: seq<ExchangePair>)
    returns (table: seq<ExchangePair>, failed: bool)
    ensures PairOutcome(table, failed) == EnsurePairs(pairs, todo)
  {
    table := pairs;
    for i := 0 to |todo|
      invariant EnsurePairs(table, todo[i..]) == EnsurePairs(pairs, todo)
    {
      var pair := todo[i];
      assert todo[i..][1..] == todo[i + 1..];
      var existing := HasPair(table, pair.fromCurrencyId, pair.toCurrencyId);
      if !existing {
        if HasSymbol(table, pair.symbol) {
          return table, true;
        }
        table := table + [pair];
      }
    }
    assert todo[|todo|..] == [];
    failed := false;
  }

  /** The pair seeding of `assertCurrencyConversions`, over any list of pairs. */
  method SeedPairTable(db: Database, todo: seq<ExchangePair>) returns (r: Result<(), ActionError>)
    requires db.Valid()
    modifies db
    ensures db.Valid()
    ensures db.exchangePairs == EnsurePairs(old(db.exchangePairs), todo).pairs
    ensures r.Failure? <==> EnsurePairs(old(db.exchangePairs), todo).failed
    ensures r.Failure? ==> r.error == DuplicatePairSymbol
    ensures db.currencies == old(db.currencies) && db.categories == old(db.categories)
    ensures db.assets == old(db.assets) && db.portfolios == old(db.portfolios) && db.balances == old(db.balances)
    ensures db.transactions == old(db.transactions) && db.markets == old(db.markets)
    ensures db.shares == old(db.shares) && db.marketHistory == old(db.marketHistory)
  {
    EnsurePairsKeepsUnique(db.exchangePairs, todo);
    var table, failed := SeedPairs(db.exchangePairs, todo);
    db.exchangePairs := table;
    r := if failed then Failure(DuplicatePairSymbol) else Success(());
  }

  /** `assertCurrencyConversions`: the four base pairs are ensured; a clashing symbol aborts. */
  method AssertCurrencyConversions(db: Database) returns (r: Result<(), ActionError>)
    requires db.Valid()
    modifies db
    ensures db.Valid()
    ensures db.exchangePairs == EnsurePairs(old(db.exchangePairs), BasePairs).pairs
    ensures r.Failure? <==> EnsurePairs(old(db.exchangePairs), BasePairs).failed
    ensures r.Failure? ==> r.error == DuplicatePairSymbol
    ensures db.currencies == old(db.currencies) && db.categories == old(db.categories)
    ensures db.assets == old(db.assets) && db.portfolios == old(db.portfolios) && db.balances == old(db.balances)
    ensures db.transactions == old(db.transactions) && db.markets == old(db.markets)
    ensures db.shares == old(db.shares) && db.marketHistory == old(db.marketHistory)
  {
    r := SeedPairTable(db, BasePairs);
  }

  // ---------------------------------------------------------------------------
  // getAssetsPaginated and getUserTransactions
  // ---------------------------------------------------------------------------

  /** The number of rows a page skips. */
  function Offset(page: int, pageSize: int): (offset: int)
    ensures page == 1 ==> offset == 0
    ensures page >= 1 && pageSize >= 0 ==> offset >= 0
  {
    (page - 1) * pageSize
  }

  /** Pages tile the rows: the first page starts at 0 and each page starts where the previous one ends. */
  lemma OffsetsTile(page: int, pageSize: int)
    ensures Offset(1, pageSize) == 0
    ensures Offset(page + 1, pageSize) == Offset(page, pageSize) + pageSize
    ensures page >= 1 && pageSize >= 0 ==> Offset(page, pageSize) >= 0
  {
    assert (page + 1 - 1) * pageSize == (page - 1) * pageSize + pageSize;
    if page >= 1 && pageSize >= 0 {
      assert (page - 1) * pageSize >= 0 by {
        MulNonNegative(page - 1, pageSize);
      }
    }
  }

  lemma MulNonNegative(a: int, b: int)
    requires a >= 0 && b >= 0
    ensures a * b >= 0
  {
  }

  /**
   * The rows an SQL `LIMIT limit OFFSET offset` keeps: a negative offset counts as 0 and
   * a negative limit as no limit.
   */
  function Window<T>(rows: seq<T>, offset: int, limit: int): (r: seq<T>)
    ensures |r| <= |rows|
    ensures limit >= 0 ==> |r| <= limit
    ensures forall x :: x in r ==> x in rows
  {
    var start := if offset < 0 then 0 else if offset > |rows| then |rows| else offset;
    var stop := if limit < 0 || start + limit > |rows| then |rows| else start + limit;
    rows[start..stop]
  }

  /** The transactions of a user's portfolios, one page of them, and their total count. */
  datatype TransactionPage = TransactionPage(rows: seq<TransactionRecord>, totalCount: nat)

  /**
   * getUserTransactions: a user without portfolios gets no rows and a count of 0;
   * otherwise the count covers all transactions of the user's portfolios and the page
   * holds at most `pageSize` of them, newest first, taken as the log reversed.
   */
  function UserTransactions(portfolios: map<PortfolioId, Portfolio>, transactions: seq<TransactionRecord>,
                            userId: UserId, page: int, pageSize: int): (r: TransactionPage)
    ensures (forall id :: id in portfolios ==> portfolios[id].userId != userId) ==> r == TransactionPage([], 0)
    ensures forall t :: t in r.rows ==>
      t in transactions && t.portfolioId in portfolios && portfolios[t.portfolioId].userId == userId
    ensures pageSize >= 0 ==> |r.rows| <= pageSize
  {
    var owned := set id | id in portfolios && portfolios[id].userId == userId;
    if owned == {} then TransactionPage([], 0)
    else
      var mine := Seqs.Filter((t: TransactionRecord) => t.portfolioId in owned, transactions);
      var newestFirst := seq(|mine|, i requires 0 <= i < |mine| => mine[|mine| - 1 - i]);
      assert forall t :: t in newestFirst ==> t in mine by {
        forall t | t in newestFirst ensures t in mine {
          var i :| 0 <= i < |newestFirst| && newestFirst[i] == t;
          assert mine[|mine| - 1 - i] == t;
        }
      }
      var window := Window(newestFirst, Offset(page, pageSize), pageSize);
      assert forall t :: t in window ==> t in mine && t.portfolioId in owned;
      assert exists id :: id in portfolios && portfolios[id].userId == userId by {
        var id :| id in owned;
      }
      TransactionPage(window, |mine|)
  }
}
