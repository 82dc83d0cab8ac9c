# gnagex prediction markets, modelled in Dafny

gnagex is a paper-trading web application. Users hold portfolios of currency balances and trade in
binary prediction markets. A market is priced by a constant-product market maker (CPMM) over a
"yes" pool and a "no" pool:

- buying shares of one side pays money into the opposing pool and takes shares out of the bought pool;
- selling shares solves a quadratic so the pool product is kept;
- resolving a market pays 1 per winning share, or refunds 0.5 per share when the result is `null`.

Around the engine sit ledger helpers: the balance upsert, creation of a portfolio with its starting
capital, and idempotent seeding of the base currencies, asset categories and exchange pairs. There is
also a maintenance job that collapses old price and exchange-rate samples into one record per UTC day,
plus the route guards and the asset-administration page.

The project has these modules:

- `PoolMath` (`pool_math.dfy`): the pricing functions of `src/lib/predictions/utils.ts`, on exact reals.
- `Amm` (`amm.dfy`): the reference market maker of the simulator script `test.py`, as a class whose
  methods update the reserves in place. It is tied back to `PoolMath` by lemmas.
- `Schema` (`schema.dfy`): the rows of the tables the core touches, their check constraints, the
  transaction-type enum and the cascade rules.
- `Store` (`store.dfy`): the database as a `Database` object whose fields are the tables, with the
  schema's invariant `Valid()` and the balance-credit algebra.
- `Predictions` (`predictions.dfy`): the market engine of `src/lib/server/predictions/predictions.ts`.
  - Each exported operation runs as one database transaction. It is modelled as a method on
    `Database` that either commits all of its writes or fails and leaves every table unchanged.
  - Each method is proved against a decision function (`BuyPlan`, `SellPlan`, `PaidShares`,
    `ApplyPayouts`, ...) whose properties are lemmas.
  - A write that breaks a check constraint (a non-positive pool, a non-positive share amount) fails
    with `ConstraintViolation` and rolls back.
- `Actions` (`actions.dfy`): the ledger and seeding helpers of `src/lib/server/db/actions.ts`.
- `Maintenance` (`maintenance.dfy`): `consolidateAssetHistory` and `consolidateExchangeRateHistory`.
  - Both are one generic consolidation over rows keyed by asset or pair.
  - A functional specification (`Consolidate`) and imperative loops (`ConsolidateRows`, `ConsolidateKey`,
    `ConsolidateDays`, `GroupByDay`) are proved equal.
- `Guards` (`guards.dfy`): `src/lib/server/guards.ts`.
- `AdminAssets` (`admin_assets.dfy`): the `addAsset` action and the page clamp of `load` in
  `src/routes/admin/assets/+page.server.ts`.
- `Seqs` (`seqs.dfy`): order-preserving filtering, the model of a `WHERE` clause.
- `Wrappers` (`wrappers.dfy`): `Option` and `Result`.

Boundary values of the source become explicit parameters:

| source value | in the model |
|---|---|
| fresh ids (`crypto.randomUUID`) | parameters, with a freshness precondition |
| the current time (`new Date()`) | a parameter `now`, never earlier than the history already logged |
| `Math.sqrt` | a parameter `sqrt`; the lemmas that need an exact root require `IsSquareRoot(sqrt)` |
| the quote lookup | an input |
| the `ADMIN_GROUP` environment variable | an input |
| query-string parsing | an input |

Where the schema and the code disagree, the model follows the code:

- **Transaction types.** The engine writes the types `prediction_sale` and `prediction_draw`
  (`predictions.ts:143`, `predictions.ts:255`). The enum declared for `transaction.type`
  (`schema.ts:198-200`) does not list them. `Schema.TransactionType` contains them;
  `Schema.DeclaredTransactionType` is membership in the declared enum.
- **The sale record's share link.** The sale record links the share that the same sale deletes
  (`predictions.ts:129`, `predictions.ts:148`). The column is declared a foreign key with
  `ON DELETE SET NULL` (`schema.ts:215`). If the driver enforced foreign keys, the insert of the sale
  record (`predictions.ts:140-153`) would name a share that no longer exists, so it would fail and roll
  back the whole sale. The program opens its database with better-sqlite3 (`db/index.ts:1-8`) and sets
  no `foreign_keys` pragma, so enforcement is whatever that driver's build defaults to; a build that
  enforces foreign keys by default would make every sale fail at that insert. The model assumes
  enforcement is off: the id stays as plain data, and the success path of `SellShares` and
  `SellOnValidState`'s promise that a sale meeting its checks succeeds rely on that assumption.
  What the declared rule would do on a delete is `Schema.DeleteShareLinks`.
- **The market history table.** The engine writes and reads `predictionMarketHistory`
  (`predictions.ts:22`, `94`, `155`, `182`, `274`), but `schema.ts` declares no such table.
  `Schema.HistoryEntry` takes its columns (market, pools, probability, date) from those uses.

The sale looks the share up by id and owner only (`predictions.ts:117`), so a share of one market can be
sold on another. The model keeps that lookup as written beside the corrected one that the engine uses;
see "## Findings".

## Model

| member | source | states |
|---|---|---|
| PoolMath.Probability | src/lib/predictions/utils.ts:1-11 | A total of 0 gives 0.5; otherwise the price times the total equals the opposing pool (the no pool for 'yes', the yes pool for 'no'). |
| PoolMath.ProbabilitiesSumToOne | src/lib/predictions/utils.ts:1-11 | The yes and no prices of any pools add up to 1, the 0.5/0.5 fallback included. |
| PoolMath.ProbabilityBounds | src/lib/predictions/utils.ts:1-11 | Equal pools price a side at exactly 0.5 (the creation snapshot); positive pools give a price strictly between 0 and 1. |
| PoolMath.BoughtShares | src/lib/predictions/utils.ts:13-37 | Undefined exactly when the new counter pool is 0 (the division at line 25). Otherwise: the pool product is kept; the counter pool grows by the amount; the shares are the amount plus the drop of the bought pool; the bought pool is the product divided by the new counter pool. |
| PoolMath.BuyClosedForm | src/lib/predictions/utils.ts:13-37 | With a non-zero new counter pool, shares = amount·(yes+no+amount)/(counter+amount), the formula of the simulator's docstring. |
| PoolMath.BuyMovesPools | src/lib/predictions/utils.ts:25-29 | For positive pools and a positive amount, the bought pool shrinks and stays positive, and the buyer gets more shares than the amount paid (the promise in the comment at line 27). |
| PoolMath.NonPositiveBuyViolatesChecks | src/lib/predictions/utils.ts:13-37 | A non-positive amount on positive pools yields a non-positive counter pool or non-positive shares, so the schema's checks reject the purchase. |
| PoolMath.Discriminant | src/lib/predictions/utils.ts:63-68 | b²−4c equals (newYes−newNo)² + 4·yes·no. |
| PoolMath.DiscriminantAtLeast | src/lib/predictions/utils.ts:63-70 | The discriminant is at least 4·yes·no, so it is never negative for pools of one sign. |
| PoolMath.NegativeDiscriminantNeedsMixedPools | src/lib/predictions/utils.ts:68-72 | The "negative discriminant" error is only reachable when the pool product is negative. |
| PoolMath.SaleAmount | src/lib/predictions/utils.ts:39-85 | Fails exactly when the discriminant is negative. Otherwise each pool after the sale is that pool plus the sold shares on their side, minus the sale price. |
| PoolMath.SaleKeepsProduct | src/lib/predictions/utils.ts:59-78 | With an exact square root, a successful sale leaves pools whose product is the original k. |
| PoolMath.SaleIsSound | src/lib/predictions/utils.ts:39-85 | Positive pools and a positive share amount: the sale succeeds at a positive price, leaves both pools positive and keeps the product. |
| PoolMath.SaleGrowsProduct | src/lib/predictions/utils.ts:53-57 | Adding sold shares to one of two positive pools strictly raises their product. |
| PoolMath.SmallerRootSound | src/lib/predictions/utils.ts:66-78 | The smaller root of the sale quadratic is positive and leaves two positive pools of product k. |
| PoolMath.SmallerRootProduct | src/lib/predictions/utils.ts:74-78 | Removing the smaller root from both pools restores the product k. |
| PoolMath.BuyThenSellRoundTrip | src/lib/predictions/utils.ts:13-85 | Selling the shares of a purchase against the pools it left returns exactly the amount paid and restores the original pools. |
| Amm.PolymarketAmm.constructor | test.py:4-7 | The reserves are as given and k is their product. |
| Amm.PolymarketAmm.PriceJa | test.py:9-11 | Fails exactly on a zero total. Otherwise it is PoolMath's yes probability, strictly between 0 and 1 for positive reserves. |
| Amm.PolymarketAmm.BuyJa | test.py:13-29 | The NEIN reserve takes the points and the JA reserve becomes k divided by it, so k is kept. The zero-division failures come where Python raises them. The shares are points·(x+y+points)/(y+points), with the prices before and after. From a positive pool of product k, the JA price rises. |
| Amm.PolymarketAmm.BuyNein | test.py:31-47 | The mirror image of BuyJa: the JA reserve takes the points, the NEIN reserve becomes k divided by it, and the shares are points·(x+y+points)/(x+points). From a positive pool of product k, the JA price falls. |
| Amm.PolymarketAmm.SellJa | test.py:49-64 | JA reserves grow by the shares and NEIN reserves shrink to keep k. A zero new JA reserve fails after x was already updated. From a positive pool of product k, the payout is positive. |
| Amm.JaBuyRaisesPrice | test.py:13-29 | The JA price after a JA buy strictly exceeds the price before it. |
| Amm.NeinBuyLowersPrice | test.py:31-47 | The JA price after a NEIN buy is strictly below the price before it. |
| Amm.JaSalePaysOut | test.py:56-59 | Selling a positive number of JA shares pays out a positive amount. |
| Amm.JaBuyIsPoolBuy | test.py:21-26 | The simulator's JA buy and the server's yes-buy (`calculateBoughtSharesForAmount`) issue the same shares and leave the same pools. |
| Amm.NeinBuyIsPoolBuy | test.py:39-44 | The simulator's NEIN buy and the server's no-buy agree in the same way. |
| Amm.JaBuyStep | test.py:25-26 | The reserves a JA buy writes keep k, and from a positive pool of product k they raise the JA price. |
| Amm.NeinBuyStep | test.py:43-44 | The reserves a NEIN buy writes keep k, and from a positive pool of product k they lower the JA price. |
| Schema.NewTextMarket | src/lib/server/db/schema.ts:289-299 | An inserted binary text market takes the column defaults: status 'pending' and result 'null'. Asset fields are empty; the given pools and currency are stored. |
| Schema.MarketChecks | src/lib/server/db/schema.ts:326-327 | The market table's checks: both pools strictly positive. |
| Schema.ShareChecks | src/lib/server/db/schema.ts:362 | The share table's check: a strictly positive amount. |
| Schema.DeclaredTransactionType | src/lib/server/db/schema.ts:198-200 | Membership in the enum declared for the transaction type: every type except prediction_sale and prediction_draw. |
| Schema.DeleteShareLinks | src/lib/server/db/schema.ts:215 | ON DELETE SET NULL: deleting a share clears exactly the links pointing at it and changes nothing else in any row. |
| Schema.DeletePortfolioCascade | src/lib/server/db/schema.ts:134-148 | ON DELETE CASCADE into balance rows, transactions and shares: every child row of the portfolio goes and every other row stays. |
| Store.CreditChangesOneRow | src/lib/server/db/actions.ts:282-304 | A balance change creates at most its own row, moves it by exactly the change, and keeps every other row. |
| Store.CreditsCompose | src/lib/server/db/actions.ts:282-304 | Two changes to one row add up, whether or not the row existed. |
| Store.CreditsCommute | src/lib/server/db/actions.ts:282-304 | Changes to different rows commute. |
| Store.Credit | src/lib/server/db/actions.ts:282-304 | The balances after one change: one more row at most, the changed row moved by exactly the change (from 0 when it was missing), and every other row kept. |
| Store.AppendKeepsSorted | src/lib/server/predictions/predictions.ts:94-101 | Appending a snapshot dated now keeps the market history in date order when the clock has not run backwards. |
| Store.Database.Valid | src/lib/server/db/schema.ts:326-327 | The schema invariant every operation keeps: the market and share check constraints (pools and amounts strictly positive, lines 326-327 and 362), rows filed under their own ids, unique share ids and pair symbols, and a date-ordered market history. |
| Predictions.CreateMarket | src/lib/server/predictions/predictions.ts:7-32 | Fails, writing nothing, exactly when the pool size is non-positive (the pool checks). Otherwise it inserts a pending market with both pools at half the size and logs one snapshot with probability 0.5. |
| Predictions.PoolSnapshot | src/lib/server/predictions/predictions.ts:22-29 | A history row of the market's pools at `now`: equal pools log 0.5, positive pools a probability strictly between 0 and 1. |
| Predictions.BuyPlan | src/lib/server/predictions/predictions.ts:37-57 | A purchase is accepted only on an existing pending market, by an existing portfolio holding a balance row in the market currency, and then it is the pool math's purchase. |
| Predictions.CostRecord | src/lib/server/predictions/predictions.ts:79-92 | The purchase's prediction_cost row: the amount as a negative total, a unit price that times the shares gives the amount, the share link, in the market currency. |
| Predictions.CommitTrade | src/lib/server/predictions/predictions.ts:59-101 | The writes of one trade, all else unchanged, and the schema invariant is kept: the market's pools, the share table, one balance row, one transaction row and one history snapshot. |
| Predictions.AppendKeepsUnique | src/lib/server/predictions/predictions.ts:64-73 | Inserting a share under a fresh id keeps share ids unique. |
| Predictions.BuyShares | src/lib/server/predictions/predictions.ts:34-104 | A refusal returns BuyPlan's error and changes no table. An accepted purchase writes: the new pools; the share row with the issued amount; the balance lowered by the amount; a prediction_cost row of −amount linked to the share; a snapshot. It returns the share id and amount. |
| Predictions.BuySpendsHeldFunds | src/lib/server/predictions/predictions.ts:54-62 | An accepted purchase on a valid market spent a positive amount the portfolio held, issued more shares than it cost, kept the pool product and moved the counter pool up by the amount. |
| Predictions.FundedBuySucceeds | src/lib/server/predictions/predictions.ts:37-73 | Conversely, a positive purchase that the portfolio can afford, on an open valid market, is always accepted. |
| Predictions.BuyRejections | src/lib/server/predictions/predictions.ts:37-56 | Each refusal in the source's order: market not found, not open for trading, portfolio not found, currency not held, insufficient balance; and a non-positive amount always fails. |
| Predictions.FindShareAsWritten | src/lib/server/predictions/predictions.ts:117-121 | The lookup as written finds a share with the given id and owner, or reports that none exists; the market is not compared. |
| Predictions.FindShare | src/lib/server/predictions/predictions.ts:117-121 | The corrected lookup finds a share with the given id, owner and market, or reports that none exists. |
| Predictions.RemoveShare | src/lib/server/predictions/predictions.ts:129 | The delete removes exactly the rows with the share's id. |
| Predictions.SellPlanWith | src/lib/server/predictions/predictions.ts:109-138 | A sale is accepted only on an existing pending market with a found share, a non-failing quadratic, positive pools after it and a balance row in the market currency. |
| Predictions.SellPlanAsWritten | src/lib/server/predictions/predictions.ts:106-138 | The sale with the lookup as written: the sold share has the given id and owner. |
| Predictions.SellPlan | src/lib/server/predictions/predictions.ts:106-138 | The corrected sale: the sold share also belongs to the market traded. |
| Predictions.SellShares | src/lib/server/predictions/predictions.ts:106-165 | A refusal returns SellPlan's error and changes no table. An accepted sale writes: the new pools; the share deleted; the balance raised by the sale price; a prediction_sale row linked to the share; a snapshot. It returns the price. |
| Predictions.SaleRecord | src/lib/server/predictions/predictions.ts:140-153 | The sale's prediction_sale row: the sale price as a positive total, a unit price that times the sold shares gives the price, the share link, in the market currency. |
| Predictions.RemoveKeepsUnique | src/lib/server/predictions/predictions.ts:129 | Deleting a share keeps the remaining share ids unique. |
| Predictions.FilterDistinct | src/lib/server/predictions/predictions.ts:129 | Rows kept by the delete are pairwise distinct when ids were unique. |
| Predictions.SellOnValidState | src/lib/server/predictions/predictions.ts:106-138 | On a state the schema allows, with an exact square root, a sale never fails on the quadratic or the pool checks. It succeeds exactly when the market is open, the portfolio owns the share in that market and holds the market currency; its price is then positive and the pool product kept. |
| Predictions.SellAsWrittenAcceptsForeignShare | src/lib/server/predictions/predictions.ts:117 | On concrete tables, the lookup as written sells on open market A a share held in resolved market B; the corrected lookup refuses it. |
| Predictions.PaidShares | src/lib/server/predictions/predictions.ts:190-230 | A resolution pays exactly the market's shares on the winning side, or every share of the market for a 'null' result. |
| Predictions.PayoutRate | src/lib/server/predictions/predictions.ts:194-229 | The per-share rate: `payoutPerShare = 1` (line 194) for a winning result, `refundPerShare = 0.5` (line 229) for 'null'. ResolutionPayouts states what the rates pay. |
| Predictions.PayoutRecords | src/lib/server/predictions/predictions.ts:214-262 | One row per paid share, in payment order, for its owner: amount times the rate; prediction_win or prediction_draw; no share link. |
| Predictions.PayoutRecord | src/lib/server/predictions/predictions.ts:214-262 | One share's payout row for its owner: prediction_draw exactly for a 'null' result, else prediction_win; the total is the share amount times the unit rate; no share link. |
| Predictions.ApplyPayoutsLast | src/lib/server/predictions/predictions.ts:193-213 | The payout fold credits the last share after all the others. |
| Predictions.ApplyPayouts | src/lib/server/predictions/predictions.ts:193-250 | The payout fold over the balances, one credit per paid share, as the loops of lines 193-213 and 227-250 do. ApplyPayoutsLast, PaidToCredited and PayoutCredits state its properties. |
| Predictions.PaidToScales | src/lib/server/predictions/predictions.ts:194-195 | A portfolio's per-share credits add up to the rate times the share amount it holds. |
| Predictions.PaidToCredited | src/lib/server/predictions/predictions.ts:193-213 | The fold raises each portfolio's balance in the market currency by exactly its per-share credits. |
| Predictions.PayoutCredits | src/lib/server/predictions/predictions.ts:193-250 | A portfolio's balance in the market currency grows by the rate times the amount it holds among the paid shares. |
| Predictions.PayoutRows | src/lib/server/predictions/predictions.ts:197-210 | Paying touches only rows of the market currency. It creates exactly the missing rows of portfolios holding a paid share. |
| Predictions.AmountOfAbsent | src/lib/server/predictions/predictions.ts:192 | A portfolio without paid shares holds an amount of 0 among them. |
| Predictions.ResolveMarket | src/lib/server/predictions/predictions.ts:167-266 | A missing or non-pending market is refused, changing nothing. Otherwise: the market is marked resolved with the result; its unchanged pools are logged; the shares stay; the balances are the payout fold over PaidShares at 1 or 0.5; one payout row per share is appended. |
| Predictions.PayShares | src/lib/server/predictions/predictions.ts:193-263 | The payout loop, where a missing row starts from 0, equals the payout fold and the payout rows. |
| Predictions.PayoutStep | src/lib/server/predictions/predictions.ts:198-213 | Crediting one more share on top of the fold so far gives the fold over one more share. |
| Predictions.CreditRow | src/lib/server/predictions/predictions.ts:197-213 | One payout's balance update, which reads the row or starts a missing row at 0 and then adds the payout, is the ledger credit. |
| Predictions.PayoutRecordsStep | src/lib/server/predictions/predictions.ts:215-225 | One more paid share extends the payout rows by that share's row. |
| Predictions.ResolutionPayouts | src/lib/server/predictions/predictions.ts:190-264 | A winning side pays 1 per winning unit per portfolio, pays nothing on losing shares, and creates no row for a portfolio without winning shares. 'null' refunds 0.5 per unit of every share of the market. |
| Predictions.ClosedMarketRejects | src/lib/server/predictions/predictions.ts:42-44 | Once resolved, a market refuses every purchase and every sale with 'not open'. |
| Predictions.HistoryOf | src/lib/server/predictions/predictions.ts:274 | A market's history is exactly the log rows of that market. |
| Predictions.HistoryOfSorted | src/lib/server/predictions/predictions.ts:274 | One market's rows, taken from the date-ordered log, come in date order (the query's ORDER BY date). |
| Predictions.SortedSnoc | src/lib/server/predictions/predictions.ts:274 | An entry dated no earlier than every entry of an ordered log extends it in order. |
| Predictions.MarketData | src/lib/server/predictions/predictions.ts:268-282 | Each requested market that exists appears exactly once, with its own history in date order, and nothing else appears. |
| Predictions.CollectViews | src/lib/server/predictions/predictions.ts:270-281 | The loop over the markets builds exactly those views. |
| Predictions.Positions | src/lib/server/predictions/predictions.ts:294-297 | A portfolio's shares, restricted to the given markets when a list is given; an empty list selects nothing. |
| Actions.UpdatePortfolioCurrency | src/lib/server/db/actions.ts:282-304 | An existing row is raised by the change and a missing row is inserted with the change; it returns the new amount and nothing else changes. |
| Actions.StartingBalances | src/lib/server/db/actions.ts:492-507 | A new portfolio's rows: one per known currency, 100000 in EUR and 0 in every other. |
| Actions.GiftRecord | src/lib/server/db/actions.ts:509-518 | The transaction of a new portfolio's starting capital: a gift of 100000 from EUR to EUR, dated now, with no units, price, fee or share link. |
| Actions.StartingBalancesAdd | src/lib/server/db/actions.ts:492-500 | One more currency adds exactly its row. |
| Actions.NewPortfolioRows | src/lib/server/db/actions.ts:492-507 | The insertion loop over the currencies, EUR last, builds exactly the starting rows. |
| Actions.CreateUserPortfolio | src/lib/server/db/actions.ts:476-524 | Without a EUR currency it fails with 'EUR currency not found' and the transaction leaves nothing behind. Otherwise it inserts the portfolio, its starting rows and one 'gift' row of 100000 EUR. |
| Actions.StartingCapitalRows | src/lib/server/db/actions.ts:492-507 | After the insert the new portfolio holds exactly one row per currency, 100000 in EUR and 0 elsewhere; other portfolios' rows are untouched. |
| Actions.WithBaseCurrencies | src/lib/server/db/actions.ts:425-470 | EUR, USD and GCN are present afterwards; existing rows are kept as they were; nothing else is added. |
| Actions.EnsureCurrency | src/lib/server/db/actions.ts:439-467 | One currency's lookup-then-insert: its id becomes present, existing rows are kept, and a missing id gets exactly the given row. |
| Actions.BaseCurrenciesIdempotent | src/lib/server/db/actions.ts:425-470 | Ensuring the base currencies twice is the same as once. |
| Actions.BaseCurrencyRows | src/lib/server/db/actions.ts:439-467 | A missing base currency is created with its fixed name, symbol and real-world flag. |
| Actions.BaseCurrenciesKeyed | src/lib/server/db/actions.ts:439-467 | Every currency row stays filed under its own id. |
| Actions.AssertBaseCurrencies | src/lib/server/db/actions.ts:425-470 | The currency table becomes WithBaseCurrencies of the old one, the three rows are returned, and nothing else changes. |
| Actions.EnsureCategories | src/lib/server/db/actions.ts:526-541 | Existing categories are kept, every listed id is present, nothing unlisted is added, and rows stay keyed by id. |
| Actions.CategoriesIdempotent | src/lib/server/db/actions.ts:526-541 | Seeding the categories again changes nothing. |
| Actions.EnsureCategoriesNoop | src/lib/server/db/actions.ts:532-540 | When every listed id exists, nothing is inserted. |
| Actions.SeedCategories | src/lib/server/db/actions.ts:532-540 | The lookup-then-insert loop computes EnsureCategories. |
| Actions.SeedCategoryTable | src/lib/server/db/actions.ts:532-540 | The category table becomes EnsureCategories of the old one; nothing else changes. |
| Actions.AssertAssetCategories | src/lib/server/db/actions.ts:526-541 | The same for the three categories equity, etf and future. |
| Actions.EnsurePairs | src/lib/server/db/actions.ts:543-562 | The pair table only grows at its end. Every appended row is a listed pair whose direction was absent, both from the old table and from every row before it. Without a failure, every listed direction is present afterwards. A failure means some listed direction is still absent while its symbol is taken. |
| Actions.InsertedPairsAbsent | src/lib/server/db/actions.ts:550-558 | A direction absent from a longer prefix is absent from the shorter one, so every row the loop inserts was missing from the table it started with. |
| Actions.PrefixKeepsPair | src/lib/server/db/actions.ts:550-561 | A pair present in a table is present in every extension of it. |
| Actions.EnsurePairsKeepsUnique | src/lib/server/db/actions.ts:550-561 | The seeding loop keeps pair symbols unique, since it appends only pairs whose symbol is free. |
| Actions.EnsurePairsNoop | src/lib/server/db/actions.ts:550-561 | When every listed direction exists, the loop inserts nothing and succeeds. |
| Actions.PairsIdempotent | src/lib/server/db/actions.ts:543-562 | Seeding the pairs again changes nothing, after a successful run or a failed one: the rerun skips the same pairs and stops at the same clashing insert. |
| Actions.SeedPairs | src/lib/server/db/actions.ts:550-561 | The lookup-then-insert loop computes EnsurePairs, stopping at an insert the unique symbol rejects. |
| Actions.SeedPairTable | src/lib/server/db/actions.ts:550-561 | The pair table becomes EnsurePairs of the old one: only listed pairs whose direction was missing are appended, and without a failure every listed direction is present. The result fails, with a duplicate symbol, exactly when an insert clashed. Nothing else changes. |
| Actions.AssertCurrencyConversions | src/lib/server/db/actions.ts:543-562 | The same for the four base pairs: only their missing directions are inserted, and the result fails exactly when an insert clashes with an existing symbol. |
| Actions.OffsetsTile | src/lib/server/db/actions.ts:62 | Page 1 starts at offset 0; each page starts where the previous one ends; offsets of valid pages are non-negative. |
| Actions.Offset | src/lib/server/db/actions.ts:62 | The rows a page skips: page 1 skips none, and a valid page never skips a negative number of rows. |
| Actions.Window | src/lib/server/db/actions.ts:339-354 | LIMIT/OFFSET returns at most the limit, and only rows of the input. |
| Actions.UserTransactions | src/lib/server/db/actions.ts:323-357 | A user without portfolios gets no rows and a count of 0. Every returned row is a transaction of one of the user's portfolios, and a page holds at most pageSize rows. |
| Maintenance.DayStartBounds | src/lib/server/db/maintenance.ts:35-60 | Midnight of a sample's UTC day lies at or before it and less than a day earlier, and falls on the same day. |
| Maintenance.DayOf | src/lib/server/db/maintenance.ts:35 | The day key: the UTC day of a timestamp, floored for times before the epoch. DayStartBounds states how it relates to midnight. |
| Maintenance.DayStart | src/lib/server/db/maintenance.ts:60 | Midnight UTC at the start of a day, the consolidated record's date. DayStartBounds states its bounds. |
| Maintenance.EarliestIndex | src/lib/server/db/maintenance.ts:47-49 | The record a stable sort by date puts first: of least date, the first such in table order. |
| Maintenance.LatestIndex | src/lib/server/db/maintenance.ts:47-50 | The record a stable sort by date puts last: of greatest date, the last such in table order. |
| Maintenance.DistinctDays | src/lib/server/db/maintenance.ts:32-40 | The days of the history, each once, in order of first appearance (the grouping map's order). |
| Maintenance.CollapseIdempotent | src/lib/server/db/maintenance.ts:44-78 | A day holds at most one record afterwards, collapsing again changes nothing, and a day becomes empty only if it was. |
| Maintenance.Collapse | src/lib/server/db/maintenance.ts:44-78 | What one day's records become: unchanged when there is at most one, otherwise one record at midnight built from the earliest, the latest and all of them. CollapseIdempotent and MergedInBucket state its properties. |
| Maintenance.MergedInBucket | src/lib/server/db/maintenance.ts:60-77 | The inserted record belongs to the key and day it replaces and lies before the cutoff. |
| Maintenance.StepBucket | src/lib/server/db/maintenance.ts:62-78 | One day's transaction collapses its own bucket and leaves every other (key, day) bucket unchanged. |
| Maintenance.Step | src/lib/server/db/maintenance.ts:62-80 | One day's transaction on the table and the running counts. StepBucket, StepCounts and StepOutside state its properties. |
| Maintenance.StepOwnBucket | src/lib/server/db/maintenance.ts:62-78 | After a day's delete and insert, its bucket is exactly the consolidated record. |
| Maintenance.DeletionEmptiesBucket | src/lib/server/db/maintenance.ts:64-67 | The delete leaves none of the day's records. |
| Maintenance.CollapsedInOwnBucket | src/lib/server/db/maintenance.ts:69-77 | The inserted record is all that the day's bucket then holds. |
| Maintenance.StepOtherBucket | src/lib/server/db/maintenance.ts:62-78 | A day's transaction does not change any other bucket. |
| Maintenance.DeletionKeepsOtherBucket | src/lib/server/db/maintenance.ts:64-67 | The delete keeps every record of another bucket. |
| Maintenance.CollapsedNotInOtherBucket | src/lib/server/db/maintenance.ts:69-77 | The inserted record falls in no other bucket. |
| Maintenance.StepCounts | src/lib/server/db/maintenance.ts:62-80 | A day's transaction deletes as many records as it counts, inserts one, and only runs for two or more records. |
| Maintenance.StepOutside | src/lib/server/db/maintenance.ts:62-78 | A day's transaction keeps every row at or after the cutoff and every row of an unprocessed key, in order. |
| Maintenance.DeletionKeepsOutside | src/lib/server/db/maintenance.ts:64-67 | The delete removes no row outside the run. |
| Maintenance.CollapsedNotOutside | src/lib/server/db/maintenance.ts:69-77 | The inserted record lies inside the run. |
| Maintenance.DaysBucket | src/lib/server/db/maintenance.ts:43-81 | Processing a key's days collapses exactly the buckets of those days. |
| Maintenance.ProcessDays | src/lib/server/db/maintenance.ts:43-81 | The per-day loop over one key's day groups. DaysBucket, DaysCounts, DaysOutside and DaysNoop state its properties. |
| Maintenance.DaysCounts | src/lib/server/db/maintenance.ts:43-81 | Over a key's days the table shrinks by the counted deletions and grows by one per consolidated day. |
| Maintenance.DaysOutside | src/lib/server/db/maintenance.ts:43-81 | Processing a key's days keeps the rows outside the run. |
| Maintenance.BucketListed | src/lib/server/db/maintenance.ts:22-40 | Every day with a fetched record of the key is among the grouped days. |
| Maintenance.ProcessKeyBucket | src/lib/server/db/maintenance.ts:20-81 | Processing one key collapses every bucket of that key and no other. |
| Maintenance.ProcessKey | src/lib/server/db/maintenance.ts:20-81 | One key's fetch before the cutoff, grouping by day and per-day loop. ProcessKeyBucket states its properties. |
| Maintenance.KeysBucket | src/lib/server/db/maintenance.ts:20-82 | Processing a list of keys collapses exactly the buckets of those keys. |
| Maintenance.ProcessKeys | src/lib/server/db/maintenance.ts:20-82 | The loop over the keys in fetch order. KeysBucket, KeysCounts, KeysOutside and KeysNoop state its properties. |
| Maintenance.KeysCounts | src/lib/server/db/maintenance.ts:18-82 | Over all keys the table shrinks by the counted deletions and grows by one per consolidated day. |
| Maintenance.KeysOutside | src/lib/server/db/maintenance.ts:20-82 | Processing keys keeps the rows outside the run. |
| Maintenance.ConsolidatedBuckets | src/lib/server/db/maintenance.ts:11-85 | Each (key, day) bucket before the cutoff is unchanged with at most one record, or when its key is not processed. Otherwise it becomes one record at midnight UTC whose payload merges the earliest record, the latest record and all of the day's records. |
| Maintenance.Consolidate | src/lib/server/db/maintenance.ts:11-146 | The run over the keys in fetch order: the specification the loops are proved equal to. ConsolidatedBuckets, ConsolidateKeepsOutside, ConsolidateCounts and ConsolidateIdempotent state its properties. |
| Maintenance.ConsolidateKeepsOutside | src/lib/server/db/maintenance.ts:22-27 | Rows at or after the cutoff, and rows of keys not processed, survive a run in their order. |
| Maintenance.ConsolidateCounts | src/lib/server/db/maintenance.ts:80-84 | The returned total counts the deleted records. The table shrinks by it and grows by one per consolidated day; each such day had at least two records. |
| Maintenance.KeysNoop | src/lib/server/db/maintenance.ts:44 | A table whose processed buckets hold at most one record each is a fixed point of a run. |
| Maintenance.DaysNoop | src/lib/server/db/maintenance.ts:44 | Days of at most one record are skipped. |
| Maintenance.ConsolidateIdempotent | src/lib/server/db/maintenance.ts:11-85 | A second run with the same cutoff changes nothing and reports a total of 0. |
| Maintenance.MaxHigh | src/lib/server/db/maintenance.ts:55 | Math.max over the high prices: an upper bound of every one, and equal to one of them or the seed. |
| Maintenance.MinLow | src/lib/server/db/maintenance.ts:56 | Math.min over the low prices: a lower bound of every one, and equal to one of them or the seed. |
| Maintenance.OpenPrice | src/lib/server/db/maintenance.ts:52 | `open ?? close`: the open price, or the close when it is missing. DailyCandle states which record it is taken from. |
| Maintenance.HighPrice | src/lib/server/db/maintenance.ts:55 | `high ?? close`, the value Math.max ranges over; MaxHigh and DailyCandle state its use. |
| Maintenance.LowPrice | src/lib/server/db/maintenance.ts:56 | `low ?? close`, the value Math.min ranges over; MinLow and DailyCandle state its use. |
| Maintenance.TotalVolume | src/lib/server/db/maintenance.ts:57 | The reduce over the day's volumes, a missing volume counting as 0; DailyCandle states that the candle carries it. |
| Maintenance.DailyCandle | src/lib/server/db/maintenance.ts:49-57 | The daily candle opens at the earliest sample and closes at the latest. Its high and low are the extreme prices of the day's samples, attained by one of them, and its volume is their sum. |
| Maintenance.CandleOf | src/lib/server/db/maintenance.ts:49-57 | The merged candle of a day; DailyCandle states what its fields are. |
| Maintenance.DailyRate | src/lib/server/db/maintenance.ts:124-137 | The consolidated rate is that of the last sample of the latest time of the day. |
| Maintenance.RateOf | src/lib/server/db/maintenance.ts:124-137 | The merged rate of a day, that of the latest record; DailyRate states which record that is. |
| Maintenance.GroupIsBucket | src/lib/server/db/maintenance.ts:22-40 | A day group of the fetched history is exactly the (key, day) bucket of the table. |
| Maintenance.DayGroupListed | src/lib/server/db/maintenance.ts:32-40 | Every day of a fetched record is a key of the grouping map. |
| Maintenance.DayGroupSnoc | src/lib/server/db/maintenance.ts:34-40 | Pushing one record extends only its own day's group. |
| Maintenance.DistinctDaysSnoc | src/lib/server/db/maintenance.ts:34-40 | Pushing one record adds its day to the map's keys if it is new. |
| Maintenance.GroupByDay | src/lib/server/db/maintenance.ts:32-40 | The grouping loop yields the distinct days in first-appearance order, each mapped to its records in order. |
| Maintenance.ConsolidateDay | src/lib/server/db/maintenance.ts:44-80 | One day group: skipped with at most one record; otherwise its records are replaced by the merged record at midnight and counted. |
| Maintenance.ConsolidateKey | src/lib/server/db/maintenance.ts:20-81 | One key's fetch, grouping and per-day transactions equal the specification ProcessKey. |
| Maintenance.ConsolidateDays | src/lib/server/db/maintenance.ts:43-81 | The loop over distinct day groups, whose groups are the key's buckets, runs the specification step day by day and equals ProcessDays. |
| Maintenance.LaterBucketsKept | src/lib/server/db/maintenance.ts:43-81 | Consolidating one day leaves the buckets of every later, different day unchanged, so their groups stay current. |
| Maintenance.ConsolidateRows | src/lib/server/db/maintenance.ts:11-85 | The loop over the keys returns the table and total of Consolidate. |
| Maintenance.ConsolidateAssetHistory | src/lib/server/db/maintenance.ts:11-85 | consolidateAssetHistory is Consolidate with the daily candle as merge. |
| Maintenance.ConsolidateExchangeRateHistory | src/lib/server/db/maintenance.ts:92-146 | consolidateExchangeRateHistory is Consolidate with the latest rate as merge. |
| Guards.AnyHeld | src/lib/server/guards.ts:33 | `some`: true exactly when some required group is held. |
| Guards.AllHeld | src/lib/server/guards.ts:56 | `every`: true exactly when every required group is held. |
| Guards.RequireAuth | src/lib/server/guards.ts:12-17 | Returns the user when there is one, otherwise a 302 redirect to the given target. |
| Guards.RequireGroups | src/lib/server/guards.ts:26-40 | Anonymous requests go to sign-in. A user passes exactly when holding one of the groups, otherwise gets a 302 to the given target. |
| Guards.RequireAllGroups | src/lib/server/guards.ts:49-63 | Anonymous requests go to sign-in. A user passes exactly when holding all of the groups, otherwise gets a 302 to the given target. |
| Guards.AdminGroup | src/lib/server/guards.ts:73 | The admin group is the variable when it is set and non-empty, else 'admin'; it is never empty. |
| Guards.RequireAdmin | src/lib/server/guards.ts:72-75 | Anonymous requests go to sign-in; a user passes exactly when holding the admin group. |
| Guards.EmptyAnyRedirects | src/lib/server/guards.ts:33-37 | An empty list of alternatives lets no one through. |
| Guards.EmptyAllPasses | src/lib/server/guards.ts:56-62 | An empty list of requirements lets every signed-in user through. |
| Guards.AllImpliesAny | src/lib/server/guards.ts:26-63 | For a non-empty list, passing requireAllGroups implies passing requireGroups. |
| Guards.AdminGuardAgreesWithIsAdmin | src/lib/server/guards.ts:72-81 | requireAdmin admits exactly the users isAdmin accepts. |
| Guards.IsAdmin | src/lib/server/guards.ts:78-81 | A user is an admin exactly when holding the group named by a set, non-empty variable, or the group 'admin' when the variable is unset or empty. |
| AdminAssets.CategoryFor | src/routes/admin/assets/+page.server.ts:36-46 | EQUITY, ETF and FUTURE map to equity, etf and future; every other quote type is unsupported. |
| AdminAssets.DisplayName | src/routes/admin/assets/+page.server.ts:55 | The long name, else the short name, else the symbol. |
| AdminAssets.ValidTicker | src/routes/admin/assets/+page.server.ts:12-14 | The form value passes the first check only as a non-empty string; an absent value or a file upload fails it. |
| AdminAssets.Status | src/routes/admin/assets/+page.server.ts:12-64 | The status each rejection is answered with: 404 for no quote, 500 for a missing category or a caught exception, 400 for every other check. |
| AdminAssets.AdmitAsset | src/routes/admin/assets/+page.server.ts:7-65 | Each check in order, each tied to its own error by the inputs that reach it: missing ticker, failed fetch, no quote, no currency, unknown currency, unsupported quote type, missing category. The request is accepted exactly when every check passes, and the asset inserted has the quote's symbol, the first non-empty name, the mapped category and the quote's currency. |
| AdminAssets.AddAsset | src/routes/admin/assets/+page.server.ts:7-65 | A rejection changes nothing. On success exactly one asset is appended, the symbol is returned, and the other tables are unchanged. |
| AdminAssets.RejectionStatuses | src/routes/admin/assets/+page.server.ts:12-64 | Stated in terms of the request: 500 exactly when the fetch throws or the mapped category is missing; 404 exactly when a valid ticker finds no quote; 400 exactly for a missing ticker, a missing or unknown currency, or an unsupported quote type. |
| AdminAssets.OrDefault | src/routes/admin/assets/+page.server.ts:69-70 | `Number(x) \|\| fallback`: the parsed number unless it is NaN or 0. |
| AdminAssets.SafePage | src/routes/admin/assets/+page.server.ts:69-73 | The page is at least 1. It is kept when it is at least 1, and it is 1 when it is missing (parsed as 0), not a number, or below 1. |
| AdminAssets.SafePageSize | src/routes/admin/assets/+page.server.ts:70-74 | The page size lies in [1, 100]. It is kept inside that range, is 10 when missing or 0, is 1 for other values below 1, and is 100 above the range. |

## Left out

- Floating point: pools, balances and prices are exact reals. IEEE rounding, `toFixed` in the notes, and
  the non-finite values a division by zero produces in JavaScript are not modelled. A division by zero is
  an explicit failure instead.
- Concurrency: two concurrent resolutions or trades on one market are not modelled. Each operation is one
  atomic transaction over the whole database.
- `abortPredictionMarket` (`predictions.ts:284-286`) is an empty stub and has no model.
- `getPredictionMarkets` (`predictions.ts:288-292`) returns the whole table with its length; it has no model.
- Predictions.MarketData: returns the views in the order of the requested ids, not in the table's storage
  order as `inArray` does, because the map of markets has no storage order.
- The notes text, `amountOfUnits` of the cost and sale rows, and the `createdAt`/`updatedAt` columns are
  not modelled; they are presentation or audit data that no operation reads back.
- The ids of transaction, history and balance rows are not modelled. Such rows are identified by position,
  or by their (portfolio, currency) key.
- Foreign keys are not enforced. The sale row keeps the id of the share the sale deletes (see above).
  `DeleteShareLinks` and `DeletePortfolioCascade` state what the declared rules would do; no operation of
  the core deletes a portfolio.
- `Schema.DeclaredTransactionType` only names the enum's members. Rows of the undeclared types are written
  as the code writes them, because SQLite does not enforce a declared text enum.
- The Yahoo Finance quote fetch, and the database reads behind `getCurrencies` and `getAssetCategories`,
  are inputs to `AdmitAsset`. The failure of `createAsset` itself (caught at line 61) is not separated
  from a failed fetch. The asset's generated id, and the `getAssetsPaginated` call of `load`, are left out.
- AdminAssets.SafePage: pages are reals as `Number` yields them. The fractional page the offset arithmetic
  would then use is not carried into `Actions.Offset`, which is over integers.
- Guards: the redirect is returned as a value instead of thrown. `ADMIN_GROUP` and the proxy's user are
  inputs.
- Default arguments are not modelled; every caller passes the value. These are `name = 'Main Portfolio'`
  (`actions.ts:476`), `page = 1` and `pageSize = 10` (`actions.ts:323`), and the default `redirectTo`
  of the guards (`guards.ts:12`, `29`, `52`, `72`). The only one the model keeps is requireAuth's
  default inside requireGroups and requireAllGroups, as `SignInPath`.
- The other CRUD wrappers of `actions.ts` (`getAssets`, `getAssetById`, `createCurrency`, `getTransactions`,
  ...) are single queries and have no model. Pagination is modelled through `Offset`/`Window` in
  `UserTransactions`.
- Actions.UserTransactions: newest first is modelled as the log reversed. That order assumes that every
  writer of the transaction log uses a monotone clock. The model keeps no such invariant for
  `db.transactions` (`ClockAfter` covers only the market history), and `CreateUserPortfolio` logs its gift
  at whatever `now` it is given. The column stores seconds, so ties are common; the order the database
  gives tied rows is not modelled.
- Console logging is left out: `actions.ts:538` and `559` (seeding), `predictions.ts:207` and `244`
  (a balance row created for a payout or refund) and `+page.server.ts:62` (the caught error). It is
  output only and changes no table.
- Actions.CreateUserPortfolio: the console message is left out. The check for the inserted portfolio row
  (line 486) cannot fail in the model.
- Maintenance: the cutoff (`now − olderThanDays` days) is a parameter, and timestamps are milliseconds since
  the epoch. The SQLite columns store seconds; that rounding is not modelled.
- Maintenance: the in-place `sort` is modelled by the records a stable sort puts first and last
  (`EarliestIndex`, `LatestIndex`) rather than by sorting. Deleting by the ids of a day's records is
  modelled as removing that (key, day, before-cutoff) bucket; the two are the same set of rows.
- Maintenance: the `?? 0` fallbacks for open/close are unreachable because `close` is not null, and they
  are left out. Each day's delete-and-insert is one atomic step; a database failure partway through a run
  is not modelled.
- Maintenance: the price and rate history tables are passed as values, together with the list of asset or
  pair ids, instead of as fields of `Database`.
- `test.py`'s `main` loop, its `input` and its `print` calls are I/O and are left out. `sell_ja` is modelled
  as written. Its payout rule (the drop in NEIN reserves at constant k) differs from the server's quadratic
  sale and is not related to it.

## Findings

| source | as written | input that shows it | evidently intended | confidence | as-written member | corrected member |
|---|---|---|---|---|---|---|
| src/lib/server/predictions/predictions.ts:117 | The sale looks the share up by id and owner only. The pools it then updates and the price it pays are those of the market named in the request. | Market A pending with pools 50/50; market B resolved; portfolio P holds share S of B (10 yes). `sellPredictionMarketShares("A", "P", "S")` sells S against A's pools, pays P and deletes S. | Only a share of the market being traded can be sold there: the lookup also compares the share's market. | not executed | Predictions.SellAsWrittenAcceptsForeignShare | Predictions.SellPlan |
