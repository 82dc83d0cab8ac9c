/**
 * The asset administration page: admitting a new asset from a ticker, checked
 * against the quote fetched for it, and clamping the listing's page numbers.
 * The quote fetch is a network call, so its outcome is an input.
 */
module AdminAssets {
  import opened Wrappers
  import opened Schema
  import opened Store

  /** What `formData.get('ticker')` yields. */
  datatype FormValue = Absent | Text(text: string) | FileUpload

  /** The quote fields the action reads; an absent or empty string field is "". */
  datatype Quote = Quote(symbol: string, currency: string, quoteType: string, longName: string, shortName: string)

  /** The outcome of `fetchStockQuote`: it throws, finds nothing, or returns a quote. */
  datatype QuoteLookup = LookupThrew | NoQuote | Found(quote: Quote)

  datatype AddAssetError =
    | MissingTicker
    | QuoteNotFound
    | NoQuoteCurrency
    | UnknownCurrency
    | UnsupportedQuoteType
    | MissingCategory
    | FetchFailed

  /** The HTTP status `fail` answers each rejection with. */
  function Status(e: AddAssetError): int
  {
    match e
    case MissingTicker => 400
    case QuoteNotFound => 404
    case NoQuoteCurrency => 400
    case UnknownCurrency => 400
    case UnsupportedQuoteType => 400
    case MissingCategory => 500
    case FetchFailed => 500
  }

  /** A ticker passes `!symbol || typeof symbol !== 'string'` only as a non-empty string. */
  predicate ValidTicker(ticker: FormValue)
  {
    ticker.Text? && ticker.text != ""
  }

  /** The category a quote type maps to; other types are unsupported. */
  function CategoryFor(quoteType: string): (c: Option<CategoryId>)
    ensures c.Some? <==> quoteType in {"EQUITY", "ETF", "FUTURE"}
    ensures c.Some? ==> c.value in {"equity", "etf", "future"}
  {
    if quoteType == "EQUITY" then Some("equity")
    else if quoteType == "ETF" then Some("etf")
    else if quoteType == "FUTURE" then Some("future")
    else None
  }

  /** `longName || shortName || symbol`: the first non-empty name. */
  function DisplayName(q: Quote): (name: string)
    ensures q.longName != "" ==> name == q.longName
    ensures q.longName == "" && q.shortName != "" ==> name == q.shortName
    ensures q.longName == "" && q.shortName == "" ==> name == q.symbol
  {
    if q.longName != "" then q.longName else if q.shortName != "" then q.shortName else q.symbol
  }

  /** The decision of `addAsset`: the asset to insert, or the first check that fails. */
  function AdmitAsset(ticker: FormValue, lookup: QuoteLookup, currencies: set<CurrencyId>, categories: set<CategoryId>)
    : (r: Result<Asset, AddAssetError>)
    ensures !ValidTicker(ticker) ==> r == Failure(MissingTicker)
    ensures ValidTicker(ticker) && lookup.LookupThrew? ==> r == Failure(FetchFailed)
    ensures ValidTicker(ticker) && lookup.NoQuote? ==> r == Failure(QuoteNotFound)
    ensures ValidTicker(ticker) && lookup.Found? && lookup.quote.currency == "" ==> r == Failure(NoQuoteCurrency)
    ensures ValidTicker(ticker) && lookup.Found? && lookup.quote.currency != "" && lookup.quote.currency !in currencies
            ==> r == Failure(UnknownCurrency)
    ensures r.Success? <==>
      && ValidTicker(ticker) && lookup.Found?
      && lookup.quote.currency != "" && lookup.quote.currency in currencies
      && CategoryFor(lookup.quote.quoteType).Some? && CategoryFor(lookup.quote.quoteType).value in categories
    ensures r.Success? ==>
      r.value == Asset(lookup.quote.symbol, DisplayName(lookup.quote), CategoryFor(lookup.quote.quoteType).value, lookup.quote.currency)
    ensures ValidTicker(ticker) && lookup.Found? && lookup.quote.currency != "" && lookup.quote.currency in currencies
            && CategoryFor(lookup.quote.quoteType).None?
            ==> r == Failure(UnsupportedQuoteType)
    ensures ValidTicker(ticker) && lookup.Found? && lookup.quote.currency != "" && lookup.quote.currency in currencies
            && CategoryFor(lookup.quote.quoteType).Some? && CategoryFor(lookup.quote.quoteType).value !in categories
            ==> r == Failure(MissingCategory)
  {
    if !ValidTicker(ticker) then Failure(MissingTicker)
    else match lookup
      case LookupThrew => Failure(FetchFailed)
      case NoQuote => Failure(QuoteNotFound)
      case Found(q) =>
        if q.currency == "" then Failure(NoQuoteCurrency)
        else if q.currency !in currencies then Failure(UnknownCurrency)
        else match CategoryFor(q.quoteType)
          case None => Failure(UnsupportedQuoteType)
          case Some(categoryId) =>
            if categoryId !in categories then Failure(MissingCategory)
            else Success(Asset(q.symbol, DisplayName(q), categoryId, q.currency))
  }

  /**
   * `actions.addAsset`: on success exactly one asset is appended and the
   * quote's symbol returned; every rejection leaves the database unchanged.
   */
  method AddAsset(db: Database, ticker: FormValue, lookup: QuoteLookup) returns (r: Result<string, AddAssetError>)
    modifies db
    ensures var plan := AdmitAsset(ticker, lookup, old(db.currencies.Keys), old(db.categories.Keys));
      match plan
      case Failure(e) => r == Failure(e) && unchanged(db)
      case Success(asset) =>
        && r == Success(asset.symbol)
        && db.assets == old(db.assets) + [asset]
        && db.CatalogueOf() == old(db.CatalogueOf()).(assets := db.assets)
        && db.balances == old(db.balances) && db.transactions == old(db.transactions)
        && db.markets == old(db.markets) && db.shares == old(db.shares) && db.marketHistory == old(db.marketHistory)
  {
    var plan := AdmitAsset(ticker, lookup, db.currencies.Keys, db.categories.Keys);
    match plan
    case Failure(e) =>
      r := Failure(e);
    case Success(asset) =>
      db.assets := db.assets + [asset];
      r := Success(asset.symbol);
  }

  /**
   * The status of each outcome in terms of the request: a 500 exactly when the
   * fetch throws or the mapped category is missing, a 404 exactly when no quote
   * is found, and a 400 for a missing ticker, a missing or unknown currency and
   * an unsupported quote type.
   */
  lemma RejectionStatuses(ticker: FormValue, lookup: QuoteLookup, currencies: set<CurrencyId>, categories: set<CategoryId>)
    ensures var r := AdmitAsset(ticker, lookup, currencies, categories);
      && (r.Failure? && Status(r.error) == 500 <==>
            ValidTicker(ticker)
            && (|| lookup.LookupThrew?
                || (&& lookup.Found? && lookup.quote.currency != "" && lookup.quote.currency in currencies
                    && CategoryFor(lookup.quote.quoteType).Some?
                    && CategoryFor(lookup.quote.quoteType).value !in categories)))
      && (r.Failure? && Status(r.error) == 404 <==> ValidTicker(ticker) && lookup.NoQuote?)
      && (r.Failure? && Status(r.error) == 400 <==>
            || !ValidTicker(ticker)
            || (&& lookup.Found?
                && (|| lookup.quote.currency == "" || lookup.quote.currency !in currencies
                    || CategoryFor(lookup.quote.quoteType).None?)))
  {
  }

  // ---------------------------------------------------------------------------
  // The listing's page clamp

  /**
   * `Number(param) || fallback`, where `parsed` is what `Number` makes of
   * the query parameter (`None` for NaN; a missing parameter parses to 0).
   */
  function OrDefault(parsed: Option<real>, fallback: real): (v: real)
    ensures parsed.Some? && parsed.value != 0.0 ==> v == parsed.value
    ensures parsed.None? || parsed.value == 0.0 ==> v == fallback
  {
    if parsed.Some? && parsed.value != 0.0 then parsed.value else fallback
  }

  function SafePage(parsedPage: Option<real>): (page: real)
    ensures page >= 1.0
    ensures parsedPage.Some? && parsedPage.value >= 1.0 ==> page == parsedPage.value
    ensures parsedPage.None? ==> page == 1.0
    ensures parsedPage.Some? && parsedPage.value < 1.0 ==> page == 1.0
  {
    var page := OrDefault(parsedPage, 1.0);
    if page > 1.0 then page else 1.0
  }

  function SafePageSize(parsedSize: Option<real>): (size: real)
    ensures 1.0 <= size <= 100.0
    ensures parsedSize.Some? && 1.0 <= parsedSize.value <= 100.0 ==> size == parsedSize.value
    ensures parsedSize.None? || parsedSize.value == 0.0 ==> size == 10.0
    ensures parsedSize.Some? && parsedSize.value > 100.0 ==> size == 100.0
    ensures parsedSize.Some? && parsedSize.value != 0.0 && parsedSize.value < 1.0 ==> size == 1.0
  {
    var pageSize := OrDefault(parsedSize, 10.0);
    var capped := if pageSize < 100.0 then pageSize else 100.0;
    if capped > 1.0 then capped else 1.0
  }
}
