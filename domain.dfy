/** The records the core passes around: stock rows, watchlists and market quotes. */
module Domain {
  import opened Wrappers

  /** A market quote; every field is optional in the quote source's answer. */
  datatype Quote = Quote(
    regularMarketPrice: Option<real>,
    currency: Option<string>,
    marketCap: Option<real>,
    regularMarketChange: Option<real>,
    regularMarketChangePercent: Option<real>,
    fiftyDayAverage: Option<real>,
    fiftyDayAverageChange: Option<real>,
    fiftyDayAverageChangePercent: Option<real>,
    twoHundredDayAverage: Option<real>,
    twoHundredDayAverageChange: Option<real>,
    twoHundredDayAverageChangePercent: Option<real>)

  /** What one call to the quote source gives: an exception, or a quote that may be missing. */
  datatype FetchResult = Threw | Returned(quote: Option<Quote>)

  /** The quote a fetch produced, if any. */
  function QuoteOf(r: FetchResult): Option<Quote> {
    if r.Returned? then r.quote else None
  }

  /** A stock row of a watchlist, with the display fields that enrichment fills in. */
  datatype Stock = Stock(
    id: string,
    symbol: string,
    name: string,
    watchlistId: string,
    purchasePrice: Option<real>,
    currentPrice: Option<real>,
    currency: Option<string>,
    marketCap: Option<real>,
    change: Option<real>,
    changePercent: Option<real>,
    fiftyDayAverage: Option<real>,
    fiftyDayAverageChange: Option<real>,
    fiftyDayAverageChangePercent: Option<real>,
    twoHundredDayAverage: Option<real>,
    twoHundredDayAverageChange: Option<real>,
    twoHundredDayAverageChangePercent: Option<real>)

  /** A watchlist with its stocks included. */
  datatype Watchlist = Watchlist(id: string, name: string, userId: string, stocks: seq<Stock>)
}
