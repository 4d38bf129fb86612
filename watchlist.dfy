/**
 * The watchlist page's data step: quotes are looked up through a process-wide
 * cache (skipped in production) and every stock of every watchlist gets an
 * enriched copy with its current price, currency, market cap and change figures.
 */
module WatchlistView {
  import opened Wrappers
  import opened JsNumbers
  import opened Domain

  const CacheKeyPrefix: string := "stock_"

  /** The cache key of a symbol; the symbol can be read back from it. */
  function CacheKey(symbol: string): (key: string)
    ensures |key| == |CacheKeyPrefix| + |symbol|
    ensures key[..|CacheKeyPrefix|] == CacheKeyPrefix && key[|CacheKeyPrefix|..] == symbol
  {
    CacheKeyPrefix + symbol
  }

  /** Two symbols never share a cache entry. */
  lemma CacheKeyInjective(a: string, b: string)
    ensures CacheKey(a) == CacheKey(b) <==> a == b
  {
    if CacheKey(a) == CacheKey(b) {
      assert a == CacheKey(a)[|CacheKeyPrefix|..];
    }
  }

  /** A fetch result the cache keeps: a quote whose price is truthy. */
  predicate Storable(r: FetchResult) {
    r.Returned? && r.quote.Some? && Truthy(r.quote.value.regularMarketPrice)
  }

  /** The answer a lookup of `symbol` gives against cache contents `entries`. */
  function Resolve(entries: map<string, Quote>, production: bool, symbol: string,
                   source: string -> FetchResult): FetchResult
  {
    var key := CacheKey(symbol);
    if !production && key in entries then Returned(Some(entries[key])) else source(symbol)
  }

  /** The cache contents after a lookup of `symbol` against `entries`. */
  function StoredAfter(entries: map<string, Quote>, production: bool, symbol: string,
                       source: string -> FetchResult): map<string, Quote>
  {
    var key := CacheKey(symbol);
    if !production && key !in entries && Storable(source(symbol))
    then entries[key := source(symbol).quote.value]
    else entries
  }

  /**
   * A lookup only adds entries, and only in development, only on a miss and
   * only for a quote with a truthy price; an exception stores nothing.
   */
  lemma StoredAfterChanges(entries: map<string, Quote>, production: bool, symbol: string,
                           source: string -> FetchResult)
    ensures var after := StoredAfter(entries, production, symbol, source);
      && entries.Keys <= after.Keys
      && (forall k :: k in entries ==> after[k] == entries[k])
      && (after != entries <==> !production && CacheKey(symbol) !in entries && Storable(source(symbol)))
      && (after != entries ==> after.Keys == entries.Keys + {CacheKey(symbol)})
  {
    var key := CacheKey(symbol);
    if !production && key !in entries && Storable(source(symbol)) {
      assert key in StoredAfter(entries, production, symbol, source);
    }
  }

  /**
   * Storing what the source answered never changes what any later lookup
   * answers: the cache only saves calls to the source.
   */
  lemma StoredAfterKeepsResolution(entries: map<string, Quote>, production: bool, symbol: string,
                                   source: string -> FetchResult)
    ensures forall other :: Resolve(StoredAfter(entries, production, symbol, source), production, other, source)
                         == Resolve(entries, production, other, source)
  {
    forall other
      ensures Resolve(StoredAfter(entries, production, symbol, source), production, other, source)
           == Resolve(entries, production, other, source)
    {
      CacheKeyInjective(symbol, other);
    }
  }

  /** The process-wide quote cache; in production it is never read or written. */
  class QuoteCache {
    const production: bool
    var entries: map<string, Quote>

    /** Every entry sits under a "stock_" key and holds a quote with a truthy price. */
    ghost predicate Valid()
      reads this
    {
      forall k :: k in entries ==>
        && |k| >= |CacheKeyPrefix| && k[..|CacheKeyPrefix|] == CacheKeyPrefix
        && Truthy(entries[k].regularMarketPrice)
    }

    constructor (production: bool)
      ensures Valid() && this.production == production && entries == map[]
    {
      this.production := production;
      entries := map[];
    }

    /**
     * `getStockQuote`: in production the source is always asked; otherwise a
     * hit answers from the cache without asking the source, and a miss asks
     * the source, keeps a quote with a truthy price, and passes the answer
     * (an exception included) on.
     */
    method GetStockQuote(symbol: string, source: string -> FetchResult) returns (r: FetchResult, askedSource: bool)
      requires Valid()
      modifies this
      ensures Valid()
      ensures askedSource <==> production || CacheKey(symbol) !in old(entries)
      ensures askedSource ==> r == source(symbol)
      ensures !askedSource ==> r == Returned(Some(old(entries)[CacheKey(symbol)]))
      ensures !askedSource ==> r.Returned? && r.quote.Some? && Truthy(r.quote.value.regularMarketPrice)
      ensures r == Resolve(old(entries), production, symbol, source)
      ensures entries == StoredAfter(old(entries), production, symbol, source)
    {
      var key := CacheKey(symbol);
      if production {
        return source(symbol), true;
      }
      if key in entries {
        return Returned(Some(entries[key])), false;
      }
      r := source(symbol);
      askedSource := true;
      if r.Returned? && r.quote.Some? && Truthy(r.quote.value.regularMarketPrice) {
        entries := entries[key := r.quote.value];
      }
    }
  }

  /** A second development lookup of a symbol whose quote was kept is answered from the cache. */
  method LookupTwice(cache: QuoteCache, symbol: string, source: string -> FetchResult)
    returns (first: FetchResult, second: FetchResult, askedAgain: bool)
    requires cache.Valid() && !cache.production
    modifies cache
    ensures cache.Valid()
    ensures second == first
    ensures Storable(first) ==> !askedAgain
  {
    var askedFirst;
    first, askedFirst := cache.GetStockQuote(symbol, source);
    second, askedAgain := cache.GetStockQuote(symbol, source);
    StoredAfterKeepsResolution(old(cache.entries), cache.production, symbol, source);
  }

  /** `calculateChange`: the price difference to two decimals, so within half a cent. */
  function CalculateChange(purchasePrice: real, currentPrice: real): (r: real)
    ensures WholeHundredths(r)
    ensures Abs(r - (currentPrice - purchasePrice)) <= 0.005
  {
    Round2(currentPrice - purchasePrice)
  }

  /** `calculateChangePercent`: the change relative to the purchase price in percent, to two decimals. */
  function CalculateChangePercent(purchasePrice: real, currentPrice: real): (r: real)
    requires purchasePrice != 0.0
    ensures WholeHundredths(r)
    ensures Abs(r - (currentPrice - purchasePrice) / purchasePrice * 100.0) <= 0.005
  {
    Round2((currentPrice - purchasePrice) / purchasePrice * 100.0)
  }

  /** For a positive purchase price the two figures never disagree in sign. */
  lemma ChangeAndPercentAgree(purchasePrice: real, currentPrice: real)
    requires purchasePrice > 0.0
    ensures CalculateChangePercent(purchasePrice, currentPrice) > 0.0 ==> CalculateChange(purchasePrice, currentPrice) >= 0.0
    ensures CalculateChangePercent(purchasePrice, currentPrice) < 0.0 ==> CalculateChange(purchasePrice, currentPrice) <= 0.0
    ensures CalculateChange(purchasePrice, currentPrice) > 0.0 ==> CalculateChangePercent(purchasePrice, currentPrice) >= 0.0
    ensures CalculateChange(purchasePrice, currentPrice) < 0.0 ==> CalculateChangePercent(purchasePrice, currentPrice) <= 0.0
  {
    var d := currentPrice - purchasePrice;
    var pct := d / purchasePrice * 100.0;
    assert d > 0.0 <==> pct > 0.0;
    assert d < 0.0 <==> pct < 0.0;
    Round2Sign(d);
    Round2Sign(pct);
  }

  /** The stock with only the five display fields that enrichment sets put back to those of `s`. */
  function WithDisplayOf(r: Stock, s: Stock): Stock {
    r.(currentPrice := s.currentPrice, currency := s.currency, marketCap := s.marketCap,
       change := s.change, changePercent := s.changePercent)
  }

  /**
   * One stock's enriched copy. Without a quote the stock is returned as it is;
   * otherwise only the price, currency, market cap and the two change figures
   * are set: against a truthy purchase price (a missing current price counting
   * as 0), else taken from the quote's own day change.
   */
  function EnrichStock(stock: Stock, quote: Option<Quote>): (r: Stock)
    ensures quote.None? ==> r == stock
    ensures WithDisplayOf(r, stock) == stock
    ensures quote.Some? ==>
      && r.currentPrice == quote.value.regularMarketPrice
      && r.currency == quote.value.currency
      && r.marketCap == quote.value.marketCap
    ensures quote.Some? && Truthy(stock.purchasePrice) ==>
      var p, c := stock.purchasePrice.value, quote.value.regularMarketPrice.GetOr(0.0);
      && r.change.Some? && WholeHundredths(r.change.value) && Abs(r.change.value - (c - p)) <= 0.005
      && r.changePercent.Some? && WholeHundredths(r.changePercent.value)
      && Abs(r.changePercent.value - (c - p) / p * 100.0) <= 0.005
    ensures quote.Some? && !Truthy(stock.purchasePrice) ==>
      r.change == quote.value.regularMarketChange && r.changePercent == quote.value.regularMarketChangePercent
  {
    match quote
    case None => stock
    case Some(q) =>
      var current := q.regularMarketPrice.GetOr(0.0);
      stock.(
        currentPrice := q.regularMarketPrice,
        currency := q.currency,
        marketCap := q.marketCap,
        change := if Truthy(stock.purchasePrice) then Some(CalculateChange(stock.purchasePrice.value, current))
                  else q.regularMarketChange,
        changePercent := if Truthy(stock.purchasePrice) then Some(CalculateChangePercent(stock.purchasePrice.value, current))
                         else q.regularMarketChangePercent)
  }

  /** Enriching an enriched copy with the same quote changes nothing more. */
  lemma EnrichStockIdempotent(stock: Stock, quote: Option<Quote>)
    ensures EnrichStock(EnrichStock(stock, quote), quote) == EnrichStock(stock, quote)
  {
  }

  /** Whether a lookup of some stock of `watchlists` throws, which rejects the whole page load. */
  predicate AnyRejected(watchlists: seq<Watchlist>, entries: map<string, Quote>, production: bool,
                        source: string -> FetchResult)
  {
    exists i, j :: 0 <= i < |watchlists| && 0 <= j < |watchlists[i].stocks|
      && Resolve(entries, production, watchlists[i].stocks[j].symbol, source).Threw?
  }

  /** A watchlist with every stock replaced by its enriched copy. */
  function EnrichWatchlist(w: Watchlist, entries: map<string, Quote>, production: bool,
                           source: string -> FetchResult): Watchlist
  {
    w.(stocks := seq(|w.stocks|, j requires 0 <= j < |w.stocks| =>
                     EnrichStock(w.stocks[j], QuoteOf(Resolve(entries, production, w.stocks[j].symbol, source)))))
  }

  /** `getProcessedWatchlists` against cache contents `entries`: None when a lookup throws. */
  function EnrichWatchlists(watchlists: seq<Watchlist>, entries: map<string, Quote>, production: bool,
                            source: string -> FetchResult): Option<seq<Watchlist>>
  {
    if AnyRejected(watchlists, entries, production, source) then None
    else Some(seq(|watchlists|, i requires 0 <= i < |watchlists| => EnrichWatchlist(watchlists[i], entries, production, source)))
  }

  /**
   * The page's data keeps the watchlists, their own fields, and the number and
   * order of their stocks; each stock is enriched with its own symbol's quote.
   */
  lemma EnrichWatchlistsShape(watchlists: seq<Watchlist>, entries: map<string, Quote>, production: bool,
                              source: string -> FetchResult)
    ensures var r := EnrichWatchlists(watchlists, entries, production, source);
      && (r.None? <==> AnyRejected(watchlists, entries, production, source))
      && (r.Some? ==>
            && |r.value| == |watchlists|
            && forall i :: 0 <= i < |watchlists| ==>
                 && r.value[i].(stocks := watchlists[i].stocks) == watchlists[i]
                 && |r.value[i].stocks| == |watchlists[i].stocks|
                 && forall j :: 0 <= j < |watchlists[i].stocks| ==>
                      && r.value[i].stocks[j].id == watchlists[i].stocks[j].id
                      && r.value[i].stocks[j].symbol == watchlists[i].stocks[j].symbol
                      && (Resolve(entries, production, watchlists[i].stocks[j].symbol, source) == Returned(None) ==>
                            r.value[i].stocks[j] == watchlists[i].stocks[j]))
  {
  }

  /** Cache contents that answer every lookup alike. */
  ghost predicate SameAnswers(e1: map<string, Quote>, e2: map<string, Quote>, production: bool,
                              source: string -> FetchResult)
  {
    forall s :: Resolve(e1, production, s, source) == Resolve(e2, production, s, source)
  }

  /** A lookup keeps the cache answering as the contents it started the page load with. */
  lemma LookupKeepsAnswers(before: map<string, Quote>, start: map<string, Quote>, production: bool,
                           symbol: string, source: string -> FetchResult)
    requires SameAnswers(before, start, production, source)
    ensures SameAnswers(StoredAfter(before, production, symbol, source), start, production, source)
  {
    StoredAfterKeepsResolution(before, production, symbol, source);
  }

  /** Cache contents that answer every lookup alike give the same page data. */
  lemma SameAnswersSameEnrichment(watchlists: seq<Watchlist>, e1: map<string, Quote>, e2: map<string, Quote>,
                                  production: bool, source: string -> FetchResult)
    requires SameAnswers(e1, e2, production, source)
    ensures EnrichWatchlists(watchlists, e1, production, source) == EnrichWatchlists(watchlists, e2, production, source)
  {
    assert AnyRejected(watchlists, e1, production, source) == AnyRejected(watchlists, e2, production, source) by {
      if AnyRejected(watchlists, e1, production, source) {
        var i, j :| 0 <= i < |watchlists| && 0 <= j < |watchlists[i].stocks|
          && Resolve(e1, production, watchlists[i].stocks[j].symbol, source).Threw?;
        assert Resolve(e2, production, watchlists[i].stocks[j].symbol, source).Threw?;
      }
      if AnyRejected(watchlists, e2, production, source) {
        var i, j :| 0 <= i < |watchlists| && 0 <= j < |watchlists[i].stocks|
          && Resolve(e2, production, watchlists[i].stocks[j].symbol, source).Threw?;
        assert Resolve(e1, production, watchlists[i].stocks[j].symbol, source).Threw?;
      }
    }
    forall i | 0 <= i < |watchlists|
      ensures EnrichWatchlist(watchlists[i], e1, production, source) == EnrichWatchlist(watchlists[i], e2, production, source)
    {
      var w := watchlists[i];
      var s1 := EnrichWatchlist(w, e1, production, source).stocks;
      var s2 := EnrichWatchlist(w, e2, production, source).stocks;
      assert |s1| == |s2|;
      forall j | 0 <= j < |w.stocks| ensures s1[j] == s2[j] {
        assert Resolve(e1, production, w.stocks[j].symbol, source) == Resolve(e2, production, w.stocks[j].symbol, source);
      }
      assert s1 == s2;
    }
    var r1 := seq(|watchlists|, i requires 0 <= i < |watchlists| => EnrichWatchlist(watchlists[i], e1, production, source));
    var r2 := seq(|watchlists|, i requires 0 <= i < |watchlists| => EnrichWatchlist(watchlists[i], e2, production, source));
    assert r1 == r2;
  }

  /** One watchlist's stocks looked up in order and enriched; None when a lookup throws. */
  method ProcessWatchlist(cache: QuoteCache, w: Watchlist, ghost start: map<string, Quote>, source: string -> FetchResult)
    returns (r: Option<Watchlist>)
    requires cache.Valid() && SameAnswers(cache.entries, start, cache.production, source)
    modifies cache
    ensures cache.Valid() && SameAnswers(cache.entries, start, cache.production, source)
    ensures r.None? ==> exists j :: 0 <= j < |w.stocks| && Resolve(start, cache.production, w.stocks[j].symbol, source).Threw?
    ensures r.Some? ==> r.value == EnrichWatchlist(w, start, cache.production, source)
    ensures r.Some? ==> forall j :: 0 <= j < |w.stocks| ==> !Resolve(start, cache.production, w.stocks[j].symbol, source).Threw?
  {
    var stocks: seq<Stock> := [];
    var j := 0;
    while j < |w.stocks|
      invariant 0 <= j <= |w.stocks|
      invariant cache.Valid() && SameAnswers(cache.entries, start, cache.production, source)
      invariant |stocks| == j
      invariant forall m :: 0 <= m < j ==>
                  stocks[m] == EnrichStock(w.stocks[m], QuoteOf(Resolve(start, cache.production, w.stocks[m].symbol, source)))
      invariant forall m :: 0 <= m < j ==> !Resolve(start, cache.production, w.stocks[m].symbol, source).Threw?
    {
      var symbol := w.stocks[j].symbol;
      ghost var before := cache.entries;
      var quote, asked := cache.GetStockQuote(symbol, source);
      LookupKeepsAnswers(before, start, cache.production, symbol, source);
      assert quote == Resolve(start, cache.production, symbol, source);
      if quote.Threw? {
        return None;
      }
      stocks := stocks + [EnrichStock(w.stocks[j], QuoteOf(quote))];
      j := j + 1;
    }
    return Some(w.(stocks := stocks));
  }

  /**
   * `getProcessedWatchlists`: every stock of every watchlist is looked up, in
   * order, and enriched; an exception from a lookup rejects the whole result.
   * The cache only ever saves calls: every later lookup answers as before.
   */
  method ProcessWatchlists(cache: QuoteCache, watchlists: seq<Watchlist>, source: string -> FetchResult)
    returns (r: Option<seq<Watchlist>>)
    requires cache.Valid()
    modifies cache
    ensures cache.Valid()
    ensures r == EnrichWatchlists(watchlists, old(cache.entries), cache.production, source)
    ensures SameAnswers(cache.entries, old(cache.entries), cache.production, source)
  {
    ghost var start := cache.entries;
    var out: seq<Watchlist> := [];
    var i := 0;
    while i < |watchlists|
      invariant 0 <= i <= |watchlists|
      invariant cache.Valid() && SameAnswers(cache.entries, start, cache.production, source)
      invariant |out| == i
      invariant forall k :: 0 <= k < i ==> out[k] == EnrichWatchlist(watchlists[k], start, cache.production, source)
      invariant forall k, j :: 0 <= k < i && 0 <= j < |watchlists[k].stocks| ==>
                  !Resolve(start, cache.production, watchlists[k].stocks[j].symbol, source).Threw?
    {
      var enriched := ProcessWatchlist(cache, watchlists[i], start, source);
      if enriched.None? {
        return None;
      }
      out := out + [enriched.value];
      i := i + 1;
    }
    assert out == seq(|watchlists|, k requires 0 <= k < |watchlists| => EnrichWatchlist(watchlists[k], start, cache.production, source));
    return Some(out);
  }

  /** Loading the page twice against an unchanged source gives the same data. */
  method ProcessTwice(cache: QuoteCache, watchlists: seq<Watchlist>, source: string -> FetchResult)
    returns (first: Option<seq<Watchlist>>, second: Option<seq<Watchlist>>)
    requires cache.Valid()
    modifies cache
    ensures cache.Valid()
    ensures first == second
  {
    first := ProcessWatchlists(cache, watchlists, source);
    ghost var between := cache.entries;
    second := ProcessWatchlists(cache, watchlists, source);
    SameAnswersSameEnrichment(watchlists, between, old(cache.entries), cache.production, source);
  }
}
