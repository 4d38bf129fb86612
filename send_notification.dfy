/**
 * The scheduled alert endpoint: after a bearer-token check it refreshes every
 * portfolio stock from the quote source in place, then sends one chat message
 * for each stock whose price moved at least 3% from its purchase price.
 */
module SendNotification {
  import opened Wrappers
  import opened JsStrings
  import opened JsNumbers
  import opened Domain

  /** 401 Unauthorized, 200 "OK", 500 from the handler's catch, or an exception escaping the handler. */
  datatype Response = Unauthorized | Ok | ServerError | Crashed

  datatype User = User(id: string, email: string, telegramChatId: Option<string>)

  /** A message handed to the chat bot for one chat. */
  datatype Notification = Notification(chatId: Option<string>, text: string)

  /** The header the scheduler must send; an unset key reads as "undefined" in the template. */
  function ExpectedAuthorization(cronKey: Option<string>): string {
    "Bearer " + cronKey.GetOr("undefined")
  }

  /** The handler's check: a truthy header equal to the expected one. */
  predicate Authorized(header: Option<string>, cronKey: Option<string>) {
    header.Some? && header.value != "" && header.value == ExpectedAuthorization(cronKey)
  }

  /** The emptiness test adds nothing: exactly the expected header is let in. */
  lemma AuthorizedExactly(header: Option<string>, cronKey: Option<string>)
    ensures Authorized(header, cronKey) <==> header == Some(ExpectedAuthorization(cronKey))
  {
    assert |ExpectedAuthorization(cronKey)| >= 7;
  }

  /** Whether the quote pass copies this answer onto the stock: a quote with a truthy price. */
  predicate Priced(fetched: FetchResult) {
    fetched.Returned? && fetched.quote.Some? && Truthy(fetched.quote.value.regularMarketPrice)
  }

  /** The nine fields the quote pass writes put back to those of `s`. */
  function WithQuoteFieldsOf(r: Stock, s: Stock): Stock {
    r.(currentPrice := s.currentPrice, change := s.change, changePercent := s.changePercent,
       fiftyDayAverage := s.fiftyDayAverage, fiftyDayAverageChange := s.fiftyDayAverageChange,
       fiftyDayAverageChangePercent := s.fiftyDayAverageChangePercent,
       twoHundredDayAverage := s.twoHundredDayAverage, twoHundredDayAverageChange := s.twoHundredDayAverageChange,
       twoHundredDayAverageChangePercent := s.twoHundredDayAverageChangePercent)
  }

  /**
   * One stock after the quote pass: unchanged unless the quote has a truthy
   * price, else the price, day change and six moving-average fields are
   * copied verbatim and nothing else changes.
   */
  function ApplyQuote(stock: Stock, fetched: FetchResult): (r: Stock)
    ensures !Priced(fetched) ==> r == stock
    ensures WithQuoteFieldsOf(r, stock) == stock
    ensures Priced(fetched) ==>
      var q := fetched.quote.value;
      && r.currentPrice == q.regularMarketPrice && Truthy(r.currentPrice)
      && r.change == q.regularMarketChange && r.changePercent == q.regularMarketChangePercent
      && r.fiftyDayAverage == q.fiftyDayAverage && r.fiftyDayAverageChange == q.fiftyDayAverageChange
      && r.fiftyDayAverageChangePercent == q.fiftyDayAverageChangePercent
      && r.twoHundredDayAverage == q.twoHundredDayAverage && r.twoHundredDayAverageChange == q.twoHundredDayAverageChange
      && r.twoHundredDayAverageChangePercent == q.twoHundredDayAverageChangePercent
  {
    if !Priced(fetched) then stock
    else
      var q := fetched.quote.value;
      stock.(currentPrice := q.regularMarketPrice, change := q.regularMarketChange,
             changePercent := q.regularMarketChangePercent,
             fiftyDayAverage := q.fiftyDayAverage, fiftyDayAverageChange := q.fiftyDayAverageChange,
             fiftyDayAverageChangePercent := q.fiftyDayAverageChangePercent,
             twoHundredDayAverage := q.twoHundredDayAverage, twoHundredDayAverageChange := q.twoHundredDayAverageChange,
             twoHundredDayAverageChangePercent := q.twoHundredDayAverageChangePercent)
  }

  /**
   * The quote pass: every stock is refreshed in place from its own quote.
   * `failed` reports whether some fetch threw, which rejects the pass.
   */
  method RefreshQuotes(portfolio: array<Stock>, source: string -> FetchResult) returns (failed: bool)
    modifies portfolio
    ensures forall i :: 0 <= i < portfolio.Length ==> portfolio[i] == ApplyQuote(old(portfolio[i]), source(old(portfolio[i]).symbol))
    ensures failed <==> exists i :: 0 <= i < portfolio.Length && source(old(portfolio[i]).symbol).Threw?
  {
    failed := false;
    var i := 0;
    while i < portfolio.Length
      invariant 0 <= i <= portfolio.Length
      invariant forall k :: 0 <= k < i ==> portfolio[k] == ApplyQuote(old(portfolio[k]), source(old(portfolio[k]).symbol))
      invariant forall k :: i <= k < portfolio.Length ==> portfolio[k] == old(portfolio[k])
      invariant failed <==> exists k :: 0 <= k < i && source(old(portfolio[k]).symbol).Threw?
    {
      var stock := portfolio[i];
      var fetched := source(stock.symbol);
      if fetched.Threw? {
        failed := true;
      }
      portfolio[i] := ApplyQuote(stock, fetched);
      i := i + 1;
    }
  }

  /** A stock the alert pass can divide by: its purchase price is set and not zero. */
  predicate HasPurchasePrice(s: Stock) {
    s.purchasePrice.Some? && s.purchasePrice.value != 0.0
  }

  /** The percent change from the purchase price. */
  function AlertPercent(purchasePrice: real, currentPrice: real): real
    requires purchasePrice != 0.0
  {
    (currentPrice - purchasePrice) / purchasePrice * 100.0
  }

  const AlertThreshold: real := 3.0

  /** A move of at least 3%, up or down; the boundary counts. */
  predicate Crosses(percent: real) {
    Abs(percent) >= AlertThreshold
  }

  /** For a positive purchase price an alert fires exactly at 3% above or below it, or beyond. */
  lemma CrossesInPrices(purchasePrice: real, currentPrice: real)
    requires purchasePrice > 0.0
    ensures Crosses(AlertPercent(purchasePrice, currentPrice))
        <==> currentPrice >= purchasePrice * 1.03 || currentPrice <= purchasePrice * 0.97
  {
    var d := currentPrice - purchasePrice;
    var pct := AlertPercent(purchasePrice, currentPrice);
    assert pct * purchasePrice == d * 100.0;
    assert pct >= 3.0 <==> d >= purchasePrice * 0.03;
    assert pct <= -3.0 <==> d <= -purchasePrice * 0.03;
  }

  const AlertHeader: string := "==========/n"
  const SymbolLinePrefix: string := "\U{1F4C8} "
  const SymbolLineSuffix: string := " Alert:"
  const PurchaseLinePrefix: string := "- Purchase Price: $"
  const CurrentLinePrefix: string := "- Current Price: $"
  const ChangeLinePrefix: string := "- Change: "
  const ChangeLineSuffix: string := "%"

  /** The alert's five lines, from the texts of its three numbers. */
  function AlertLines(symbol: string, purchaseText: string, currentText: string, changeText: string): seq<string> {
    [AlertHeader,
     SymbolLinePrefix + symbol + SymbolLineSuffix,
     PurchaseLinePrefix + purchaseText,
     CurrentLinePrefix + currentText,
     ChangeLinePrefix + changeText + ChangeLineSuffix]
  }

  /** The alert text: its lines joined by line breaks. */
  function AlertText(symbol: string, purchaseText: string, currentText: string, changeText: string): string {
    Join(AlertLines(symbol, purchaseText, currentText, changeText), '\n')
  }

  /** The alert text with both prices and the change written to two decimals. */
  function AlertMessage(symbol: string, purchasePrice: real, currentPrice: real, percent: real): string {
    AlertText(symbol, Fixed2(purchasePrice), Fixed2(currentPrice), Fixed2(percent))
  }

  /** What a reader of an alert learns from it. */
  datatype AlertFields = AlertFields(symbol: string, purchasePrice: JsNumber, currentPrice: JsNumber, change: JsNumber)

  function StripPrefix(s: string, prefix: string): Option<string> {
    if prefix <= s then Some(s[|prefix|..]) else None
  }

  function StripSuffix(s: string, suffix: string): Option<string> {
    if |suffix| <= |s| && s[|s| - |suffix|..] == suffix then Some(s[..|s| - |suffix|]) else None
  }

  /** Reads an alert's symbol and numbers back from its lines. */
  function ReadAlert(text: string): Option<AlertFields> {
    var lines := Split(text, '\n');
    if |lines| != 5 || lines[0] != AlertHeader then None
    else
      var symbolLine := StripPrefix(lines[1], SymbolLinePrefix);
      var purchase := StripPrefix(lines[2], PurchaseLinePrefix);
      var current := StripPrefix(lines[3], CurrentLinePrefix);
      var changeLine := StripPrefix(lines[4], ChangeLinePrefix);
      if symbolLine.None? || purchase.None? || current.None? || changeLine.None? then None
      else
        var symbol := StripSuffix(symbolLine.value, SymbolLineSuffix);
        var change := StripSuffix(changeLine.value, ChangeLineSuffix);
        if symbol.None? || change.None? then None
        else Some(AlertFields(symbol.value, ParseFloat(purchase.value), ParseFloat(current.value), ParseFloat(change.value)))
  }

  /** Texts free of line breaks come back as the same five lines. */
  lemma SplitAlertText(symbol: string, purchaseText: string, currentText: string, changeText: string)
    requires '\n' !in symbol && '\n' !in purchaseText && '\n' !in currentText && '\n' !in changeText
    ensures Split(AlertText(symbol, purchaseText, currentText, changeText), '\n')
         == AlertLines(symbol, purchaseText, currentText, changeText)
  {
    var lines := AlertLines(symbol, purchaseText, currentText, changeText);
    assert forall k :: 0 <= k < |lines| ==> '\n' !in lines[k];
    SplitJoin(lines, '\n');
  }

  lemma NoNewlineInFixed2(x: real)
    ensures '\n' !in Fixed2(x)
  {
    var n := if x < 0.0 then -Cents(x) else Cents(x);
    assert AllDigits(NatText(n / 100));
  }

  lemma StripAround(prefix: string, middle: string, suffix: string)
    ensures StripPrefix(prefix + middle + suffix, prefix) == Some(middle + suffix)
    ensures StripSuffix(middle + suffix, suffix) == Some(middle)
  {
    assert (prefix + middle + suffix)[|prefix|..] == middle + suffix;
    assert (middle + suffix)[|middle|..] == suffix;
    assert (middle + suffix)[..|middle|] == middle;
  }

  /** The symbol line and the three number texts read back from any alert text. */
  lemma ReadAlertText(symbol: string, purchaseText: string, currentText: string, changeText: string)
    requires '\n' !in symbol && '\n' !in purchaseText && '\n' !in currentText && '\n' !in changeText
    ensures ReadAlert(AlertText(symbol, purchaseText, currentText, changeText))
         == Some(AlertFields(symbol, ParseFloat(purchaseText), ParseFloat(currentText), ParseFloat(changeText)))
  {
    SplitAlertText(symbol, purchaseText, currentText, changeText);
    StripAround(SymbolLinePrefix, symbol, SymbolLineSuffix);
    StripAround(PurchaseLinePrefix, purchaseText, []);
    assert PurchaseLinePrefix + purchaseText + [] == PurchaseLinePrefix + purchaseText;
    StripAround(CurrentLinePrefix, currentText, []);
    assert CurrentLinePrefix + currentText + [] == CurrentLinePrefix + currentText;
    StripAround(ChangeLinePrefix, changeText, ChangeLineSuffix);
  }

  /**
   * An alert names its symbol and, to two decimals, the purchase price, the
   * current price and the change: all four read back from the text.
   */
  lemma ReadAlertMessage(symbol: string, purchasePrice: real, currentPrice: real, percent: real)
    requires '\n' !in symbol
    ensures ReadAlert(AlertMessage(symbol, purchasePrice, currentPrice, percent))
         == Some(AlertFields(symbol, Num(Round2(purchasePrice)), Num(Round2(currentPrice)), Num(Round2(percent))))
  {
    NoNewlineInFixed2(purchasePrice);
    NoNewlineInFixed2(currentPrice);
    NoNewlineInFixed2(percent);
    ReadAlertText(symbol, Fixed2(purchasePrice), Fixed2(currentPrice), Fixed2(percent));
    ParseFixed2(purchasePrice);
    ParseFixed2(currentPrice);
    ParseFixed2(percent);
  }

  /** Every stock has a purchase price the pass can divide by. */
  predicate AllPurchased(stocks: seq<Stock>) {
    forall i :: 0 <= i < |stocks| ==> HasPurchasePrice(stocks[i])
  }

  /** A stock that has a current price and has moved at least 3% from its purchase price. */
  predicate Alerting(s: Stock)
    requires HasPurchasePrice(s)
  {
    s.currentPrice.Some? && Crosses(AlertPercent(s.purchasePrice.value, s.currentPrice.value))
  }

  /** The message sent for an alerting stock. */
  function AlertOf(s: Stock, chatId: Option<string>): Notification
    requires HasPurchasePrice(s) && s.currentPrice.Some?
  {
    var p, c := s.purchasePrice.value, s.currentPrice.value;
    Notification(chatId, AlertMessage(s.symbol, p, c, AlertPercent(p, c)))
  }

  /**
   * The corrected alert pass: in portfolio order, one message per stock that
   * has a current price and crosses the threshold.
   */
  function Alerts(stocks: seq<Stock>, chatId: Option<string>): seq<Notification>
    requires AllPurchased(stocks)
    decreases |stocks|
  {
    if stocks == [] then []
    else
      var n := |stocks| - 1;
      Alerts(stocks[..n], chatId) + (if Alerting(stocks[n]) then [AlertOf(stocks[n], chatId)] else [])
  }

  /** The alerts of a concatenation are the alerts of its parts, in order. */
  lemma {:induction false} AlertsAppend(s: seq<Stock>, t: seq<Stock>, chatId: Option<string>)
    requires AllPurchased(s) && AllPurchased(t)
    ensures AllPurchased(s + t)
    ensures Alerts(s + t, chatId) == Alerts(s, chatId) + Alerts(t, chatId)
    decreases |t|
  {
    var st := s + t;
    assert AllPurchased(st) by {
      forall i | 0 <= i < |st| ensures HasPurchasePrice(st[i]) {
        if i >= |s| {
          assert st[i] == t[i - |s|];
        }
      }
    }
    if t == [] {
      assert st == s;
    } else {
      var n := |t| - 1;
      assert st[..|st| - 1] == s + t[..n];
      AlertsAppend(s, t[..n], chatId);
    }
  }

  /** A single stock gives one alert exactly when it has a current price and crosses the threshold. */
  lemma AlertsOne(s: Stock, chatId: Option<string>)
    requires HasPurchasePrice(s)
    ensures |Alerts([s], chatId)| <= 1
    ensures |Alerts([s], chatId)| == 1 <==> s.currentPrice.Some? && Crosses(AlertPercent(s.purchasePrice.value, s.currentPrice.value))
  {
    assert [s][..0] == [];
  }

  /** Every message sent is the alert of a stock that has a current price and moved at least 3%. */
  lemma {:induction false} AlertsSound(stocks: seq<Stock>, chatId: Option<string>, m: Notification)
    requires AllPurchased(stocks)
    requires m in Alerts(stocks, chatId)
    ensures exists i :: 0 <= i < |stocks| && Alerting(stocks[i]) && m == AlertOf(stocks[i], chatId)
    decreases |stocks|
  {
    var n := |stocks| - 1;
    var init := stocks[..n];
    if m in Alerts(init, chatId) {
      AlertsSound(init, chatId, m);
      var i :| 0 <= i < |init| && Alerting(init[i]) && m == AlertOf(init[i], chatId);
      assert stocks[i] == init[i];
    } else {
      assert Alerting(stocks[n]) && m == AlertOf(stocks[n], chatId);
    }
  }

  /** Every stock that has a current price and moved at least 3% gets its alert. */
  lemma {:induction false} AlertsComplete(stocks: seq<Stock>, chatId: Option<string>, i: nat)
    requires AllPurchased(stocks)
    requires i < |stocks| && Alerting(stocks[i])
    ensures AlertOf(stocks[i], chatId) in Alerts(stocks, chatId)
    decreases |stocks|
  {
    var n := |stocks| - 1;
    var init := stocks[..n];
    if i < n {
      assert init[i] == stocks[i];
      AlertsComplete(init, chatId, i);
    }
  }

  /**
   * A message is sent exactly for the stocks that have a current price and
   * moved at least 3%, addressed to the user's chat and carrying that stock's
   * symbol, prices and change.
   */
  lemma AlertsExactly(stocks: seq<Stock>, chatId: Option<string>)
    requires AllPurchased(stocks)
    ensures forall m :: m in Alerts(stocks, chatId) <==>
      exists i :: 0 <= i < |stocks| && Alerting(stocks[i]) && m == AlertOf(stocks[i], chatId)
  {
    forall m | m in Alerts(stocks, chatId)
      ensures exists i :: 0 <= i < |stocks| && Alerting(stocks[i]) && m == AlertOf(stocks[i], chatId)
    {
      AlertsSound(stocks, chatId, m);
    }
    forall i | 0 <= i < |stocks| && Alerting(stocks[i])
      ensures AlertOf(stocks[i], chatId) in Alerts(stocks, chatId)
    {
      AlertsComplete(stocks, chatId, i);
    }
  }

  /**
   * The route's alert pass, one stock at a time in portfolio order, as the
   * route writes it: a stock with no current price is evaluated too. Where
   * every stock has a current price it sends exactly the corrected `Alerts`.
   */
  method SendAlerts(portfolio: array<Stock>, chatId: Option<string>) returns (sent: seq<Notification>)
    requires AllPurchased(portfolio[..])
    ensures sent == AlertsAsWritten(portfolio[..], chatId)
    ensures (forall i :: 0 <= i < portfolio.Length ==> portfolio[i].currentPrice.Some?) ==>
      sent == Alerts(portfolio[..], chatId)
  {
    sent := [];
    var i := 0;
    while i < portfolio.Length
      invariant 0 <= i <= portfolio.Length
      invariant AllPurchased(portfolio[..i])
      invariant sent == AlertsAsWritten(portfolio[..i], chatId)
    {
      var stock := portfolio[i];
      assert portfolio[..i + 1][..i] == portfolio[..i];
      var p, c := stock.purchasePrice.value, stock.currentPrice.GetOr(0.0);
      var percent := AlertPercent(p, c);
      if Abs(percent) >= AlertThreshold {
        var currentText := if stock.currentPrice.Some? then Fixed2(c) else "undefined";
        sent := sent + [Notification(chatId, AlertText(stock.symbol, Fixed2(p), currentText, Fixed2(percent)))];
      }
      i := i + 1;
    }
    assert portfolio[..] == portfolio[..portfolio.Length];
    if forall i :: 0 <= i < portfolio.Length ==> portfolio[i].currentPrice.Some? {
      AsWrittenAgreesWhenPriced(portfolio[..], chatId);
    }
  }

  /**
   * `GET`: the token check, the user and portfolio lookups, the in-place quote
   * pass, then the alert pass as written; 200 once both passes ran, 500 when
   * the quote pass threw or there is no portfolio watchlist.
   */
  method HandleGet(authorization: Option<string>, cronKey: Option<string>, user: Option<User>,
                   portfolio: array?<Stock>, source: string -> FetchResult)
    returns (response: Response, sent: seq<Notification>)
    requires portfolio != null ==> AllPurchased(portfolio[..])
    modifies portfolio
    ensures !Authorized(authorization, cronKey) ==>
      response == Unauthorized && sent == [] && (portfolio != null ==> unchanged(portfolio))
    ensures Authorized(authorization, cronKey) && user.None? ==>
      response == Crashed && sent == [] && (portfolio != null ==> unchanged(portfolio))
    ensures Authorized(authorization, cronKey) && user.Some? && portfolio == null ==>
      response == ServerError && sent == []
    ensures Authorized(authorization, cronKey) && user.Some? && portfolio != null ==>
      && (forall i :: 0 <= i < portfolio.Length ==> portfolio[i] == ApplyQuote(old(portfolio[i]), source(old(portfolio[i]).symbol)))
      && (response == ServerError || response == Ok)
      && (response == ServerError <==> exists i :: 0 <= i < portfolio.Length && source(old(portfolio[i]).symbol).Threw?)
      && (response == ServerError ==> sent == [])
      && AllPurchased(portfolio[..])
      && (response == Ok ==> sent == AlertsAsWritten(portfolio[..], user.value.telegramChatId))
      && (response == Ok && (forall i :: 0 <= i < portfolio.Length ==> portfolio[i].currentPrice.Some?) ==>
            sent == Alerts(portfolio[..], user.value.telegramChatId))
  {
    if !Authorized(authorization, cronKey) {
      return Unauthorized, [];
    }
    if user.None? {
      return Crashed, [];
    }
    if portfolio == null {
      return ServerError, [];
    }
    ghost var before := portfolio[..];
    var failed := RefreshQuotes(portfolio, source);
    assert AllPurchased(portfolio[..]) by {
      forall i | 0 <= i < portfolio.Length ensures HasPurchasePrice(portfolio[..][i]) {
        assert before[i] == old(portfolio[i]);
      }
    }
    if failed {
      return ServerError, [];
    }
    sent := SendAlerts(portfolio, user.value.telegramChatId);
    response := Ok;
  }

  // The alert pass as the route writes it; `Alerts` above is the corrected pass.

  /**
   * As written: every stock is evaluated; a null current price counts as 0 in
   * the percent and prints as "undefined".
   */
  function AlertsAsWritten(stocks: seq<Stock>, chatId: Option<string>): seq<Notification>
    requires AllPurchased(stocks)
    decreases |stocks|
  {
    if stocks == [] then []
    else
      var n := |stocks| - 1;
      var s := stocks[n];
      var p, c := s.purchasePrice.value, s.currentPrice.GetOr(0.0);
      var percent := AlertPercent(p, c);
      var currentText := if s.currentPrice.Some? then Fixed2(c) else "undefined";
      AlertsAsWritten(stocks[..n], chatId)
        + (if Crosses(percent) then [Notification(chatId, AlertText(s.symbol, Fixed2(p), currentText, Fixed2(percent)))] else [])
  }

  /** As written, the messages of a concatenation are the messages of its parts, in order. */
  lemma {:induction false} AlertsAsWrittenAppend(s: seq<Stock>, t: seq<Stock>, chatId: Option<string>)
    requires AllPurchased(s) && AllPurchased(t)
    ensures AllPurchased(s + t)
    ensures AlertsAsWritten(s + t, chatId) == AlertsAsWritten(s, chatId) + AlertsAsWritten(t, chatId)
    decreases |t|
  {
    var st := s + t;
    assert AllPurchased(st) by {
      forall i | 0 <= i < |st| ensures HasPurchasePrice(st[i]) {
        if i >= |s| {
          assert st[i] == t[i - |s|];
        }
      }
    }
    if t == [] {
      assert st == s;
    } else {
      var n := |t| - 1;
      assert st[..|st| - 1] == s + t[..n];
      AlertsAsWrittenAppend(s, t[..n], chatId);
    }
  }

  /**
   * As written, a single stock gets one message exactly when its change,
   * with a missing current price read as 0, is at least 3% either way.
   */
  lemma AlertsAsWrittenOne(s: Stock, chatId: Option<string>)
    requires HasPurchasePrice(s)
    ensures |AlertsAsWritten([s], chatId)| <= 1
    ensures |AlertsAsWritten([s], chatId)| == 1 <==> Crosses(AlertPercent(s.purchasePrice.value, s.currentPrice.GetOr(0.0)))
  {
    assert [s][..0] == [];
  }

  /** Where every stock has a current price, the pass as written and the corrected one agree. */
  lemma {:induction false} AsWrittenAgreesWhenPriced(stocks: seq<Stock>, chatId: Option<string>)
    requires AllPurchased(stocks)
    requires forall i :: 0 <= i < |stocks| ==> stocks[i].currentPrice.Some?
    ensures AlertsAsWritten(stocks, chatId) == Alerts(stocks, chatId)
    decreases |stocks|
  {
    if stocks != [] {
      AsWrittenAgreesWhenPriced(stocks[..|stocks| - 1], chatId);
    }
  }

  /**
   * As written, a stock the quote pass did not price and that has no stored
   * current price reads as a 100% loss and gets an alert whose current price
   * is "undefined"; the corrected pass sends nothing for it.
   */
  lemma UnpricedStockAlertsAsWritten(s: Stock, fetched: FetchResult, chatId: Option<string>)
    requires s.purchasePrice.Some? && s.purchasePrice.value > 0.0 && s.currentPrice.None?
    requires !Priced(fetched)
    ensures var after := ApplyQuote(s, fetched);
      && AlertsAsWritten([after], chatId)
         == [Notification(chatId, AlertText(s.symbol, Fixed2(s.purchasePrice.value), "undefined", Fixed2(-100.0)))]
      && Alerts([after], chatId) == []
  {
    var after := ApplyQuote(s, fetched);
    assert [after][..0] == [];
    var p := s.purchasePrice.value;
    assert (0.0 - p) / p == -1.0;
  }

  /** A concrete case: a portfolio stock bought at 100, never priced, whose quote comes back empty. */
  lemma UnpricedStockExample()
    ensures var s := Stock("s1", "XYZ", "Xyz Corp", "w1", Some(100.0), None, None, None, None, None,
                           None, None, None, None, None, None);
      && AlertsAsWritten([ApplyQuote(s, Returned(None))], None)
         == [Notification(None, AlertText("XYZ", Fixed2(100.0), "undefined", Fixed2(-100.0)))]
      && ParseFloat(Fixed2(-100.0)) == Num(-100.0)
      && Alerts([ApplyQuote(s, Returned(None))], None) == []
  {
    var s := Stock("s1", "XYZ", "Xyz Corp", "w1", Some(100.0), None, None, None, None, None,
                   None, None, None, None, None, None);
    UnpricedStockAlertsAsWritten(s, Returned(None), None);
    ParseFixed2(-100.0);
    assert Round2(-100.0) == -100.0 by {
      assert ((100.0 * 100.0) + 0.5).Floor == 10000;
    }
  }
}
