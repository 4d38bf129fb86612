/**
 * The stock table's column logic: market-cap tiers and their labels, the
 * "N/A" rules of the market-cap and purchase-price cells, and the numeric
 * sorting function shared by the five numeric columns.
 */
module Columns {
  import opened Wrappers
  import opened JsNumbers
  import opened Domain

  /** The scale a market cap is written in. */
  datatype Tier = Trillion | Billion | Million | Unscaled

  const TrillionValue: real := 1_000_000_000_000.0
  const BillionValue: real := 1_000_000_000.0
  const MillionValue: real := 1_000_000.0

  /** The tier `formatMarketCap` picks: the first threshold, from the top, that the value reaches. */
  function TierOf(marketCap: real): Tier {
    if marketCap >= TrillionValue then Trillion
    else if marketCap >= BillionValue then Billion
    else if marketCap >= MillionValue then Million
    else Unscaled
  }

  /** The divisor of a scaled tier. */
  function Scale(t: Tier): (r: real)
    requires t != Unscaled
    ensures r >= MillionValue
  {
    match t
    case Trillion => TrillionValue
    case Billion => BillionValue
    case Million => MillionValue
  }

  function Suffix(t: Tier): string
    requires t != Unscaled
  {
    match t
    case Trillion => "T"
    case Billion => "B"
    case Million => "M"
  }

  /** Tiers from smallest to largest. */
  function Rank(t: Tier): nat {
    match t
    case Unscaled => 0
    case Million => 1
    case Billion => 2
    case Trillion => 3
  }

  /** The value range each tier covers, written independently of `TierOf`. */
  predicate InTier(marketCap: real, t: Tier) {
    match t
    case Trillion => TrillionValue <= marketCap
    case Billion => BillionValue <= marketCap < TrillionValue
    case Million => MillionValue <= marketCap < BillionValue
    case Unscaled => marketCap < MillionValue
  }

  /** Exactly one tier applies to every value, and it is the one `TierOf` picks. */
  lemma TierExactlyOne(marketCap: real, t: Tier)
    ensures InTier(marketCap, t) <==> t == TierOf(marketCap)
  {
  }

  /** A larger market cap never gets a smaller tier. */
  lemma TierMonotone(a: real, b: real)
    requires a <= b
    ensures Rank(TierOf(a)) <= Rank(TierOf(b))
  {
  }

  /** A scaled market cap's mantissa is at least 1, and below 1000 except for trillions. */
  lemma MantissaRange(marketCap: real)
    requires TierOf(marketCap) != Unscaled
    ensures var m := marketCap / Scale(TierOf(marketCap));
      1.0 <= m && (TierOf(marketCap) != Trillion ==> m < 1000.0)
  {
    var s := Scale(TierOf(marketCap));
    var m := marketCap / s;
    assert m * s == marketCap;
    if TierOf(marketCap) != Trillion {
      assert marketCap < 1000.0 * s;
    }
  }

  /** A market-cap label: two-decimal mantissa and suffix, or the raw value's own text. */
  datatype CapLabel = Scaled(mantissa: string, suffix: string) | Raw(value: real)

  /** `formatMarketCap`. */
  function FormatMarketCap(marketCap: real): (r: CapLabel)
    ensures r.Raw? <==> marketCap < MillionValue
    ensures r.Raw? ==> r.value == marketCap
  {
    var t := TierOf(marketCap);
    if t == Unscaled then Raw(marketCap)
    else Scaled(Fixed2(marketCap / Scale(t)), Suffix(t))
  }

  lemma DivideBack(x: real, s: real)
    requires s > 0.0
    ensures x / s * s == x
  {
  }

  lemma MultiplyMonotone(a: real, b: real, s: real)
    requires a <= b && s >= 0.0
    ensures a * s <= b * s
  {
    assert b * s - a * s == (b - a) * s;
  }

  /** An error of at most half a hundredth in the mantissa scales with the tier. */
  lemma ScaledError(d: real, scale: real)
    requires scale > 0.0 && -0.005 <= d <= 0.005
    ensures Abs(d * scale) <= 0.005 * scale
  {
    MultiplyMonotone(d, 0.005, scale);
    MultiplyMonotone(-0.005, d, scale);
  }

  /** The label of a value in a scaled tier, from its mantissa. */
  lemma ScaledLabel(marketCap: real, t: Tier)
    requires t != Unscaled && t == TierOf(marketCap)
    ensures var m := marketCap / Scale(t);
      && FormatMarketCap(marketCap) == Scaled(Fixed2(m), Suffix(t))
      && ParseFloat(Fixed2(m)) == Num(Round2(m))
  {
    ParseFixed2(marketCap / Scale(t));
  }

  /** A mantissa off by at most half a hundredth moves the value by at most half a hundredth of the scale. */
  lemma RoundedScaleError(marketCap: real, rounded: real, scale: real)
    requires scale > 0.0 && -0.005 <= rounded - marketCap / scale <= 0.005
    ensures Abs(rounded * scale - marketCap) <= 0.005 * scale
  {
    DivideBack(marketCap, scale);
    var d := rounded - marketCap / scale;
    assert rounded * scale - marketCap == d * scale;
    ScaledError(d, scale);
  }

  /**
   * A scaled label names the tier of the value, and its mantissa reads back
   * as the value divided by that tier's scale, to two decimals.
   */
  lemma FormatMarketCapReadsBack(marketCap: real)
    requires marketCap >= MillionValue
    ensures var r := FormatMarketCap(marketCap);
      var t := TierOf(marketCap);
      && r.Scaled? && r.suffix == Suffix(t)
      && ParseFloat(r.mantissa) == Num(Round2(marketCap / Scale(t)))
  {
    ScaledLabel(marketCap, TierOf(marketCap));
  }

  /** The value a scaled label shows is within half a hundredth of its tier's unit of the true value. */
  lemma FormatMarketCapError(marketCap: real)
    requires marketCap >= MillionValue
    ensures var scale := Scale(TierOf(marketCap));
      Abs(Round2(marketCap / scale) * scale - marketCap) <= 0.005 * scale
  {
    var scale := Scale(TierOf(marketCap));
    RoundedScaleError(marketCap, Round2(marketCap / scale), scale);
  }

  /** What a market-cap cell shows. */
  datatype CapCell = CapNotAvailable | CapShown(shown: CapLabel)

  /** The market-cap cell: "N/A" for null or 0, otherwise the formatted value. */
  function MarketCapCell(raw: Option<real>): (r: CapCell)
    ensures r.CapNotAvailable? <==> raw.None? || raw.value == 0.0
    ensures r.CapShown? ==> r.shown == FormatMarketCap(raw.value)
  {
    if !Truthy(raw) then CapNotAvailable else CapShown(FormatMarketCap(raw.value))
  }

  /** What a purchase-price cell shows; the currency formatting itself is not modelled. */
  datatype PriceCell = PriceNotAvailable | PriceShown(amount: real, currency: string)

  /** `parseFloat` applied to a nullable number: null reads as the text "null", so NaN. */
  function ParseNullable(value: Option<real>): JsNumber {
    if value.None? then NaN else Num(value.value)
  }

  /** JavaScript truthiness of a parsed number: NaN and 0 are falsy. */
  predicate TruthyNumber(n: JsNumber) {
    n.Num? && n.value != 0.0
  }

  /**
   * The purchase-price cell: "N/A" when the price is null or 0 or the
   * currency is null or empty; otherwise the price in that currency.
   */
  function PurchasePriceCell(price: Option<real>, currency: Option<string>): (r: PriceCell)
    ensures r.PriceNotAvailable? <==> price.None? || price.value == 0.0 || currency.None? || currency.value == ""
    ensures r.PriceShown? ==> r.amount == price.value && r.currency == currency.value
  {
    var amount := ParseNullable(price);
    if !TruthyNumber(amount) || currency.None? || currency.value == "" then PriceNotAvailable
    else PriceShown(amount.value, currency.value)
  }

  /** The five numerically sorted columns. */
  datatype NumericColumn = MarketCapColumn | PurchasePriceColumn | CurrentPriceColumn | ChangeColumn | ChangePercentColumn

  function ColumnValue(s: Stock, c: NumericColumn): Option<real> {
    match c
    case MarketCapColumn => s.marketCap
    case PurchasePriceColumn => s.purchasePrice
    case CurrentPriceColumn => s.currentPrice
    case ChangeColumn => s.change
    case ChangePercentColumn => s.changePercent
  }

  /**
   * The `sortingFn` of every numeric column: null reads as 0 and the result's
   * sign orders the rows.
   */
  function SortingFn(a: Stock, b: Stock, c: NumericColumn): (r: real)
    ensures r < 0.0 <==> ColumnValue(a, c).GetOr(0.0) < ColumnValue(b, c).GetOr(0.0)
    ensures r == 0.0 <==> ColumnValue(a, c).GetOr(0.0) == ColumnValue(b, c).GetOr(0.0)
  {
    ColumnValue(a, c).GetOr(0.0) - ColumnValue(b, c).GetOr(0.0)
  }

  /**
   * The comparator is antisymmetric and zero on equal rows, a missing value
   * ties with 0, and "not after" is transitive, so it sorts consistently.
   */
  lemma SortingFnLaws(a: Stock, b: Stock, d: Stock, c: NumericColumn)
    ensures SortingFn(a, b, c) == -SortingFn(b, a, c)
    ensures SortingFn(a, a, c) == 0.0
    ensures ColumnValue(a, c).None? && ColumnValue(b, c) == Some(0.0) ==> SortingFn(a, b, c) == 0.0
    ensures SortingFn(a, b, c) <= 0.0 && SortingFn(b, d, c) <= 0.0 ==> SortingFn(a, d, c) <= 0.0
  {
  }
}
