/**
 * The bulk "add many stocks" form: pasted "SYMBOL [price]" lines become form
 * rows (one name lookup per line), the rows are checked against the form
 * schema, and submitting adds them one by one, stopping at the first failure.
 */
module AddManyStocks {
  import opened Wrappers
  import opened JsStrings
  import opened JsNumbers

  // Line parsing

  /** Drops the empty strings, keeping the order of the rest (`filter(Boolean)`). */
  function Compact(xs: seq<string>): (r: seq<string>)
    ensures |r| <= |xs|
    ensures [] !in r
    ensures forall x :: x in r <==> x in xs && x != []
  {
    if xs == [] then []
    else (if xs[0] == [] then [] else [xs[0]]) + Compact(xs[1..])
  }

  /** Filtering a concatenation filters each part, in order. */
  lemma {:induction false} CompactAppend(xs: seq<string>, ys: seq<string>)
    ensures Compact(xs + ys) == Compact(xs) + Compact(ys)
    decreases |xs|
  {
    if xs == [] {
      assert xs + ys == ys;
    } else {
      assert (xs + ys)[0] == xs[0];
      assert (xs + ys)[1..] == xs[1..] + ys;
      CompactAppend(xs[1..], ys);
    }
  }

  /** A single string is kept, once, exactly when it is not empty. */
  lemma CompactOne(x: string)
    ensures Compact([x]) == (if x == [] then [] else [x])
  {
  }

  /** Every string of a sequence, trimmed. */
  function TrimAll(xs: seq<string>): (r: seq<string>)
    ensures |r| == |xs|
    ensures forall i :: 0 <= i < |xs| ==> r[i] == Trim(xs[i])
  {
    seq(|xs|, i requires 0 <= i < |xs| => Trim(xs[i]))
  }

  /** Trimming a concatenation trims each part. */
  lemma TrimAllAppend(xs: seq<string>, ys: seq<string>)
    ensures TrimAll(xs + ys) == TrimAll(xs) + TrimAll(ys)
  {
  }

  /** The pasted text split at line breaks, each line trimmed, empty lines dropped. */
  function Lines(rawInput: string): (lines: seq<string>)
    ensures forall l :: l in lines ==> l != [] && Trimmed(l)
  {
    Compact(TrimAll(Split(rawInput, '\n')))
  }

  /** A line is kept exactly when it is the trimmed, non-empty form of some line of the text. */
  lemma LinesMembers(rawInput: string, l: string)
    ensures l in Lines(rawInput) <==> l != [] && exists p :: p in Split(rawInput, '\n') && Trim(p) == l
  {
    var parts := Split(rawInput, '\n');
    var trimmed := TrimAll(parts);
    if exists p :: p in parts && Trim(p) == l {
      var p :| p in parts && Trim(p) == l;
      var i :| 0 <= i < |parts| && parts[i] == p;
      assert trimmed[i] == l;
    }
  }

  /** The lines of two texts joined by a line break are the lines of the first, then those of the second. */
  lemma LinesAppend(a: string, b: string)
    ensures Lines(a + "\n" + b) == Lines(a) + Lines(b)
  {
    var xs, ys := Split(a, '\n'), Split(b, '\n');
    SplitAppend(a, '\n', b);
    TrimAllAppend(xs, ys);
    CompactAppend(TrimAll(xs), TrimAll(ys));
  }

  /** A text without line breaks gives its trimmed self as its one line, or no line when that is empty. */
  lemma LinesOne(l: string)
    requires '\n' !in l
    ensures Lines(l) == (if Trim(l) == [] then [] else [Trim(l)])
  {
    assert TrimAll([l]) == [Trim(l)];
  }

  /** The first whitespace-separated token, upper-cased. */
  function LineSymbol(line: string): string {
    Upper(Fields(line)[0])
  }

  /** The second token parsed as a number when it is there and not empty; further tokens are ignored. */
  function LinePrice(line: string): Option<JsNumber> {
    var parts := Fields(line);
    if |parts| > 1 && parts[1] != [] then Some(ParseFloat(parts[1])) else None
  }

  /** One entry of the symbol search's answer. */
  datatype SearchHit = SearchHit(name: Option<string>)

  /** The symbol search: it threw, or it answered with an optional list of hits. */
  datatype SearchReply = SearchFailed | SearchReplied(stock: Option<seq<SearchHit>>)

  /** The name taken from a search: the first hit's name, or "" for anything else. */
  function NameFrom(reply: SearchReply): (name: string)
    ensures reply.SearchFailed? ==> name == ""
    ensures reply.SearchReplied? && reply.stock.Some? && |reply.stock.value| > 0 ==>
      name == reply.stock.value[0].name.GetOr("")
    ensures name != "" ==> reply.SearchReplied? && reply.stock.Some? && |reply.stock.value| > 0
                           && reply.stock.value[0].name == Some(name)
  {
    if reply.SearchFailed? || reply.stock.None? || |reply.stock.value| == 0 then ""
    else reply.stock.value[0].name.GetOr("")
  }

  /** A checked line: the symbol, the looked-up name and the optional price. */
  datatype ValidationResult = ValidationResult(symbol: string, name: string, purchasePrice: Option<JsNumber>)

  function ValidateLine(line: string, reply: SearchReply): ValidationResult {
    ValidationResult(LineSymbol(line), NameFrom(reply), LinePrice(line))
  }

  /**
   * A line of the pasted text gives as its symbol its first token upper-cased,
   * which is not empty; a price exactly when it has a second token; and the
   * empty name when the lookup fails.
   */
  lemma ValidateLineShape(line: string, reply: SearchReply)
    requires line != [] && Trimmed(line)
    ensures var r := ValidateLine(line, reply);
      && r.symbol == Upper(LeadingNonWhitespace(line)) && r.symbol != []
      && (forall k :: 0 <= k < |r.symbol| ==> !('a' <= r.symbol[k] <= 'z'))
      && (r.purchasePrice.Some? <==> !NoWhitespace(line))
      && (r.purchasePrice.Some? ==> r.purchasePrice.value == ParseFloat(Fields(line)[1]))
      && (reply.SearchFailed? ==> r.name == "")
  {
    FieldsOfTrimmed(line);
    UpperIdempotent(Fields(line)[0]);
  }

  /** The loop of `handleValidate`: one result per line, in order, each with its symbol's looked-up name. */
  method ValidateLines(lines: seq<string>, search: string -> SearchReply) returns (results: seq<ValidationResult>)
    ensures |results| == |lines|
    ensures forall i :: 0 <= i < |lines| ==> results[i] == ValidateLine(lines[i], search(LineSymbol(lines[i])))
  {
    results := [];
    for i := 0 to |lines|
      invariant |results| == i
      invariant forall k :: 0 <= k < i ==> results[k] == ValidateLine(lines[k], search(LineSymbol(lines[k])))
    {
      var symbol := LineSymbol(lines[i]);
      var purchasePrice := LinePrice(lines[i]);
      var name := NameFrom(search(symbol));
      results := results + [ValidationResult(symbol, name, purchasePrice)];
    }
  }

  /**
   * `handleValidate`: one result per pasted line, in order; the name lookup
   * for each symbol is the `search` parameter.
   */
  method Validate(rawInput: string, search: string -> SearchReply) returns (results: seq<ValidationResult>)
    ensures |results| == |Lines(rawInput)|
    ensures forall i :: 0 <= i < |results| ==>
      results[i] == ValidateLine(Lines(rawInput)[i], search(LineSymbol(Lines(rawInput)[i])))
  {
    results := ValidateLines(Lines(rawInput), search);
  }

  // The form schema

  /** A row of the form. */
  datatype FormStock = FormStock(symbol: string, name: Option<string>, purchasePrice: Option<JsNumber>)

  /** A schema complaint: the row, the field and the message shown. */
  datatype Issue = Issue(row: nat, field: string, message: string)

  const SymbolRequired: string := "Symbol is required"
  const PriceNotNumber: string := "Purchase Price must be a number"
  const PriceNotPositive: string := "Must be positive"

  /** The complaints about one row. */
  function RowIssues(row: nat, s: FormStock): seq<Issue> {
    (if |s.symbol| < 1 then [Issue(row, "symbol", SymbolRequired)] else [])
    + match s.purchasePrice
      case None => []
      case Some(NaN) => [Issue(row, "purchasePrice", PriceNotNumber)]
      case Some(Num(v)) => if v > 0.0 then [] else [Issue(row, "purchasePrice", PriceNotPositive)]
  }

  /** The complaints about the rows from `first` on, in row order. */
  function Issues(values: seq<FormStock>, first: nat): seq<Issue>
    decreases |values|
  {
    if values == [] then [] else RowIssues(first, values[0]) + Issues(values[1..], first + 1)
  }

  /** A row the schema accepts: a non-empty symbol and, if there is a price, a positive number. */
  predicate RowValid(s: FormStock) {
    s.symbol != [] && (s.purchasePrice.None? || (s.purchasePrice.value.Num? && s.purchasePrice.value.value > 0.0))
  }

  /** A row draws no complaint exactly when it is valid, and its complaints name it. */
  lemma RowIssuesExactly(row: nat, s: FormStock)
    ensures RowIssues(row, s) == [] <==> RowValid(s)
    ensures forall e :: e in RowIssues(row, s) ==> e.row == row && !RowValid(s)
  {
  }

  /** The schema has no complaint exactly when every row is valid. */
  lemma {:induction false} IssuesExactly(values: seq<FormStock>, first: nat)
    ensures Issues(values, first) == [] <==> forall i :: 0 <= i < |values| ==> RowValid(values[i])
    decreases |values|
  {
    if values != [] {
      var tail := values[1..];
      IssuesExactly(tail, first + 1);
      RowIssuesExactly(first, values[0]);
      assert Issues(values, first) == RowIssues(first, values[0]) + Issues(tail, first + 1);
      if RowValid(values[0]) && forall i :: 0 <= i < |tail| ==> RowValid(tail[i]) {
        forall i | 0 <= i < |values| ensures RowValid(values[i]) {
          if i > 0 {
            assert values[i] == tail[i - 1];
          }
        }
      }
      if forall i :: 0 <= i < |values| ==> RowValid(values[i]) {
        forall i | 0 <= i < |tail| ensures RowValid(tail[i]) {
          assert tail[i] == values[i + 1];
        }
      }
    }
  }

  /** Every complaint names a row in range, and that row is invalid. */
  lemma {:induction false} IssuesNameInvalidRows(values: seq<FormStock>, first: nat)
    ensures forall e :: e in Issues(values, first) ==> first <= e.row < first + |values| && !RowValid(values[e.row - first])
    decreases |values|
  {
    if values != [] {
      var tail := values[1..];
      IssuesNameInvalidRows(tail, first + 1);
      RowIssuesExactly(first, values[0]);
      assert Issues(values, first) == RowIssues(first, values[0]) + Issues(tail, first + 1);
      forall e | e in Issues(values, first)
        ensures first <= e.row < first + |values| && !RowValid(values[e.row - first])
      {
        if e !in RowIssues(first, values[0]) {
          assert e in Issues(tail, first + 1);
          assert tail[e.row - first - 1] == values[e.row - first];
        }
      }
    }
  }

  /** The rows the form is reset to after validation. */
  function FormRows(results: seq<ValidationResult>): (rows: seq<FormStock>)
    ensures |rows| == |results|
    ensures forall i :: 0 <= i < |results| ==>
      rows[i] == FormStock(results[i].symbol, Some(results[i].name), results[i].purchasePrice)
  {
    seq(|results|, i requires 0 <= i < |results| => FormStock(results[i].symbol, Some(results[i].name), results[i].purchasePrice))
  }

  /**
   * Rows parsed from pasted text always have a symbol, so the schema accepts
   * them exactly when every price given is a positive number.
   */
  lemma ParsedRowsValid(rawInput: string, results: seq<ValidationResult>)
    requires |results| == |Lines(rawInput)|
    requires forall i :: 0 <= i < |results| ==>
      results[i].symbol == LineSymbol(Lines(rawInput)[i]) && results[i].purchasePrice == LinePrice(Lines(rawInput)[i])
    ensures Issues(FormRows(results), 0) == [] <==>
      forall i :: 0 <= i < |results| ==>
        results[i].purchasePrice.None? || (results[i].purchasePrice.value.Num? && results[i].purchasePrice.value.value > 0.0)
  {
    var lines := Lines(rawInput);
    var rows := FormRows(results);
    IssuesExactly(rows, 0);
    forall i | 0 <= i < |results| ensures rows[i].symbol != [] {
      assert lines[i] in lines;
      ValidateLineShape(lines[i], SearchFailed);
    }
  }

  // Submitting

  /** The arguments of one add-to-watchlist call. */
  datatype AddRequest = AddRequest(symbol: string, stockName: string, watchlistName: string, purchasePrice: Option<JsNumber>)

  /** The add call's answer, or the exception it threw. */
  datatype AddResponse = Answered(success: bool, message: string) | Threw

  /** All rows added; the first refusal, with its message; an exception; or rows the schema refused. */
  datatype SubmitOutcome = AllAdded | Rejected(message: string) | Failed | Invalid(issues: seq<Issue>)

  /** The request for a row: the symbol upper-cased, a missing or empty name sent as "". */
  function RequestFor(s: FormStock, watchlistName: string): (r: AddRequest)
    ensures r.symbol == Upper(s.symbol) && r.watchlistName == watchlistName && r.purchasePrice == s.purchasePrice
    ensures r.stockName == s.name.GetOr("")
  {
    AddRequest(Upper(s.symbol), if s.name.Some? && s.name.value != "" then s.name.value else "", watchlistName, s.purchasePrice)
  }

  function Requests(values: seq<FormStock>, watchlistName: string): (rs: seq<AddRequest>)
    ensures |rs| == |values|
    ensures forall i :: 0 <= i < |values| ==> rs[i] == RequestFor(values[i], watchlistName)
  {
    seq(|values|, i requires 0 <= i < |values| => RequestFor(values[i], watchlistName))
  }

  predicate Succeeded(r: AddResponse) {
    r.Answered? && r.success
  }

  /**
   * `onSubmit`, behind the schema check: the rows are added in order and the
   * loop stops at the first refusal or exception, so `sent` is a prefix of the
   * requests whose every element but the last succeeded.
   */
  method Submit(values: seq<FormStock>, watchlistName: string, add: AddRequest -> AddResponse)
    returns (sent: seq<AddRequest>, outcome: SubmitOutcome)
    ensures outcome.Invalid? <==> Issues(values, 0) != []
    ensures outcome.Invalid? ==> outcome.issues == Issues(values, 0) && sent == []
    ensures |sent| <= |values| && sent == Requests(values, watchlistName)[..|sent|]
    ensures forall i :: 0 <= i < |sent| - 1 ==> Succeeded(add(sent[i]))
    ensures outcome == AllAdded <==>
      !outcome.Invalid? && |sent| == |values| && forall i :: 0 <= i < |sent| ==> Succeeded(add(sent[i]))
    ensures outcome.Rejected? ==> |sent| > 0 && add(sent[|sent| - 1]) == Answered(false, outcome.message)
    ensures outcome.Failed? ==> |sent| > 0 && add(sent[|sent| - 1]).Threw?
    ensures Issues(values, 0) == [] && (forall i :: 0 <= i < |values| ==> Succeeded(add(RequestFor(values[i], watchlistName)))) ==>
      outcome == AllAdded && sent == Requests(values, watchlistName)
  {
    var issues := Issues(values, 0);
    if issues != [] {
      return [], Invalid(issues);
    }
    var requests := Requests(values, watchlistName);
    sent := [];
    var i := 0;
    while i < |values|
      invariant 0 <= i <= |values|
      invariant sent == requests[..i]
      invariant forall k :: 0 <= k < i ==> Succeeded(add(sent[k]))
    {
      var request := RequestFor(values[i], watchlistName);
      var response := add(request);
      sent := sent + [request];
      assert sent == requests[..i + 1];
      if response.Threw? {
        return sent, Failed;
      }
      if !response.success {
        return sent, Rejected(response.message);
      }
      i := i + 1;
    }
    outcome := AllAdded;
  }
}
