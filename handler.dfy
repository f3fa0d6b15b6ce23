/**
 * `get_least_price_flight` (main.py) as a whole: fetch outcome, extraction,
 * insert, cheapest option, count query, and the chain of `except` clauses
 * that turns an exception into an HTTP error.
 */
module Handler {
  import opened Wrappers
  import opened Calendar
  import opened Trace
  import opened Grid
  import opened Select
  import opened Store

  /**
   * What `requests.get`, `raise_for_status` and `response.json()` produced:
   * the decoded body, an error status, a transport failure, or a body that
   * is not JSON.
   */
  datatype Upstream = Fetched(body: Body) | ErrorStatus(status: int) | TransportFailure | NotJson

  /** Where a ValueError came from. */
  datatype ValueSource = JsonBody | TraceDate

  /** The exceptions raised inside the `try`, by Python class. */
  datatype PyError =
    | HTTPError(status: int)          // requests.exceptions.HTTPError, a RequestException
    | RequestException                // any other requests failure
    | ValueError(source: ValueSource)
    | IndexError
    | KeyError
    | HTTPException(status: int)      // fastapi.HTTPException, an Exception

  /** The `except` clauses of the handler, in the order they are tried. */
  datatype Clause = HttpErrorClause | RequestExceptionClause | ValueErrorClause | ExceptionClause

  /** `isinstance(e, clause's class)` over the classes involved. */
  function IsInstance(e: PyError, c: Clause): (b: bool)
    ensures c == ExceptionClause ==> b
    ensures e.HTTPError? && (c == HttpErrorClause || c == RequestExceptionClause) ==> b
    ensures c == ValueErrorClause ==> (b <==> e.ValueError?)
    ensures e.IndexError? || e.KeyError? || e.HTTPException? ==> (b <==> c == ExceptionClause)
  {
    match c
    case HttpErrorClause => e.HTTPError?
    case RequestExceptionClause => e.HTTPError? || e.RequestException?
    case ValueErrorClause => e.ValueError?
    case ExceptionClause => true
  }

  /** The first clause, in source order, whose class the exception is an instance of. */
  function CatchingClause(e: PyError): (c: Clause)
    ensures IsInstance(e, c)
    ensures forall earlier: Clause :: ClauseRank(earlier) < ClauseRank(c) ==> !IsInstance(e, earlier)
  {
    if IsInstance(e, HttpErrorClause) then HttpErrorClause
    else if IsInstance(e, RequestExceptionClause) then RequestExceptionClause
    else if IsInstance(e, ValueErrorClause) then ValueErrorClause
    else ExceptionClause
  }

  /** The position of a clause in the handler. */
  function ClauseRank(c: Clause): nat {
    match c
    case HttpErrorClause => 0
    case RequestExceptionClause => 1
    case ValueErrorClause => 2
    case ExceptionClause => 3
  }

  /** The fixed start of each clause's detail message. */
  function DetailPrefix(c: Clause): string {
    match c
    case HttpErrorClause => "HTTP error occurred: "
    case RequestExceptionClause => "Error occurred: "
    case ValueErrorClause => "JSON decode error: "
    case ExceptionClause => "An unexpected error occurred: "
  }

  /** The page or the HTTP error the request ends in. */
  datatype Response =
    | Rendered(leastPrice: int, flightDetails: seq<Leg>, counts: seq<DateCount>)
    | Failed(status: int, detail: string)

  /**
   * What the `except` chain re-raises: the upstream status for an HTTPError
   * (lines 120-121), 500 for everything else, the 404 of line 119 included.
   */
  function Respond(e: PyError): (r: Response)
    ensures r.Failed? && r.detail == DetailPrefix(CatchingClause(e))
    ensures r.status == (if e.HTTPError? then e.status else 500)
  {
    var c := CatchingClause(e);
    Failed(if c == HttpErrorClause then e.status else 500, DetailPrefix(c))
  }

  /** The Python exception behind an extraction failure. */
  function ExtractionException(err: ExtractError): (e: PyError)
    ensures e.ValueError? <==> err.BadTrace? && err.cause.BadDate?
    ensures e.ValueError? ==> e.source == TraceDate
    ensures e.KeyError? <==> err.MissingTrace?
    ensures e.IndexError? <==> err.EmptyGrid? || (err.BadTrace? && err.cause == ShortTrace)
  {
    match err
    case EmptyGrid => IndexError
    case MissingTrace(_) => KeyError
    case BadTrace(_, ShortTrace) => IndexError
    case BadTrace(_, BadDate(_)) => ValueError(TraceDate)
  }

  /** The response and the rows of the store after one request. */
  datatype Outcome = Outcome(response: Response, rows: seq<Row>)

  /** The whole request, as a function of the stored rows and the fetch outcome. */
  function Search(rows: seq<Row>, up: Upstream): (o: Outcome)
    ensures |rows| <= |o.rows| && o.rows[..|rows|] == rows
    ensures o.response.Failed? ==> o.rows == rows
    ensures o.response.Failed? ==> o.response.status == 500 || up.ErrorStatus?
  {
    match up
    case ErrorStatus(s) => Outcome(Respond(HTTPError(s)), rows)
    case TransportFailure => Outcome(Respond(RequestException), rows)
    case NotJson => Outcome(Respond(ValueError(JsonBody)), rows)
    case Fetched(body) =>
      match Extraction(body)
      case Err(err) => Outcome(Respond(ExtractionException(err)), rows)
      case Ok(flights) =>
        if flights == [] then Outcome(Respond(HTTPException(404)), rows)
        else
          var stored := rows + Rows(flights);
          var best := Cheapest(flights);
          Outcome(Rendered(best.price, best.details, GroupCounts(stored)), stored)
  }

  /** The handler: extract, insert every leg, pick the cheapest option, then run the count query. */
  method GetLeastPriceFlight(store: FlightStore, up: Upstream) returns (response: Response)
    modifies store
    ensures Outcome(response, store.rows) == Search(old(store.rows), up)
  {
    match up {
      case ErrorStatus(s) =>
        return Respond(HTTPError(s));
      case TransportFailure =>
        return Respond(RequestException);
      case NotJson =>
        return Respond(ValueError(JsonBody));
      case Fetched(body) =>
        var extracted := ExtractFlights(body);
        if extracted.Err? {
          return Respond(ExtractionException(extracted.error));
        }
        var flights := extracted.value;
        if |flights| > 0 {
          store.InsertOptions(flights);
          var leastPriceFlight := Cheapest(flights);
          var counts := store.CountByDate();
          return Rendered(leastPriceFlight.price, leastPriceFlight.details, counts);
        } else {
          return Respond(HTTPException(404));
        }
    }
  }

  /**
   * A body whose extraction gives options renders the first cheapest one,
   * appends the search's rows after the old ones, and counts each date's
   * rows over the whole store afterwards.
   */
  lemma SearchSucceeds(rows: seq<Row>, body: Body)
    requires Extraction(body).Ok? && Extraction(body).value != []
    ensures var flights := Extraction(body).value;
      var o := Search(rows, Fetched(body));
      var k := CheapestIndex(flights);
      o.response.Rendered? &&
      o.response.leastPrice == flights[k].price &&
      o.response.flightDetails == flights[k].details &&
      (forall j :: 0 <= j < |flights| ==> o.response.leastPrice <= flights[j].price) &&
      (forall j :: 0 <= j < k ==> flights[j].price > o.response.leastPrice) &&
      o.rows == rows + Rows(flights) &&
      |o.rows| == |rows| + TotalLegs(flights) &&
      Total(o.response.counts) == |rows| + TotalLegs(flights) &&
      WellFormed(o.response.counts) &&
      (forall d :: Lookup(o.response.counts, d) == CountDate(o.rows, d))
  {
    var flights := Extraction(body).value;
    var stored := rows + Rows(flights);
    GroupCountsCorrect(stored);
  }

  /** A page is rendered exactly when the body was fetched and extraction gave at least one option. */
  lemma RenderedIff(rows: seq<Row>, up: Upstream)
    ensures Search(rows, up).response.Rendered? <==>
      up.Fetched? && Extraction(up.body).Ok? && Extraction(up.body).value != []
  {
  }

  /** Every failure happens before the insert, so a failed request leaves the store as it was. */
  lemma FailureKeepsStore(rows: seq<Row>, up: Upstream)
    requires Search(rows, up).response.Failed?
    ensures Search(rows, up).rows == rows
  {
  }

  /**
   * The 404 of line 119 never reaches the client: the catch-all clause
   * re-raises it as 500, so a 404 can only be an upstream 404 passed through.
   */
  lemma NeverNotFound(rows: seq<Row>, up: Upstream)
    requires Search(rows, up).response.Failed? && Search(rows, up).response.status == 404
    ensures up == ErrorStatus(404)
  {
  }

  /** A body without 'data', 'PriceGrids' or 'Grid' gives zero options, and the request ends in the generic 500. */
  lemma MissingGridIs500(rows: seq<Row>, body: Body)
    requires body.data.None? || body.data.value.priceGrids.None? || body.data.value.priceGrids.value.grid.None?
    ensures Search(rows, Fetched(body)) == Outcome(Failed(500, "An unexpected error occurred: "), rows)
  {
    MissingGridDefaults(body);
  }

  /** A grid row without any 'Indirect' cell ends in the generic 500, not in 404. */
  lemma NoIndirectIs500(rows: seq<Row>, body: Body)
    requires GridOf(body) != [] && IndirectEntries(GridOf(body)[0]) == []
    ensures Search(rows, Fetched(body)) == Outcome(Failed(500, "An unexpected error occurred: "), rows)
  {
    NoIndirectNoOptions(GridOf(body)[0], TracesOf(body));
  }

  /** An upstream error status is passed through as the response status, with nothing stored. */
  lemma ErrorStatusPassesThrough(rows: seq<Row>, s: int)
    ensures Search(rows, ErrorStatus(s)) == Outcome(Failed(s, "HTTP error occurred: "), rows)
  {
  }

  /** A grid present but empty makes `price_grid[0]` raise an IndexError: the generic 500. */
  lemma EmptyGridIs500(rows: seq<Row>, body: Body)
    requires body.data.Some? && body.data.value.priceGrids.Some? && body.data.value.priceGrids.value.grid == Some([])
    ensures Search(rows, Fetched(body)) == Outcome(Failed(500, "An unexpected error occurred: "), rows)
  {
    EmptyGridFails(body);
  }

  /**
   * When the first reference that does not decode names a trace with at
   * least five fields whose fifth is not a date, `strptime`'s ValueError is
   * reported under the JSON decode message.
   */
  lemma BadDateReportedAsJsonError(rows: seq<Row>, body: Body, i: nat, j: nat)
    requires GridOf(body) != [] && EarlierDecode(GridOf(body)[0], TracesOf(body), i, j)
    requires RefAt(GridOf(body)[0], i, j) in TracesOf(body)
    requires var parts := Split(TracesOf(body)[RefAt(GridOf(body)[0], i, j)], Sep);
      |parts| >= 5 && ConvertDate(parts[4]).None?
    ensures Search(rows, Fetched(body)) == Outcome(Failed(500, "JSON decode error: "), rows)
  {
    var row, traces := GridOf(body)[0], TracesOf(body);
    RowOptionsFirstFailure(row, traces, i, j);
  }

  /**
   * When the first reference that does not decode is missing from 'Traces'
   * (KeyError), or names a trace with fewer than five fields, or with a
   * valid date but fewer than seven fields (IndexError), the request ends in
   * the generic 500.
   */
  lemma ShortOrMissingTraceIs500(rows: seq<Row>, body: Body, i: nat, j: nat)
    requires GridOf(body) != [] && EarlierDecode(GridOf(body)[0], TracesOf(body), i, j)
    requires var ref := RefAt(GridOf(body)[0], i, j);
      ref !in TracesOf(body) ||
      (var parts := Split(TracesOf(body)[ref], Sep);
       |parts| < 5 || (ConvertDate(parts[4]).Some? && |parts| < 7))
    ensures Search(rows, Fetched(body)) == Outcome(Failed(500, "An unexpected error occurred: "), rows)
  {
    var row, traces := GridOf(body)[0], TracesOf(body);
    RowOptionsFirstFailure(row, traces, i, j);
  }

  /** How the `except` chain was evidently meant to treat the two exceptions it misfiles. */
  function IntendedRespond(e: PyError): (r: Response)
    ensures r.Failed?
    ensures e.HTTPException? ==> r.status == e.status
    ensures e == ValueError(TraceDate) ==> r.detail != "JSON decode error: "
    ensures !e.HTTPException? && e != ValueError(TraceDate) ==> r == Respond(e)
  {
    match e
    case HTTPException(s) => Failed(s, "No flight details available.")
    case ValueError(TraceDate) => Failed(500, DetailPrefix(ExceptionClause))
    case _ => Respond(e)
  }

  /** The two places where the code as written and the evident intent part ways. */
  lemma HandlerMisfiles()
    ensures Respond(HTTPException(404)).status == 500 && IntendedRespond(HTTPException(404)).status == 404
    ensures Respond(ValueError(TraceDate)).detail == "JSON decode error: "
    ensures IntendedRespond(ValueError(TraceDate)).detail == "An unexpected error occurred: "
  {
  }

  /** The trace of the worked example: separator-free fields, the date token in fifth position. */
  function ExampleTrace(arrival: string): string {
    Join(["13554", "Indirect", "LOND", arrival, "20240610", "Emirates", "EK"], Sep)
  }

  /** The digits of the example date. */
  lemma ExamplePadding()
    ensures PadDigits(2024, 4) == "2024" && PadDigits(6, 2) == "06" && PadDigits(10, 2) == "10"
  {
    assert DigitChar(0) == '0' && DigitChar(1) == '1' && DigitChar(2) == '2' && DigitChar(4) == '4' && DigitChar(6) == '6';
    assert PadDigits(2, 1) == "2" && PadDigits(0, 1) == "0" && PadDigits(1, 1) == "1";
    assert PadDigits(20, 2) == "20";
    assert PadDigits(202, 3) == "202";
  }

  /** The example date token converts to `10-06-2024`. */
  lemma ExampleDate()
    ensures ConvertDate("20240610") == Some("10-06-2024")
  {
    var date := Date(2024, 6, 10);
    ExamplePadding();
    assert DateToken(date) == "20240610";
    ParseDateTokenOfDate(date);
    assert FormatDate(date) == "10-06-2024";
  }

  /** The example trace decodes to its fields, dated `10-06-2024`. */
  lemma ExampleTraceDecodes(arrival: string)
    requires Sep !in arrival
    ensures ParseTrace(ExampleTrace(arrival)) == Ok(Leg("Indirect", "LOND", arrival, "10-06-2024", "Emirates", "EK"))
  {
    var fields := ["13554", "Indirect", "LOND", arrival, "20240610", "Emirates", "EK"];
    assert ExampleTrace(arrival) == Join(fields, Sep);
    assert NoSep(fields, Sep);
    SplitJoin(fields, Sep);
    ExampleDate();
    assert ParseFields(fields) == Ok(Leg("Indirect", "LOND", arrival, "10-06-2024", "Emirates", "EK"));
  }

  /** The response body of the worked example: one day cell priced 450 whose fare refers to two traces. */
  function ExampleBody(t1: string, t2: string): Body {
    Body(Some(Data(Some(PriceGrids(Some([[Day(Some(Indirect(450, ["r1", "r2"])))]]))),
                   Some(map["r1" := t1, "r2" := t2]))))
  }

  /**
   * With one day cell priced 450 and two references that decode, the page
   * shows 450 and the two legs in reference order, and the store grows by
   * their two rows.
   */
  lemma OneCellTwoLegs(rows: seq<Row>, t1: string, t2: string, l1: Leg, l2: Leg)
    requires ParseTrace(t1) == Ok(l1) && ParseTrace(t2) == Ok(l2)
    ensures Search(rows, Fetched(ExampleBody(t1, t2))) ==
      Outcome(Rendered(450, [l1, l2], GroupCounts(rows + [RowOf(450, l1), RowOf(450, l2)])),
              rows + [RowOf(450, l1), RowOf(450, l2)])
  {
    var traces := map["r1" := t1, "r2" := t2];
    var legs := DecodeRefs(["r1", "r2"], traces);
    assert DecodeRef("r1", traces) == Ok(l1) && DecodeRef("r2", traces) == Ok(l2);
    assert legs.Ok? && |legs.value| == 2;
    assert DecodeRef(["r1", "r2"][0], traces) == Ok(legs.value[0]);
    assert DecodeRef(["r1", "r2"][1], traces) == Ok(legs.value[1]);
    assert legs.value == [l1, l2];
    var row := [Day(Some(Indirect(450, ["r1", "r2"])))];
    var flights := [PriceOption(450, [l1, l2])];
    assert RowOptions(row, traces) == Ok(flights) by {
      assert row[1..] == [];
      assert flights + [] == flights;
    }
    assert Extraction(ExampleBody(t1, t2)) == Ok(flights);
    assert Cheapest(flights) == flights[0];
    assert Rows(flights) == [RowOf(450, l1), RowOf(450, l2)] by {
      assert flights[..0] == [];
    }
  }

  /**
   * The scenario of a search from LOND: two traces dated 20240610 give a
   * page with price 450 and two legs dated 10-06-2024, and two new rows.
   */
  lemma WorkedExample(rows: seq<Row>)
    ensures var o := Search(rows, Fetched(ExampleBody(ExampleTrace("DXB"), ExampleTrace("NYCA"))));
      o.response.Rendered? && o.response.leastPrice == 450 &&
      |o.response.flightDetails| == 2 &&
      o.response.flightDetails[0].flightDate == "10-06-2024" &&
      o.response.flightDetails[1].flightDate == "10-06-2024" &&
      |o.rows| == |rows| + 2
  {
    ExampleTraceDecodes("DXB");
    ExampleTraceDecodes("NYCA");
    OneCellTwoLegs(rows, ExampleTrace("DXB"), ExampleTrace("NYCA"),
      Leg("Indirect", "LOND", "DXB", "10-06-2024", "Emirates", "EK"),
      Leg("Indirect", "LOND", "NYCA", "10-06-2024", "Emirates", "EK"));
  }
}
