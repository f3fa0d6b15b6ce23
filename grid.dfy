/**
 * The price-grid extractor of `get_least_price_flight` (main.py): read the
 * first grid row of the decoded response, and for every day cell that has
 * an 'Indirect' fare build one price option whose legs are the decoded
 * traces the fare refers to.
 */
module Grid {
  import opened Wrappers
  import opened Trace

  /** A day cell's 'Indirect' entry: its 'Price' and its 'TraceRefs'. */
  datatype Indirect = Indirect(price: int, traceRefs: seq<string>)

  /** One day cell of a grid row; `indirect` is None when the cell has no 'Indirect' key. */
  datatype Day = Day(indirect: Option<Indirect>)

  /** The decoded response body, with the keys the handler reads; None stands for a missing key. */
  datatype PriceGrids = PriceGrids(grid: Option<seq<seq<Day>>>)
  datatype Data = Data(priceGrids: Option<PriceGrids>, traces: Option<map<string, string>>)
  datatype Body = Body(data: Option<Data>)

  /** One entry of the local `flights` list: `{"price": ..., "details": [...]}`. */
  datatype PriceOption = PriceOption(price: int, details: seq<Leg>)

  /**
   * The exceptions the extraction can raise: an IndexError on an empty grid,
   * a KeyError on a trace reference absent from 'Traces', or whatever
   * `parse_trace` raises on the referenced trace.
   */
  datatype ExtractError = EmptyGrid | MissingTrace(ref: string) | BadTrace(ref: string, cause: TraceError)

  /** `data.get('data', {}).get('PriceGrids', {}).get('Grid', [[]])`. */
  function GridOf(body: Body): (g: seq<seq<Day>>)
    ensures body.data.None? || body.data.value.priceGrids.None? || body.data.value.priceGrids.value.grid.None? ==> g == [[]]
    ensures body.data.Some? && body.data.value.priceGrids.Some? && body.data.value.priceGrids.value.grid.Some? ==>
      g == body.data.value.priceGrids.value.grid.value
  {
    match body.data
    case None => [[]]
    case Some(data) =>
      match data.priceGrids
      case None => [[]]
      case Some(pg) =>
        match pg.grid
        case None => [[]]
        case Some(g) => g
  }

  /** `data.get('data', {}).get('Traces', {})`. */
  function TracesOf(body: Body): (t: map<string, string>)
    ensures body.data.None? || body.data.value.traces.None? ==> t == map[]
    ensures body.data.Some? && body.data.value.traces.Some? ==> t == body.data.value.traces.value
  {
    match body.data
    case None => map[]
    case Some(data) =>
      match data.traces
      case None => map[]
      case Some(t) => t
  }

  /** `parse_trace(traces[ref])`. */
  function DecodeRef(ref: string, traces: map<string, string>): (r: Result<Leg, ExtractError>)
    ensures r.Ok? <==> ref in traces && ParseTrace(traces[ref]).Ok?
    ensures r.Ok? ==> r.value == ParseTrace(traces[ref]).value
    ensures r.Err? ==> (r.error == MissingTrace(ref) <==> ref !in traces)
    ensures ref in traces && ParseTrace(traces[ref]).Err? ==> r == Err(BadTrace(ref, ParseTrace(traces[ref]).error))
  {
    if ref !in traces then Err(MissingTrace(ref))
    else
      match ParseTrace(traces[ref])
      case Ok(leg) => Ok(leg)
      case Err(e) => Err(BadTrace(ref, e))
  }

  /**
   * `[parse_trace(traces[ref]) for ref in trace_refs]`: one leg per reference,
   * in reference order; the first reference that fails decides the error.
   */
  function DecodeRefs(refs: seq<string>, traces: map<string, string>): (r: Result<seq<Leg>, ExtractError>)
    ensures r.Ok? <==> forall j :: 0 <= j < |refs| ==> DecodeRef(refs[j], traces).Ok?
    ensures r.Ok? ==> (|r.value| == |refs| &&
      forall j :: 0 <= j < |refs| ==> DecodeRef(refs[j], traces) == Ok(r.value[j]))
    ensures r.Err? ==>
      exists j :: (0 <= j < |refs| && DecodeRef(refs[j], traces) == Err(r.error) &&
        forall k :: 0 <= k < j ==> DecodeRef(refs[k], traces).Ok?)
  {
    if refs == [] then Ok([])
    else
      match DecodeRef(refs[0], traces)
      case Err(e) => Err(e)
      case Ok(leg) =>
        match DecodeRefs(refs[1..], traces)
        case Err(e) =>
          var j :| 0 <= j < |refs[1..]| && DecodeRef(refs[1..][j], traces) == Err(e) &&
            forall k :: 0 <= k < j ==> DecodeRef(refs[1..][k], traces).Ok?;
          assert DecodeRef(refs[j + 1], traces) == Err(e);
          Err(e)
        case Ok(legs) => Ok([leg] + legs)
  }

  /** Put already built options in front of the outcome of the rest of the row. */
  function Prepend(done: seq<PriceOption>, rest: Result<seq<PriceOption>, ExtractError>): Result<seq<PriceOption>, ExtractError>
  {
    match rest
    case Ok(more) => Ok(done + more)
    case Err(e) => Err(e)
  }

  lemma PrependAssoc(a: seq<PriceOption>, b: seq<PriceOption>, rest: Result<seq<PriceOption>, ExtractError>)
    ensures Prepend(a, Prepend(b, rest)) == Prepend(a + b, rest)
  {
    if rest.Ok? {
      assert a + (b + rest.value) == (a + b) + rest.value;
    }
  }

  /** The day cells of a row that carry an 'Indirect' entry, in cell order. */
  function IndirectEntries(row: seq<Day>): seq<Indirect>
  {
    if row == [] then []
    else if row[0].indirect.Some? then [row[0].indirect.value] + IndirectEntries(row[1..])
    else IndirectEntries(row[1..])
  }

  /** What the loop over one grid row produces: the option list, or the first exception. */
  function RowOptions(row: seq<Day>, traces: map<string, string>): (r: Result<seq<PriceOption>, ExtractError>)
    ensures r.Ok? ==> |r.value| == |IndirectEntries(row)|
    ensures r.Err? ==> !r.error.EmptyGrid?
  {
    if row == [] then Ok([])
    else
      match row[0].indirect
      case None => RowOptions(row[1..], traces)
      case Some(ind) =>
        match DecodeRefs(ind.traceRefs, traces)
        case Err(e) => Err(e)
        case Ok(legs) => Prepend([PriceOption(ind.price, legs)], RowOptions(row[1..], traces))
  }

  /** The whole extraction from a response body. */
  function Extraction(body: Body): (r: Result<seq<PriceOption>, ExtractError>)
    ensures r == Err(EmptyGrid) <==> GridOf(body) == []
    ensures r.Ok? ==> |r.value| == |IndirectEntries(GridOf(body)[0])|
  {
    var grid := GridOf(body);
    if grid == [] then Err(EmptyGrid) else RowOptions(grid[0], TracesOf(body))
  }

  /**
   * Lines 47-48 and 65-73: defaults for missing keys, then one pass over the
   * first grid row appending an option for each cell with an 'Indirect' fare.
   */
  method ExtractFlights(body: Body) returns (r: Result<seq<PriceOption>, ExtractError>)
    ensures r == Extraction(body)
  {
    var priceGrid := GridOf(body);
    var traces := TracesOf(body);
    if |priceGrid| == 0 {
      return Err(EmptyGrid);
    }
    var row := priceGrid[0];
    var flights: seq<PriceOption> := [];
    var i := 0;
    assert row[0..] == row;
    assert RowOptions(row, traces).Ok? ==> [] + RowOptions(row, traces).value == RowOptions(row, traces).value;
    while i < |row|
      invariant 0 <= i <= |row|
      invariant RowOptions(row, traces) == Prepend(flights, RowOptions(row[i..], traces))
    {
      var day := row[i];
      assert row[i..][1..] == row[i + 1..];
      if day.indirect.Some? {
        var ind := day.indirect.value;
        var details := DecodeRefs(ind.traceRefs, traces);
        if details.Err? {
          return Err(details.error);
        }
        var option := PriceOption(ind.price, details.value);
        assert RowOptions(row[i..], traces) == Prepend([option], RowOptions(row[i + 1..], traces));
        PrependAssoc(flights, [option], RowOptions(row[i + 1..], traces));
        flights := flights + [option];
      } else {
        assert RowOptions(row[i..], traces) == RowOptions(row[i + 1..], traces);
      }
      i := i + 1;
    }
    assert row[i..] == [];
    assert flights + [] == flights;
    return Ok(flights);
  }

  /**
   * A successful extraction has one option per 'Indirect' cell, in cell order,
   * each with that cell's price and one decoded leg per trace reference, in
   * reference order.
   */
  lemma {:induction false} RowOptionsShape(row: seq<Day>, traces: map<string, string>)
    requires RowOptions(row, traces).Ok?
    ensures var opts, entries := RowOptions(row, traces).value, IndirectEntries(row);
      |opts| == |entries| &&
      forall i :: 0 <= i < |opts| ==>
        opts[i].price == entries[i].price &&
        |opts[i].details| == |entries[i].traceRefs| &&
        forall j :: 0 <= j < |opts[i].details| ==>
          DecodeRef(entries[i].traceRefs[j], traces) == Ok(opts[i].details[j])
  {
    if row != [] {
      RowOptionsShape(row[1..], traces);
    }
  }

  /** Every reference of an 'Indirect' entry resolves in 'Traces' and decodes. */
  predicate Resolves(entry: Indirect, traces: map<string, string>) {
    forall j :: 0 <= j < |entry.traceRefs| ==> DecodeRef(entry.traceRefs[j], traces).Ok?
  }

  /** The extraction succeeds exactly when every 'Indirect' cell of the row resolves. */
  lemma {:induction false} RowOptionsOkIff(row: seq<Day>, traces: map<string, string>)
    ensures RowOptions(row, traces).Ok? <==>
      forall i :: 0 <= i < |IndirectEntries(row)| ==> Resolves(IndirectEntries(row)[i], traces)
  {
    if row != [] {
      RowOptionsOkIff(row[1..], traces);
      var rest := IndirectEntries(row[1..]);
      if row[0].indirect.Some? {
        var ind := row[0].indirect.value;
        var entries := IndirectEntries(row);
        assert entries == [ind] + rest;
        assert DecodeRefs(ind.traceRefs, traces).Ok? <==> Resolves(ind, traces);
        if forall i :: 0 <= i < |entries| ==> Resolves(entries[i], traces) {
          assert Resolves(entries[0], traces);
          forall i | 0 <= i < |rest| ensures Resolves(rest[i], traces) {
            assert rest[i] == entries[i + 1];
          }
        }
        if Resolves(ind, traces) && forall i :: 0 <= i < |rest| ==> Resolves(rest[i], traces) {
          forall i | 0 <= i < |entries| ensures Resolves(entries[i], traces) {
            if i > 0 { assert entries[i] == rest[i - 1]; }
          }
        }
        match DecodeRefs(ind.traceRefs, traces)
        case Err(e) =>
          assert RowOptions(row, traces) == Err(e);
          assert !Resolves(entries[0], traces);
        case Ok(legs) =>
          assert RowOptions(row, traces).Ok? <==> RowOptions(row[1..], traces).Ok?;
      } else {
        assert IndirectEntries(row) == IndirectEntries(row[1..]);
        assert RowOptions(row, traces) == RowOptions(row[1..], traces);
      }
    }
  }

  /**
   * Reference `j` of 'Indirect' cell `i` exists, every earlier 'Indirect'
   * cell resolves, and every earlier reference of cell `i` decodes.
   */
  predicate EarlierDecode(row: seq<Day>, traces: map<string, string>, i: nat, j: nat) {
    var entries := IndirectEntries(row);
    i < |entries| && j < |entries[i].traceRefs| &&
    (forall k :: 0 <= k < i ==> Resolves(entries[k], traces)) &&
    (forall m :: 0 <= m < j ==> DecodeRef(entries[i].traceRefs[m], traces).Ok?)
  }

  /** Reference `j` of 'Indirect' cell `i`. */
  function RefAt(row: seq<Day>, i: nat, j: nat): string
    requires i < |IndirectEntries(row)| && j < |IndirectEntries(row)[i].traceRefs|
  {
    IndirectEntries(row)[i].traceRefs[j]
  }

  /** The first reference that fails to decode decides the error of the list comprehension. */
  lemma {:induction false} DecodeRefsFirstFailure(refs: seq<string>, traces: map<string, string>, j: nat)
    requires j < |refs| && DecodeRef(refs[j], traces).Err?
    requires forall k :: 0 <= k < j ==> DecodeRef(refs[k], traces).Ok?
    ensures DecodeRefs(refs, traces) == Err(DecodeRef(refs[j], traces).error)
  {
    if j > 0 {
      DecodeRefsFirstFailure(refs[1..], traces, j - 1);
      assert DecodeRef(refs[0], traces).Ok?;
    }
  }

  /**
   * The extraction fails with the error of reference `j` of 'Indirect' cell
   * `i` when every earlier cell resolves and every earlier reference of cell
   * `i` decodes.
   */
  lemma {:induction false} RowOptionsFirstFailure(row: seq<Day>, traces: map<string, string>, i: nat, j: nat)
    requires EarlierDecode(row, traces, i, j)
    requires DecodeRef(RefAt(row, i, j), traces).Err?
    ensures RowOptions(row, traces) == Err(DecodeRef(RefAt(row, i, j), traces).error)
  {
    var entries := IndirectEntries(row);
    if row[0].indirect.None? {
      assert entries == IndirectEntries(row[1..]);
      RowOptionsFirstFailure(row[1..], traces, i, j);
    } else if i == 0 {
      DecodeRefsFirstFailure(entries[0].traceRefs, traces, j);
    } else {
      var rest := IndirectEntries(row[1..]);
      assert entries == [entries[0]] + rest;
      assert Resolves(entries[0], traces);
      assert DecodeRefs(entries[0].traceRefs, traces).Ok?;
      forall k | 0 <= k < i - 1 ensures Resolves(rest[k], traces) {
        assert rest[k] == entries[k + 1];
      }
      RowOptionsFirstFailure(row[1..], traces, i - 1, j);
    }
  }

  /** A row with no 'Indirect' cell gives no options, and no error. */
  lemma {:induction false} NoIndirectNoOptions(row: seq<Day>, traces: map<string, string>)
    requires IndirectEntries(row) == []
    ensures RowOptions(row, traces) == Ok([])
  {
    if row != [] {
      NoIndirectNoOptions(row[1..], traces);
    }
  }

  /** A body without 'data', 'PriceGrids' or 'Grid' falls back to `[[]]` and yields zero options. */
  lemma MissingGridDefaults(body: Body)
    requires body.data.None? || body.data.value.priceGrids.None? || body.data.value.priceGrids.value.grid.None?
    ensures Extraction(body) == Ok([])
  {
    NoIndirectNoOptions([], TracesOf(body));
  }

  /** A grid present but empty makes `price_grid[0]` raise. */
  lemma EmptyGridFails(body: Body)
    requires body.data.Some? && body.data.value.priceGrids.Some? && body.data.value.priceGrids.value.grid == Some([])
    ensures Extraction(body) == Err(EmptyGrid)
  {
  }
}
