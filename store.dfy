/**
 * The `flights` table of main.py as an append-only log of rows: the insert
 * loop of `get_least_price_flight` and the query
 * `SELECT flight_date, COUNT(*) ... GROUP BY flight_date`.
 */
module Store {
  import opened Trace
  import opened Grid

  /** One row of `flights(price, flight_type, departure_city, arrival_city, flight_date, airline, airline_code)`. */
  datatype Row = Row(
    price: int,
    flightType: string,
    departureCity: string,
    arrivalCity: string,
    flightDate: string,
    airline: string,
    airlineCode: string)

  /** The row written for one leg of an option: the option's price and the leg's fields. */
  function RowOf(price: int, leg: Leg): (r: Row)
    ensures r.price == price && r.flightDate == leg.flightDate
    ensures r.flightType == leg.flightType && r.departureCity == leg.departureCity && r.arrivalCity == leg.arrivalCity
    ensures r.airline == leg.airline && r.airlineCode == leg.airlineCode
  {
    Row(price, leg.flightType, leg.departureCity, leg.arrivalCity, leg.flightDate, leg.airline, leg.airlineCode)
  }

  /** The rows of one option, one per leg, in leg order. */
  function LegRows(o: PriceOption): (rs: seq<Row>)
    ensures |rs| == |o.details|
    ensures forall j :: 0 <= j < |rs| ==> rs[j] == RowOf(o.price, o.details[j])
  {
    seq(|o.details|, j requires 0 <= j < |o.details| => RowOf(o.price, o.details[j]))
  }

  /** The rows a search writes: option by option, leg by leg. */
  function Rows(opts: seq<PriceOption>): (rs: seq<Row>)
    ensures |rs| == TotalLegs(opts)
  {
    if opts == [] then [] else Rows(opts[..|opts| - 1]) + LegRows(opts[|opts| - 1])
  }

  /** The number of legs over all options. */
  function TotalLegs(opts: seq<PriceOption>): nat
  {
    if opts == [] then 0 else TotalLegs(opts[..|opts| - 1]) + |opts[|opts| - 1].details|
  }

  /** Leg `j` of option `i` lands after the legs of the options before it, with option `i`'s price. */
  lemma {:induction false} RowsAt(opts: seq<PriceOption>, i: nat, j: nat)
    requires i < |opts| && j < |opts[i].details|
    ensures TotalLegs(opts[..i]) + j < |Rows(opts)|
    ensures Rows(opts)[TotalLegs(opts[..i]) + j] == RowOf(opts[i].price, opts[i].details[j])
  {
    var n := |opts| - 1;
    var init := opts[..n];
    if i < n {
      RowsAt(init, i, j);
      assert init[..i] == opts[..i];
    } else {
      assert init == opts[..i];
    }
  }

  /** The number of rows dated `d`. */
  function CountDate(rows: seq<Row>, d: string): nat
  {
    if rows == [] then 0
    else CountDate(rows[..|rows| - 1], d) + (if rows[|rows| - 1].flightDate == d then 1 else 0)
  }

  /** Counting over a log that grew by appending: old count plus the count among the new rows. */
  lemma {:induction false} CountDateAppend(a: seq<Row>, b: seq<Row>, d: string)
    ensures CountDate(a + b, d) == CountDate(a, d) + CountDate(b, d)
  {
    if b == [] {
      assert a + b == a;
    } else {
      CountDateAppend(a, b[..|b| - 1], d);
      assert (a + b)[..|a + b| - 1] == a + b[..|b| - 1];
    }
  }

  /** One result row of the GROUP BY query. */
  datatype DateCount = DateCount(date: string, count: nat)

  /** No date twice, and no empty group. */
  predicate WellFormed(groups: seq<DateCount>) {
    (forall i, j :: 0 <= i < j < |groups| ==> groups[i].date != groups[j].date) &&
    (forall i :: 0 <= i < |groups| ==> groups[i].count >= 1)
  }

  /** The count reported for `d`, or 0 when the query has no row for it. */
  function Lookup(groups: seq<DateCount>, d: string): nat
  {
    if groups == [] then 0
    else if groups[0].date == d then groups[0].count
    else Lookup(groups[1..], d)
  }

  /** The sum of all reported counts. */
  function Total(groups: seq<DateCount>): nat
  {
    if groups == [] then 0 else groups[0].count + Total(groups[1..])
  }

  /** Add one row dated `d` to the groups. */
  function Bump(groups: seq<DateCount>, d: string): (r: seq<DateCount>)
    ensures |groups| <= |r| <= |groups| + 1
  {
    if groups == [] then [DateCount(d, 1)]
    else if groups[0].date == d then [DateCount(d, groups[0].count + 1)] + groups[1..]
    else [groups[0]] + Bump(groups[1..], d)
  }

  /**
   * The query's result: one group per distinct date, in order of first
   * appearance (the query has no ORDER BY, so no order is promised).
   */
  function GroupCounts(rows: seq<Row>): (groups: seq<DateCount>)
    ensures |groups| <= |rows|
    ensures rows != [] ==> groups != []
  {
    if rows == [] then [] else Bump(GroupCounts(rows[..|rows| - 1]), rows[|rows| - 1].flightDate)
  }

  lemma {:induction false} BumpCounts(groups: seq<DateCount>, d: string)
    requires WellFormed(groups)
    ensures WellFormed(Bump(groups, d))
    ensures Total(Bump(groups, d)) == Total(groups) + 1
    ensures forall e :: Lookup(Bump(groups, d), e) == Lookup(groups, e) + (if e == d then 1 else 0)
  {
    if groups != [] && groups[0].date != d {
      var rest := groups[1..];
      assert WellFormed(rest) by {
        forall i, j | 0 <= i < j < |rest| ensures rest[i].date != rest[j].date {
          assert rest[i] == groups[i + 1] && rest[j] == groups[j + 1];
        }
      }
      BumpCounts(rest, d);
      var b := Bump(rest, d);
      var g0 := groups[0].date;
      assert Lookup(rest, g0) == 0 by {
        forall k | 0 <= k < |rest| ensures rest[k].date != g0 {
          assert rest[k] == groups[k + 1];
        }
        LookupPositive(rest, g0);
      }
      assert Lookup(b, g0) == 0;
      var r := Bump(groups, d);
      assert r == [groups[0]] + b;
      forall i, j | 0 <= i < j < |r| ensures r[i].date != r[j].date {
        assert r[j] == b[j - 1];
        if i == 0 {
          LookupPositive(b, g0);
        } else {
          assert r[i] == b[i - 1];
        }
      }
    } else if groups != [] {
      var r := Bump(groups, d);
      forall i, j | 0 <= i < j < |r| ensures r[i].date != r[j].date {
        assert r[j] == groups[j];
        if i > 0 { assert r[i] == groups[i]; }
      }
      assert r[1..] == groups[1..];
    }
  }

  /** With counts of at least one, a date has a positive count exactly when some group carries it. */
  lemma {:induction false} LookupPositive(groups: seq<DateCount>, d: string)
    requires forall i :: 0 <= i < |groups| ==> groups[i].count >= 1
    ensures Lookup(groups, d) > 0 <==> exists i :: 0 <= i < |groups| && groups[i].date == d
  {
    if groups != [] && groups[0].date != d {
      LookupPositive(groups[1..], d);
      if exists i :: 0 <= i < |groups| && groups[i].date == d {
        var i :| 0 <= i < |groups| && groups[i].date == d;
        assert groups[1..][i - 1].date == d;
      }
    }
  }

  /** When no date repeats, the count reported for a group's date is that group's count. */
  lemma {:induction false} LookupAt(groups: seq<DateCount>, i: nat)
    requires WellFormed(groups) && i < |groups|
    ensures Lookup(groups, groups[i].date) == groups[i].count
  {
    if i > 0 {
      var rest := groups[1..];
      assert WellFormed(rest) by {
        forall a, b | 0 <= a < b < |rest| ensures rest[a].date != rest[b].date {
          assert rest[a] == groups[a + 1] && rest[b] == groups[b + 1];
        }
      }
      LookupAt(rest, i - 1);
    }
  }

  /**
   * The GROUP BY query is right: no date twice, every count is the number of
   * rows with that date, and the counts add up to the number of rows.
   */
  lemma {:induction false} GroupCountsCorrect(rows: seq<Row>)
    ensures WellFormed(GroupCounts(rows))
    ensures Total(GroupCounts(rows)) == |rows|
    ensures forall d :: Lookup(GroupCounts(rows), d) == CountDate(rows, d)
  {
    if rows != [] {
      GroupCountsCorrect(rows[..|rows| - 1]);
      BumpCounts(GroupCounts(rows[..|rows| - 1]), rows[|rows| - 1].flightDate);
    }
  }

  /** Exactly the dates of the rows appear in the query's result, each with its number of rows. */
  lemma GroupCountsEntries(rows: seq<Row>)
    ensures var g := GroupCounts(rows);
      (forall i :: 0 <= i < |g| ==> g[i].count == CountDate(rows, g[i].date)) &&
      (forall d :: CountDate(rows, d) > 0 <==> exists i :: 0 <= i < |g| && g[i].date == d)
  {
    var g := GroupCounts(rows);
    GroupCountsCorrect(rows);
    forall i | 0 <= i < |g| ensures g[i].count == CountDate(rows, g[i].date) {
      LookupAt(g, i);
    }
    forall d ensures CountDate(rows, d) > 0 <==> exists i :: 0 <= i < |g| && g[i].date == d {
      LookupPositive(g, d);
    }
  }

  /** The store: the rows of the `flights` table in insertion order. */
  class FlightStore {
    var rows: seq<Row>

    /** `CREATE TABLE IF NOT EXISTS flights (...)` on a fresh database. */
    constructor ()
      ensures rows == []
    {
      rows := [];
    }

    /**
     * The nested insert loop: one INSERT per leg of every option, carrying
     * the option's price; rows already present are never touched.
     */
    method InsertOptions(flights: seq<PriceOption>)
      modifies this
      ensures rows == old(rows) + Rows(flights)
    {
      var i := 0;
      while i < |flights|
        invariant 0 <= i <= |flights|
        invariant rows == old(rows) + Rows(flights[..i])
      {
        var flight := flights[i];
        var j := 0;
        while j < |flight.details|
          invariant 0 <= j <= |flight.details|
          invariant rows == old(rows) + Rows(flights[..i]) + LegRows(flight)[..j]
        {
          var detail := flight.details[j];
          rows := rows + [RowOf(flight.price, detail)];
          assert LegRows(flight)[..j + 1] == LegRows(flight)[..j] + [RowOf(flight.price, detail)];
          j := j + 1;
        }
        assert flights[..i + 1][..i] == flights[..i];
        assert LegRows(flight)[..j] == LegRows(flight);
        i := i + 1;
      }
      assert flights[..i] == flights;
    }

    /** `SELECT flight_date, COUNT(*) as flight_count FROM flights GROUP BY flight_date`. */
    function CountByDate(): (groups: seq<DateCount>)
      reads this
      ensures WellFormed(groups) && Total(groups) == |rows|
      ensures forall d :: Lookup(groups, d) == CountDate(rows, d)
    {
      GroupCountsCorrect(rows);
      GroupCounts(rows)
    }
  }

  /** A search's inserts raise the total count by exactly its number of legs, and each date's count by its own rows. */
  lemma InsertGrowsCounts(before: seq<Row>, flights: seq<PriceOption>)
    ensures Total(GroupCounts(before + Rows(flights))) == Total(GroupCounts(before)) + TotalLegs(flights)
    ensures forall d ::
      Lookup(GroupCounts(before + Rows(flights)), d) == Lookup(GroupCounts(before), d) + CountDate(Rows(flights), d)
  {
    GroupCountsCorrect(before);
    GroupCountsCorrect(before + Rows(flights));
    forall d ensures CountDate(before + Rows(flights), d) == CountDate(before, d) + CountDate(Rows(flights), d) {
      CountDateAppend(before, Rows(flights), d);
    }
  }
}
