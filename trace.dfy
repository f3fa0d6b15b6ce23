/**
 * `parse_trace` (main.py): split a trace string on '*' and pick the fields
 * of one flight leg by position, converting the date token on the way.
 */
module Trace {
  import opened Wrappers
  import opened Calendar

  /** The separator of a trace string. */
  const Sep: char := '*'

  /** One decoded flight leg, the dictionary `parse_trace` returns. */
  datatype Leg = Leg(
    flightType: string,
    departureCity: string,
    arrivalCity: string,
    flightDate: string,
    airline: string,
    airlineCode: string)

  /**
   * The exception `parse_trace` raises: an IndexError for a missing field,
   * a ValueError from `strptime` for a date token that is not a date.
   */
  datatype TraceError = ShortTrace | BadDate(token: string)

  /** Python's `s.split(sep)`: every maximal run between separators, empty runs included. */
  function Split(s: string, sep: char): (parts: seq<string>)
    ensures |parts| >= 1
    decreases |s|
  {
    if s == [] then [""]
    else
      var rest := Split(s[1..], sep);
      if s[0] == sep then [""] + rest else [[s[0]] + rest[0]] + rest[1..]
  }

  /** `sep.join(parts)`, the inverse of `Split`. */
  function Join(parts: seq<string>, sep: char): string
    requires |parts| >= 1
  {
    if |parts| == 1 then parts[0] else parts[0] + [sep] + Join(parts[1..], sep)
  }

  predicate NoSep(parts: seq<string>, sep: char) {
    forall i :: 0 <= i < |parts| ==> sep !in parts[i]
  }

  /** No piece of a split contains the separator, and joining the pieces restores the string. */
  lemma {:induction false} JoinSplit(s: string, sep: char)
    ensures NoSep(Split(s, sep), sep)
    ensures Join(Split(s, sep), sep) == s
  {
    if s != [] {
      JoinSplit(s[1..], sep);
      var rest := Split(s[1..], sep);
      if s[0] == sep {
        assert Split(s, sep)[1..] == rest;
      } else {
        var parts := Split(s, sep);
        assert parts[1..] == rest[1..];
        assert forall i :: 1 <= i < |parts| ==> parts[i] == rest[i];
        if |rest| > 1 {
          assert rest[1..][1..] == rest[2..];
        }
      }
    }
  }

  /** Splitting a string made of a separator-free prefix and a tail glues the prefix onto the tail's first piece. */
  lemma {:induction false} SplitPrefix(p: string, t: string, sep: char)
    requires sep !in p
    ensures Split(p + t, sep) == [p + Split(t, sep)[0]] + Split(t, sep)[1..]
  {
    if p != [] {
      assert (p + t)[1..] == p[1..] + t;
      SplitPrefix(p[1..], t, sep);
      assert [p[0]] + (p[1..] + Split(t, sep)[0]) == p + Split(t, sep)[0];
    } else {
      var st := Split(t, sep);
      assert p + t == t && p + st[0] == st[0];
      assert st == [st[0]] + st[1..];
    }
  }

  /** Splitting the join of separator-free pieces gives the pieces back. */
  lemma {:induction false} SplitJoin(parts: seq<string>, sep: char)
    requires |parts| >= 1 && NoSep(parts, sep)
    ensures Split(Join(parts, sep), sep) == parts
  {
    if |parts| == 1 {
      SplitPrefix(parts[0], "", sep);
      assert parts[0] + "" == parts[0];
    } else {
      var tail := Join(parts[1..], sep);
      SplitJoin(parts[1..], sep);
      assert Split([sep] + tail, sep) == [""] + parts[1..];
      assert parts[0] + [sep] + tail == parts[0] + ([sep] + tail);
      SplitPrefix(parts[0], [sep] + tail, sep);
      assert parts[0] + "" == parts[0];
      assert parts == [parts[0]] + parts[1..];
    }
  }

  /**
   * The body of `parse_trace` on the pieces of the split, in the order Python
   * evaluates it: `parts[4]` first, then `strptime`, then the remaining fields.
   */
  function ParseFields(parts: seq<string>): (r: Result<Leg, TraceError>)
    ensures r.Ok? <==> |parts| >= 7 && ConvertDate(parts[4]).Some?
    ensures r.Ok? ==> r.value == Leg(parts[1], parts[2], parts[3], ConvertDate(parts[4]).value, parts[5], parts[6])
    ensures r == Err(ShortTrace) <==> |parts| < 5 || (ConvertDate(parts[4]).Some? && |parts| < 7)
    ensures r.Err? && r.error.BadDate? ==> |parts| >= 5 && ConvertDate(parts[4]).None? && r.error.token == parts[4]
  {
    if |parts| < 5 then Err(ShortTrace)
    else
      match ConvertDate(parts[4])
      case None => Err(BadDate(parts[4]))
      case Some(date) =>
        if |parts| < 7 then Err(ShortTrace)
        else Ok(Leg(parts[1], parts[2], parts[3], date, parts[5], parts[6]))
  }

  /** `parse_trace(trace_str)`. */
  function ParseTrace(s: string): (r: Result<Leg, TraceError>)
    ensures var parts := Split(s, Sep);
      r.Ok? <==> |parts| >= 7 && ConvertDate(parts[4]).Some?
    ensures var parts := Split(s, Sep);
      r.Ok? ==> r.value == Leg(parts[1], parts[2], parts[3], ConvertDate(parts[4]).value, parts[5], parts[6])
    ensures var parts := Split(s, Sep);
      r.Err? ==> (r.error.BadDate? <==> |parts| >= 5 && ConvertDate(parts[4]).None?)
  {
    ParseFields(Split(s, Sep))
  }

  /**
   * A trace assembled from separator-free fields decodes to those fields, the
   * first one ignored and the date reordered to `DD-MM-YYYY`; fields after
   * the seventh are ignored too.
   */
  lemma ParseTraceOfFields(fields: seq<string>)
    requires |fields| >= 7 && NoSep(fields, Sep)
    requires ConvertDate(fields[4]).Some?
    ensures ParseTrace(Join(fields, Sep)) ==
      Ok(Leg(fields[1], fields[2], fields[3],
             fields[4][6..8] + "-" + fields[4][4..6] + "-" + fields[4][..4],
             fields[5], fields[6]))
  {
    SplitJoin(fields, Sep);
    ConvertDateReorders(fields[4]);
  }

  /** A trace with fewer than five fields fails before its date is looked at. */
  lemma FewerThanFiveFields(s: string)
    requires |Split(s, Sep)| < 5
    ensures ParseTrace(s) == Err(ShortTrace)
  {
  }

  /** The decoded date of every successful parse has the `DD-MM-YYYY` shape. */
  lemma ParsedDateShape(s: string)
    requires ParseTrace(s).Ok?
    ensures var d := ParseTrace(s).value.flightDate;
      |d| == 10 && d[2] == '-' && d[5] == '-' && AllDigits(d[..2] + d[3..5] + d[6..])
  {
    var parts := Split(s, Sep);
    var tok := parts[4];
    ConvertDateReorders(tok);
    var d := ParseTrace(s).value.flightDate;
    assert d[..2] + d[3..5] + d[6..] == tok[6..8] + tok[4..6] + tok[..4];
  }
}
