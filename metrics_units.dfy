/** The `count` and `response_count` rows of `getUnitUtilsForMetric`: the unit
 *  label, the conversion to a number and the display string. The labels
 *  (`metrics.trips`, `metrics.responses`) come from the localisation
 *  collaborator and are parameters here. */
module MetricsUnits {
  import opened Common
  import opened MetricsTypes

  predicate IsDigit(c: char)
  {
    '0' <= c <= '9'
  }

  function DigitChar(d: nat): (c: char)
    requires d < 10
    ensures IsDigit(c)
  {
    ('0' as int + d) as char
  }

  /** A non-negative integer as JavaScript writes it when concatenated to a
   *  string: decimal, without leading zeros. */
  function NatToString(n: nat): (s: string)
    ensures |s| > 0 && forall i :: 0 <= i < |s| ==> IsDigit(s[i])
    ensures |s| > 1 ==> s[0] != '0'
  {
    if n < 10 then [DigitChar(n)] else NatToString(n / 10) + [DigitChar(n % 10)]
  }

  /** The value of a string of decimal digits. */
  function ParseNat(s: string): nat
    requires forall i :: 0 <= i < |s| ==> IsDigit(s[i])
    decreases |s|
  {
    if s == [] then 0
    else
      var c := s[|s| - 1];
      assert IsDigit(c);
      ParseNat(s[..|s| - 1]) * 10 + (c as int - '0' as int)
  }

  lemma {:induction false} ParseNatToString(n: nat)
    ensures ParseNat(NatToString(n)) == n
  {
    if n >= 10 {
      var s := NatToString(n);
      assert s[..|s| - 1] == NatToString(n / 10);
      ParseNatToString(n / 10);
    }
  }

  /** The longest run of digits at the start of `s`, and what follows it. */
  function SplitDigits(s: string): (r: (string, string))
    ensures r.0 + r.1 == s
    ensures forall i :: 0 <= i < |r.0| ==> IsDigit(r.0[i])
    ensures r.1 == [] || !IsDigit(r.1[0])
    decreases |s|
  {
    if s == [] || !IsDigit(s[0]) then ([], s)
    else
      var t := SplitDigits(s[1..]);
      assert s == [s[0]] + s[1..];
      ([s[0]] + t.0, t.1)
  }

  lemma {:induction false} SplitDigitsOfDigitsThen(d: string, rest: string)
    requires forall i :: 0 <= i < |d| ==> IsDigit(d[i])
    requires rest == [] || !IsDigit(rest[0])
    ensures SplitDigits(d + rest) == (d, rest)
    decreases |d|
  {
    if d != [] {
      assert (d + rest)[0] == d[0] && IsDigit(d[0]);
      assert (d + rest)[1..] == d[1..] + rest;
      SplitDigitsOfDigitsThen(d[1..], rest);
      assert [d[0]] + d[1..] == d;
    } else {
      assert d + rest == rest;
    }
  }

  /** The `count` row's conversion: `(v) => v`. */
  function CountValue(v: nat): (r: nat)
    ensures r == v
  {
    v
  }

  /** The `count` row's display: `v + ' ' + trips`. */
  function CountDisplay(v: nat, trips: string): (r: string)
    ensures |r| > |trips| + 1 && IsDigit(r[0])
    ensures r[|r| - |trips| - 1..] == " " + trips
  {
    NatToString(v) + " " + trips
  }

  /** Reading a `count` display back: the leading number and, after one
   *  space, the label. */
  function ReadCountDisplay(s: string): Option<(nat, string)>
  {
    var (digits, rest) := SplitDigits(s);
    if digits != [] && |rest| >= 1 && rest[0] == ' ' then Some((ParseNat(digits), rest[1..])) else None
  }

  /** The count display shows the converted count followed by the label. */
  lemma CountDisplayReadsBack(v: nat, trips: string)
    ensures ReadCountDisplay(CountDisplay(v, trips)) == Some((CountValue(v), trips))
  {
    var d := NatToString(v);
    assert CountDisplay(v, trips) == d + (" " + trips);
    SplitDigitsOfDigitsThen(d, " " + trips);
    ParseNatToString(v);
  }

  /** `x || 0` on an optional count: an absent count (or 0) reads as 0. */
  function OrZero(x: Option<nat>): (r: nat)
    ensures x.None? ==> r == 0
    ensures x.Some? ==> r == x.value
  {
    if x.Some? then x.value else 0
  }

  /** The `response_count` row's conversion: the responded count, 0 when absent. */
  function ResponseValue(v: ResponseCount): (r: nat)
    ensures v.responded.Some? ==> r == v.responded.value
    ensures v.responded.None? ==> r == 0
  {
    OrZero(v.responded)
  }

  /** The responses counted in the display's total. */
  function ResponseTotal(v: ResponseCount): (t: nat)
    ensures ResponseValue(v) <= t
    ensures t - ResponseValue(v) == OrZero(v.notResponded)
  {
    ResponseValue(v) + OrZero(v.notResponded)
  }

  /** The `response_count` row's display: `<responded>/<total> <responses>`. */
  function ResponseDisplay(v: ResponseCount, responses: string): (r: string)
    ensures |r| > |responses| + 1 && IsDigit(r[0])
    ensures r[|r| - |responses| - 1..] == " " + responses
  {
    NatToString(ResponseValue(v)) + "/" + NatToString(ResponseTotal(v)) + " " + responses
  }

  /** Reading a `response_count` display back: two numbers separated by `/`
   *  and, after one space, the label. */
  function ReadResponseDisplay(s: string): Option<(nat, nat, string)>
  {
    var (d1, rest1) := SplitDigits(s);
    if d1 == [] || |rest1| < 1 || rest1[0] != '/' then None
    else
      var (d2, rest2) := SplitDigits(rest1[1..]);
      if d2 == [] || |rest2| < 1 || rest2[0] != ' ' then None
      else Some((ParseNat(d1), ParseNat(d2), rest2[1..]))
  }

  lemma {:induction false} ReadResponseDisplayOf(d1: string, d2: string, responses: string)
    requires d1 != [] && forall i :: 0 <= i < |d1| ==> IsDigit(d1[i])
    requires d2 != [] && forall i :: 0 <= i < |d2| ==> IsDigit(d2[i])
    ensures ReadResponseDisplay(d1 + "/" + d2 + " " + responses) == Some((ParseNat(d1), ParseNat(d2), responses))
  {
    var rest2 := " " + responses;
    var rest1 := "/" + (d2 + rest2);
    assert d1 + "/" + d2 + " " + responses == d1 + rest1;
    SplitDigitsOfDigitsThen(d1, rest1);
    assert rest1[1..] == d2 + rest2;
    SplitDigitsOfDigitsThen(d2, rest2);
    assert rest2[1..] == responses;
  }

  /** The response display shows the responded count, then the total of the
   *  responded and not-responded counts (each absent one read as 0), then the
   *  label. */
  lemma {:induction false} ResponseDisplayReadsBack(v: ResponseCount, responses: string)
    ensures ReadResponseDisplay(ResponseDisplay(v, responses)) ==
      Some((OrZero(v.responded), OrZero(v.responded) + OrZero(v.notResponded), responses))
  {
    var d1, d2 := NatToString(ResponseValue(v)), NatToString(ResponseTotal(v));
    assert ResponseDisplay(v, responses) == d1 + "/" + d2 + " " + responses;
    ReadResponseDisplayOf(d1, d2, responses);
    ParseNatToString(ResponseValue(v));
    ParseNatToString(ResponseTotal(v));
  }

  /** One row of the `fns` table: `[unit suffix, conversion, display]`. */
  datatype UnitRow<-V> = UnitRow(suffix: string, convert: V -> nat, display: V -> string)

  /** The `count` row. */
  function CountRow(trips: string): (r: UnitRow<nat>)
    ensures r.suffix == trips
    ensures forall v :: r.convert(v) == v
  {
    UnitRow(trips, CountValue, (v: nat) => CountDisplay(v, trips))
  }

  /** The `response_count` row. */
  function ResponseCountRow(responses: string): (r: UnitRow<ResponseCount>)
    ensures r.suffix == responses
    ensures forall v :: r.convert(v) == OrZero(v.responded)
  {
    UnitRow(responses, ResponseValue, (v: ResponseCount) => ResponseDisplay(v, responses))
  }

  /** In both rows the display starts with the converted value and ends with
   *  the row's unit suffix; the response display's total is never below it. */
  lemma {:induction false} RowsDisplayTheirConversion(trips: string, responses: string)
    ensures forall v: nat ::
      ReadCountDisplay(CountRow(trips).display(v)) == Some((CountRow(trips).convert(v), CountRow(trips).suffix))
    ensures forall v: ResponseCount :: var row := ResponseCountRow(responses);
      var read := ReadResponseDisplay(row.display(v));
      read.Some? && read.value.0 == row.convert(v) && read.value.0 <= read.value.1 && read.value.2 == row.suffix
  {
    forall v: nat ensures ReadCountDisplay(CountRow(trips).display(v)) == Some((CountRow(trips).convert(v), CountRow(trips).suffix)) {
      CountDisplayReadsBack(v, trips);
    }
    forall v: ResponseCount ensures var row := ResponseCountRow(responses);
      var read := ReadResponseDisplay(row.display(v));
      read.Some? && read.value.0 == row.convert(v) && read.value.0 <= read.value.1 && read.value.2 == row.suffix
    {
      ResponseDisplayReadsBack(v, responses);
    }
  }
}
