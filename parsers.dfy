/**
 * `convertParams` (`internal/utility/parsers.go`): the path and query
 * parameters of a request, each turned into an integer when
 * `strconv.ParseInt(value, 10, 64)` accepts it and left as text otherwise.
 */
module Parsers {
  import opened Wrappers
  import opened Text

  /** The two dynamic types a converted parameter can have. */
  datatype ParamValue = IntValue(n: int) | StringValue(s: string)

  /** One parameter's conversion. */
  function Convert(value: string): (r: ParamValue)
    ensures r.IntValue? <==> ParseInt64(value).Some?
    ensures r.IntValue? ==> MinInt64 <= r.n <= MaxInt64 && ParseInt64(value) == Some(r.n)
    ensures r.StringValue? ==> r.s == value
  {
    var v := ParseInt64(value);
    if v.Some? then IntValue(v.value) else StringValue(value)
  }

  /** `convertParams`: the same keys, each value converted on its own; the input map is a value and stays as it was. */
  method ConvertParams(params: map<string, string>) returns (converted: map<string, ParamValue>)
    ensures converted.Keys == params.Keys
    ensures forall k :: k in params ==> converted[k] == Convert(params[k])
  {
    converted := map[];
    var todo := params.Keys;
    while todo != {}
      invariant todo <= params.Keys
      invariant converted.Keys == params.Keys - todo
      invariant forall k :: k in converted ==> converted[k] == Convert(params[k])
      decreases |todo|
    {
      var key :| key in todo;
      var value := params[key];
      var v := ParseInt64(value);
      if v.Some? {
        converted := converted[key := IntValue(v.value)];
      } else {
        converted := converted[key := StringValue(value)];
      }
      todo := todo - {key};
    }
  }

  // ---------------------------------------------------------------- facts

  /** Every 64-bit integer written in decimal comes back as that integer. */
  lemma DecimalBecomesInt(n: int)
    requires MinInt64 <= n <= MaxInt64
    ensures Convert(FormatInt(n)) == IntValue(n)
  {
    ParseFormatInt(n);
  }

  /** A decimal number past the 64-bit range stays text. */
  lemma OutOfRangeStaysText(n: int)
    requires n < MinInt64 || MaxInt64 < n
    ensures Convert(FormatInt(n)) == StringValue(FormatInt(n))
  {
    ParseRejectsOutOfRange(n);
  }

  /** Converting a converted value's text again gives the same value: the conversion is stable. */
  lemma ConvertIsStable(value: string)
    ensures var r := Convert(value);
            Convert(if r.IntValue? then FormatInt(r.n) else r.s) == r
  {
    var r := Convert(value);
    if r.IntValue? {
      ParseFormatInt(r.n);
    }
  }
}
