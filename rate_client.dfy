/**
 * The rate client's handling of the two responses of the Frankfurter rate
 * service, with the decoded JSON passed in as a value: `fetch_conversion`
 * (the `/latest` endpoint) and `fetch_timeseries` (the date-range endpoint).
 *
 * A JSON object of rates, code to number, is a map whose values are
 * `Some(x)` for a number and `None` for JSON `null`; a top-level field that
 * is absent from the response is `None`.
 */
module RateClient {
  import opened Wrappers
  import opened Errors
  import opened StringOrder

  /** The object under `rates`: currency code to rate, `None` for `null`. */
  type RateTable = map<string, Option<real>>

  /** The decoded `/latest` response, reduced to the field the client reads. */
  datatype LatestResponse = LatestResponse(rates: Option<RateTable>)

  /** `(converted, rate)`; a rate of `None` stands for `float("nan")`. */
  datatype Conversion = Conversion(converted: real, rate: Option<real>)

  /**
   * `fetch_conversion(amount, base, target)` given the response the request
   * would have returned. When the codes agree no request is made, so the
   * response is not looked at.
   */
  function FetchConversion(amount: real, base: string, target: string, response: LatestResponse)
    : (r: Result<Conversion, Error>)
    ensures base == target ==> r == Success(Conversion(amount, Some(1.0)))
    ensures base != target ==>
              (r == Failure(NoRateReturned(base, target)) <==>
                 response.rates.None? || target !in response.rates.value)
    ensures base != target ==>
              (r == Failure(RateNotNumeric(base, target)) <==>
                 response.rates.Some? && target in response.rates.value
                 && response.rates.value[target].None?)
    ensures (base != target && response.rates.Some? && target in response.rates.value
             && response.rates.value[target].Some?) ==> r.Success?
    ensures r.Success? && base != target ==>
              response.rates.Some? && target in response.rates.value
              && response.rates.value[target] == Some(r.value.converted)
    ensures r.Success? && amount != 0.0 ==>
              r.value.rate.Some? && r.value.rate.value * amount == r.value.converted
    ensures r.Success? && amount == 0.0 && base != target ==> r.value.rate.None?
  {
    if base == target then
      Success(Conversion(amount, Some(1.0)))
    else
      // `data.get("rates", {})`: an absent field reads as an empty table.
      var rates := if response.rates.Some? then response.rates.value else map[];
      if target !in rates then
        Failure(NoRateReturned(base, target))
      else if rates[target].None? then
        // `float(None)` raises.
        Failure(RateNotNumeric(base, target))
      else
        var converted := rates[target].value;
        var rate := if amount != 0.0 then Some(converted / amount) else None;
        Success(Conversion(converted, rate))
  }

  /** The identity shortcut does not depend on the response at all. */
  lemma IdentityIgnoresResponse(amount: real, code: string, r1: LatestResponse, r2: LatestResponse)
    ensures FetchConversion(amount, code, code, r1) == FetchConversion(amount, code, code, r2)
    ensures FetchConversion(amount, code, code, r1).value.converted == amount
  {
  }

  /** The form's default figures (100, INR to USD) with a returned 1.2 USD: a rate of 0.012. */
  lemma ConversionExample()
    ensures FetchConversion(100.0, "INR", "USD", LatestResponse(Some(map["USD" := Some(1.2)])))
            == Success(Conversion(1.2, Some(0.012)))
  {
  }

  /** The decoded date-range response: `None` when it has no `rates` field,
      otherwise each ISO day mapped to that day's table of rates. */
  datatype TimeseriesResponse = TimeseriesResponse(rates: Option<map<string, RateTable>>)

  /** The dictionary `fetch_timeseries` returns, in its insertion order. */
  type Series = seq<(string, real)>

  function Days(s: Series): (d: seq<string>)
    ensures |d| == |s| && forall i :: 0 <= i < |s| ==> d[i] == s[i].0
  {
    seq(|s|, i requires 0 <= i < |s| => s[i].0)
  }

  /** `payload.get(target) is not None`: the day carries a number for the target. */
  predicate Usable(payload: RateTable, target: string)
  {
    target in payload && payload[target].Some?
  }

  /**
   * The filter `fetch_timeseries` promises: the days of `out` are exactly the
   * days of the response that carry a number for the target, in strictly
   * ascending order, each with that number.
   */
  ghost predicate IsFilterOf(out: Series, days: map<string, RateTable>, target: string)
  {
    && StrictlyAscending(Days(out))
    && (forall d :: d in Days(out) <==> d in days && Usable(days[d], target))
    && (forall i :: 0 <= i < |out| ==>
          out[i].0 in days && Usable(days[out[i].0], target)
          && out[i].1 == days[out[i].0][target].value)
  }

  /** There is only one such filter result, so the promise pins it down. */
  lemma FilterUnique(a: Series, b: Series, days: map<string, RateTable>, target: string)
    requires IsFilterOf(a, days, target) && IsFilterOf(b, days, target)
    ensures a == b
  {
    AscendingUnique(Days(a), Days(b));
    assert |a| == |b|;
    forall i | 0 <= i < |a| ensures a[i] == b[i] {
      assert Days(a)[i] == Days(b)[i];
    }
  }

  /** Appending the current day keeps the days ascending and below every later day. */
  lemma KeepDay(rates: Series, p: (string, real), days: seq<string>, i: nat)
    requires i < |days| && p.0 == days[i] && StrictlyAscending(days)
    requires StrictlyAscending(Days(rates))
    requires forall k, j :: 0 <= k < |rates| && i <= j < |days| ==> Less(rates[k].0, days[j])
    ensures Days(rates + [p]) == Days(rates) + [p.0]
    ensures StrictlyAscending(Days(rates + [p]))
    ensures forall k, j :: 0 <= k < |rates| + 1 && i < j < |days| ==> Less((rates + [p])[k].0, days[j])
  {
  }

  /**
   * `fetch_timeseries(base, target, days)` from the point where the response
   * has been decoded: walk the days in ascending order and keep those whose
   * payload holds the target code.
   */
  method FetchTimeseries(response: TimeseriesResponse, target: string) returns (r: Result<Series, Error>)
    ensures response.rates.None? ==> r == Failure(TimeseriesFailed)
    ensures response.rates.Some? ==>
              (r.Failure? <==> forall d :: d in response.rates.value ==> !Usable(response.rates.value[d], target))
    ensures response.rates.Some? && r.Failure? ==> r.error == NoHistoricalRates
    ensures r.Success? ==> response.rates.Some? && |r.value| > 0
                           && IsFilterOf(r.value, response.rates.value, target)
  {
    if response.rates.None? {
      return Failure(TimeseriesFailed);
    }
    var table := response.rates.value;
    var days := Sorted(table.Keys);
    var rates: Series := [];
    var i := 0;
    while i < |days|
      invariant 0 <= i <= |days|
      invariant StrictlyAscending(Days(rates))
      invariant forall k, j :: 0 <= k < |rates| && i <= j < |days| ==> Less(rates[k].0, days[j])
      invariant forall d :: d in Days(rates) <==> d in days[..i] && Usable(table[d], target)
      invariant forall k :: 0 <= k < |rates| ==>
                  rates[k].0 in table && Usable(table[rates[k].0], target)
                  && rates[k].1 == table[rates[k].0][target].value
    {
      var day := days[i];
      var payload := table[day];
      ghost var before := rates;
      if Usable(payload, target) {
        rates := rates + [(day, payload[target].value)];
        KeepDay(before, (day, payload[target].value), days, i);
      }
      assert days[..i + 1] == days[..i] + [day];
      i := i + 1;
    }
    assert days[..i] == days;
    if rates == [] {
      return Failure(NoHistoricalRates);
    }
    assert rates[0].0 in Days(rates);
    return Success(rates);
  }
}
