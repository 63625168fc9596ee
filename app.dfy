/**
 * The "Convert & Plot" action of the converter window (`on_convert`), with
 * the widgets, dialogs, charts and network requests peeled off: the form's
 * fields, the two decoded responses and today's ISO date come in as values,
 * and the figures the action writes and plots come out as a report.
 */
module App {
  import opened Wrappers
  import opened Errors
  import opened CurrencyCode
  import opened RateClient
  import opened Aggregation

  /** What one successful run shows: the conversion, the history it plots and
      the period average it writes. */
  datatype Report = Report(
    amount: real,
    base: string,
    target: string,
    converted: real,
    todayRate: Option<real>,
    days: int,
    history: Series,
    average: real)

  /** The history response carries a number for the target on some day. */
  predicate HasHistory(history: TimeseriesResponse, target: string)
  {
    history.rates.Some? && exists d :: d in history.rates.value && Usable(history.rates.value[d], target)
  }

  /**
   * `on_convert` for an amount already read as a number. Validation comes
   * first and fails before either response is consulted; then the
   * conversion, then the history, then the average.
   */
  method OnConvert(amount: real, baseField: string, targetField: string, daysField: string,
                   latest: LatestResponse, history: TimeseriesResponse, today: string)
    returns (r: Result<Report, Error>)
    ensures NormalizeCcy(baseField).Failure? ==> r == Failure(InvalidCurrencyCode(baseField))
    ensures NormalizeCcy(baseField).Success? && NormalizeCcy(targetField).Failure? ==>
              r == Failure(InvalidCurrencyCode(targetField))
    ensures (NormalizeCcy(baseField).Success? && NormalizeCcy(targetField).Success?
             && ParseDays(daysField).Failure?) ==> r == Failure(ParseDays(daysField).error)
    ensures r.Success? <==>
              && NormalizeCcy(baseField).Success?
              && NormalizeCcy(targetField).Success?
              && ParseDays(daysField).Success?
              && FetchConversion(amount, NormalizeCcy(baseField).value, NormalizeCcy(targetField).value, latest).Success?
              && HasHistory(history, NormalizeCcy(targetField).value)
    ensures (&& NormalizeCcy(baseField).Success? && NormalizeCcy(targetField).Success?
             && ParseDays(daysField).Success?
             && FetchConversion(amount, NormalizeCcy(baseField).value, NormalizeCcy(targetField).value, latest).Failure?)
            ==> r == Failure(FetchConversion(amount, NormalizeCcy(baseField).value,
                                             NormalizeCcy(targetField).value, latest).error)
    ensures (&& NormalizeCcy(baseField).Success? && NormalizeCcy(targetField).Success?
             && ParseDays(daysField).Success?
             && FetchConversion(amount, NormalizeCcy(baseField).value, NormalizeCcy(targetField).value, latest).Success?
             && !HasHistory(history, NormalizeCcy(targetField).value))
            ==> r == Failure(if history.rates.None? then TimeseriesFailed else NoHistoricalRates)
    ensures r.Failure? ==> r.error != ZeroDivision
    ensures r.Success? ==>
              var report := r.value;
              && report.amount == amount
              && report.base == NormalizeCcy(baseField).value
              && report.target == NormalizeCcy(targetField).value
              && report.days == ParseDays(daysField).value >= 1
              && FetchConversion(amount, report.base, report.target, latest)
                 == Success(Conversion(report.converted, report.todayRate))
              && history.rates.Some?
              && IsFilterOf(report.history, history.rates.value, report.target)
              && |report.history| > 0
              && PeriodAverage(report.history, today) == Success(report.average)
              && Min(Window(report.history, today)) <= report.average <= Max(Window(report.history, today))
  {
    var base := NormalizeCcy(baseField);
    if base.Failure? {
      return Failure(base.error);
    }
    var target := NormalizeCcy(targetField);
    if target.Failure? {
      return Failure(target.error);
    }
    var days := ParseDays(daysField);
    if days.Failure? {
      return Failure(days.error);
    }
    var conversion := FetchConversion(amount, base.value, target.value, latest);
    if conversion.Failure? {
      return Failure(conversion.error);
    }
    var rates := FetchTimeseries(history, target.value);
    if rates.Failure? {
      return Failure(rates.error);
    }
    var average := PeriodAverage(rates.value, today);
    // The history is never empty here, so the average never divides by zero.
    assert average.Success?;
    return Success(Report(amount, base.value, target.value, conversion.value.converted,
                          conversion.value.rate, days.value, rates.value, average.value));
  }
}
