/** The exceptions the converter raises, each as a value. */
module Errors {

  datatype Error =
    /** `normalize_ccy`: the input is not three letters once trimmed and upper-cased. */
    | InvalidCurrencyCode(input: string)
    /** `fetch_conversion`: the response has no rate for the target code. */
    | NoRateReturned(base: string, target: string)
    /** `fetch_conversion`: the target rate is JSON `null`, which `float` refuses. */
    | RateNotNumeric(base: string, target: string)
    /** `fetch_timeseries`: the response has no `rates` field. */
    | TimeseriesFailed
    /** `fetch_timeseries`: no day of the response carries the target code. */
    | NoHistoricalRates
    /** The history-day field is neither blank nor a decimal integer; it
        carries the field after `strip()`, as `int`'s message quotes it. */
    | DaysNotInteger(input: string)
    /** The history-day field is an integer below one. */
    | DaysBelowOne(days: int)
    /** An average over no values. */
    | ZeroDivision
}
