# Global currency calibrator — a verified model of its conversion logic

The program is a desktop currency converter over the Frankfurter rate
service. It reads an amount, two currency codes and a history window from a
form. It asks the service for the converted amount and for the rates of the
last days. It writes the conversion and the period average of the rate, and
it plots three charts.

This project models the part of that program which is logic rather than I/O,
with the decoded JSON responses and today's date passed in as values:

- `normalize_ccy`: trim, upper-case, accept exactly three letters
  (module `CurrencyCode`, file `currency_code.dfy`);
- the handling of the `/latest` response in `fetch_conversion`: the identity
  shortcut, the missing-rate error and the unit rate `converted / amount`,
  with a zero amount giving NaN, here `None` (module `RateClient`,
  `rate_client.dfy`);
- the handling of the date-range response in `fetch_timeseries`: walk the
  days in ascending order and keep the days that carry the target code,
  failing on a missing `rates` field or an empty result (a method with a
  loop, `RateClient.FetchTimeseries`). It uses Python's string order and
  `sorted`, modelled in module `StringOrder` (`string_order.dfy`);
- the parsing of the history-day field and the period-average rule of
  `CurrencyApp.on_convert`, lifted into functions (module `Aggregation`,
  `aggregation.dfy`);
- the `on_convert` action itself as one method that strings these together
  (module `App`, `app.dfy`).

Rates are Dafny `real`, which is exact. Days are ISO `YYYY-MM-DD` strings, for
which string order is calendar order. In a rate object a JSON number is
`Some(x)` and JSON `null` is `None`. A top-level field that the response does
not have is `None`. The exceptions the program raises are values of
`Errors.Error` carried in a `Result` (`wrappers.dfy`, `errors.dfy`).

Some behaviours of the code are easy to misread. The model follows the code:

- The day field is read by Python's `int`. That accepts a leading `+` or `-`
  and single underscores between digits (`"1_0"` is 10). The model accepts
  the same inputs. "Positive integer" is enforced only by the `days < 1`
  test.
- When the codes agree, the rate is 1.0 even for a zero amount. Only the
  computed path gives NaN.
- Text is cleared after the first request and before the second. So a
  failing second request leaves half-written output. This is screen
  sequencing and is not modelled.

## Model

| member | source | states |
|---|---|---|
| `StringOrder.Less` | global_currency_calibrator.py:62 | Python's `<` on `str`: code point by code point, a proper prefix first |
| `StringOrder.LessIrreflexive` | global_currency_calibrator.py:62 | no day key sorts before itself |
| `StringOrder.LessAsymmetric` | global_currency_calibrator.py:62 | two keys are never each below the other |
| `StringOrder.LessTransitive` | global_currency_calibrator.py:62 | Python's string order is transitive |
| `StringOrder.LessTotal` | global_currency_calibrator.py:62 | any two different keys are ordered one way or the other |
| `StringOrder.Insert` | global_currency_calibrator.py:62 | inserting a new key into an ascending list keeps it strictly ascending, adds exactly that key and grows the list by one |
| `StringOrder.Sorted` | global_currency_calibrator.py:62 | `sorted(keys)` returns each key of the set, only those, in strictly ascending order |
| `StringOrder.AscendingUnique` | global_currency_calibrator.py:62 | two strictly ascending lists with the same keys are equal, so the sorted order is unique |
| `StringOrder.IsoDateExample` | global_currency_calibrator.py:62 | ISO dates sort chronologically: 2025-09-30 before 2025-10-01, and 2025-10-20 not before 2025-10-02 |
| `CurrencyCode.IsSpace` | global_currency_calibrator.py:116 | `isspace()` on ASCII, the set `strip()` removes: tab, line feed, vertical tab, form feed, carriage return, the separators 0x1C to 0x1F, and the space |
| `CurrencyCode.IsLetter` | global_currency_calibrator.py:117 | `isalpha()` on ASCII: `a` to `z` and `A` to `Z` |
| `CurrencyCode.UpperChar` | global_currency_calibrator.py:116 | upper-casing turns letters into upper-case letters, maps each lower-case letter to the upper-case letter at the same alphabet position, and leaves upper-case letters and non-letters alone |
| `CurrencyCode.Upper` | global_currency_calibrator.py:116 | `upper()` keeps the length and upper-cases each character in place |
| `CurrencyCode.LeadingBlanks` | global_currency_calibrator.py:116 | counts the leading whitespace: all counted characters are whitespace and the next one is not |
| `CurrencyCode.TrimRight` | global_currency_calibrator.py:116 | the result is a prefix ending in a non-space, and everything removed is whitespace |
| `CurrencyCode.Strip` | global_currency_calibrator.py:116 | `strip()` returns the infix after the leading blanks; it has no whitespace at either end and only whitespace follows it |
| `CurrencyCode.StripPadded` | global_currency_calibrator.py:116 | blank padding around a string with non-blank ends is exactly what strip removes |
| `CurrencyCode.StripUntrimmed` | global_currency_calibrator.py:116 | a string without whitespace at its ends strips to itself |
| `CurrencyCode.StripBlank` | global_currency_calibrator.py:173 | a whitespace-only string strips to the empty string |
| `CurrencyCode.StripIdempotent` | global_currency_calibrator.py:116 | stripping twice equals stripping once |
| `CurrencyCode.NormalizeCcy` | global_currency_calibrator.py:115-119 | succeeds exactly when the stripped input is three letters; then returns three upper-case letters, each the upper case of the stripped input's; otherwise fails with the invalid-code error naming the input |
| `CurrencyCode.NormalizeCode` | global_currency_calibrator.py:116-119 | a well-formed upper-case code is returned unchanged |
| `CurrencyCode.NormalizeIdempotent` | global_currency_calibrator.py:116-119 | normalizing a successful result again returns the same code |
| `CurrencyCode.NormalizePadded` | global_currency_calibrator.py:116-119 | three letters in any case with any blank padding normalize to their upper-case form |
| `CurrencyCode.NormalizeExample` | global_currency_calibrator.py:115-119 | "usd " gives "USD" |
| `CurrencyCode.NormalizeRejectExamples` | global_currency_calibrator.py:117-118 | "US" and "US1" are rejected |
| `RateClient.FetchConversion` | global_currency_calibrator.py:15-39 | equal codes give `(amount, 1.0)`; otherwise failure exactly when the target rate is absent or null, with the matching error, and a numeric target rate always succeeds; converted is the returned rate value; a nonzero amount gives a rate with `rate * amount == converted`; a zero amount gives NaN |
| `RateClient.IdentityIgnoresResponse` | global_currency_calibrator.py:23-24 | with equal codes the result does not depend on the response at all, and the converted amount is the input amount |
| `RateClient.ConversionExample` | global_currency_calibrator.py:32-38 | 100 INR with a returned 1.2 USD gives converted 1.2 and rate 0.012 |
| `RateClient.Days` | global_currency_calibrator.py:191 | the days of a series, in its order |
| `RateClient.Usable` | global_currency_calibrator.py:64-65 | a day is kept when its rate object has a non-null value for the target |
| `RateClient.KeepDay` | global_currency_calibrator.py:61-66 | appending the current day to the kept days keeps them strictly ascending and still below every later day |
| `RateClient.FilterUnique` | global_currency_calibrator.py:61-68 | at most one series meets the filter's promise, so that promise determines the result |
| `RateClient.FetchTimeseries` | global_currency_calibrator.py:58-69 | no `rates` field fails with the timeseries error; otherwise failure exactly when no day carries a number for the target; on success the series is non-empty, strictly ascending, holds exactly the days that carry the target, each with that day's target rate |
| `Aggregation.IsDigitGroups` | global_currency_calibrator.py:174 | the digits `int` accepts: non-empty, ASCII digits and underscores, a digit at both ends, no two underscores in a row |
| `Aggregation.RemoveUnderscores` | global_currency_calibrator.py:174 | never lengthens the literal and leaves no underscore; a single underscore is dropped and any other single character kept; a string without underscores is unchanged |
| `Aggregation.RemoveUnderscoresAppend` | global_currency_calibrator.py:174 | underscore removal distributes over concatenation, so it drops exactly the underscores and keeps the other characters in order |
| `Aggregation.RemoveUnderscoresDigits` | global_currency_calibrator.py:174 | removing the underscores from digit groups leaves only digits |
| `Aggregation.DigitsValue` | global_currency_calibrator.py:174 | the number a run of decimal digits denotes, read most significant digit first |
| `Aggregation.DigitsValueAppend` | global_currency_calibrator.py:174 | positional notation: the value of `a + b` is the value of `a` times 10 to the length of `b`, plus the value of `b` |
| `Aggregation.ParseUnsigned` | global_currency_calibrator.py:174 | the unsigned part of an `int()` literal is read exactly when it is digit groups |
| `Aggregation.ParseUnsignedValue` | global_currency_calibrator.py:174 | unfolds the definition: accepted digit groups read as the number the digits left after removing the underscores denote; the value facts themselves are `ParseUnsignedDigits`, `ParseUnsignedUnderscore` and `ParseShowInt` |
| `Aggregation.DigitGroupsJoin` | global_currency_calibrator.py:174 | two digit groups joined by one underscore are accepted digit groups |
| `Aggregation.ParseUnsignedUnderscore` | global_currency_calibrator.py:174 | an underscore between digit groups is ignored: `a_b` reads as the value of `a` shifted by the digits of `b`, plus the value of `b` |
| `Aggregation.ParseUnsignedDigits` | global_currency_calibrator.py:174 | a plain run of digits reads as the number it denotes |
| `Aggregation.ParseInt` | global_currency_calibrator.py:174 | `int()` succeeds exactly on digit groups with an optional leading `+` or `-`; the value is that of the digit groups, negated after a minus sign; a negative result needs a minus sign |
| `Aggregation.ParseIntUnderscoreExample` | global_currency_calibrator.py:174 | "1_0" reads as 10 |
| `Aggregation.ParseIntSignExamples` | global_currency_calibrator.py:174 | "+7" reads as 7 and "-0" as 0 |
| `Aggregation.ParseIntRejectExamples` | global_currency_calibrator.py:174 | "", "-", "_1", "1_", "1__0" and "12a" are refused |
| `Aggregation.ShowNat` | global_currency_calibrator.py:174 | a natural number is written as a non-empty string of digits |
| `Aggregation.ShowInt` | global_currency_calibrator.py:174 | `str(n)`: a non-empty string that starts with a minus sign exactly when n is negative, and is digits after it |
| `Aggregation.ShowNatValue` | global_currency_calibrator.py:174 | the written digits denote the number they were written from |
| `Aggregation.ParseShowInt` | global_currency_calibrator.py:174 | `int(str(n)) == n` for every integer |
| `Aggregation.ParseDays` | global_currency_calibrator.py:173-176 | a blank field gives 30; every accepted count is at least 1; a non-blank field is accepted exactly when `int` reads it as at least 1, and then it is that number; a field `int` cannot read fails with the not-an-integer error carrying the stripped field, and a count below 1 fails with the below-one error carrying that count |
| `Aggregation.ParseDaysNumber` | global_currency_calibrator.py:173-176 | any integer typed with blank padding is accepted as itself when at least 1 and otherwise rejected as below one |
| `Aggregation.ParseDaysBlankExamples` | global_currency_calibrator.py:173-174 | "" and a whitespace-only field give 30 |
| `Aggregation.ParseDaysZeroExample` | global_currency_calibrator.py:175-176 | "0" is rejected |
| `Aggregation.ParseDaysNegativeExample` | global_currency_calibrator.py:175-176 | "-5" is rejected |
| `Aggregation.ParseDaysPaddedExample` | global_currency_calibrator.py:173-176 | " 45 " gives 45 |
| `Aggregation.Values` | global_currency_calibrator.py:198 | the values of the series, in its order |
| `Aggregation.Sum` | global_currency_calibrator.py:198-202 | `sum` of the values, exact on reals |
| `Aggregation.SumAppend` | global_currency_calibrator.py:198-202 | `sum` adds the values one after another: appending a value adds it to the sum |
| `Aggregation.SumBounds` | global_currency_calibrator.py:200-202 | a sum of n values in [lo, hi] lies in [n·lo, n·hi] |
| `Aggregation.TodayIncluded` | global_currency_calibrator.py:191-196 | the last day of a non-empty series is today; an empty series never includes today |
| `Aggregation.Window` | global_currency_calibrator.py:191-202 | the averaged values are a prefix of the series' values: all but one when the last day is today and there are several days, otherwise all |
| `Aggregation.PeriodAverage` | global_currency_calibrator.py:191-202 | fails with a zero division exactly on an empty series; otherwise the average is the sum of the window divided by its length, and lies between the minimum and the maximum of the averaged values |
| `Aggregation.MeanWithin` | global_currency_calibrator.py:200-202 | the mean of values in [lo, hi] lies in [lo, hi] |
| `Aggregation.MeanBetween` | global_currency_calibrator.py:200-202 | the mean of a non-empty list lies between its minimum and its maximum |
| `Aggregation.AverageIgnoresToday` | global_currency_calibrator.py:191-200 | when today is the last of several days, today's value does not change the average |
| `Aggregation.AverageExamples` | global_currency_calibrator.py:191-202 | {d1:10, d2:20, today:99} averages to 15; {d1:10, d2:20} without today averages to 15; a lone today entry of 99 averages to 99 |
| `App.OnConvert` | global_currency_calibrator.py:168-211 | an invalid base code, then target code, then day field fails with its own error whatever the responses hold; with valid inputs a failed conversion fails with the conversion's error, and then a history without a `rates` field or without a day carrying the target fails with the timeseries error or the no-history error; the run succeeds exactly when the inputs are valid, the conversion succeeds and some day carries the target (within the limits listed under Left out); it never fails by a zero division; a report holds the normalized codes, the day count, the conversion's figures, the filtered history and the period average of that history, which lies between the window's extremes |

## Left out

- HTTP transport: `requests.get`, `raise_for_status`, timeouts, `r.json()` and the network-error branch. These are network I/O. The decoded responses are inputs.
- The query window: `dt.date.today()`, the `timedelta` subtraction and the URL. These are clock I/O and library calls. Today's date is a parameter, and the day count is only validated and reported.
- All plotting through matplotlib: `plot_rate_history`, `plot_today_vs_avg`, `plot_amount_comparison`, `plt.show`. This is presentation through a library the model does not include.
- The Tk window: `CurrencyApp.__init__`, `clear_output`, `_write_line`, the error dialogs and the `:.4f`/`:.6f` text formatting. This is UI work and float formatting. The report carries the figures the text shows.
- The stale, half-written output left when the second request fails. This is screen sequencing, not logic.
- `float()` parsing of the amount field and IEEE float behaviour. The amount is a `real` input; NaN is `None`.
- `CurrencyCode.NormalizeCcy`: only ASCII is modelled. Unicode whitespace, letters and case mappings that change length (such as "ß" to "SS") are outside the model.
- `CurrencyCode.Strip`: only ASCII whitespace is stripped. This also affects the day field, which is stripped the same way before `int` reads it. Unicode whitespace is outside the model.
- `Aggregation.ParseInt`: non-ASCII decimal digits, which Python's `int` also accepts, are not modelled.
- `RateClient.FetchConversion`: a rate given as a JSON string is not modelled. `float` would parse it. Rate values are numbers or `null` only.
- `RateClient.FetchConversion`: a `"rates": null` field in the `/latest` response is treated like a missing field and gives the no-rate error. Python would raise a `TypeError` on the `in` test instead. Both are failures; only the exception kind differs.
- `App.OnConvert`: two failures of the library calls are not modelled. A day count so large that `today - timedelta(days=days)` falls before year 1 raises `OverflowError` in Python; the model has no clock and accepts it. Python's `int` also refuses decimal literals longer than 4300 digits by default; the model reads any length. With such inputs the model succeeds where the program fails.
- `Errors.Error`: the error values carry only the codes, the field and the count that identify each failure. The response dumps that the messages at lines 34 and 59 include are left out, and so is the wording of the messages. `DaysBelowOne` carries the count, which the line-176 message does not show; it is kept so a contract can say which count was refused.
- `RateClient.FetchTimeseries`: three response shapes are not modelled. A `rates` field that is present but not an object, and a day's payload that is not an object, make Python raise on `keys()` or `payload.get`. A day's rate given as a JSON string would be read by `float(val)`. Day payloads are objects and rate values are numbers or `null` only.
