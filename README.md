# Farm bookkeeping core, modelled in Dafny

This project models the core of a small farm-bookkeeping service. The service
takes an informal Spanish message from a farmer ("hoy vendí 2 kilos de café
a 5.000 cada uno") together with the record an extractor produced from it. It
completes the record, stores it as a `Transaction`, and renders period
reports (weekly, monthly, quarterly, yearly) of income, expenses and profit in
Colombian pesos.

The model has seven modules:

- `Wrappers` holds `Option` and `Result`.
- `Decimal` holds decimal and hexadecimal digit strings, their values and zero padding.
- `Calendar` models the subset of Python's `datetime.date` the core relies on:
  - the proleptic Gregorian calendar, `toordinal` and `weekday`;
  - `date ± timedelta`, with its OverflowError range of ordinals 1 to 3652059;
  - `date(y, m, d)` with its checks;
  - `isoformat` and the strict `YYYY-MM-DD` form of `fromisoformat`.
- `Text` models `str.lower`, `in`, `split`, `join`, `replace` and `strip` on strings.
- `Models` covers the closed vocabularies `ActivityCategory` and `TxnType` and
  the stored `Transaction` row.
- `Reporting` covers the period ranges, the synonym table for period labels,
  peso formatting, the per-type sums, and the five-line report.
- `DailyOps` covers the logging script:
  - date inference from "hoy"/"ayer" and filling a blank date;
  - deriving a missing unit price;
  - forcing the currency and the farm;
  - the lenient coercions `to_int_or_none` and `to_uuid`;
  - the strict vocabulary mapping;
  - the construction of the `Transaction`.

Each Python exception the core can raise becomes an `Err` value:
- `date` out of range: `DateError`.
- An unknown period label: `ReportError.UnsupportedPeriod`, carrying the source's exact message.
- A missing key, a bad date, or an unknown category or type: `LogError`.

The extracted record is a `map<string, Json>`. In it, a JSON float is the exact
real it denotes, and a list or object is known only by its length.

Two parts are imperative, because in the source they work step by step:
- The logging script updates its result dictionary key by key. `CompleteRecord` does the same on a local map, and `LogDailyOps` runs the whole script.
- `_sum_by_type` sums through a grouped SQL query and takes one pre-summed total per type. `SumByType` is a loop over the stored rows that adds the selected totals.

Each of these methods is proved equal to a specification function: `CompleteRecord` to `ForceDefaults(DeriveUnitPrice(FillDate(...)))`, `InferDateFromMessage` to `InferDate`, `LogDailyOps` to `Ingest`, and `SumByType` to `SumOf`. The properties are proved as lemmas about those functions.

On these points the model follows the code:
- Titles are the Spanish ones ("Reporte semanal", ...).
- An unknown label is a `ValueError` with the message "Periodo no soportado. Usa: semanal | mensual | quarter | año".
- A price counts as absent when it is `None` or "null". An empty string is present.
- A negative amount renders as `-150.000 COP`: Python's `f"{n:,}"` puts the sign before the grouped digits, and the dots cannot collide with it.

## Model

| member | source | states |
|---|---|---|
| Models.CategoryFromValue | app/db/models.py:19-26 | `ActivityCategory(s)`: the member whose stored string is exactly `s`; none exactly when no member has that string |
| Models.CategoryVocabulary | app/db/models.py:19-26 | seven categories, each listed once, with pairwise distinct strings; every category's string reads back as that category |
| Models.TypeFromValue | app/db/models.py:29-31 | `TxnType(s)` succeeds exactly for "ingreso" and "gasto", and the member's string is `s` |
| Calendar.Shift | app/reporting.py:19-20 | `date ± timedelta(days=n)`: defined exactly when the resulting ordinal lies in 1..3652059 (OverflowError otherwise), and moves the ordinal by exactly `n` |
| Calendar.MakeDate | app/reporting.py:27 | `date(y, m, d)` succeeds exactly for a real day in years 1..9999, and gives that day |
| Calendar.IsLeapYear | app/reporting.py:24-30 | no contract of its own: the Gregorian rule `date` uses (every fourth year, except centuries not divisible by 400); it is checked against Python's calendar by OrdinalOfLast |
| Calendar.DaysInMonth | app/reporting.py:24-30 | every month has 28 to 31 days; that the next month starts the day after a month's last day is stated by NextDay and EndBefore |
| Calendar.Ordinal | app/reporting.py:19-20 | no contract of its own: `toordinal()`; its meaning is stated by FirstDayIsMonday, NextDay, OrdinalOfLast, OrdinalOrder and OrdinalInRange |
| Calendar.OrdinalOfLast | app/reporting.py:19-20 | 9999-12-31 is day 3652059, as `date.max.toordinal()` is in Python: the leap-year rule and the month lengths add up to Python's calendar |
| Calendar.NextDay | app/reporting.py:20 | the day after a real day is a real day whose ordinal is one more: consecutive days have consecutive ordinals across month and year ends |
| Calendar.Weekday | app/reporting.py:19 | `weekday()` lies in 0..6; FirstDayIsMonday anchors it at 0001-01-01 |
| Calendar.OrdinalOrder | app/reporting.py:93-94 | comparing dates (`<`, `<=`) is comparing their ordinals, both directions |
| Calendar.OrdinalInRange | app/reporting.py:19-20 | a day is representable exactly when its ordinal lies in 1..3652059 |
| Calendar.FirstDayIsMonday | app/reporting.py:19 | 0001-01-01 has ordinal 1 and weekday 0 (Monday), anchoring `weekday()` |
| Calendar.IsoRoundTrip | app/logDailyOpsData.py:135 | `fromisoformat(d.isoformat()) == d` for every representable day |
| Calendar.IsoCanonical | app/logDailyOpsData.py:135 | a string `fromisoformat` accepts is exactly the `isoformat` of the day it gives |
| Calendar.Iso | app/reporting.py:115 | `isoformat()` is ten characters, dashes at positions 4 and 7 and digits elsewhere; IsoRoundTrip states that it reads back |
| Calendar.ParseIsoDate | app/logDailyOpsData.py:135 | a day `fromisoformat` gives is representable; IsoRoundTrip and IsoCanonical state that it inverts `isoformat` |
| Reporting.WeekRange | app/reporting.py:17-21 | start is the Monday of `d`'s week (weekday 0, ordinal of `d` minus its weekday), end six days later, `d` inside; OverflowError exactly when that Sunday is past 9999-12-31 |
| Reporting.EndBefore | app/reporting.py:30 | the day before the next month's first day is the last day of this month; it fails exactly when the next month's year is out of range |
| Reporting.MonthRange | app/reporting.py:24-31 | first to last calendar day of `d`'s month, rolling December into the next January; fails exactly for December 9999 |
| Reporting.QuarterRange | app/reporting.py:34-46 | the quarter starts in month 1, 4, 7 or 10 and holds `d`'s month; it runs to the last day of its third month; fails exactly for October-December 9999 |
| Reporting.YearRange | app/reporting.py:49-50 | exactly January 1 to December 31 of `d`'s year, holding `d`, the day after the end being next January 1 |
| Reporting.RangeHoldsReference | app/reporting.py:61-70 | every period kind's range consists of representable days and holds the reference date |
| Reporting.WeekAfterWeek | app/reporting.py:17-21 | the day after a week's Sunday starts the next week's range |
| Reporting.NextRangeStartsAfterEnd | app/reporting.py:17-50 | for every period kind, the day after a range's end is the start of the next range (or lies in year 9999 where the next range overflows): ranges tile the calendar |
| Reporting.WeekIsStable | app/reporting.py:17-21 | every day of a week range has that same week range |
| Reporting.RangeIsStable | app/reporting.py:17-50 | for every period kind, every day inside a range maps to that same range |
| Reporting.WeekExample | app/reporting.py:17-21 | Wednesday 2024-05-15 lies in the week 2024-05-13 to 2024-05-19 |
| Reporting.MonthExample | app/reporting.py:24-31 | December 2024 runs from 2024-12-01 to 2024-12-31 |
| Reporting.QuarterExamples | app/reporting.py:34-46 | 2024-05-15, 2023-12-31 and 2024-11-01 fall in the quarters (04-01, 06-30), (10-01, 12-31), (10-01, 12-31) |
| Reporting.RangeOf | app/reporting.py:63-70 | no contract of its own: the dispatch from a period kind to its range function; its meaning is stated by RangeHoldsReference, RangeIsStable and NextRangeStartsAfterEnd |
| Reporting.PeriodOf | app/reporting.py:62-70 | no contract of its own: the synonym table, shared with `_title` (lines 75-83); its meaning is stated by PeriodOfIgnoresCase, GetRange and TitleAgreesWithGetRange |
| Reporting.PeriodOfIgnoresCase | app/reporting.py:61-70 | labels are matched on their lower-case form, so the case does not matter; "SEMANAL", "Month", "Quarter" and "AÑO" are recognised and "decada" is not |
| Reporting.GetRange | app/reporting.py:61-71 | refused with the exact ValueError message exactly when the label is not in the synonym table; otherwise the label's kind selects its range function (`RangeOf`): the result is that kind's range for `ref`, and it fails, with that date error, exactly when that range does |
| Reporting.Title | app/reporting.py:74-84 | no contract of its own: `_title`; its meaning is stated by TitleAgreesWithGetRange and TitleIsOneLine |
| Reporting.TitleAgreesWithGetRange | app/reporting.py:74-84 | `_title` gives the bare "Reporte" exactly when `get_range` refuses the label |
| Reporting.TitleIsOneLine | app/reporting.py:74-84 | no title holds a line break |
| Reporting.UngroupedGrouped | app/reporting.py:58 | dropping the dots from the grouped digits gives the digits back: grouping loses nothing |
| Reporting.GroupedShape | app/reporting.py:58 | grouping puts a dot exactly at every fourth position from the right and digits everywhere else, keeping the leading digit |
| Reporting.FormatCop | app/reporting.py:53-58 | no contract of its own: `_format_cop`; its meaning is stated by FormatCopMeaning, with UngroupedGrouped and GroupedShape about the grouping |
| Reporting.FormatCopMeaning | app/reporting.py:53-58 | the rendered text reads back as the amount (`None` as 0). It ends in " COP", starts with `-` exactly for a negative amount, groups the digits in threes, shows exactly the digits of the magnitude (no leading zeros) and holds no line break |
| Reporting.FormatCopExamples | app/reporting.py:53-58 | `None` gives "0 COP", 1234567 "1.234.567 COP", 400000 "400.000 COP", -150000 "-150.000 COP" |
| Reporting.SumOf | app/reporting.py:89-97 | no contract of its own: `coalesce(sum(total_value), 0)` over the farm's rows of one type within the range; its meaning is stated by SumOfAppend, UnselectedRowIgnored and SumOfNoneSelected |
| Reporting.SumOfAppend | app/reporting.py:89-97 | the per-type sum over two batches of rows is the sum of their sums |
| Reporting.UnselectedRowIgnored | app/reporting.py:91-96 | a row of another farm, outside the range or of the other type does not change the sum |
| Reporting.SumOfNoneSelected | app/reporting.py:90 | with no row selected the sum is 0 (`coalesce(..., 0)`) |
| Reporting.SumByType | app/reporting.py:87-105 | the loop over the rows returns the income and the expense sums of the farm's rows within the range |
| Reporting.ReportLines | app/reporting.py:115-123 | no contract of its own: the five lines of the f-string; their meaning is stated by NoNewlineInLines, ReportSplits and ReportAmounts |
| Reporting.RenderReport | app/reporting.py:117-123 | no contract of its own: the lines joined by line breaks; ReportSplits states that splitting gives the five lines back |
| Reporting.NoNewlineInLines | app/reporting.py:115-123 | none of the five report lines holds a line break |
| Reporting.ReportSplits | app/reporting.py:117-123 | splitting the report text at line breaks gives exactly the five lines: title, range, income, expense, profit |
| Reporting.ReportAmounts | app/reporting.py:110-122 | the income, expense and profit lines read back as income, expense and income minus expense |
| Reporting.NetLineExample | app/reporting.py:111-122 | 700000 in and 300000 out give "Total Ganancias = 400.000 COP" |
| Reporting.BuildTextReport | app/reporting.py:108-124 | fails exactly when `get_range` fails, with its error; otherwise the text splits into the five lines for the label's title, its range and the farm's sums over it |
| DailyOps.InferDate | app/logDailyOpsData.py:30-36 | "hoy" gives today's date; otherwise "ayer" gives the day before (OverflowError on 0001-01-01); neither gives none. Matching is on the lower-cased message |
| DailyOps.InferDateFromMessage | app/logDailyOpsData.py:30-36 | the script's steps compute exactly `InferDate` |
| DailyOps.Normalize | app/logDailyOpsData.py:30-101 | no contract of its own: the completed record, failing only where inferring the date overflows; its meaning is stated by CompleteRecord, NormalizeKeepsOthers, NormalizedPrice, UnitPriceKept and NoPriceWithoutQuantityAndTotal |
| DailyOps.FillDate | app/logDailyOpsData.py:89-90 | a date that is `None`, "" or "null" is replaced by the inferred date or by today; any other date is left alone |
| DailyOps.Quotient | app/logDailyOpsData.py:95-98 | `round(total / qty, 2)` is within 0.005 of the quotient when both are numbers, and `None` where `/` raises |
| DailyOps.Round2 | app/logDailyOpsData.py:96 | the value is within 0.005 of its input and a whole number of hundredths |
| DailyOps.DeriveUnitPrice | app/logDailyOpsData.py:92-98 | only `unit_price` may change, and only when it is missing and quantity and total are nonzero; every other key is unchanged |
| DailyOps.ForceDefaults | app/logDailyOpsData.py:100-101 | currency becomes "COP" and the farm the default farm's text; every other key is unchanged |
| DailyOps.CompleteRecord | app/logDailyOpsData.py:89-101 | the script's key-by-key updates of the record equal fill-date, then derive-price, then force-defaults |
| DailyOps.NormalizeKeepsOthers | app/logDailyOpsData.py:89-101 | completing the record leaves every key other than date, unit_price, currency and farm_id exactly as extracted, including its absence |
| DailyOps.NormalizedPrice | app/logDailyOpsData.py:92-98 | the completed unit price is the rounded quotient when it was missing and quantity and total are nonzero; otherwise it is the extracted one |
| DailyOps.UnitPriceKept | app/logDailyOpsData.py:94 | a unit price that is present is never recomputed; an empty-string price is stored as absent |
| DailyOps.NoPriceWithoutQuantityAndTotal | app/logDailyOpsData.py:94 | with no (or zero) quantity or total, the unit price stays as extracted |
| DailyOps.RoundHalfEven | app/logDailyOpsData.py:111 | `round(x)` is within 0.5 of `x` and even on a tie |
| DailyOps.RoundHalfEvenUnique | app/logDailyOpsData.py:111 | any integer within 0.5 of `x` that is even on a tie is `round(x)` |
| DailyOps.ParseIntText | app/logDailyOpsData.py:111 | `float(str(n)) == n` for every integer, reading `float` as exact; Python agrees for magnitudes up to 2^53 (see Left out) |
| DailyOps.ToIntOrNone | app/logDailyOpsData.py:107-113 | none exactly for `None`, "null", "" and what `float` refuses; otherwise an integer within 0.5 of the number, reading `float` as exact (see Left out for the double rounding and overflow this omits) |
| DailyOps.ToIntOrNoneWhole | app/logDailyOpsData.py:107-113 | a whole number passes through unchanged as an int, a float or its text, reading `float` as exact; Python agrees for magnitudes up to 2^53 (see Left out) |
| DailyOps.ToIntOrNoneRounds | app/logDailyOpsData.py:111 | "2.5" gives 2 and 3.5 gives 4 (ties to even), `True` gives 1 |
| DailyOps.ToIntOrNoneRefuses | app/logDailyOpsData.py:108-113 | "abc", "null" and a list give none |
| DailyOps.ParseUuidText | app/logDailyOpsData.py:119 | `uuid.UUID(str(u)) == u` for every 128-bit value |
| DailyOps.ToUuid | app/logDailyOpsData.py:115-121 | a falsy value gives none; a non-empty string is `uuid.UUID` of it, a nonzero int `uuid.UUID` of its text; a float, list or object gives none; any result is a 128-bit value |
| DailyOps.ToUuidOfText | app/logDailyOpsData.py:115-121 | the canonical text of a UUID converts back to it |
| DailyOps.DefaultFarmTextReadsBack | app/logDailyOpsData.py:101 | the forced farm text is the canonical text of the UUID with value 1 and converts back to it |
| DailyOps.MapActivity | app/logDailyOpsData.py:123-125 | accepts exactly the seven stored category strings, giving the member with that string; anything else is refused with the value |
| DailyOps.MapType | app/logDailyOpsData.py:127-128 | accepts exactly "ingreso" and "gasto"; anything else is refused with the value |
| DailyOps.Lookup | app/logDailyOpsData.py:134-137 | `result[key]` gives the value exactly when the key is present, and a missing-field error naming it otherwise |
| DailyOps.ParseDateField | app/logDailyOpsData.py:135 | only a string `fromisoformat` accepts gives a date, and that string is the date's `isoformat` |
| DailyOps.BuildTransaction | app/logDailyOpsData.py:133-146 | succeeds exactly when farm_id, date, activitycategory and type are present, the date parses and both vocabularies accept; the stored date, category and type are the record's own |
| DailyOps.BuiltIdentifiers | app/logDailyOpsData.py:134-144 | the farm is `to_uuid` of the record's farm id, or the default farm when that gives none; the source-message id is exactly `to_uuid` of the record's value; canonical ids are kept as they are |
| DailyOps.BuiltTexts | app/logDailyOpsData.py:138-140 | a string description is stored as it is; a non-empty string unit is stored as it is, and a falsy unit as absent (`or None`) |
| DailyOps.BuiltCurrency | app/logDailyOpsData.py:143 | a falsy currency becomes "COP"; a non-empty string currency is kept |
| DailyOps.BuiltNumbers | app/logDailyOpsData.py:139-142 | quantity, unit price and total are the record's values through `to_int_or_none` |
| DailyOps.Ingest | app/logDailyOpsData.py:30-146 | no contract of its own: the completed record built into a `Transaction`; its meaning is stated by LogDailyOps, DefaultsSurvive, BlankDateInferred, PresentDateKept, UnknownVocabularyRefused, VocabularyIsExact and the unit-price lemmas |
| DailyOps.LogDailyOps | app/logDailyOpsData.py:30-146 | the script computes `Ingest`, and a stored transaction is always in COP for the default farm |
| DailyOps.DefaultsSurvive | app/logDailyOpsData.py:100-143 | every transaction built from a completed record is in COP and belongs to the default farm |
| DailyOps.BlankDateInferred | app/logDailyOpsData.py:89-90 | with a blank date, the stored date is today when the message says "hoy" or has no cue, and the day before when it says only "ayer" |
| DailyOps.PresentDateKept | app/logDailyOpsData.py:89-90 | a date given by the extractor is stored as given, and one `fromisoformat` refuses makes the whole call fail |
| DailyOps.UnknownVocabularyRefused | app/logDailyOpsData.py:136-137 | a category that is none of the seven stored strings, or a type that is neither "ingreso" nor "gasto", makes the call fail: it is never coerced |
| DailyOps.VocabularyIsExact | app/logDailyOpsData.py:123-128 | the stored category and type are exactly the extracted strings |
| DailyOps.QuotientOfMultiple | app/logDailyOpsData.py:96 | a total that is a multiple of the quantity divides exactly |
| DailyOps.UnitPriceDivides | app/logDailyOpsData.py:94-141 | with no unit price and integer quantity and total that divide exactly, the stored unit price is their quotient |
| DailyOps.UnitPriceExample | app/logDailyOpsData.py:94-141 | 2 units for a total of 10000 store a unit price of 5000 |
| DailyOps.PriceNearQuotient | app/logDailyOpsData.py:96-141 | a derived price, rounded to cents and then to an integer, lies within 0.505 of total / quantity |
| DailyOps.UnitPriceNearQuotient | app/logDailyOpsData.py:94-141 | whenever the price is derived, the stored unit price is present and within 0.505 of total / quantity |

## Left out

- The call to the language model, its prompts and the JSON decoding: the model starts from the decoded record, which may hold anything.
- The database session, SQLAlchemy, the table's `id` (`uuid4`) and `created_at` (`NOW()`) columns, `db.add`/`flush`, and printing. The store is a sequence of `Transaction` rows. The grouped SQL query of `_sum_by_type` is modelled as a scan over those rows that adds up the selected totals.
- `date.today()` is ambient state; it is a parameter `today` wherever it is used.
- Binary floating point: JSON floats are exact reals, so `total / qty` and `round(x, 2)` are exact. Their results can differ from IEEE doubles in the last place, so `Round2` states a bound rather than Python's exact double.
- DailyOps.ParseDecimal: covers `float(s)` only for an optional sign, digits and at most one point. Exponents, "inf", "nan", surrounding whitespace, underscores and non-ASCII Unicode decimal digits (such as "٥") are not modelled; those strings give none here.
- DailyOps.ParseUuid: `uuid.UUID` also accepts what `int(hex, 16)` tolerates in the 32 remaining characters, such as `_` between digits or a leading `+`. This is not modelled; such strings give none here.
- DailyOps.ToUuid: for a float, list or object, `str(x)` is not built. These give none, because such a text never cleans to 32 hex digits: a float's text is too short, a list's keeps its brackets and an object's keeps its spaces. `True` is parsed as the text "True".
- DailyOps.BuildTransaction: `description`, `unit` and `currency` are text columns, and the model does not follow the driver's own conversion of other values. A non-string `description` is stored as absent. A truthy non-string `unit` is stored as absent, although the source passes it on (`result.get("unit") or None`). A truthy non-string `currency` is stored as "COP", although the source passes it on (`result.get("currency") or "COP"`). Currency is forced to "COP" before this step, so the last case cannot arise in the script.
- DailyOps.ToIntOrNone, DailyOps.ParseIntText, DailyOps.ToIntOrNoneWhole, DailyOps.FloatOf, DailyOps.NumberOf: `float(x)` on an int or on numeric text is exact and always defined here. Python rounds integers above 2^53 to the nearest double: `to_int_or_none(9007199254740993)` is 9007199254740992 there, and `float(str(n)) == n` fails. Beyond about 1.8e308, `float(n)` and `total / qty` raise OverflowError, so the source yields `None` (lines 97-98 and 112-113 of the script) where the model yields the exact value. The NaN and Infinity that `json.loads` accepts are not values of `Json`.
- Models.Transaction: `quantity`, `unit_price` and `total_value` are 32-bit `Integer` columns. The database refuses values outside -2^31..2^31-1 when the row is flushed; the model keeps them as unbounded `int` and does not model that failure.
- Text.LowerChar: lowers ASCII and the Latin-1 capitals only. Other Unicode case mappings are not modelled.
- Calendar.ParseIsoDate: only `YYYY-MM-DD`. The wider forms accepted by `fromisoformat` since Python 3.11 are not modelled.
- The script's module-level demo code is not modelled: the fixed sample message, the loading of environment variables, `create_tables()` and the four report prints at the end.
