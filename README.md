# Expense controller model

This project models the expense controller of a small expense-tracking REST backend (an
Express/Mongoose application). The controller has five handlers:

- create an expense, with an optional receipt file;
- list expenses with a filter and a sort order;
- get one expense by id;
- update an expense;
- delete an expense.

The modelled core is the listing handler's **query builder** and the **record rules** of the
create, update and delete handlers.

- The query builder turns four optional query-string tokens (`category`, `search`,
  `timeframe`, `sortBy`) into the filter object and the sort object passed to
  `Expense.find(filter).sort(sortOptions)`. Both are modelled as maps from field name to value,
  like the JavaScript objects they are. The clock reading `now` is a parameter.
- The timeframe ranges are built with JavaScript's `new Date(year, monthIndex, day)`. The model
  reproduces that constructor's normalisation on calendar dates (`JsDate.NewDate`):
  - a month index outside 0..11 carries into the year (-1 is December of the year before);
  - the day counts from the first of the month (day 0 is the last day of the previous month);
  - a year from 0 to 99 is read as 1900 + year.

  `NewDate` is proved to equal the ECMAScript definition: the day `d - 1` days after the first
  of the folded month. It is stated on a Gregorian day number (`Calendar`), which includes
  leap-year Februaries.
- The handlers are methods of a class `ExpenseStore` whose field `expenses: map<Id, Expense>`
  stands for the document collection. `save`, `findById`, `findByIdAndUpdate` and
  `findByIdAndDelete` become map operations. Each method states the whole new store:
  - a missing id leaves the store unchanged;
  - otherwise only the record under that id changes or goes.

Modules: `Options` (optional values and JavaScript truthiness), `Calendar`, `JsDate`,
`ExpenseQuery` (the listing handler) and `ExpenseHandlers` (create, get, update, delete).

The service's intended behaviour is a newest-first default sort, a case-insensitive substring
search, ranges that include their whole last day, and a receipt that is kept across updates
without a file. In four places the code does something else, and the model follows the code:

- An absent `sortBy` gives an empty sort object, not the default newest-first order. The
  default `expenseDate: -1` applies only to a present, unrecognised token
  (`ExpenseQuery.BuildSort`, `ExpenseQuery.SortDefault`).
- `search` is passed to the store as a case-insensitive regular expression, not as a literal
  substring. The model records the pattern and the `"i"` flag and gives them no meaning.
- The end of every range is midnight at the start of the last day. So `$lte` admits only
  the very first instant of that day, not the whole day. The model works on calendar days:
  it says which day each bound falls on and makes no claim about times of day.
- An update without a file, of a record whose stored receipt is null or empty, takes a
  `receipt` field sent in the body as it is, even `""`. A stored receipt is protected only when
  it is non-empty (`ExpenseHandlers.Updated`).

## Model

| member | source | states |
|---|---|---|
| Calendar.DaysInMonth | controllers/expenseController.js:56 | month lengths are 28..31; 31 exactly for Jan, Mar, May, Jul, Aug, Oct, Dec; 30 exactly for Apr, Jun, Sep, Nov; February has 29 days exactly in a Gregorian leap year |
| Calendar.PrevMonth | controllers/expenseController.js:59 | the month before a month stays in 0..11, and the month after it is the original month (January rolls back to December of the year before) |
| Calendar.NextMonth | controllers/expenseController.js:56 | months 0..10 step to the next month of the same year, and December rolls over to January of the next year |
| Calendar.YearStep | controllers/expenseController.js:56 | 1 January of the next year is exactly 365 or 366 (leap year) days after 1 January of this one |
| Calendar.MonthStep | controllers/expenseController.js:56 | the first of the next month is the first of this month plus this month's length, across the year boundary too |
| Calendar.YearsApart | controllers/expenseController.js:72 | New Year's days of later years have day numbers at least 365 per year higher |
| Calendar.MonthsApart | controllers/expenseController.js:64-65 | within one year, each month's days come before the next month's first day |
| Calendar.DayNumberOrder | controllers/expenseController.js:81 | on valid dates, calendar order coincides with day-number order, and equal day numbers mean equal dates (the basis for comparing range bounds) |
| Calendar.DayNumberBefore | controllers/expenseController.js:81 | a valid date strictly before another has a strictly smaller day number |
| JsDate.ConstructorYear | controllers/expenseController.js:55 | the Date constructor takes a year literally unless it is 0..99, which reads as 1900 + year |
| JsDate.StepBack | controllers/expenseController.js:56 | resolving a day count of 0 or less (month by month backwards) always yields a valid date |
| JsDate.StepForward | controllers/expenseController.js:69 | resolving a day count beyond the month's length (month by month forwards) always yields a valid date |
| JsDate.Normalize | controllers/expenseController.js:55-74 | folding any month index and any day into a date always yields a valid date |
| JsDate.NewDate | controllers/expenseController.js:55-74 | `new Date(y, m, d)` read back through getFullYear/getMonth/getDate is always a valid date |
| JsDate.StepBackDayNumber | controllers/expenseController.js:56 | walking back lands on the day number of day `d` of the starting month, counted backwards past its first |
| JsDate.StepForwardDayNumber | controllers/expenseController.js:69 | walking forward lands on the day number of day `d` of the starting month, counted past its end |
| JsDate.NormalizeDayNumber | controllers/expenseController.js:55-74 | the normalised date is day `d - 1` after the first of month `m mod 12` of year `y + floor(m / 12)`, as ECMAScript's MakeDay defines it |
| JsDate.NormalizeUnique | controllers/expenseController.js:55-74 | a valid date equals the normalised one exactly when it has that day number, so there is exactly one result |
| JsDate.NormalizeExisting | controllers/expenseController.js:69 | an existing date is left unchanged (`new Date(y, 11, 31)` is 31 December of `y`) |
| JsDate.NormalizeFirst | controllers/expenseController.js:55 | day 1 is the first of the folded month |
| JsDate.NormalizeLast | controllers/expenseController.js:60 | day 0 is the last day of the month before the folded month |
| JsDate.LastOfMonth | controllers/expenseController.js:56 | month index `m + 1`, day 0 is the last day of month `m`, in December too |
| ExpenseQuery.TimeframeRange | controllers/expenseController.js:49-83 | a range is produced exactly for the five recognised tokens, and both its bounds are valid dates; any other token gives none |
| ExpenseQuery.BuildFilter | controllers/expenseController.js:41-88 | the filter has only the keys category, expenseDate and description; category is present iff the token is non-empty and not "all", and then equals it exactly; expenseDate is present iff the timeframe token is recognised, and then holds that range; description is present iff search is non-empty, and then holds the pattern with the "i" flag |
| ExpenseQuery.BuildSort | controllers/expenseController.js:91-109 | the sort object is empty iff sortBy is absent or empty; otherwise it has exactly one key, expenseDate or amount, with direction -1 or 1 |
| ExpenseQuery.ThisMonthRange | controllers/expenseController.js:54-57 | thisMonth runs from day 1 to the last day (28/29/30/31) of now's month |
| ExpenseQuery.LastMonthRange | controllers/expenseController.js:58-61 | lastMonth runs from day 1 to the last day of the month before now's; in January both bounds are in December of the year before |
| ExpenseQuery.ThisQuarterRange | controllers/expenseController.js:62-66 | thisQuarter runs from day 1 of month `month / 3 * 3` to the last day of the month two later |
| ExpenseQuery.QuarterBounds | controllers/expenseController.js:64-65 | for each quarter's first month, the two constructor calls give that month's first and the quarter's last day |
| ExpenseQuery.ThisYearRange | controllers/expenseController.js:67-70 | thisYear runs from 1 January to 31 December of now's year |
| ExpenseQuery.LastYearRange | controllers/expenseController.js:71-74 | lastYear runs from 1 January to 31 December of the year before now's |
| ExpenseQuery.RangeWellFormed | controllers/expenseController.js:49-83 | every recognised token gives a range of whole months with start not after end; for thisMonth, thisQuarter and thisYear the range contains now's date |
| ExpenseQuery.RangeLength | controllers/expenseController.js:49-83 | the ranges span exactly the month's length, 365/366 days for the years, 90 to 92 days for a quarter, 28 to 31 days for last month |
| ExpenseQuery.QuarterContainsNow | controllers/expenseController.js:62-66 | both quarter bounds are in now's year and in now's quarter, with the end two months after the start |
| ExpenseQuery.TwoDigitYear | controllers/expenseController.js:72-73 | in clock year 100, lastYear passes 99 to the constructor and selects 1999 |
| ExpenseQuery.NoDateConstraint | controllers/expenseController.js:75-82 | an absent or unrecognised timeframe adds no date constraint |
| ExpenseQuery.ConstraintsIndependent | controllers/expenseController.js:41-109 | each filter entry depends only on its own token, so adding or changing one never alters another |
| ExpenseQuery.EmptyLikeAbsent | controllers/expenseController.js:44-92 | an empty token is treated exactly like an absent one |
| ExpenseQuery.SortTable | controllers/expenseController.js:92-108 | a present token sorts by amount exactly for amountDesc and amountAsc, ascending exactly for dateAsc and amountAsc, and always by exactly one key |
| ExpenseQuery.SortDefault | controllers/expenseController.js:106-107 | any other present token gives the same sort as `date`: expenseDate descending |
| ExpenseHandlers.UploadPath | controllers/expenseController.js:17 | the receipt path is "/uploads/" followed by the file's original name |
| ExpenseHandlers.NewReceipt | controllers/expenseController.js:17 | a new record's receipt is null exactly when no file is uploaded, and otherwise the non-empty upload path |
| ExpenseHandlers.NewRecord | controllers/expenseController.js:13-27 | a created record carries the submitted fields unchanged and the receipt derived from the file |
| ExpenseHandlers.ApplyUpdate | controllers/expenseController.js:153-157 | an update keeps the record's id; each field present in the update data replaces the stored one, and each absent field is kept |
| ExpenseHandlers.Updated | controllers/expenseController.js:135-157 | a supplied file sets the receipt to its path; without a file a truthy existing receipt is kept; without either, a receipt sent in the body is taken; every other sent field replaces the stored one and unsent fields are kept |
| ExpenseHandlers.ExpenseStore.Create | controllers/expenseController.js:11-35 | a fresh id stores exactly the new record under that id; a colliding id fails and changes nothing; every record stays under its own id |
| ExpenseHandlers.ExpenseStore.GetById | controllers/expenseController.js:121-130 | not-found exactly when the id is missing, and otherwise the stored record |
| ExpenseHandlers.ExpenseStore.Update | controllers/expenseController.js:133-164 | a missing id gives not-found and leaves the store unchanged; otherwise only that id's record changes, to the merged record |
| ExpenseHandlers.ExpenseStore.Delete | controllers/expenseController.js:167-183 | a missing id gives not-found and leaves the store unchanged; otherwise exactly that id is removed |
| ExpenseHandlers.CreateReceipt | controllers/expenseController.js:13-17 | a created record has a receipt iff a file came with it, and a receipt field in the body is ignored |
| ExpenseHandlers.UpdateIdempotent | controllers/expenseController.js:133-157 | repeating an update with the same body and file changes nothing more |
| ExpenseHandlers.EmptyUpdate | controllers/expenseController.js:135-157 | an update with an empty body and no file leaves the record unchanged |
| ExpenseHandlers.UpdateAll | controllers/expenseController.js:133-157 | a sequence of updates without files keeps the record's id |
| ExpenseHandlers.ReceiptSurvives | controllers/expenseController.js:148-151 | once set, a receipt survives any sequence of updates without a file |
| ExpenseHandlers.Lifecycle | controllers/expenseController.js:11-183 | create, then get, returns the created record; after delete, get returns not-found and the store is as before |
| ExpenseHandlers.DeleteTwice | controllers/expenseController.js:167-183 | a second delete of the same id finds nothing and removes nothing more |

## Left out

- The database connection and configuration (`db.js`): connection setup, environment loading and logging, with no logic.
- The upload middleware and its export (controllers/expenseController.js:5-8, 186): the middleware is reduced to an optional `Upload` carrying the original file name. No file bytes are stored.
- Evaluating a filter or a sort over the stored documents: that is the document store's work. The model produces the filter and sort objects and stops there.
- HTTP status codes, JSON bodies, console logging: handler outcomes are a `Result` (`Ok`, `NotFound`, `Failed`) instead.
- Persistence errors and their 500 responses, except a colliding id at insert. This covers connection failures and validation or cast errors. The schema (`models/Expense.js`) is not part of this model, so field casting and required-field validation are not modelled either. Form fields stay strings.
- Ids the object mapper cannot cast (a malformed id in the URL makes `findById` throw and the handler answer 500). In the model every id is a well-formed key. The fresh id of a created record is a parameter, standing for the generator.
- Query parameters given more than once, or in bracket form: these arrive as arrays or objects rather than strings. Every token is modelled as an optional string.
- Keys of the update body other than the seven record fields. This includes `_id`, whose update the store refuses.
- Times of day, time zones and millisecond time values. Dates are calendar triples taken in the clock's local calendar. The Date range limit (about 275,000 years either side of 1970) is not modelled either.
- Regular-expression semantics of `search`: the pattern is kept as an opaque string.
- Concurrent requests on the same id (last write wins) and a record deleted between the update's lookup and its write.
- ExpenseQuery.ThisMonthRange: stated for a clock year outside 0..99. For years 0..99 the constructor reads the year as 19xx, which `TwoDigitYear` shows for `lastYear`. The same requirement holds for ThisYearRange, ThisQuarterRange, LastMonthRange, RangeWellFormed, RangeLength and QuarterContainsNow; LastYearRange needs the year before now outside 0..99.
