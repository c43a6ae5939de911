# Expense tracker core, modelled in Dafny

The system is a small personal expense tracker. An Express backend keeps
expenses (`gastos`) and monthly spending limits (`limites_gastos`) in MySQL.
A browser page lists the expenses of a month, totals them and warns when
the total passes the month's limit. This project models the rules inside
that plumbing and proves what they guarantee:

- **Installment generator** (`POST /gastos`): validates the request and
  splits `valor` into `parcelas` rows. Every row carries the same rounded
  share and a description marked ` (i+1/N)`. Row `i` falls due `i` months
  after the base date, with JavaScript `Date` overflow (January 31 plus one
  month is March 3, or March 2 in a leap year).
- **Payment reconciler** (`PUT /gastos/pagar/:id`): refuses a non-positive
  payment before the lookup. Then it refuses a payment above
  `valor - valor_pago`. Otherwise it adds the payment and sets `pago` or
  `parcialmente pago`.
- **Tables as in-memory state**: class `Store.Database` holds the two
  tables as maps. `gastos` is keyed by its AUTO_INCREMENT id.
  `limites_gastos` is keyed by its unique key `(usuario_id, mes, ano)`, so
  the limit POST is an upsert. Pay, update and delete touch only the row
  that matches both `id` and `usuario_id`.
- **The page** (`public/script.js`): class `Dashboard.Page` holds the
  module-level variables. `carregarGastos` filters the cache by month and
  sums it in its `forEach`. Beside it are the budget alert, the status
  badge, the overdue mark, the payment dialog's balance and the form checks.

Conventions of the model:

- Money is integer cents. The schema declares `DECIMAL(10,2)`.
- A JSON number the handlers test with `isNaN` is an `Option<int>`.
  `None` means the field is missing or coerces to NaN.
- A field tested for truthiness (`!mes`) is falsy when `None` or `0`.
- The authenticated user id, the current time and the answers of `fetch`
  are parameters.
- Dates are `Calendar.Date(year, month, day)` in local time. The `Date`
  constructor is `Calendar.MakeDate` and `setMonth` is `Calendar.SetMonth`.
  Both normalise through an absolute month index (`Calendar.NormalizeDay`).
  They give `None`, an Invalid Date, when the date lies more than
  100,000,000 days (8.64e15 ms) from 1970-01-01.

Observations the proofs make explicit:

- The page's add form posts `{descricao, valor, vencimento}`. `POST /gastos`
  requires `dia`, `mes` and `ano`, so the backend refuses every such post
  (`Dashboard.ExpenseFormAgainstBackend`). Each side is modelled as written.
- Editing an expense (`PUT /gastos/:id`) neither recomputes the status nor
  keeps `valor_pago <= valor` (`Store.EditCanOverpay`). For that reason
  `0 <= valor_pago <= valor` is not part of `Database.Valid()`. Instead,
  creating, paying and deleting are each proved to preserve it.
- A `parcelas` of 0 or below runs the loop zero times, yet the request
  answers 201 (`Installments.NoRowsForNonPositiveCount` gives the empty
  plan, and `Store.Database.CreateGastos` then answers `Created(false)`).
- When a due date leaves the `Date` time range, `toISOString` throws inside
  the loop and the request answers 500. The inserts issued for the earlier
  installments still go through, so a failed request can leave rows behind
  (`Installments.PartialInsertExample`, `Store.Database.CreateGastos`).
- No remainder is redistributed. The rows add up to `valor` only to within
  half a cent per row (`Installments.PlanTotalBound`). R$ 1.00 in three
  installments stores R$ 0.99 (`Installments.ResidualExample`).
- A bill due today counts as overdue as soon as the day has begun. The
  page compares the due date's midnight with the current moment
  (`Dashboard.OverdueCases`).

## Model

| member | source | states |
|---|---|---|
| Calendar.NormalizeDayNumber | main/backend/index.js:159 | the date a month index and a day normalise to lies exactly `day - 1` days after the first of that month, for a day below 1 or past the month's end as well |
| Calendar.TimeRangeEnds | main/backend/index.js:166 | 1970-01-01 is day 0; -271821-04-20 and 275760-09-13, the ends of the `Date` range, are days -100,000,000 and 100,000,000 |
| Calendar.TimeRangeByDayNumber | main/backend/index.js:166 | an existing date is in the time range iff its day number is within 100,000,000 of the epoch's |
| Calendar.DayNumberOrder | main/backend/index.js:159 | on existing dates, day numbers follow the calendar order |
| Calendar.MakeDate | main/backend/index.js:159 | `new Date(ano, mes - 1, dia)` is an Invalid Date iff the calendar date the triple names lies outside the time range, and that existing date otherwise |
| Calendar.MakeDateOfValid | main/backend/index.js:159 | a triple naming an existing date gives exactly that date, years 0..99 read as 1900..1999, unless it lies outside the time range |
| Calendar.CalendarDateDays | main/backend/index.js:159 | month and day overflow move no day: the date named lies `day - 1` days after the first of month `monthIndex` of the year |
| Calendar.MakeDateExamples | main/backend/index.js:159 | year 99 is 1999, month index 12 is January of the next year, day 0 is the last day of the previous month |
| Calendar.MakeDateOutOfRange | main/backend/index.js:159 | day 200,000,000 of January 2024 is an Invalid Date |
| Calendar.AddMonths | main/backend/index.js:162-163 | `setMonth(getMonth() + i)` on a date yields an existing date |
| Calendar.SetMonth | main/backend/index.js:162-163 | an Invalid Date stays invalid; a valid one becomes the date advanced by `i` months, or invalid iff that date leaves the time range |
| Calendar.NormalizeValid | main/backend/index.js:162 | normalising an existing date gives it back unchanged |
| Calendar.AddMonthsZero | main/backend/index.js:161-163 | advancing by 0 months is the identity, so the first installment falls due on the base date |
| Calendar.AddMonthsShape | main/backend/index.js:162-163 | the result keeps the day in the target month when that month is long enough; otherwise it is the overflow (1 to 3 days) into the month after |
| Calendar.AddMonthsStep | main/backend/index.js:161-163 | installment i+1 falls strictly after installment i |
| Calendar.AddMonthsIncreasing | main/backend/index.js:161-163 | for i < j, the date advanced by i months is strictly before the date advanced by j months |
| Calendar.EndOfJanuaryCommonYear | main/backend/index.js:163 | January 31, 2023 plus one month is March 3, 2023 |
| Calendar.EndOfJanuaryLeapYear | main/backend/index.js:163 | January 31, 2024 plus one month is March 2, plus two months is March 31 (each counted from the base) |
| Text.NatToString | main/backend/index.js:171 | `${n}` is a non-empty string of decimal digits |
| Text.ParseNatToString | main/backend/index.js:171 | reading the digits back gives the number (the rendering is injective) |
| Text.NoLeadingZero | main/backend/index.js:171 | the rendering starts with `0` only for zero |
| Installments.IsValidCreate | main/backend/index.js:152-154 | a request is refused when the description is empty, `valor` is NaN or not positive, or `dia`, `mes` or `ano` is NaN |
| Installments.AmountPerInstallment | main/backend/index.js:157 | `valor / parcelas` stored in cents is the nearest cent: `-n < 2(n*q - valor) <= n` |
| Installments.BaseDueDate | main/backend/index.js:159 | the base date is an Invalid Date iff the calendar date `(ano, mes - 1, dia)` names lies outside the time range, and that date otherwise |
| Installments.BaseDueDateOfValid | main/backend/index.js:159 | a `dia`, `mes` and `ano` naming an existing date give that date as the calendar base |
| Installments.Plan | main/backend/index.js:157-180 | a valid request describes exactly `RowCount` rows, none with a negative amount |
| Installments.DueDateOfPlan | main/backend/index.js:159-166 | the loop's `dataParcela` for row i is the plan's due date, or an Invalid Date exactly when the base date or that due date lies outside the time range |
| Installments.FailureIsFinal | main/backend/index.js:161-166 | once a row's due date is an Invalid Date, so is every later row's |
| Installments.FirstFailure | main/backend/index.js:161-166 | the first row from i on whose due date is an Invalid Date, or the row count: every row before it has a valid due date |
| Installments.InsertedRows | main/backend/index.js:161-179 | row j is inserted iff its due date is valid |
| Installments.PartialInsertExample | main/backend/index.js:161-179 | three installments from 275760-08-13 insert two rows before the third date leaves the time range |
| Installments.PlanAmounts | main/backend/index.js:157-171 | every row carries the same amount, the rounded share of `valor` |
| Installments.PlanDescriptions | main/backend/index.js:171 | one row keeps the description unchanged; with N > 1, row i gets the suffix ` (i+1/N)` |
| Installments.SuffixCounter | main/backend/index.js:171 | the counter written into row i's suffix reads back as i+1 |
| Installments.PlanDueDates | main/backend/index.js:159-163 | for every row of every plan, one-row plans included: row 0 falls due on the base date, row i i months later, and for i < j the due date of row i is strictly before that of row j |
| Installments.PlanTotalBound | main/backend/index.js:157-171 | the rows' amounts sum to `valor` only to within half a cent per row |
| Installments.ResidualExample | main/backend/index.js:157 | R$ 1.00 in 3 installments is stored as 3 x R$ 0.33 = R$ 0.99 |
| Installments.NoRowsForNonPositiveCount | main/backend/index.js:161 | a `parcelas` of 0 or below creates no rows |
| Reconciler.StatusText | main/backend/index.js:45 | the status is stored as one of the three ENUM strings |
| Reconciler.StatusTextInjective | main/backend/index.js:45 | distinct statuses are stored as distinct strings |
| Reconciler.IsPositivePayment | main/backend/index.js:196 | a payment is refused when NaN or `<= 0` |
| Reconciler.Reconcile | main/backend/index.js:205-216 | accepted iff `0 < p <= valor - valor_pago`; refused as non-positive iff `p <= 0`; otherwise refused with the remaining balance; an accepted payment adds `p` and never yields `pendente` |
| Reconciler.ReconcileKeepsBounds | main/backend/index.js:205-216 | from `0 <= valor_pago`, an accepted payment strictly raises `valor_pago`, keeps it `<= valor`, yields `pago` iff it reaches `valor`, and matches the status the amount paid calls for |
| Reconciler.ReconcileExamples | main/backend/index.js:196-216 | with R$ 100 owed and R$ 20 paid, R$ 0 and R$ -5 are non-positive and R$ 90 exceeds the R$ 80 left; R$ 40 on R$ 0 paid is partial; R$ 60 on R$ 40 paid settles it |
| Reconciler.PaymentsAccumulate | main/backend/index.js:205-217 | positive payments whose sum fits the balance are all accepted; the amount paid grows by their sum, it ends `pago` iff they settle the balance, never `pendente` |
| Reconciler.PaymentsSettle | main/backend/index.js:205-217 | positive payments that sum to exactly `valor` leave the expense paid in full with status `pago` |
| Store.NewRow | main/backend/index.js:44-45 | an inserted row has `valor_pago` 0 and status `pendente` |
| Store.PlanRowsLayout | main/backend/index.js:168-180 | the plan's rows occupy the consecutive ids from the next AUTO_INCREMENT value, row k holding installment k |
| Store.BuildRow | main/backend/index.js:162-171 | iteration i builds a row iff row i is inserted, and then it is the plan's row i with nothing paid and status `pendente` |
| Store.Edited | main/backend/index.js:233 | an edit sets description, value and due date, and keeps the owner, `valor_pago` and status |
| Store.EditCanOverpay | main/backend/index.js:233 | an edit can leave `valor_pago > valor` with the old status, after which every payment is refused |
| Store.IsValidUpdate | main/backend/index.js:229-231 | an edit is refused when the description or due date is empty or the value is NaN or not positive |
| Store.IsValidLimit | main/backend/index.js:266-268 | a limit is refused when NaN or negative, or when `mes` or `ano` is falsy |
| Store.LookupLimit | main/backend/index.js:284-297 | refused iff `mes` or `ano` is falsy; otherwise the stored limit for (user, mes, ano), or not-found exactly when none is stored |
| Store.UpsertThenLookup | main/backend/index.js:262-297 | after the upsert the lookup returns the posted limit, and the limits of every other (user, mes, ano) are unchanged |
| Store.Database.constructor | main/backend/index.js:39-58 | both tables start empty |
| Store.Database.CreateGastos | main/backend/index.js:148-190 | an invalid request is refused and changes nothing; a valid one inserts the plan's rows up to the first Invalid Date under consecutive fresh ids, leaves existing rows and the limits untouched and keeps `0 <= valor_pago <= valor`; it answers 500 iff some due date is invalid, else 201 with the plural message iff `parcelas > 1` |
| Store.Database.Pay | main/backend/index.js:192-222 | a non-positive payment is refused before the lookup; a row not matching both id and user is not found; otherwise the reconciler decides and only that row changes, to the new amount and status; `0 <= valor_pago <= valor` is kept |
| Store.Database.Update | main/backend/index.js:224-245 | an invalid edit is refused; a row not matching both id and user is not found; otherwise only that row is edited |
| Store.Database.Delete | main/backend/index.js:247-260 | deletes only the row matching both id and user, else not-found with nothing changed |
| Store.Database.UpsertLimit | main/backend/index.js:262-278 | an invalid limit is refused; otherwise the limit of (user, mes, ano) is set to the posted value and nothing else changes |
| Store.Database.GetLimit | main/backend/index.js:280-299 | a limit is found iff `mes` and `ano` are truthy and a limit exists for the user's (mes, ano) |
| Store.Database.RowsOf | main/backend/index.js:140-145 | exactly the user's rows, unchanged |
| Dashboard.FromRow | main/backend/index.js:143 | the page's copy of a row keeps its id and amounts and the status's stored text |
| Dashboard.VerificarLimite | main/backend/public/script.js:78-94 | warning iff `limite > 0 && total > limite`, with a positive excess `total - limite`; ok iff `limite > 0 && total <= limite`, with remainder `limite - total >= 0`; hidden iff `limite <= 0` |
| Dashboard.StatusLabel | main/backend/public/script.js:138-147 | the badge is one of `Pago`, `Parcialmente Pago`, `Pendente` |
| Dashboard.LabelOfStatus | main/backend/public/script.js:138-147 | each stored status gets its own badge; any other text shows `Pendente` |
| Dashboard.OverdueCases | main/backend/public/script.js:149 | a paid expense or one due later is never overdue; an unpaid one due on an earlier day is; on its due day it is overdue once the day has begun |
| Dashboard.DialogBalanceBoundsPayment | main/backend/public/script.js:311 | the balance the dialog shows, `valor - valor_pago`, is exactly the largest payment the backend accepts for that row |
| Dashboard.FindById | main/backend/public/script.js:306 | the first cached expense with that id, or none iff no cached expense has it |
| Dashboard.PaymentDialog | main/backend/public/script.js:305-313 | the dialog opens iff the id is cached, showing that expense's remaining balance |
| Dashboard.FilterMembership | main/backend/public/script.js:115-119 | the month filter keeps exactly the cached expenses due in the selected month of `anoAtual` |
| Dashboard.FilterAppend | main/backend/public/script.js:115-119 | the filter preserves order: filtering a concatenation concatenates the filtered parts |
| Dashboard.FilterIdempotent | main/backend/public/script.js:112-120 | with `'todos'` the list is the whole cache; filtering twice is filtering once |
| Dashboard.TotalAppend | main/backend/public/script.js:113-173 | the total of a concatenation is the sum of the totals |
| Dashboard.TotalOfFilteredAppend | main/backend/public/script.js:112-177 | the displayed total of a concatenated cache is the sum of the displayed totals of its parts |
| Dashboard.RenderList | main/backend/public/script.js:128-174 | one entry per listed expense, in order, with its badge and overdue mark; the running total is the sum of `valor` (0 for an empty list) |
| Dashboard.Page.constructor | main/backend/public/script.js:34-37 | the page starts on the current month and year, with an empty cache and no limit |
| Dashboard.Page.CarregarLimite | main/backend/public/script.js:52-76 | no limit for `'todos'`; the fetched limit, or 0 when none is stored; unchanged when the request fails |
| Dashboard.Page.CarregarGastos | main/backend/public/script.js:96-190 | stores the selection and year and reloads the limit; on success replaces the cache and shows the filtered entries, their total and the alert (hidden for `'todos'`); on failure keeps the cache |
| Dashboard.SubmitLimitForm | main/backend/public/script.js:192-214 | a NaN or negative limit is refused first, then any submission with `'todos'`; otherwise the entered limit is posted for the selected month and year |
| Dashboard.LimitFormAgreesWithBackend | main/backend/public/script.js:213 | what the limit form posts passes the backend's limit check iff the month and year are not 0 |
| Dashboard.Trim | main/backend/public/script.js:233 | `trim()` returns a slice of the input with only white space cut from either end, not starting or ending with white space |
| Dashboard.SubmitExpenseForm | main/backend/public/script.js:233-240 | posts iff the trimmed description is non-empty, the value is a positive number and the date is set, with exactly those values |
| Dashboard.ExpenseFormAgainstBackend | main/backend/public/script.js:249 | whatever the add form posts, `POST /gastos` refuses it for lack of `dia`, `mes` and `ano`; the same fields sent by the edit form pass `PUT /gastos/:id`'s check |

## Left out

- HTTP routing, CORS, body parsing, static files and the MySQL connection
  are framework plumbing. The tables are the maps of `Store.Database`.
  Database errors (HTTP 500) are not modelled; the 500 of `POST /gastos`
  after an Invalid Date is (`Store.CreateOutcome.CreateFailed`).
- Registration, login, bcrypt and JWT (main/backend/index.js:77-138) are
  foreign library calls. The authenticated user id is a parameter.
- The concurrent inserts of `Promise.all` are not modelled: the model
  inserts in loop order and numbers rows consecutively. The race between a
  payment's read and its write is not modelled either (main/backend/index.js:182, 200-217).
- DOM updates, `fetch`, `localStorage`, `setTimeout`, redirects and
  `confirm` are browser plumbing. Fetch answers and the clock are inputs.
- Time zones are not modelled. The UTC shift of `toISOString`, and the
  number and date formatting of `toFixed` and `toLocaleDateString`, are
  left out. Dates are local calendar dates.
- Calendar.MakeDate: checks the time range on the local calendar date as if
  local time were UTC. West of UTC, local midnight of 275760-09-13 is
  already past the last valid instant, and east of UTC local midnight of
  -271821-04-20 falls before the first, so the last or the first day of the
  range becomes invalid. Arguments too large for a double are not modelled.
- Store.Database.CreateGastos: does not check the column widths of the
  schema (main/backend/index.js:39-48). An amount above `DECIMAL(10,2)`'s
  99,999,999.99, a description longer than `VARCHAR(255)` once its suffix
  is appended, a due date outside `DATE`'s years 1000 to 9999, or an id past
  `INT`'s range is inserted as it is. MySQL refuses such a row in strict
  mode, making `Promise.all` reject and the request answer 500, and clips
  it otherwise. Which happens depends on the server's `sql_mode`, which is
  not part of this code.
- Store.Database.Update: the same holds for an edited `valor` above
  `DECIMAL(10,2)`'s range.
- Store.Database.UpsertLimit: the same holds for a `limite` above
  `DECIMAL(10,2)`'s range and a `mes` or `ano` beyond `INT`'s range
  (main/backend/index.js:50-58).
- Floating point is not modelled: amounts are exact cents.
  Installments.AmountPerInstallment: rounds the exact quotient, not the double
  that JavaScript computes first, so a quotient within one double's error of
  half a cent may round the other way.
- Installments.RowCount: a non-integer `parcelas` (the loop runs up to the
  next integer) is not modelled; a NaN or `null` count behaves like 0.
- Installments.IsValidCreate: `dia`, `mes` and `ano` are integers or NaN.
  A non-integer value, which `new Date` truncates toward zero, is not
  modelled, nor is an infinite one.
- Text.NatToString: renders only non-negative integers, which is all the
  suffix ever shows.
- Store.Database.RowsOf: returns the user's rows as a map, without the
  `ORDER BY vencimento DESC` of `GET /gastos`.
- The case-insensitive login lookup is SQL collation and is not modelled.
- The `id` path parameter is an integer. `parseInt` returning NaN is not
  modelled. A malformed `vencimento` string, which MySQL refuses, is not
  modelled: an edit's date is a parsed date or absent.
- Dashboard.Filter: a month button whose `parseInt` is NaN is not modelled;
  a selection is `'todos'` or a month number.
- Store.IsTruthy: months and years are modelled as numbers, so `0` is
  falsy. A JSON body may send the string `"0"`, which is truthy. The query
  values of `GET /limite-gastos` are always strings, so `mes=0` or
  `mes=abc` passes `!mes`, finds no limit and answers 404, where
  `Store.LookupLimit` answers bad request.
- The handlers' response messages are not modelled; only their kind is
  (refused with a reason, not found, done). The 201 of `POST /gastos`
  carries only whether its message is plural (`Parcelas`) or singular
  (`Gasto`), as `parcelas > 1` decides; no row count is reported.
