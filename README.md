# SACCO savings, loans and welfare: a Dafny model

This project models the records-and-rules core of a savings-and-credit
cooperative web application. Members:

- record savings;
- set a savings target for the current month;
- apply for loans of up to three times their lifetime savings;
- contribute to a welfare fund.

Staff approve or reject loans and browse filtered lists of savings and
contributions. A template filter, `abs_val`, shows the magnitude of a
number.

How the model is built:

- **Tables.** The application's tables become datatypes in module `Models`:
  `Savings`, `SavingsTarget`, `Loan`, `WelfareContribution` and `User`. The
  schema's constraints (amount bounds, unique target slots, the documented
  target month range, unique loan ids, foreign keys) are one predicate,
  `Consistent`. A loan being pending exactly when it carries no approval
  stamp is not a schema rule. It is a separate predicate, `AllStamped`,
  that every loan-writing handler keeps.
- **Amounts** are integer cents.
- **Instants** are whole seconds since 1970-01-01 UTC. Module `Calendar`
  maps an instant to its day, its civil date and its calendar month
  (`TruncMonth`).
- **Views.** The request handlers become methods of one class,
  `Views.RecordStore`. It holds the five tables as sequence fields plus the
  next loan id.
  - A request is given by its parameters: the signed-in account, the clock
    reading, the POSTed form (`None` for a GET) and the query-string values.
  - Each handler returns a page, a redirect or a failure. Every failure but
    one writes nothing. The exception is `WelfareContribute`, which stores the
    contribution and then fails on its redirect to a URL name that does not
    exist.
  - Every handler that writes keeps `Consistent` and states its whole new
    state.
- **Queries.** The expressions the views evaluate are functions in module
  `Queries`: sums, filters, ORM orderings, the loan limit, the progress
  figures and the target upsert. Their properties are lemmas there.
- **Helpers.** Module `Aggregates` holds the generic filter, sum, group and
  stable-sort helpers with their algebra.
- **The filter.** Module `CustomFilters` models `abs_val`, with Python's
  `int(...)` conversion written out case by case.

Three behaviours of the code are modelled as written:

- **A second decision overwrites the first.** Nothing in `approve_loan` or
  `reject_loan` checks that the loan is still pending
  (loan_system/core/views.py:225-242). So a decided loan can be decided
  again, and the last decision wins (`Models.LastDecisionWins`,
  `Views.RecordStore.DecideLoan`).
- **The due date is a date.** `apply_loan` stores today's date plus 30 days
  in a DateTimeField (loan_system/core/views.py:212). That is midnight at
  the start of that day, not the application time plus 30 days
  (`Models.NewLoan`).
- **A new target has no amount.** When the month has no target, `set_target`
  builds an unsaved target without an amount, so the GET form shows none
  (loan_system/core/views.py:151-152, 161; `Views.RecordStore.SetTarget`).

## Model

| member | source | states |
|---|---|---|
| Models.FitsAmountIsMaxDigits | loan_system/core/models.py:25 | An amount fits `DecimalField(max_digits=10, decimal_places=2)` exactly when its magnitude in cents has at most ten digits. That is the bound of 99,999,999.99 used as `FitsAmount`. |
| Models.StatusFromName | loan_system/core/models.py:46-50 | A query value names a status only if it is exactly one of the three stored choices. When it names none, no status renders as it. |
| Models.StatusNameRoundTrip | loan_system/core/models.py:46-50 | Rendering a status to its stored name and reading it back gives the same status. |
| Models.NewLoan | loan_system/core/views.py:207-213 | A new loan is PENDING, the default, with no approver and no approval date. It is applied now and due on the day 30 days after today, which is later than now. Owner, amount and purpose are as given. |
| Models.NewLoanStamped | loan_system/core/views.py:207-213 | A new loan is pending and carries no approval stamp. |
| Models.Decide | loan_system/core/views.py:226-230 | A decision sets the status, the approver and the approval date. It leaves id, owner, amount, purpose, application date and due date unchanged. |
| Models.DecideStamped | loan_system/core/views.py:227-229 | A decision leaves the loan stamped exactly when it sets APPROVED or REJECTED. |
| Models.LastDecisionWins | loan_system/core/views.py:225-242 | Deciding an already decided loan gives the same row as deciding it once. The prior status is never checked. |
| Calendar.StartOfDay | loan_system/core/views.py:212 | Midnight of day `d` lies on day `d`. A date stored into a DateTimeField keeps its day. |
| Calendar.CivilRoundTrip | loan_system/core/views.py:62-63 | Converting a day number to a civil date and back gives the same day number, so `now.month` and `now.year` name the day's real month. |
| Calendar.MonthOf | loan_system/core/views.py:62-63 | The calendar month of an instant has a month number between 1 and 12. |
| Calendar.DayOfMonth | loan_system/core/views.py:80 | The day of the month (`now.day`) is between 1 and 31. |
| Queries.MonthlySavings | loan_system/core/views.py:84-91 | The savings are grouped by calendar month, oldest month first, with one row per month. Every row's month holds at least one saving, and each row's total is the sum of that month's savings. |
| Queries.MonthlySavingsCover | loan_system/core/views.py:84-91 | Every month in which something was saved has a row in the grouping. |
| Queries.SavingsTotalAfterAppend | loan_system/core/views.py:130 | Adding a savings row raises only its owner's lifetime total, by exactly its amount. |
| Queries.SavingsTotalWithoutRows | loan_system/core/views.py:130 | A member with no savings rows has total 0 (`or 0`). |
| Queries.SavingsTotalIsOwnSum | loan_system/core/views.py:196 | A member's lifetime total is the sum of the amounts of the member's own savings rows, the figure the loan limit triples. |
| Queries.LoanLimitBoundary | loan_system/core/views.py:196-205 | The limit is 0 without savings. An amount equal to the limit passes, and one cent more is refused. |
| Queries.LoanLimitAfterSaving | loan_system/core/views.py:196-197 | A new saving of the member raises the loan limit by three times its amount. |
| Queries.Progress | loan_system/core/views.py:75 | With a non-zero target, progress times the target is 100 times the month's savings. With no target, progress is 0. |
| Queries.Remaining | loan_system/core/views.py:76 | The remaining amount is never negative. Below the target it closes the gap exactly; at or above the target it is 0. |
| Queries.MetTargetMeansGoalReached | loan_system/core/views.py:354 | A met target (savings at least a positive target) means nothing remains and progress is at least 100%. |
| Queries.ProgressReachesHundred | loan_system/core/views.py:75 | For a positive target, progress reaches 100% exactly when the month's savings reach the target. |
| Queries.MonthWithoutSavings | loan_system/core/views.py:66-70 | A month without any of the member's savings counts as 0 saved. |
| Queries.MonthTotalZeroIffNoSavings | loan_system/core/views.py:79-81 | With positive amounts, the month's total is 0 (the mid-month warning's condition) exactly when the member saved nothing that month. |
| Queries.TargetIndex | loan_system/core/views.py:73 | Finds the first target of the (user, month, year) slot, or reports that none exists. |
| Queries.TargetIndexUnique | loan_system/core/models.py:40 | Under `unique_together`, any target found for a slot is the only one in it. |
| Queries.TargetIndexSameSlots | loan_system/core/views.py:145-149 | Tables whose rows agree, position by position, on being in a slot find the same target for it. |
| Queries.TargetIndexAppendOther | loan_system/core/views.py:145-149 | A target added to another slot does not change what a slot finds. |
| Queries.UpsertTarget | loan_system/core/views.py:145-157 | After a target POST, the month's slot holds the posted amount. An existing target is updated in place, row count unchanged; otherwise exactly one row is added. Other slots keep their amounts. Every new or changed row lies in the slot. `unique_together` is preserved. |
| Queries.UpdateSlot | loan_system/core/views.py:156-157 | Updating the found target sets the slot's amount and changes no other slot's amount. |
| Queries.UpdateSlotRows | loan_system/core/views.py:156-157 | Updating the found target's amount keeps every row's slot, so unique slots stay unique. |
| Queries.AppendSlot | loan_system/core/views.py:151-157 | Saving a fresh target for an empty slot makes it the slot's target. No other slot's amount changes, and unique slots stay unique. |
| Queries.ChartTargets | loan_system/core/views.py:93 | The chart's targets are a permutation of the member's targets, each as often as stored, in ascending (year, month) order. So the chart has one point per target of the member. |
| Queries.TargetHistory | loan_system/core/views.py:165 | The history holds exactly the member's targets, each as often as stored, latest (year, month) first. |
| Queries.MonthOrdinalOrder | loan_system/core/views.py:93 | For months 1..12, the month ordinal used as the sort key orders by year and then month, and it is injective. |
| Queries.ChartLookup | loan_system/core/views.py:103-106 | Looking a target's month up in the member's grouped monthly totals gives that month's savings, or 0 when the month has none. |
| Queries.LoanIndex | loan_system/core/views.py:226 | Finds the loan with the given id, or reports that no loan has it. |
| Queries.AdminStatusSelection | loan_system/core/views.py:249 | An absent or empty status parameter selects PENDING; any other value is kept as given. |
| Queries.StatusDefaultsDiffer | loan_system/core/views.py:249-274 | Both loan views select PENDING when the parameter is absent. On an empty parameter the admin view selects PENDING, while the member view keeps "" and so lists every loan. |
| Queries.WithStatusName | loan_system/core/views.py:251-254 | A value that names a status keeps each loan with that status as often as it is stored, and no other loan. Any other value keeps every loan. |
| Queries.AdminLoanList | loan_system/core/views.py:251-254 | The admin list is the status selection, newest application first, as a permutation of the selected loans. |
| Queries.UserLoanList | loan_system/core/views.py:276-278 | The member list holds each of the member's loans of the named status (all of them for an unknown value) exactly as often as stored, and nothing else, newest application first. |
| Queries.StatusCountIsCount | loan_system/core/views.py:256 | A status's count is the number of loans with that status. |
| Queries.Lower | loan_system/core/views.py:313 | Lower-casing keeps the length and leaves no ASCII capital. Each capital becomes the small letter at the same place in the alphabet, and every other character is kept. |
| Queries.LowerIdempotent | loan_system/core/views.py:313 | Lower-casing already lower-cased text changes nothing. |
| Queries.UsernameMatchesIgnoresCase | loan_system/core/views.py:313 | The `icontains` username filter gives the same answer when either the username or the filter is lower-cased first, so ASCII case never decides a match. |
| Queries.Contains | loan_system/core/views.py:313 | Substring search holds exactly when the needle occurs at some position of the haystack. |
| Queries.AdminSavingsList | loan_system/core/views.py:309-317 | The admin savings list, newest first, is a permutation of the savings that pass the username filter and the inclusive date bounds. |
| Queries.AdminSavingsTotal | loan_system/core/views.py:320 | The listed total equals the sum over every saving that passes the filters. |
| Queries.PerUserTotals | loan_system/core/views.py:323-327 | The per-user rows apply only the username filter, have distinct usernames that each own a saving, and come largest total first. Each row's total is that member's whole savings. |
| Queries.PerUserTotalIsUserTotal | loan_system/core/views.py:323-327 | For a username that passes the filter, the total over the filtered rows is its total over all rows. |
| Queries.PerUserTotalsCover | loan_system/core/views.py:323-327 | Every member with a saving that passes the username filter has a row. |
| Queries.ContributionHistory | loan_system/core/views.py:403 | The history holds each of the member's contributions exactly as often as stored, and nothing else, newest first. |
| Queries.WelfareTotalAfterAppend | loan_system/core/views.py:399-404 | One more contribution raises only its owner's welfare total, by its amount. |
| Queries.WelfareTotalIsOwnSum | loan_system/core/views.py:403-404 | The welfare page total is the sum of the amounts of the member's own contributions. |
| Queries.AdminWelfareList | loan_system/core/views.py:445-452 | The admin welfare list, newest first, is a permutation of the contributions that pass the username and inclusive date filters. |
| Queries.MonthlyWelfare | loan_system/core/views.py:455-461 | Contributions are grouped by calendar month, oldest first, with one row per month. Every row's month holds at least one contribution, and each row's total is that month's contributions. |
| Queries.MonthlyWelfareCover | loan_system/core/views.py:455-461 | Every month with a contribution has a row. |
| Views.Members | loan_system/core/views.py:342 | The member list holds each non-staff account as often as stored, and no staff account. |
| Views.MemberLine | loan_system/core/views.py:346-361 | A member's line names the member and carries the month's savings and the month's target (0 without one). `met_target` holds exactly when that target is positive and the savings reach it. |
| Views.ChartSeries | loan_system/core/views.py:95-108 | The chart loop gives exactly one label, one savings value and one target value per target, in the targets' order. Each savings value is the first matching monthly total, or 0. |
| Views.RecordStore.constructor | loan_system/core/models.py:23-71 | A store holds the given rows, which satisfy the schema. |
| Views.RecordStore.Register | loan_system/core/views.py:25-35 | A taken username leaves the accounts unchanged and shows the form again. A free empty username fails with `create_user`'s `ValueError` and writes nothing. Any other free name adds exactly one non-staff account and redirects to login. Other tables are unchanged, and usernames stay unique. |
| Views.RecordStore.Dashboard | loan_system/core/views.py:56-119 | Staff are redirected. For a member, the page shows this month's savings and target, the progress, the non-negative remaining amount and the day-15 warning. The chart has exactly one point per target of the member, oldest first, holding that month's savings (0 when none) and the target amount. |
| Views.RecordStore.SavingsView | loan_system/core/views.py:124-134 | The page shows the member's lifetime savings. A POST writes nothing (the method changes no state). |
| Views.RecordStore.SetTarget | loan_system/core/views.py:139-161 | A GET writes nothing and shows the month's target amount, or none. A POST that does not fit the column fails with nothing written. Any other POST upserts the month's target and redirects to the dashboard. Other tables are unchanged and the schema is kept. |
| Views.RecordStore.TargetHistoryView | loan_system/core/views.py:163-166 | The page is the member's target history: a permutation of the member's targets, latest month first. |
| Views.RecordStore.ApplyLoan | loan_system/core/views.py:190-220 | Staff are redirected and a GET shows the limit; neither writes. An over-limit amount redirects back and writes nothing. A loan is created iff a member POSTs an amount within both the limit and the column, with a purpose. It is then the one PENDING loan (due in 30 days) appended, and the next id advances. Otherwise the loans are unchanged. Loans stay stamped as their status says. |
| Views.RecordStore.DecideLoan | loan_system/core/views.py:224-242 | A non-staff actor is redirected with nothing changed. An unknown id fails with nothing changed. Otherwise exactly the loan with that id gets the decision, approver and time, whatever its previous status, and every other loan is untouched. Loans stay stamped as their status says. |
| Views.RecordStore.ApproveLoan | loan_system/core/views.py:224-232 | The loan with the id becomes APPROVED, stamped with the staff user and now; an unknown id fails and changes nothing. |
| Views.RecordStore.RejectLoan | loan_system/core/views.py:234-242 | The loan with the id becomes REJECTED, stamped with the staff user and now; an unknown id fails and changes nothing. |
| Views.RecordStore.AdminDashboard | loan_system/core/views.py:247-264 | Non-staff are redirected. Staff see the selected status's loans (PENDING by default) newest first, plus counts and amounts per status over all loans. |
| Views.RecordStore.UserLoans | loan_system/core/views.py:269-283 | Staff are redirected. A member sees each of their own loans of the selected status exactly as often as stored, and nothing else, newest first. PENDING is selected only when the parameter is absent, and an unknown value selects all loans. |
| Views.RecordStore.AdminSavingsView | loan_system/core/views.py:297-372 | Staff see: the filtered list, newest first, and its total; per-user totals under the username filter; the monthly chart of all savings; and one line per non-staff account, in order, with this month's savings, target and `met_target`. |
| Views.RecordStore.MemberRows | loan_system/core/views.py:342-361 | The loop yields one line per member, in order, each its `MemberLine`. |
| Views.RecordStore.RecordContribution | loan_system/core/views.py:399 | An amount that fits appends exactly one contribution by the member, stamped now; one that does not fit writes nothing. No other table changes. |
| Views.RecordStore.WelfareContributionView | loan_system/core/views.py:395-409 | A POST appends exactly one contribution of the posted amount, or fails with nothing written. A GET writes nothing and lists the member's contributions, newest first, with their total (0 with none). |
| Views.RecordStore.WelfareContribute | loan_system/core/views.py:418-431 | A POST with an amount that fits appends exactly one contribution of the posted amount. It then fails, because no URL pattern is named `welfare_contribute`. An amount that does not fit fails with nothing written. A GET writes nothing and shows the current month. |
| Views.RecordStore.AdminWelfareView | loan_system/core/views.py:438-473 | Staff see the filtered contributions, newest first, and their total. The monthly chart covers all contributions. Non-staff are redirected. |
| CustomFilters.Abs | loan_system/core/templatetags/custom_filters.py:8 | `abs` gives a non-negative number equal to the argument or to its negation. |
| CustomFilters.TruncateCents | loan_system/core/templatetags/custom_filters.py:8 | `int()` of a two-place decimal truncates toward zero. The result lies within one unit of the decimal, on the zero side. |
| CustomFilters.StripLeft | loan_system/core/templatetags/custom_filters.py:8 | Removes exactly the leading whitespace, leaving a suffix that starts with another character (or is empty). |
| CustomFilters.StripRight | loan_system/core/templatetags/custom_filters.py:8 | Removes exactly the trailing whitespace, leaving a prefix that ends with another character (or is empty). |
| CustomFilters.AbsValResult | loan_system/core/templatetags/custom_filters.py:7-10 | A convertible value becomes the non-negative magnitude of `int(value)`. A value whose conversion raises comes back unchanged. |
| CustomFilters.AbsValNegation | loan_system/core/templatetags/custom_filters.py:8 | Negating an integer or a decimal does not change the result. |
| CustomFilters.AbsValIdempotent | loan_system/core/templatetags/custom_filters.py:7-10 | Applying the filter twice is applying it once. |
| CustomFilters.NatToStringDigits | loan_system/core/templatetags/custom_filters.py:8 | The decimal rendering of a number is a well-formed digit run that reads back as that number. |
| CustomFilters.StripLeftWhitespace | loan_system/core/templatetags/custom_filters.py:8 | Leading whitespace is skipped up to the first other character. |
| CustomFilters.StripRightWhitespace | loan_system/core/templatetags/custom_filters.py:8 | Trailing whitespace is skipped back to the last other character. |
| CustomFilters.ParseSigned | loan_system/core/templatetags/custom_filters.py:8 | An optional minus sign followed by digits parses to the signed value. |
| CustomFilters.StripAround | loan_system/core/templatetags/custom_filters.py:8 | Whitespace around text whose ends are not whitespace is stripped away. |
| CustomFilters.ParseIntText | loan_system/core/templatetags/custom_filters.py:8 | `int(str(n))` is `n` for every integer within the digit limit. |
| CustomFilters.ParseIntRoundTrip | loan_system/core/templatetags/custom_filters.py:8 | `int(str(n))` is `n` with any whitespace around the text. |
| CustomFilters.StripUnchanged | loan_system/core/templatetags/custom_filters.py:8 | Text with no whitespace at either end is not changed by stripping. |
| CustomFilters.AbsValOfIntText | loan_system/core/templatetags/custom_filters.py:8 | The filter on the text of an integer gives the integer's magnitude. |
| CustomFilters.AbsValKeepsUnconvertible | loan_system/core/templatetags/custom_filters.py:9-10 | `None` and non-numeric objects raise `TypeError` and come back unchanged. |
| CustomFilters.AbsValConvertsBoolAndDecimal | loan_system/core/templatetags/custom_filters.py:8 | Booleans convert to 1 and 0. Negative decimals truncate toward zero before the magnitude is taken. |
| CustomFilters.AbsValKeepsBlankText | loan_system/core/templatetags/custom_filters.py:9-10 | Empty or all-whitespace text raises `ValueError` and comes back unchanged. |
| CustomFilters.AbsValKeepsStrayCharacter | loan_system/core/templatetags/custom_filters.py:9-10 | Text whose stripped literal holds a character that is not a digit, an underscore or a leading sign comes back unchanged. |
| CustomFilters.MisplacedUnderscoreRejected | loan_system/core/templatetags/custom_filters.py:9-10 | An underscore at either end of the digits, after the sign or next to another underscore makes `int()` raise. |
| CustomFilters.AbsValKeepsMisplacedUnderscore | loan_system/core/templatetags/custom_filters.py:9-10 | Text with such a misplaced underscore comes back unchanged. |
| CustomFilters.StripSignedText | loan_system/core/templatetags/custom_filters.py:8 | Stripping whitespace around a signed digit run leaves the sign and the digits. |
| CustomFilters.AbsValOfSignedText | loan_system/core/templatetags/custom_filters.py:8 | Text of a sign and well-formed digits, with whitespace around it, converts to the digits' value without the sign. |
| CustomFilters.UnderscoreSkipped | loan_system/core/templatetags/custom_filters.py:8 | An underscore between digits adds nothing to their value or their digit count. |
| CustomFilters.UnderscoreJoin | loan_system/core/templatetags/custom_filters.py:8 | Two well-formed digit runs joined by one underscore form a well-formed run. |

## Left out

- Authentication, sessions, login and logout, the home page and URL routing are not modelled. `login_required` and `staff_member_required` are reduced to the actor's staff flag. A staff-only view answers a non-staff actor with a redirect to the staff login.
- Template rendering, flash messages and the M-PESA payment text are not modelled. A page is the datatype of the values it is given.
- The chart's `strftime` and `calendar.month_abbr` labels are not modelled. A label is the `Month` value itself.
- The `float()` conversions of chart values and `round(progress, 1)` are floating-point display steps. Values stay exact integers, and progress is an exact `real`.
- Decimal amounts are integer cents. Parsing the POSTed text with `Decimal(...)`, its failure on malformed or missing text, and sub-cent digits are not modelled: a POST carries an amount already in cents.
- A loan with no purpose fails (`PurposeMissing`) rather than raising the database's not-null error. The 255-character limit on `purpose` is not modelled.
- An amount outside `DecimalField(10, 2)` is a failure that writes nothing (`AmountOutOfRange`). Whether a given database backend enforces that bound is not modelled.
- Wall-clock reads are a parameter `now`, in UTC seconds. The difference between `datetime.now()` (local time) and `timezone.now()`, and time zones in general, are not modelled.
- Date query parameters are day numbers. A malformed `start_date` or `end_date` string, which makes the query raise, is not modelled.
- Views.RecordStore.AdminSavingsView: the list is not stated in one particular order among rows with the same timestamp. The model stable-sorts, while the database's order for ties is unspecified.
- Queries.PerUserTotals: the same holds for members with the same total, where the database's order is unspecified.
- Views.Members: `User.objects.filter(is_staff=False)` has no declared ordering. The model keeps registration order.
- Queries.UsernameMatches: the model folds ASCII letters only. How `icontains` folds other letters depends on the database backend and is not modelled.
- CustomFilters.ParseInt: not modelled are `int()`'s acceptance of non-ASCII (Unicode) digits, and any change to the interpreter's 4300-digit limit on text conversion.
- CustomFilters.ToInt: objects with their own `__int__` or `__index__` are not modelled. Every value other than none, a boolean, an integer, a decimal or text is treated as raising `TypeError`. Decimal NaN and infinity are not modelled.
- Views.RecordStore.AdminDashboard: `loan_counts` and `loan_amounts` have no `order_by`, so the database may return the per-status rows in any order. The model fixes them in order of first appearance.
- Views.RecordStore.WelfareContribute: loan_system/core/urls.py has no route for `welfare_contribute`. The model treats the view as if some other URL table mapped it. It also assumes requests are not wrapped in a transaction, so the row written before the failed redirect stays.
- Models.Consistent: requires a target's month to lie in 1..12. The column comment documents this range but the database does not enforce it; every target the views write has a month in that range.
- No view creates `Savings` rows (the savings page only shows payment instructions), so savings enter the model only through the constructor.
- `Loan.objects.get` raising `DoesNotExist` is modelled as the failure `LoanDoesNotExist`. Behaviour on a duplicate id cannot arise, since ids are unique in the store.
- The superseded first `Loan` class (loan_system/core/models.py:5-21) and the shadowed first `admin_welfare_view` (loan_system/core/views.py:379-394) are not modelled: Python binds the later definitions.
- Concurrent requests and races between a target lookup and its save, or between two loan decisions, are not modelled. Each handler runs alone.
- The password and password reset of account creation are not modelled. `register` is modelled only as the username-uniqueness check.
- Views.RecordStore.Register: `create_user` NFKC-normalizes the username before storing it, while the taken check compares the name as posted. The model stores the name as posted, so a name that normalization changes is not modelled. The 150-character limit on usernames, which only some backends enforce, and a POST without a `username` field are not modelled either.
