# MyWallet server: accounts, transactions and budgets in Dafny

This project models the core of the MyWallet Express/MongoDB back end. It covers three route files:

- **Accounts.** Signup with its input checks. Four-digit one-time codes (OTP) that are hashed, stored and expire after an hour. Verification links that expire after six hours. Sign-in, password change and account deletion.
- **Transactions.** The `/create` handler's validation, including the invalid-date branch that answers but does not return. The running balance kept by `updateBalance`. The date bounds of the day, week, month and year reports, computed with the day and time arithmetic of section 21.4.1 of ECMA-262 (Day, WeekDay, DayFromYear, MakeDay, MakeTime, MakeDate, TimeClip). `setDate` is taken as a shift of the day number, not through the standard's year, month and date decomposition. The report total and the per-category `$group` sums.
- **Budgets.** Create, read by user, the spent-only and full updates, and delete.

Each collection the handlers change is a field of a class. Users, budgets and balances are maps keyed by id. Transactions are a sequence in insertion order. OTP and link records are a map from user id to that user's records, oldest first. Each handler that changes a collection is a method. The handlers that only read (`/signin`, `GET /:userId` of the budgets, the two reports) are functions. Their `ensures` give the outcome the handler answers with, in the handler's order of checks, and the exact new state of the collections. Beside the methods are invariants they keep:

- e-mail addresses stay unique;
- token records expire one lifetime after they were created;
- every user's balance equals the signed total of their transactions, unless the balance save fails after the transaction was saved;
- every stored budget has an owner and a category; each budget method that writes the table requires this and keeps it.

Modules:

- `Common`: Option and Result, JavaScript `trim`, ASCII `toLowerCase`, decimal digit strings (`/^\d+$/`, `parseInt`, `${n}`).
- `Credentials`: `api/user.js`.
- `Calendar`: the `Date` arithmetic (Day, WeekDay, DayFromYear, MakeDay, MakeTime, MakeDate, TimeClip, `setHours`, and `setDate` as a day shift).
- `Ledger`: `updateBalance` and `POST /create` of `api/transaction.js`.
- `Reports`: `getMonthNumber`, `/period/:period` and `/category/:period` of `api/transaction.js`.
- `Budgets`: `api/budget.js`.

Several things the handlers cannot compute themselves are parameters of the model:

- the clock;
- the random code, the uuid and the bcrypt salts;
- the id the store assigns;
- the result of `new Date(string)`;
- whether the mailer or a save succeeded.

bcrypt is modelled as a hash that remembers its input: `compare` is true exactly for the hashed string.

## Model

| member | source | states |
|---|---|---|
| `Common.Trim` | api/transaction.js:45-49 | `trim` never lengthens a field, and what it leaves neither starts nor ends with whitespace. |
| `Common.TrimEmpty` | api/transaction.js:45-57 | A trimmed field is empty exactly when every character of it is whitespace, so the "Empty input fields" test rejects whitespace-only input. |
| `Common.TrimIsSlice` | api/transaction.js:45-55 | `trim` drops only whitespace, only from the two ends, and keeps the middle as a contiguous slice. |
| `Common.TrimIdempotent` | api/user.js:57-60 | Trimming an already trimmed field changes nothing. |
| `Common.Utf16Length` | api/user.js:77 | `length` counts UTF-16 code units: at least one and at most two per character. |
| `Common.Utf16LengthOfBmp` | api/user.js:77 | For characters of the Basic Multilingual Plane, `length` is the number of characters. |
| `Common.DecimalString` | api/user.js:141 | The rendering of a number is a non-empty digit string with no leading zero. |
| `Common.DecimalRoundTrip` | api/user.js:141-155 | Reading back the digits of a rendered number gives the number. |
| `Common.FourDigitRendering` | api/user.js:141 | A number renders with exactly four digits if and only if it lies in 1000..9999, the range of the generated code. |
| `Credentials.HashOf` | api/user.js:95-96 | A fresh hash compares equal to the hashed string and to no other string. |
| `Credentials.OtpToken` | api/user.js:141-160 | The OTP record expires one hour after creation, and its hash matches exactly the four-digit rendering of the code. |
| `Credentials.LinkToken` | api/user.js:254-275 | The link record expires six hours after creation, and its hash matches exactly the uuid followed by the user id. |
| `Credentials.EmailHasOneAt` | api/user.js:72 | An address the signup pattern accepts contains exactly one `@`. |
| `Credentials.CheckSignupInput` | api/user.js:62-81 | Signup accepts the fields exactly when none is empty, the name is letters and spaces, the email matches the pattern, and the password is at least 8 UTF-16 code units long. Each rejection holds exactly when the earlier checks pass and its own fails. |
| `Credentials.SignIn` | api/user.js:436-498 | Empty fields, an unknown email, an unverified account and a signed-in result each hold exactly under their stated condition. A verified account signs in exactly when the trimmed password compares equal. |
| `Credentials.CheckPasswordChange` | api/user.js:500-535 | The change goes ahead exactly when all fields are present, the new password is at least 8 UTF-16 code units long, the user exists and the old password matches. Each failure names the first check that fails. |
| `Credentials.PasswordLengthInCodeUnits` | api/user.js:503-515 | Four characters outside the Basic Multilingual Plane make a long enough new password; four ASCII letters are too short. |
| `Credentials.MarkVerified` | api/user.js:214 | Only the named user becomes verified; a missing id leaves the collection unchanged. |
| `Credentials.AccountStore.constructor` | api/user.js:56-136 | An empty store satisfies the invariants. |
| `Credentials.AccountStore.IssueOtp` | api/user.js:139-180 | One more OTP record is appended after the user's earlier ones, nothing else changes, and the reply says whether the mail went out. |
| `Credentials.AccountStore.Signup` | api/user.js:56-136 | A rejection names the first failing check or a taken email and changes nothing. Otherwise the account is stored unverified with the trimmed name, trimmed email and hashed password, and an OTP is issued. Emails stay unique. |
| `Credentials.AccountStore.VerifyOtp` | api/user.js:183-230 | Only the oldest record is examined; each outcome holds exactly under its condition. An expired code removes all of the user's records. A wrong code changes nothing. The right code verifies the user and removes all records. |
| `Credentials.AccountStore.ResendOtp` | api/user.js:233-250 | With both fields present, the user's OTP records are replaced by exactly one new record. |
| `Credentials.AccountStore.IssueLink` | api/user.js:253-318 | One more link record is appended after the user's earlier ones, and nothing else changes. |
| `Credentials.AccountStore.ResendLink` | api/user.js:321-338 | With both fields present, the user's link records are replaced by exactly one new record. |
| `Credentials.AccountStore.VerifyLink` | api/user.js:341-427 | Only the oldest link record is examined. If expired, it and the user are deleted. If the string matches, the user is verified and that one record is deleted. A mismatch or a missing record changes nothing. |
| `Credentials.AccountStore.UpdatePassword` | api/user.js:500-550 | On success only the user's password hash changes, to a hash of the new password. A rejection changes nothing. |
| `Credentials.AccountStore.DeleteUser` | api/user.js:608-632 | Exactly that user document is removed; its token records stay. |
| `Credentials.SignInAfterVerification` | api/user.js:460-474 | In any store with unique emails, a verified account signs in with the password it was hashed from, and gets "Invalid password" with any other non-blank password. |
| `Credentials.OtpLifecycle` | api/user.js:183-230 | On a fresh store, signup then the right code within the hour verifies the account. A second attempt with the same code finds no record. |
| `Calendar.WeekDay` | api/transaction.js:247 | `getDay` is always in 0..6. |
| `Calendar.DayFromYearStep` | api/transaction.js:259-262 | Consecutive years start exactly a year's length (365 or 366 days) apart. |
| `Calendar.DayFromYearCountsYears` | api/transaction.js:259-262 | The closed form for the first day of a year equals adding year lengths one by one from 1970, in both directions. |
| `Calendar.MonthsFillYear` | api/transaction.js:255-258 | The cumulative month table agrees with the month lengths, and twelve months fill the year. |
| `Calendar.NextMonthStart` | api/transaction.js:255-258 | The first of the next month comes as many days later as the month has, carrying into the next year after December. |
| `Calendar.LastMillisecond` | api/transaction.js:244 | 23:59:59.999 is the last millisecond of a day. |
| `Calendar.TwoDigitYears` | api/transaction.js:256-261 | A year from 0 to 99 names a year of the twentieth century: `new Date(24, m, d)` is the same date as `new Date(1924, m, d)`. |
| `Calendar.NewDateRange` | api/transaction.js:270-275 | `new Date(...)` is an Invalid Date exactly when the moment it names lies more than 8.64e15 ms from the epoch; otherwise it is that moment. |
| `Calendar.MakeDayDate` | api/transaction.js:257 | The day of `new Date(y, m, d)` moves one for one with `d`, so day 0 is the day before the 1st. |
| `Calendar.SetHoursWithinDay` | api/transaction.js:243-244 | `setHours` with a time of day keeps the day and sets exactly that time within it. |
| `Calendar.ShiftDateByDays` | api/transaction.js:249-253 | `setDate(getDate() + n)` moves the time by exactly `n` whole days and keeps the time of day. |
| `Ledger.ApplyDelta` | api/transaction.js:16-40 | An existing record gains income, loses expense and is stamped `updatedAt`. A new record starts at the signed amount. For the two known kinds, the new balance is the old one, or 0, plus the signed amount. |
| `Ledger.ReplayFromNothing` | api/transaction.js:16-40 | Starting with no record, a sequence of income and expense updates leaves the balance at their signed sum. |
| `Ledger.CheckCreateInput` | api/transaction.js:45-78 | Each of empty fields, non-digit amount, invalid date and unknown type holds exactly when the earlier checks pass and its own fails. Acceptance implies a digit amount, a valid date and a known type. |
| `Ledger.NewTransaction` | api/transaction.js:79-89 | The saved document has `parseInt` of the trimmed amount, the lower-cased type, the date and the creation time. |
| `Ledger.Ledger.constructor` | api/transaction.js:16-40 | An empty ledger is consistent. |
| `Ledger.Ledger.UpdateBalance` | api/transaction.js:16-40 | When the save succeeds, only the user's balance record changes, to `ApplyDelta` of the previous one. A failed save changes nothing. |
| `Ledger.Ledger.CreateTransaction` | api/transaction.js:43-109 | A rejected request changes nothing, including an invalid date that reaches the save and fails there. Each outcome holds exactly under its condition. On success the document is appended and the balance updated. Balances stay equal to the signed transaction totals unless the balance save fails after the transaction save. |
| `Ledger.CreatedKeepsConsistency` | api/transaction.js:91-95 | Appending a transaction and applying its delta keeps every user's balance equal to the signed total of their transactions. |
| `Reports.FindMonth` | api/transaction.js:197-201 | The search returns the first index from `i` whose name matches, ignoring case, or none when no later name matches. |
| `Reports.MonthNumber` | api/transaction.js:197-201 | `getMonthNumber` returns an index below 12 whose name matches, ignoring case. It returns null exactly when no name matches. |
| `Reports.MonthNumberIgnoresCase` | api/transaction.js:199 | A month name and its lower-cased form give the same month. |
| `Reports.MonthNamesFound` | api/transaction.js:198-200 | Every month name, as written, gives back its own index. |
| `Reports.MonthNum` | api/transaction.js:229-239 | A month name becomes its 1-based month number, between 1 and 12 and naming the same month ignoring case; a numeric month is used as sent. |
| `Reports.SwitchDates` | api/transaction.js:241-268 | Whenever a case leaves two valid dates, the start comes no later than the end, and the day and week periods contain the current time. Each case's two dates are the ones its period lemma describes: a day of `MsPerDay` milliseconds, a Monday-based week of seven days, the 1st of the month to the day before the next month's 1st, and 1 January to the last millisecond of the year. |
| `Reports.PeriodBounds` | api/transaction.js:222-275 | The missing month or year error, the invalid month error and the invalid period error each hold exactly under their condition, in the handler's order. Past those checks, "Invalid date parameters" is answered exactly when a date of the `switch` is an Invalid Date, and otherwise the bounds are those two dates, start no later than end. Per period: a day runs from midnight to 23:59:59.999 of today; a week from midnight of the Monday on or before today for seven days less a millisecond, and contains now; a month from midnight of its 1st to midnight of its last day; a year from midnight of 1 January to one millisecond before the next year. |
| `Reports.DayPeriod` | api/transaction.js:243-245 | The day period runs from midnight of the current day to one millisecond before the next midnight, and it contains the current time. |
| `Reports.WeekPeriod` | api/transaction.js:246-254 | The week period starts at midnight of the Monday on or before today. It lasts seven days less one millisecond and contains the current time. |
| `Reports.MonthPeriod` | api/transaction.js:255-258 | The month period starts at midnight of the 1st. It ends at midnight of the last day, one day before the next month's 1st, so it spans the month's length less one day. |
| `Reports.YearPeriod` | api/transaction.js:259-262 | The year period starts at midnight of 1 January. It ends one millisecond before the next year starts and lasts exactly the year's length. |
| `Reports.Matching` | api/transaction.js:277-284 | A transaction is returned exactly when it is stored and matches the user, the date bounds and the type filter, where `all` matches every type. Each match occurs as often as it is stored. |
| `Reports.MatchingTotal` | api/transaction.js:284-285 | `Total`, the `reduce` over the found transactions, gives the sum of the matching amounts over the store, each counted as often as it is stored. |
| `Reports.PeriodReport` | api/transaction.js:204-298 | A missing user id fails first, and otherwise the route fails exactly when the bounds fail, with their error. The data is the matching transactions, each as often as it is stored, and the total is the sum of their amounts over the store. |
| `Reports.AddToGroups` | api/transaction.js:381-389 | Adding an amount to category `c` raises the overall sum and `c`'s total by that amount and leaves the other categories' totals unchanged. |
| `Reports.AddToGroupsCategories` | api/transaction.js:381-389 | Adding to a category adds it to the set of groups and keeps one group per category. |
| `Reports.GroupByCategory` | api/transaction.js:381-389 | `$group` gives one group per category present and no others. Each category's total is its summed amounts, and the group totals add up to the overall total. |
| `Reports.GroupTotalIsCategoryTotal` | api/transaction.js:381-389 | With one group per category, a group's total is the total recorded for its category. |
| `Reports.GroupsHoldCategoryTotals` | api/transaction.js:381-389 | Each group holds exactly the sum of the amounts of its category. |
| `Reports.CategoryReport` | api/transaction.js:301-402 | A missing user id fails first; otherwise the route fails exactly when the bounds fail, with their error. It gives one group per category of the matching transactions; each group's total is the sum of that category's matching amounts, and the group sums add up to their total amount. |
| `Reports.CategoriesPartitionPeriodTotal` | api/transaction.js:301-402 | The category route fails exactly when the period route does, with the same error. Its group sums add up to the period total, one group per category of the matched transactions. |
| `Budgets.CheckBudgetInput` | api/budget.js:15-24 | Empty fields holds exactly when the user id, the category, a truthy amount or either date is missing. "Must be numbers" holds exactly when those pass and the amount or spent amount is not a number. |
| `Budgets.ZeroTextAmountAccepted` | api/budget.js:15-29 | An amount sent as the text "0" passes both checks, so a budget of 0 can be stored, while the number 0 is refused as missing. |
| `Budgets.WithDefaults` | api/budget.js:13 | A missing spent amount becomes 0 and nothing else changes. |
| `Budgets.Overwrite` | api/budget.js:133-141 | A full update sets every listed field from the request. It keeps the creation time, and an absent note keeps the stored note. |
| `Budgets.UserBudgets` | api/budget.js:59 | A budget is among a user's budgets exactly when that user owns it, and it is returned unchanged. |
| `Budgets.UserBudgetsAfterInsert` | api/budget.js:26-37 | A newly stored budget joins its owner's budgets and no one else's. |
| `Budgets.UserBudgetsAfterDelete` | api/budget.js:166-190 | A deleted budget leaves its owner's budgets, and every other budget stays. |
| `Budgets.UserBudgetsAfterSpentUpdate` | api/budget.js:87-118 | A spent-only update leaves every user's set of budget ids as it was. |
| `Budgets.BudgetTable.constructor` | api/budget.js:12-53 | An empty table satisfies the invariant. |
| `Budgets.BudgetTable.Create` | api/budget.js:12-53 | A rejection names the failing check, and an uncastable date fails the save. Both change nothing. Otherwise exactly one budget is stored under the new id with the request's fields, the defaults and the creation time. |
| `Budgets.BudgetTable.ForUser` | api/budget.js:56-80 | The read fails exactly when the user owns no budget; otherwise it returns exactly the user's budgets. |
| `Budgets.BudgetTable.UpdateSpentOnly` | api/budget.js:87-118 | A value that is not a number, or a missing id, changes nothing. Otherwise only that budget's spent amount changes. |
| `Budgets.BudgetTable.UpdateFull` | api/budget.js:119-162 | The create checks apply without the spent-amount default. Rejections, an uncastable date and a missing id each hold exactly under their condition and change nothing. Otherwise only that budget is overwritten. |
| `Budgets.BudgetTable.Delete` | api/budget.js:166-190 | A missing id changes nothing; otherwise exactly that budget is removed and returned. |
| `Budgets.CreateThenRead` | api/budget.js:12-80 | A budget that passes the checks is created and then read back among its owner's budgets. |

## Left out

- HTTP plumbing is not modelled: request parsing, JSON replies, status messages and the order Express tries routes in. Replies are the outcome datatypes. `GET /period/month` in `api/transaction.js` is shadowed by `/period/:period`, and its body is not modelled.
- The read-only transaction routes (`GET /`, `GET /:id`, `GET /user`) only pass a query through to the store and are not modelled. Neither are `updateProfile` and `getProfile` in `api/user.js`, the balance, income and expense route files, the models, or `server.js`.
- Mail delivery is the `mailSent` parameter. The body of the message and the transport are not modelled.
- bcrypt is idealised: `compare` is true exactly for the hashed string, and salt rounds and cost are not modelled. bcrypt reads only the first 72 bytes of its input. So `Credentials.HashOf`'s "no other string" and the wrong-password case of `Credentials.SignInAfterVerification` do not hold for two long passwords that share those 72 bytes. `Math.random`, `uuid`, the clock and the store's new ids are parameters.
- `new Date(string)` (`Date.parse`) is a parameter: `parsedDate` in `Ledger`, the `time` of a `DateField` in `Budgets`. Local time is taken to equal UTC, so time zones and daylight saving are not modelled.
- Store failures are modelled where they change the outcome: the transaction save, the balance save, and the cast of an invalid budget date. Other database errors are not modelled. Neither are Mongoose's casting of ids (`new ObjectId(userId)` throwing on a malformed id) or its schema validation beyond these.
- `Ledger.Ledger.CreateTransaction`: the transaction save and the balance save are two separate writes, as in the source. When the second fails, the transaction stays stored with the old balance, and the balance invariant is not restored.
- `Ledger.Ledger.UpdateBalance`: the read-then-save of `updateBalance` is one atomic step here. Two concurrent updates of one user could lose one of them in the source.
- Numbers are exact: integers for transaction amounts and reals for budget amounts. IEEE-754 rounding, `parseInt` of digit strings too long for a double, `Infinity`, and the difference between `parseFloat` and `Number` coercion are not modelled.
- Query values are `Param` (absent, numeric, or other text). The month and year are taken to be whole numbers when numeric. Fractional values and numeric strings with signs or exponents are not modelled separately.
- Budget body fields are `Field`: missing, a JSON number, a non-empty numeric string that `Number` and `parseFloat` read alike, or a value for which `isNaN` holds. Strings the two read differently, such as whitespace or `"12abc"`, are not modelled. Neither is the difference between `null` and `undefined`.
- `toLowerCase` is modelled on ASCII letters only. Non-ASCII case mappings, such as the Kelvin sign lower-casing to `k`, are not modelled.
- `Budgets.Overwrite`: the full update is given the note from the request. An absent note is modelled as keeping the stored one, which is how Mongoose treats an `undefined` field in an update document.
- The date of birth sent to `/signup` is not stored and is not modelled.
- The code has no budget spend tracking when a transaction is created and no route that updates or deletes a transaction; none is modelled.
- The clock is read once per request. The source reads it twice in places: `Date.now()` for `createdAt` and again for `expiresAt` of a token record, and two `new Date()` values for the start and end of a report. So in the source a token can live a few milliseconds longer than its lifetime, and a day report taken across midnight can span two days. `Credentials.OtpToken`, `Credentials.LinkToken` and the invariant that records expire exactly one lifetime after creation hold only with one reading.
- `Credentials.SignIn` requires unique emails, which every modelled route keeps. `/updateProfile` is not part of this model and can store an email that is already taken. `/signin` then signs in against the first matching account.
- `setDate(getDate() + n)` is modelled as a shift of the day number (`Calendar.ShiftDate`). The standard's route through YearFromTime, MonthFromTime and DateFromTime is not modelled, so `Calendar.ShiftDateByDays` is a fact about that shortcut.
