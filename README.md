# BudgetBee core in Dafny

This project models the server core of BudgetBee, a personal budget tracker. The model has two parts:

- **The ledger.** It covers the `expense_tracker` blueprint: incomes and expenses that belong to the logged-in user, categories created on demand, balances per month, the reset routes, monthly and yearly spreadsheet exports, and account deletion.
- **Accounts.** It covers the `authentication` blueprint: sign-up with email and password validation, login, the forgot-password flow with a one-time code (OTP), the reset-password step, the Google sign-in callback, and the admin accounts created at start-up.

The SQLAlchemy tables are the value `Models.Db`. It holds one `map` from id to row per table, plus a scan bound per table that lies above every id in use. `Models.Valid` is the store invariant:

- emails are unique;
- an OTP hash is stored only together with its timestamp;
- every category, income and expense points at an existing user and category;
- every id is positive and below its table's scan bound.

The database is SQLite and the integer primary keys are declared without AUTOINCREMENT, so a new row gets the rowid one above the largest id in the table (1 when it is empty). `Query.NextRowid` models this. A deleted id can therefore be handed out again once the rows above it are gone, and the model keeps that reuse.

Each route is modelled twice:

- **A pure transition.** `Ledger.*` and `Accounts.*` are functions from the old store (and session) to a status and a new store. They follow the handler's branches in order, so each distinct 400 message is its own `Accounts.Message`.
- **A handler method.** `ExpenseRoutes.*` and `AuthRoutes.*` are methods on the mutable `Store.Database` (the SQLAlchemy session) and `Store.Session` (the Flask session plus `current_user`). Each method's `ensures` says that its reply and new state are exactly the pure transition applied to the old state, and that `Valid()` is preserved.

The properties are proved about the pure transitions as lemmas, in `LedgerInvariant`, `LedgerProperties`, `AccountInvariant` and `AccountProperties`.

Queries are modelled as scans in ascending id order over `[0, bound)`:

- `Query.FirstKey` models `.first()`;
- `Query.SelectKeys` and `Query.Select` model `.all()`.

The clock and the random number generator are parameters:

- `now` is microseconds since the epoch;
- `GenerateOtp` picks any value in range.

Password hashing is modelled as an injective function `Passwords.Hash`, checked by `Passwords.Check`.

The pure transitions and the handlers follow the code as written, including these behaviours:

- `add_income` does no validation of its fields. A date that does not parse or a missing category raises before anything is written (a 500). A missing amount fails only when the row is written, after a new category has been committed;
- a category that was just created is committed before the row that uses it, so a failure after that point leaves the category behind;
- the email check is the regular expression applied with `re.match`, a prefix match. Text after the first `name@domain.tld` part is accepted, and a second `@` before the dot is refused;
- the password check is the regular expression as written, whose `$` also matches before a final newline. `Accounts.PasswordProblem` and both handlers use `Validators.PasswordRegexAsWritten`; the intended rule is `Validators.PasswordPolicy` (see Findings).

Two behaviours that Findings lists as defects are modelled both ways, selected by a flag:

- `forgot_password` sets `otp_verified_user_id` in the session as soon as the code is sent, before anyone verifies it. `Accounts.ForgotPasswordWith` and the handler `AuthRoutes.ForgotPassword` take `flagOnSend`; `true` is the source (`Accounts.ForgotPasswordAsWritten`), `false` the corrected flow (`Accounts.ForgotPassword`);
- `export_monthly_data` ends the month's window at `datetime(year, month + 1, 1)`, which raises for December. `Ledger.MonthlyExport` and the handler `ExpenseRoutes.ExportMonthlyData` take `wrapDecember`; `false` is the source (`Ledger.ExportMonthlyAsWritten`), `true` the corrected window (`Ledger.ExportMonthly`).

## Model

| member | source | states |
|---|---|---|
| Query.FirstKey | backend/expense_tracker/routes.py:29 | `.first()`: the least id in range whose row matches the filter, or None when no row in range matches |
| Query.SelectKeys | backend/expense_tracker/routes.py:261-262 | `.all()`: exactly the ids in range whose rows match, strictly ascending |
| Query.FirstKeyIsFirstSelected | backend/expense_tracker/routes.py:290 | `.first()` is the head of `.all()` for the same filter, and None exactly when `.all()` is empty |
| Query.NextRowid | backend/authentication/models.py:7 | a new SQLite rowid is positive, is 1 or has its predecessor in use, and every id in use lies below it |
| Query.NextRowidReusesTop | backend/config.py:12 | once the row with the largest id is deleted, the next rowid is that id again (when the id below it is taken, or it was 1) |
| Query.SelectKeysAfterInsert | backend/expense_tracker/routes.py:37 | a row added above every id lands at the end of every listing it matches and leaves the others unchanged |
| Query.SelectKeysAnyBound | backend/expense_tracker/routes.py:261-262 | any scan bound above every id in use gives the same `.all()` |
| Query.FirstKeyAnyBound | backend/expense_tracker/routes.py:29 | any scan bound above every id in use gives the same `.first()` |
| Query.NextRowidScan | backend/expense_tracker/routes.py:29-33 | scanning up to the next rowid finds the same rows and the same first row as scanning up to the bound |
| Query.FirstKeyUpdate | backend/expense_tracker/routes.py:99 | rewriting a row without changing whether it matches leaves `.first()` unchanged |
| Calendar.MakeDate | backend/expense_tracker/routes.py:380-381 | `datetime(y, m, d)` succeeds exactly for a real date in years 1..9999 and then holds those fields; otherwise it is the ValueError |
| Calendar.Strptime | backend/expense_tracker/routes.py:25 | `%Y-%m-%d` parses exactly the text of a valid date, giving that date |
| Calendar.MonthNumber | backend/expense_tracker/routes.py:373 | `%B` reads a month name ignoring case: the month returned has that name, and None means no month has it |
| Calendar.MonthNamesDistinct | backend/expense_tracker/routes.py:26 | the twelve English month names differ pairwise even ignoring case |
| Calendar.MonthNumberOfName | backend/expense_tracker/routes.py:373 | reading back the name `%B` wrote for month n gives n |
| Calendar.InMonthWindow | backend/expense_tracker/routes.py:383-385 | a valid date is in [first of the month, first of the next month) iff it is in that month and year |
| Calendar.InYearWindow | backend/expense_tracker/routes.py:405-407 | a valid date is in [1 January y, 1 January y+1) iff its year is y |
| Passwords.CheckHash | backend/authentication/routes.py:90 | `check_password_hash(generate_password_hash(x), y)` holds iff y is x |
| Models.EmptyValid | backend/app_factory.py:37 | the freshly created schema satisfies the store invariant |
| Models.EmailIdentifiesUser | backend/authentication/models.py:9 | email is unique: two users with the same email are the same row |
| Store.Database.constructor | backend/app_factory.py:37 | `create_all` gives empty tables with every scan bound at 1, and the invariant holds |
| Ledger.ResolveCategory | backend/expense_tracker/routes.py:29-33 | the id returned names the category (name, user); only the categories table and its scan bound may change |
| Ledger.GetBalance | backend/expense_tracker/routes.py:255-266 | 400 iff month or year is missing; otherwise balance is income minus expense in both of the source's branches |
| Ledger.WithoutOneMore | backend/expense_tracker/routes.py:318-319 | deleting one more fetched expense removes exactly that id from what is left |
| LedgerProperties.ResolveCategoryIdempotent | backend/expense_tracker/routes.py:29-33 | resolving the same name again returns the same id and changes nothing |
| LedgerProperties.ResolveCategoryLeavesOne | backend/expense_tracker/routes.py:141-145 | if at most one category had the name before, exactly one has it after |
| LedgerProperties.AddExpenseTwiceOneCategory | backend/expense_tracker/routes.py:141-145 | two expenses added under the same new category name share a single category row |
| LedgerProperties.AddIncomeStoresRow | backend/expense_tracker/routes.py:19-39 | add_income is 201 iff amount and category are given and the date parses; the new row then holds the given fields, the user, the category and the derived month name and year, stored under the next rowid, and only the incomes and categories tables change. Otherwise 500: with no parsed date or no category nothing changes; with both given but no amount only the categories table changes, and it then holds the category (name, user) |
| LedgerProperties.AddExpenseStoresRow | backend/expense_tracker/routes.py:129-160 | add_expense is 400 iff a field is missing, with nothing changed; otherwise 201 iff the date parses, with exactly the given row stored under the next rowid and only the expenses and categories tables changed, and 500 if not, with only the categories table changed and holding the category (name, user) |
| LedgerProperties.UpdateIncomeRewritesRow | backend/expense_tracker/routes.py:68-106 | update_income is 400 iff a field is missing, then 404 iff the row is not the caller's, both with nothing changed; otherwise 200 iff the date parses, with only that row rewritten with the new fields |
| LedgerProperties.UpdateExpenseRewritesRow | backend/expense_tracker/routes.py:189-229 | the same for update_expense, with the description included |
| LedgerProperties.DeleteRemovesOwnRow | backend/expense_tracker/routes.py:110-125 | delete_income and delete_expense succeed iff the caller owns the row, remove only that row, and are 404 with nothing changed otherwise |
| LedgerProperties.ResetIncomeZeroesFirstMatch | backend/expense_tracker/routes.py:280-302 | reset_income is 404 with nothing changed iff the period has no income; otherwise it zeroes the amount of the first such income and touches no other row |
| LedgerProperties.ResetExpensesClearsPeriod | backend/expense_tracker/routes.py:306-329 | reset_expenses is 404 with nothing changed iff the period has no expense; otherwise it deletes exactly the caller's expenses of that period, leaving an expense total of 0 |
| LedgerProperties.AddIncomeRaisesIncomeTotal | backend/expense_tracker/routes.py:261-264 | after add_income the balance route's income total for that period grows by exactly the amount |
| LedgerProperties.AddExpenseRaisesExpenseTotal | backend/expense_tracker/routes.py:262-265 | after add_expense the expense total for that period grows by exactly the amount |
| LedgerProperties.ExpenseWindowIsPeriod | backend/expense_tracker/routes.py:383-385 | an expense is in the monthly export's date window iff its stored month and year are that period |
| LedgerProperties.MonthlyExportMatchesBalance | backend/expense_tracker/routes.py:376-388 | with December's window corrected, for a named month the monthly export holds exactly the rows the balance route sums for that period, and is 404 iff there are none |
| LedgerProperties.MonthlyExportWindow | backend/expense_tracker/routes.py:376-388 | with December's window corrected, for any month name `%B` accepts, the export gathers the period's incomes and the expenses dated inside that month's window |
| LedgerProperties.MonthWindowIsPeriod | backend/expense_tracker/routes.py:383-385 | selecting by date window and by stored period give the same expense list |
| LedgerProperties.DecemberExportAsWrittenRejected | backend/expense_tracker/routes.py:380-381 | as written, exporting December of any year answers 400 |
| LedgerProperties.DecemberExportCorrected | backend/expense_tracker/routes.py:380-381 | with the year rolled over, the December export is not refused |
| LedgerProperties.YearlyExportSelectsYear | backend/expense_tracker/routes.py:400-410 | the yearly export lists exactly the caller's incomes and expenses of that year (the current year by default); 500 iff the year is outside what `datetime` holds, 404 iff nothing is found |
| LedgerInvariant.ResolveCategoryKeepsValid | backend/expense_tracker/routes.py:29-33 | creating a category on demand preserves the store invariant |
| LedgerInvariant.ResolveCategoryLeavesOthers | backend/expense_tracker/routes.py:29-33 | other users' holdings are unchanged |
| LedgerInvariant.AddIncomeKeepsValid | backend/expense_tracker/routes.py:19-39 | add_income preserves the store invariant |
| LedgerInvariant.AddIncomeLeavesOthers | backend/expense_tracker/routes.py:19-39 | add_income leaves other users' rows unchanged |
| LedgerInvariant.UpdateIncomeKeepsValid | backend/expense_tracker/routes.py:68-106 | update_income preserves the store invariant |
| LedgerInvariant.UpdateIncomeLeavesOthers | backend/expense_tracker/routes.py:68-106 | update_income leaves other users' rows unchanged |
| LedgerInvariant.AddExpenseKeepsValid | backend/expense_tracker/routes.py:129-160 | add_expense preserves the store invariant |
| LedgerInvariant.AddExpenseLeavesOthers | backend/expense_tracker/routes.py:129-160 | add_expense leaves other users' rows unchanged |
| LedgerInvariant.UpdateExpenseKeepsValid | backend/expense_tracker/routes.py:189-229 | update_expense preserves the store invariant |
| LedgerInvariant.UpdateExpenseLeavesOthers | backend/expense_tracker/routes.py:189-229 | update_expense leaves other users' rows unchanged |
| LedgerInvariant.DeleteKeepsValid | backend/expense_tracker/routes.py:233-248 | both delete routes preserve the store invariant |
| LedgerInvariant.DeleteLeavesOthers | backend/expense_tracker/routes.py:233-248 | a delete never removes another user's row |
| LedgerInvariant.ResetIncomeKeepsValid | backend/expense_tracker/routes.py:290-295 | reset_income preserves the store invariant |
| LedgerInvariant.ResetIncomeLeavesOthers | backend/expense_tracker/routes.py:290-295 | reset_income leaves other users' rows unchanged |
| LedgerInvariant.ResetExpensesKeepsValid | backend/expense_tracker/routes.py:316-322 | reset_expenses preserves the store invariant |
| LedgerInvariant.ResetExpensesLeavesOthers | backend/expense_tracker/routes.py:316-322 | reset_expenses leaves other users' rows unchanged |
| LedgerInvariant.DeleteAccountKeepsValid | backend/expense_tracker/routes.py:423-440 | delete_account preserves the store invariant |
| LedgerInvariant.DeleteAccountRemovesOnlyCaller | backend/expense_tracker/routes.py:423-440 | delete_account removes the user and all their rows and leaves every other user's holdings unchanged |
| ExportView.ExportToXlsx | backend/expense_tracker/views.py:68-93 | the sheet written row by row equals the layout: header, income rows, expense rows, totals, summary |
| ExportView.LayoutShape | backend/expense_tracker/views.py:74-93 | the sheet is the header, then one row per income in order, then one row per expense in order, then the four totals and summary rows |
| ExportView.IncomeRowsAt | backend/expense_tracker/views.py:77-78 | row i of the income block shows income i with its category name |
| ExportView.ExpenseRowsAt | backend/expense_tracker/views.py:81-82 | row i of the expense block shows expense i with its category name |
| ExpenseRoutes.GetOrCreateCategory | backend/expense_tracker/routes.py:29-33 | the handler's in-place lookup-or-insert equals `Ledger.ResolveCategory`, keeps the invariant, and returns a category owned by the caller |
| ExpenseRoutes.AddIncome | backend/expense_tracker/routes.py:19-39 | status and new tables equal `Ledger.AddIncome` of the old tables; invariant kept |
| ExpenseRoutes.UpdateIncome | backend/expense_tracker/routes.py:68-106 | equals `Ledger.UpdateIncome`; invariant kept |
| ExpenseRoutes.DeleteIncome | backend/expense_tracker/routes.py:110-125 | equals `Ledger.DeleteIncome`; invariant kept |
| ExpenseRoutes.AddExpense | backend/expense_tracker/routes.py:129-160 | equals `Ledger.AddExpense`; invariant kept |
| ExpenseRoutes.UpdateExpense | backend/expense_tracker/routes.py:189-229 | equals `Ledger.UpdateExpense`; invariant kept |
| ExpenseRoutes.DeleteExpense | backend/expense_tracker/routes.py:233-248 | equals `Ledger.DeleteExpense`; invariant kept |
| ExpenseRoutes.ResetIncome | backend/expense_tracker/routes.py:280-302 | equals `Ledger.ResetIncome`; invariant kept |
| ExpenseRoutes.ResetExpenses | backend/expense_tracker/routes.py:306-329 | the delete loop equals `Ledger.ResetExpenses`; invariant kept |
| ExpenseRoutes.ExportMonthlyData | backend/expense_tracker/routes.py:364-395 | the status and rows equal `Ledger.MonthlyExport` with the same `wrapDecember` laid out by `ExportView.Layout`; `false` is the source's window, `true` the corrected one |
| ExpenseRoutes.ExportYearlyData | backend/expense_tracker/routes.py:399-415 | the status and rows equal `Ledger.ExportYearly` laid out by `ExportView.Layout` |
| ExpenseRoutes.DeleteAccount | backend/expense_tracker/routes.py:419-448 | equals `Ledger.DeleteAccount`; invariant kept |
| Validators.EmailMatchesIff | backend/authentication/routes.py:31-33 | the scan accepts exactly the strings that have a `local@domain.tld` prefix as the regular expression describes |
| Validators.PasswordRegexAsWrittenIff | backend/authentication/routes.py:39 | as written, the regular expression accepts exactly the policy passwords and the policy passwords followed by one newline |
| Validators.AsWrittenMatchIsPolicyPrefix | backend/authentication/routes.py:39 | a match as written is a policy password, possibly followed by a single final newline |
| Validators.NewlineAfterPolicyMatches | backend/authentication/routes.py:39 | a policy password followed by a newline is accepted as written |
| Validators.NoNewlineInPolicy | backend/authentication/routes.py:39 | a password meeting the intended policy has no newline and meets all three lookaheads |
| Validators.TrailingNewlineAccepted | backend/authentication/routes.py:39 | `"Abc12@\n"` passes the expression as written but breaks the policy |
| Otp.Str | backend/authentication/views.py:207 | `str(n)` is non-empty and starts with a minus sign iff n is negative |
| Otp.NatToStringInjective | backend/authentication/views.py:207 | different naturals have different decimal texts |
| Otp.StrInjective | backend/authentication/views.py:207 | different integers have different `str` texts, so the stored hash pins down the code |
| Otp.OtpHasSixDigits | backend/authentication/views.py:165-166 | every code in range is written with exactly six digits |
| Otp.GenerateOtp | backend/authentication/views.py:165-166 | the code is in [100000, 999999] |
| Otp.SaveOtp | backend/authentication/views.py:206-210 | keeps name, email, password and admin flag, and stores the code's hash together with its timestamp |
| Otp.SavedOtpVerifies | backend/authentication/views.py:213-219 | after save_otp, verify_otp accepts exactly the saved code's text within ten minutes |
| Otp.OtpWindowInclusive | backend/authentication/views.py:217 | a code exactly ten minutes old is still accepted and one a microsecond older is not |
| Otp.ReissueInvalidates | backend/authentication/views.py:206-210 | after a new code is saved, the previous different code no longer verifies |
| Otp.OtpVerifiesThroughoutWindow | backend/authentication/views.py:213-219 | a saved code verifies at every moment from saving to ten minutes later |
| Accounts.GoogleLogin | backend/authentication/views.py:54-56 | 500 iff Google sign-in is not configured, otherwise the redirect |
| AccountInvariant.SignupKeepsValid | backend/authentication/routes.py:43-54 | sign-up preserves the store invariant, email uniqueness included |
| AccountInvariant.ForgotPasswordKeepsValid | backend/authentication/routes.py:154-173 | forgot_password preserves the store invariant, whichever session flag it sets |
| AccountInvariant.ResetPasswordKeepsValid | backend/authentication/routes.py:233-237 | reset_password preserves the store invariant |
| AccountInvariant.GoogleCallbackKeepsValid | backend/authentication/views.py:106-117 | the Google callback preserves the store invariant |
| AccountInvariant.AddAdminsGrows | backend/authentication/views.py:128-140 | the admin loop keeps every existing user unchanged and adds users only under fresh ids, each with no OTP |
| AccountInvariant.CreateAdminUsersKeepsValid | backend/authentication/views.py:121-148 | the start-up bootstrap preserves the store invariant |
| AccountProperties.EmailFound | backend/authentication/routes.py:88 | with unique emails, the lookup by email finds the user holding that email |
| AccountProperties.PasswordProblemIff | backend/authentication/routes.py:35-41 | the password is refused iff the expression as written refuses it, that is iff it is neither a policy password (at least 6 characters from the allowed set, with a letter, a digit and a symbol) nor one followed by a single newline; the message is one of the two password messages |
| AccountProperties.SignupOutcome | backend/authentication/routes.py:20-58 | 201 iff all fields are given, the email matches, the password passes the expression as written, and the email is new; then one user is inserted under the next rowid with the hashed password; otherwise 400 and nothing changes |
| AccountProperties.SignupAcceptsTrailingNewline | backend/authentication/routes.py:39-41 | as written, sign-up with a fresh email and the password `Abc12@` followed by a newline answers 201 |
| AccountProperties.SignupDuplicateRefused | backend/authentication/routes.py:43-47 | a second sign-up with a registered email is refused and changes nothing |
| AccountProperties.SignupMissingFieldRefused | backend/authentication/routes.py:27-29 | a missing field is refused before any other check |
| AccountProperties.PasswordRuleShared | backend/authentication/routes.py:207-214 | reset_password refuses a new password exactly when sign-up would (when the expression as written refuses it), with the same message |
| AccountProperties.LoginOutcome | backend/authentication/routes.py:66-102 | 200 iff both fields are given and a user with that email has that password, and that user is then logged in; otherwise 400 with the session kept; the store never changes |
| AccountProperties.LoginAfterSignup | backend/authentication/routes.py:88-97 | after a successful sign-up, logging in with the same email and password succeeds as that user |
| AccountProperties.FindAfterSaveOtp | backend/authentication/views.py:206-210 | saving a code does not change who the email lookup finds |
| AccountProperties.VerifyOtpRouteOutcome | backend/authentication/routes.py:176-194 | 200 iff the email is registered and its saved code verifies; then the session marks that user verified; otherwise the session is kept |
| AccountProperties.ForgotThenVerify | backend/authentication/routes.py:154-194 | after forgot_password, verify_otp_route succeeds iff the code is the one sent and it is within ten minutes |
| AccountProperties.ReissuedCodeRejected | backend/authentication/routes.py:166-167 | after a second forgot_password, the first code is rejected |
| AccountProperties.ResetPasswordOutcome | backend/authentication/routes.py:197-239 | 403 iff the passwords pass the expression as written but no user is verified in the session; 200 iff everything holds; then only that user's password changes and the flag is cleared |
| AccountProperties.ResetWithoutCodeAsWritten | backend/authentication/routes.py:171 | as written, forgot_password followed directly by reset_password changes the password with no code ever verified |
| AccountProperties.ResetNeedsVerifiedCode | backend/authentication/routes.py:217-220 | with the flag set only by verify_otp_route, the same sequence is refused with 403 |
| AccountProperties.GoogleCallbackOutcome | backend/authentication/views.py:69-119 | unconfigured or unverified email gives 500 and no change; a known email logs that user in; a new one is inserted and logged in |
| AccountProperties.GoogleCallbackIdempotent | backend/authentication/views.py:106-117 | a second callback with the same profile leaves the store as the first left it and logs in the same user |
| AccountProperties.GoogleUnconfiguredRefused | backend/authentication/views.py:54-71 | without configuration both Google routes answer 500 and change nothing |
| AccountProperties.AddAdminsNamesPresent | backend/authentication/views.py:128-140 | after the admin loop, every listed name is held by some user |
| AccountProperties.AddAdminsKeepsNames | backend/authentication/views.py:128-140 | names already present stay present |
| AccountProperties.AddAdminsNoop | backend/authentication/views.py:128-140 | when every listed name already exists, the loop changes nothing |
| AccountProperties.AdminKeyedOnName | backend/authentication/views.py:129-137 | an entry is skipped iff its name exists; otherwise exactly one user with its fields is added |
| AccountProperties.CreateAdminUsersIdempotent | backend/authentication/views.py:121-142 | running the bootstrap again on its own result changes nothing |
| AccountProperties.AdminEmailClashAborts | backend/authentication/views.py:137-142 | an admin whose name is new but whose email is taken fails the commit, and start-up aborts with the store unchanged |
| AuthRoutes.SignupPost | backend/authentication/routes.py:20-58 | reply and new tables equal `Accounts.Signup` of the old state, whose password check is the expression as written; invariant kept |
| AuthRoutes.LoginPost | backend/authentication/routes.py:66-102 | reply and new session equal `Accounts.Login`; tables unchanged |
| AuthRoutes.StoreOtp | backend/authentication/views.py:206-210 | the user's row becomes `Otp.SaveOtp` of the old row and nothing else changes |
| AuthRoutes.ForgotPassword | backend/authentication/routes.py:154-173 | a code in range is generated iff the reply is 200, and reply, tables and session equal `Accounts.ForgotPasswordWith` for that code and the same `flagOnSend`; `true` is the source, which marks the session verified when the code is sent |
| AuthRoutes.VerifyOtpPost | backend/authentication/routes.py:176-194 | equals `Accounts.VerifyOtpRoute`; tables unchanged |
| AuthRoutes.ResetPasswordPost | backend/authentication/routes.py:197-239 | equals `Accounts.ResetPassword`, whose password check is the expression as written; invariant kept |
| AuthRoutes.GoogleCallbackGet | backend/authentication/views.py:69-119 | equals `Accounts.GoogleCallback`; invariant kept |
| AuthRoutes.CreateAdminUsers | backend/authentication/views.py:121-148 | the admin loop equals `Accounts.CreateAdminUsers`; the store changes only when start-up commits |
| SessionProperties.StaleFlagReachesReusedId | backend/expense_tracker/routes.py:419-440 | delete_account logs out but leaves `otp_verified_user_id`; if the deleted user had the largest id, the next sign-up reuses it and a reset_password from the old session rewrites the new user's password |

## Left out

- Flask routing, JSON parsing and response bodies. A request field is an `Option` (absent or given); JSON values of the wrong type are not modelled, and falsy values are modelled only for strings and numbers.
- Salted, one-way PBKDF2 hashing: `Passwords.Hash` is an injective stand-in, so only "checks iff equal" is modelled.
- Sending email: `send_otp_email`, `load_email_config` and `send_feedback_email` are I/O.
- The workbook file: `ExportView` models the rows that `export_to_xlsx` writes, not the xlsx encoding, the date formatting or the HTTP download.
- Float amounts: amounts are integers, so rounding is not modelled.
- `\d` and `[A-Za-z]` are ASCII classes in the model; Python's Unicode digits are not modelled. Case folding of month names is ASCII only.
- The `created_at` timestamps and the column length limits (`String(n)`), which SQLite does not enforce.
- The OAuth redirect and token exchange: the callback receives the Google profile as a parameter. A JSON null `given_name` is not distinguished from a missing one.
- `view_income`, `get_expenses`, `submit_feedback`, `list_users`, `profile`, `get_user_profile`, `logout` and `login_get`: read-only or I/O routes outside this model. The form variant and `remember` flag of `login_post` are left out too.
- The admin file: its contents are a parameter. A missing key (KeyError) and `OperationalError` are not modelled; a missing or unreadable file is the `None` case.
- Otp.GenerateOtp: the random source is replaced by a nondeterministic choice in range, so uniformity is not stated.
- The clock is a parameter `now`, in microseconds.
- Database errors other than the unique-email constraint, for example a rollback after a driver failure, are not modelled.

## Findings

| source | as written | input that shows it | evidently intended | confidence | as-written member | corrected member |
|---|---|---|---|---|---|---|
| backend/expense_tracker/routes.py:380-381 | the end of the month window is built as month + 1 of the same year | `month=December`, any year: `datetime(y, 13, 1)` raises ValueError, so the reply is 400 | December's window ends on 1 January of the next year | high, not executed | LedgerProperties.DecemberExportAsWrittenRejected | LedgerProperties.DecemberExportCorrected |
| backend/authentication/routes.py:171 | forgot_password stores `otp_verified_user_id` when the code is sent | forgot_password for a registered email, then reset_password with `Abc12@`/`Abc12@` and no verify_otp call: the password is changed | only verify_otp_route marks the session verified | high, not executed | AccountProperties.ResetWithoutCodeAsWritten | AccountProperties.ResetNeedsVerifiedCode |
| backend/authentication/routes.py:39 | `$` in the password expression also matches before a final newline | `Abc12@\n` is accepted at sign-up and at reset | only the listed characters are allowed | medium, not executed | AccountProperties.SignupAcceptsTrailingNewline | Validators.NoNewlineInPolicy |
