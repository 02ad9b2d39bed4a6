# SecureBank ledger model

SecureBank is a small web bank. Customers register an account with an
opening deposit, log in with their account number and password, and then credit
or debit the account from a dashboard. This project models the money path and
the rules around it in Dafny:

- **Transaction route** (`ledger.dfy`, `transaction.dfy`, `bank.dfy`). The
  database is the class `Bank.Bank`, with the accounts table as two maps
  (profiles and balances) and the transactions table as a sequence of
  entries. `Bank.Bank.Transact` follows the route's steps in order:
  validate, lock and read the balance, refuse an overdraft, update the
  balance, insert the entry, commit, and roll back on every early exit.
  It is proved to do what the reference function `Transaction.Apply`
  defines. Lemmas about `Apply` state the route's promises: all-or-nothing,
  one entry per success, balances never negative, and conservation of every
  balance against the ledger over any sequence of calls.
- **Register route** (`registration.dfy`, `bank.dfy`). The validation chain
  runs in source order, then the duplicate-email check, the retry loop that
  picks a fresh nine-digit account number, and the atomic insert of the account
  with its "Initial deposit" credit. `Bank.Bank.Register` and its loop
  `Bank.Bank.NewAccountNumber` are proved against `Registration.Register`.
- **Login route** (`login.dfy`). A read-only lookup and a hash check. The
  unknown-account and wrong-password failures give the same answer.
- **Registration page** (`register_form.dfy`). `validateField` for all six
  fields, the five-criterion password score, the strength bar's colour and
  label, and the all-fields-valid gate of `handleSubmit`. The shapes of the
  regular expressions are in `text.dfy`.
- **Dashboard** (`dashboard.dfy`). The rows the transactions route returns
  (newest first, at most fifty), the five most recent transactions, the
  credit and debit totals, and the guards and default description of
  `handleTransaction`.

Several inputs from outside the code are parameters:

- Money is integer cents.
- `Fault` says where a database unit of work fails, if it does: the
  connection (in the transaction and login routes also the first read), the
  first write, the second write, or the commit.
- bcrypt's `hash` is the `hashed` argument and bcrypt's `compare` is the
  `verify` function.
- `Math.random` is the sequence `draws`. Each draw is
  `Math.floor(Math.random() * 900000000)`, so it lies in `0 .. 899999999`.
- `Number.parseFloat` on the pages is the function `parse`, which gives None
  for NaN and otherwise the number in cents.

The route's `!x` tests on strings treat an absent or empty field the same,
so a missing string field is modelled as `""`.

## Model

| member | source | states |
|---|---|---|
| `Ledger.NetIsHistorySum` | app/api/transaction/route.ts:51-61 | an account's signed ledger sum is the signed sum of its own history |
| `Transaction.Status` | app/api/transaction/route.ts:17-78 | status 200 exactly for success; 400 exactly for invalid data, invalid type and insufficient balance; 404 exactly for an unknown account; 500 exactly for a server error |
| `Transaction.Message` | app/api/transaction/route.ts:17-78 | every answer has a text; "Insufficient balance" exactly for the overdraft refusal, the same text as the dashboard's guard; "Transaction successful" exactly for success |
| `Transaction.ParseKind` | app/api/transaction/route.ts:21-23 | only "credit" and "debit" are accepted, and the kind maps back to the same text |
| `Transaction.Validate` | app/api/transaction/route.ts:17-23 | the request passes exactly when it is well formed; a missing account, type or positive amount is invalid data, checked before the type |
| `Transaction.Apply` | app/api/transaction/route.ts:17-69 | every non-success leaves the store unchanged; each error occurs exactly under its condition, in source order; on success the new balance is old ± amount, it is the balance now stored, no other balance or profile changes, and exactly the one entry is appended |
| `Transaction.ApplyPreservesConsistency` | app/api/transaction/route.ts:45-61 | a call keeps every balance non-negative and equal to its signed ledger sum, and every entry on an existing account |
| `Transaction.DebitOfWholeBalance` | app/api/transaction/route.ts:45-51 | a debit of exactly the balance succeeds and leaves 0 (the check is a strict `<`) |
| `Transaction.RunConserves` | app/api/transaction/route.ts:51-64 | after any sequence of calls, the set of accounts is unchanged, the old entries are a prefix, and each balance is its start plus the signed sum of the entries appended for it |
| `Transaction.CreditThenDebitCancel` | app/api/transaction/route.ts:45-61 | an accepted credit and then a debit of the same amount restore every balance and add two entries |
| `Transaction.DebitThenCreditCancel` | app/api/transaction/route.ts:45-61 | an accepted debit within the balance and then a credit of the same amount restore every balance and add two entries |
| `Transaction.JointOverdraftRefused` | app/api/transaction/route.ts:45-48 | of two debits that together overdraw, the second is refused without changing anything |
| `Bank.Bank.Rollback` | app/api/transaction/route.ts:70-72 | a rollback restores the state saved when the unit began |
| `Bank.Bank.Transact` | app/api/transaction/route.ts:12-80 | the step-by-step route keeps the store consistent, and its outcome and new state are exactly `Transaction.Apply` of the old state |
| `Text.Trim` | app/register/page.tsx:79 | the trimmed string is no longer than the input and neither starts nor ends with whitespace |
| `Text.TrimBounds` | app/register/page.tsx:79 | trim keeps exactly the stretch between the first and the last non-whitespace character |
| `Text.NameShape` | app/register/page.tsx:79 | the fullName rule, trimmed length at least 2 and only letters and whitespace; a valid name has at least two characters |
| `Text.NameShapeIff` | app/register/page.tsx:79 | a full name is valid iff it consists only of letters and whitespace and holds at least two letters |
| `Text.EmailShape` | app/api/register/route.ts:38-41 | the e-mail pattern as three runs free of whitespace and '@' around '@' and '.'; an accepted address has at least five characters |
| `Text.EmailShapeIff` | app/api/register/route.ts:38-41 | the e-mail pattern accepts exactly the whitespace-free strings with a single '@', not first, followed by a '.' with characters on both sides |
| `Text.PhoneShape` | app/register/page.tsx:88-89 | the phone pattern, an optional '+' and then at least ten class characters; an accepted number has at least ten characters |
| `Text.PhoneShapeIff` | app/register/page.tsx:88-89 | a phone number is valid iff it is an optional '+' and then at least ten characters, each a digit, whitespace, '-' or '$' |
| `Text.NatToDecimal` | app/api/register/route.ts:15 | toString of a number is a non-empty digit string without a leading zero |
| `Text.DecimalRoundTrip` | app/api/register/route.ts:15 | reading the decimal rendering back gives the number |
| `Text.DecimalLength` | app/api/register/route.ts:15 | a number between 10^(k-1) and 10^k renders as k digits |
| `Registration.GenerateAccountNumber` | app/api/register/route.ts:14-16 | an account number is nine digits without a leading zero and reads back as 100000000 plus the draw |
| `Registration.GenerateInjective` | app/api/register/route.ts:14-16 | distinct draws give distinct account numbers |
| `Registration.PickFrom` | app/api/register/route.ts:84-93 | the loop from attempt k finds the first free candidate among the first ten, and every earlier one is taken |
| `Registration.PickAccountNumber` | app/api/register/route.ts:84-93 | the chosen number is the first of the first ten candidates that is not an account yet; None means all ten are taken |
| `Registration.Validate` | app/api/register/route.ts:28-46 | the first failing check decides the error, in the order missing field, deposit under $10 or NaN, e-mail shape, password under 6 characters; passing means all hold |
| `Registration.Register` | app/api/register/route.ts:28-140 | only success changes the store; each error occurs exactly under its condition, in source order; success adds exactly the fresh nine-digit account with the deposit as balance and exactly its "Initial deposit" credit |
| `Registration.AddAccountKeepsConsistency` | app/api/register/route.ts:98-126 | adding a fresh account with a positive opening balance, an unused e-mail address and its one opening credit keeps balances equal to their ledger sums and e-mail addresses unique |
| `Registration.RegisterPreservesConsistency` | app/api/register/route.ts:98-126 | a registration keeps balances equal to their ledger sums and e-mail addresses unique |
| `Registration.RegisteredHistory` | app/api/register/route.ts:110-115 | a new account's history is exactly its one initial credit, whose amount is its balance |
| `Registration.ExhaustedCreatesNothing` | app/api/register/route.ts:84-93 | when all ten candidates are taken the call fails and the store is unchanged |
| `Bank.Bank.EmailInUse` | app/api/register/route.ts:70-74 | the scan of the accounts for the address finds a row exactly when some account has that address (`Registration.EmailRegistered`) |
| `Bank.Bank.NewAccountNumber` | app/api/register/route.ts:79-93 | the do-while loop returns exactly the number `Registration.PickAccountNumber` picks, or fails when it does |
| `Bank.Bank.Register` | app/api/register/route.ts:18-140 | the step-by-step route keeps the store consistent, and its outcome and new state are exactly `Registration.Register` of the old state |
| `Auth.Login` | app/api/login/route.ts:13-57 | missing fields, a database failure, bad credentials and success each occur exactly under their conditions; success returns the stored number and name; a function of the profiles, so nothing is written |
| `Auth.Status` | app/api/login/route.ts:19-55 | status 200 exactly for success, 400 exactly for missing fields, 401 exactly for bad credentials, 500 exactly for a server error |
| `Auth.Message` | app/api/login/route.ts:19-55 | every answer has a text, and "Invalid account number or password" is the text of bad credentials and of nothing else |
| `Auth.FailuresIndistinguishable` | app/api/login/route.ts:32-43 | an unknown account and a wrong password give the same outcome, status 401 and message |
| `Auth.LoginDependsOnlyOnAccount` | app/api/login/route.ts:27-49 | two stores that agree on the account's hash and name give the same answer |
| `Bank.RegisterThenLogin` | app/api/login/route.ts:36-49 | after a registration, logging in with the same password (for a hash verify accepts) succeeds with the new number and name |
| `Bank.TransactionKeepsLogins` | app/api/transaction/route.ts:54-61 | no transaction call changes the answer of any login |
| `RegisterForm.Satisfied` | app/register/page.tsx:99-104 | the count of criteria met is at most their number, and equals it exactly when all hold |
| `RegisterForm.Strength` | app/register/page.tsx:93-104 | the score is a multiple of 20 between 0 and 100 |
| `RegisterForm.StrongIffAtLeastFour` | app/register/page.tsx:99-107 | the score is at least 80 exactly when at least four of the five criteria hold |
| `RegisterForm.StrengthColor` | app/register/page.tsx:182-186 | red exactly below 40, yellow exactly from 40 to 79, blue exactly from 80 |
| `RegisterForm.StrengthText` | app/register/page.tsx:188-192 | "Weak" exactly below 40, "Medium" exactly from 40 to 79, "Strong" exactly from 80 |
| `RegisterForm.CheckField` | app/register/page.tsx:73-122 | a field's message starts with the tick exactly when the field is valid |
| `RegisterForm.CheckFieldRules` | app/register/page.tsx:77-122 | each of the six fields is valid exactly under its rule: the name, e-mail and phone patterns; at least four password criteria; a non-empty confirmation equal to the password; a deposit that reads as a number of at least $10 |
| `RegisterForm.ChangeKeepsChecks` | app/register/page.tsx:124-133 | recording a value together with its check keeps every field other than the confirmation showing the check of its current value |
| `RegisterForm.StrengthTextAgrees` | app/register/page.tsx:107-111 | the label is "Strong" exactly when the password field is valid, and "Weak" and "Medium" exactly when its message is |
| `RegisterForm.ShortPasswordPassesPage` | app/register/page.tsx:93-107 | "Aa1!" passes the page's password rule, yet a request with it that is valid in every other respect is refused by the register route as too short |
| `RegisterForm.Form.PasswordStrength` | app/register/page.tsx:99-104 | the `strength += 20` steps compute the score |
| `RegisterForm.Form.ValidateField` | app/register/page.tsx:73-128 | only the named field's entry of the validation state changes (and the score, for the password) |
| `RegisterForm.Form.HandleChange` | app/register/page.tsx:130-134 | the value is recorded and checked, and the form's invariant is kept |
| `RegisterForm.Form.HandleSubmit` | app/register/page.tsx:136-147 | the form is sent exactly when every field is valid; otherwise the error message is shown and nothing is sent |
| `RegisterForm.Form.AllValid` | app/register/page.tsx:142 | the gate over every entry of the validation state; passing it means no field is still unchecked |
| `RegisterForm.Form.SubmitDisabled` | app/register/page.tsx:608 | the button's `every` over the validation values; disabled while loading and while any field is unchecked |
| `RegisterForm.SubmitGate` | app/register/page.tsx:142-147 | passing the gate means every field except the confirmation meets its rule as it stands now |
| `RegisterForm.ButtonMatchesGate` | app/register/page.tsx:608 | the button's test over the values is enabled exactly when nothing is loading and handleSubmit's test over the entries would pass |
| `Dashboard.Recent` | app/dashboard/page.tsx:154 | the recent list is the first min(5, n) transactions, a prefix in the same order |
| `Dashboard.OfKind` | app/dashboard/page.tsx:155-156 | the filter keeps exactly the transactions of the kind, each as often as it occurs in the input |
| `Dashboard.OfKindAppend` | app/dashboard/page.tsx:155-156 | the filter splits over concatenation |
| `Dashboard.Sum` | app/dashboard/page.tsx:155-156 | the `reduce` of amounts is never negative when no amount is |
| `Dashboard.TotalCredits` | app/dashboard/page.tsx:155 | getTotalCredits is never negative when no amount is, and 0 when there is no credit |
| `Dashboard.TotalDebits` | app/dashboard/page.tsx:156 | getTotalDebits is never negative when no amount is, and 0 when there is no debit |
| `Dashboard.TotalsPartition` | app/dashboard/page.tsx:155-156 | credits plus debits is the sum of all amounts; both are 0 for no transactions |
| `Dashboard.SumAppend` | app/dashboard/page.tsx:155-156 | the running sum splits over concatenation |
| `Dashboard.Rows` | app/dashboard/page.tsx:91-97 | an account's history as rows, one per entry in ledger order, with its type, amount and description |
| `Dashboard.TotalsMatchLedger` | app/dashboard/page.tsx:155-156 | over one account's history, credits minus debits is its signed ledger sum |
| `Dashboard.Reversed` | app/dashboard/page.tsx:91-97 | the rows in the opposite order, position by position, as the transactions route's `ORDER BY created_at DESC` returns them |
| `Dashboard.TotalsOfReversed` | app/dashboard/page.tsx:155-156 | the totals do not depend on the rows being newest first |
| `Dashboard.Fetched` | app/dashboard/page.tsx:91-97 | the transactions the page fetches are the transactions route's answer (`ORDER BY created_at DESC LIMIT 50`): the newest entry first and at most fifty rows |
| `Dashboard.TotalsMatchBalance` | app/dashboard/page.tsx:155-156 | for an account of a consistent store with at most fifty entries, credits minus debits over the rows the route returns is its balance |
| `Dashboard.Guard` | app/dashboard/page.tsx:104-112 | an empty or non-positive amount is refused first; a debit above the shown balance is refused next; a NaN amount passes both |
| `Dashboard.DefaultDescription` | app/dashboard/page.tsx:127 | an empty description becomes "Credit transaction" or "Debit transaction"; any other is kept |
| `Dashboard.RequestOf` | app/dashboard/page.tsx:119-128 | the posted body carries the kind the route parses back, the parsed amount and a non-empty description; it is well formed exactly when there is an account number and a positive amount |
| `Dashboard.GuardMirrorsServer` | app/dashboard/page.tsx:109-112 | against the shown balance, the page refuses a debit exactly when the route would answer insufficient balance, and lets it through exactly when the route would succeed |
| `Dashboard.NaNReachesServer` | app/dashboard/page.tsx:104-107 | an unreadable amount passes the page's guards and the route rejects it as invalid data, with the store unchanged |
| `Dashboard.Page.HandleTransaction` | app/dashboard/page.tsx:103-128 | a guard's message is shown and nothing is sent, or the message is cleared, loading starts and the request body is returned |
| `Dashboard.Page.CompleteTransaction` | app/dashboard/page.tsx:131-146 | success shows "Credit successful!" or "Debit successful!" and clears the inputs; an error shows the route's message; a thrown fetch shows the generic error; loading ends |

## Left out

- Floating point: amounts and balances are integer cents. `parseFloat` rounding, `Number` arithmetic on balances and the DECIMAL column type are not modelled, and neither are JSON amounts that are strings rather than numbers.
- Concurrency: the `SELECT ... FOR UPDATE` row lock and interleaved requests. Each route call is one atomic step.
- A failure of `beginTransaction` or of the locking `SELECT` in the transaction route has the same effect as a connection failure (status 500, nothing changed). `ConnectFails` stands for all three.
- An undefined `description` in a request, which the database driver would reject, is merged with the empty string.
- `NOW()` timestamps, the `date` column and `toLocaleDateString` are left out. `ORDER BY created_at DESC` is modelled as reverse ledger order; entries created within the same timestamp may come back in another order.
- The table's auto-increment `id` of a transaction row is not modelled; a row's id is its position in the account's history.
- Dashboard.TotalsMatchBalance: for an account with more than fifty entries the dashboard's totals cover only the newest fifty, and no relation to the balance is stated.
- JSON parsing and its `SyntaxError` answer, `console.log`, and creating and closing connections.
- Transaction.Apply: a failure of `connection.end()` in the `finally` of the transaction route is not modelled. After the commit the outer catch then answers 500 although the update and the insert stay committed, so there the source does not keep the promise that every non-success leaves the store unchanged. On the other exits the same failure turns the answer into 500, and in the login route it turns any answer into 500.
- Registration.Register: a failing e-mail `SELECT` or account-number `SELECT` in the register route is not modelled. The route answers it with "Database operation failed" (status 500) and no change; `Fault` does not express a failure of these reads there.
- String lengths count Unicode scalar values, while JavaScript counts UTF-16 code units. They differ only for characters outside the Basic Multilingual Plane.
- E-mail comparison is exact string equality. The database collation, which may compare case-insensitively, is not modelled.
- bcrypt, `Math.random` and `Number.parseFloat` are parameters, as described above.
- Bank.Bank.Register: an exception from `bcrypt.hash` is not modelled.
- The `default` of validateField's switch, reached by a name other than those of the six inputs, is not modelled. Field names are a datatype of the six, and no input of the page has another name.
- RegisterForm.Form.Valid: the confirmation's entry is not tied to the current password. It is checked only when it is typed, so after the password changes its flag may be stale, as in the page.
- RegisterForm.Form.HandleSubmit: the request, the response and the success branch are not modelled. The success branch clears `formData` but not `validation`, and so leaves the form's invariant broken.
- Dashboard.Page.CompleteTransaction: the refetch of the account and its transactions after a success is not modelled.
- The account and transactions read routes, the login page (`localStorage` and navigation), the landing page, and all rendering, theming and icons are not part of this model.
