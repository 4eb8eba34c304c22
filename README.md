# Bankist ledger in Dafny

A model of the account ledger and transaction engine of the Bankist demo
bank (`app/js/_index.js`), with proofs about it. The browser page holds two
seed accounts in memory. Each account has an owner, a PIN, an interest rate
and a list of movements: positive amounts are deposits and negative ones
are withdrawals. Click handlers let the current user log in, transfer money
to another user name, take a loan and close their own account. The page
also shows the balance, income, expense and interest of the current user,
and can list the movements sorted.

The model has six modules, one per file:

- `Wrappers` (`wrappers.dfy`): `Option`.
- `Summary` (`summary.dfy`): the value computations of `calcCurrentBalance`
  and `calcSummary`. `Reduce` is JavaScript's `reduce` without an initial
  value: it is `None` (the call throws) on an empty list and a left fold
  otherwise. Balance, income, expense and interest are built on it. It
  also holds `Total`, the money held across a list of accounts.
- `UserNames` (`usernames.dfy`): `createUserNames`' rule for a user name,
  `toLowerCase().split(' ').map(n => n[0]).join('')`. It comes with an
  independent character-by-character reading of the same rule.
- `SortView` (`sortview.dfy`): the list `displayMovements` iterates over.
- `Bank` (`bank.dfy`): the state and the handlers.
  - `Account` is a class. Its `movements`, `userName` and cached
    `balance` are fields that the handlers update in place.
  - `Ledger` is a class holding the module-level `accounts` list and
    `currentUser`.
  - Each handler is a method. It returns `Done`, `Rejected` (its own early
    `return`) or `Threw` (a TypeError from reading a field of an undefined
    `currentUser`).
  - `Number(...)` of a form field is the datatype `Num`: `NaN` or a finite
    number.
  - Amounts are exact `real`s.
  - `Wf` is the invariant every handler keeps. The listed user names are
    unique, every listed account has movements, and a current user whose
    name is listed is that listed account.
  - `Valid` adds that the current user's cached balance is the sum of its
    movements.
- `Scenarios` (`scenarios.dfy`): traces proved from the start-up
  state. They give the seed account's summary figures. They also show the
  two defects of the handlers as written, each next to the corrected
  handler.

The model follows the code where a reader might expect otherwise:

- **Empty lists.** The balance, income, expense and interest are undefined
  (`reduce` throws) when their list is empty; they are not 0.
- **Which balance the transfer checks.** It compares the amount with the
  *cached* `balance` field, not with a fresh sum, and an undefined cache
  lets any amount through.
- **No dates.** No handler appends to `movementsDates`.
- **Self-transfer.** It is refused by comparing user names, not accounts.
- **After a close.** The closed account remains `currentUser`, so it can
  still transfer money and borrow.

## Model

| member | source | states |
|---|---|---|
| Summary.Sum | app/js/_index.js:105 | the sum of the movements, which `reduce((acc, mov) => acc + mov, 0)` computes; its properties are SumAppend, SumPush and FoldAddIsSum |
| Summary.FoldAdd | app/js/_index.js:105 | the left fold of `(acc, x) => acc + x` from an accumulator; FoldAddIsSum ties it to Sum |
| Summary.Reduce | app/js/_index.js:105 | a reduce with no initial value throws (None) exactly on an empty list, otherwise it gives the sum of the list |
| Summary.FoldAddIsSum | app/js/_index.js:105 | the left fold `(acc, x) => acc + x` from an accumulator is the accumulator plus the sum of the rest |
| Summary.Balance | app/js/_index.js:104-107 | the balance is defined exactly when there are movements, and is then their sum |
| Summary.SumAppend | app/js/_index.js:105 | the sum of two concatenated movement lists is the sum of their sums |
| Summary.SumPush | app/js/_index.js:170-171 | pushing one movement moves the sum by exactly that amount |
| Summary.Filter | app/js/_index.js:110-123 | `filter(p)`: the elements passing p, in order; FilterKeeps, FilterFrom and FilterComplete state what it keeps |
| Summary.FilterKeeps | app/js/_index.js:110-123 | every element `filter` keeps satisfies its predicate |
| Summary.FilterFrom | app/js/_index.js:110-123 | `filter` only keeps elements of the list, no more copies than the list has |
| Summary.FilterComplete | app/js/_index.js:110-123 | every element of the list that satisfies the predicate is kept, as many times as the list holds it |
| Summary.Deposits | app/js/_index.js:110-111 | the movements above 0, in order; DepositsSpec states them |
| Summary.DepositsSpec | app/js/_index.js:110-111 | `filter(mov => mov > 0)` keeps only positive movements, each drawn from the list, and keeps every copy of every positive movement |
| Summary.Withdrawals | app/js/_index.js:115-116 | the movements below 0, in order; WithdrawalsSpec states them |
| Summary.WithdrawalsSpec | app/js/_index.js:115-116 | `filter(mov => mov < 0)` keeps only negative movements, each drawn from the list, and keeps every copy of every negative movement |
| Summary.DepositsFacts | app/js/_index.js:110-112 | there are deposits exactly when some movement is positive, and then their sum is positive |
| Summary.WithdrawalsFacts | app/js/_index.js:115-117 | there are withdrawals exactly when some movement is negative, and then their sum is negative |
| Summary.SumOfPositives | app/js/_index.js:110-112 | a nonempty list of positive amounts has a positive sum |
| Summary.SumOfNegatives | app/js/_index.js:115-117 | a nonempty list of negative amounts has a negative sum |
| Summary.Income | app/js/_index.js:110-112 | income is defined exactly when some movement is a deposit, and is then the sum of the deposits and greater than 0 |
| Summary.Expense | app/js/_index.js:115-117 | expense is defined exactly when some movement is a withdrawal, and is then the sum of the withdrawals and less than 0 |
| Summary.DepositsPlusWithdrawals | app/js/_index.js:105-117 | the deposits' sum plus the withdrawals' sum is the sum of all movements |
| Summary.IncomePlusExpense | app/js/_index.js:105-117 | when both are defined, income plus expense is the balance |
| Summary.Share | app/js/_index.js:122 | one deposit's interest, `mov * rate / 100`; ShareMonotone and SumOfShares are its properties |
| Summary.Shares | app/js/_index.js:122 | the map `mov * rate / 100` gives one term per deposit, term k being deposit k's share |
| Summary.AtLeastOne | app/js/_index.js:123 | the terms of at least 1, in order; AtLeastOneSpec states them |
| Summary.AtLeastOneSpec | app/js/_index.js:123 | `filter(deposit => deposit >= 1)` keeps only terms of at least 1, each drawn from the list, and keeps every copy of every such term |
| Summary.AtLeastOneFacts | app/js/_index.js:123 | some term survives the filter exactly when some term is at least 1 |
| Summary.SumAtLeastCount | app/js/_index.js:123-124 | terms of at least 1 sum to at least their number |
| Summary.DepositInMovements | app/js/_index.js:110-111 | every deposit is a positive movement of the list |
| Summary.MovementInDeposits | app/js/_index.js:110-111 | every positive movement appears among the deposits |
| Summary.InterestTerms | app/js/_index.js:120-123 | the interest terms `calcSummary` adds up; InterestTermsFacts and SharesOfEligible state them |
| Summary.InterestTermsNonEmpty | app/js/_index.js:120-123 | some interest term survives exactly when some deposit's share is at least 1 |
| Summary.InterestTermsFacts | app/js/_index.js:120-124 | the same, and the surviving terms sum to at least their number |
| Summary.Interest | app/js/_index.js:120-124 | interest is defined exactly when some deposit earns a share of at least 1; it is then the sum of those terms and at least 1 |
| Summary.Eligible | app/js/_index.js:120-123 | the deposits that earn at least one unit are a sub-multiset of the deposits |
| Summary.SharesOfEligible | app/js/_index.js:122-123 | filtering the shares equals taking the shares of the eligible deposits |
| Summary.SumOfShares | app/js/_index.js:122-124 | the sum of the shares is the share of the sum |
| Summary.InterestIsShareOfSomeDeposits | app/js/_index.js:120-124 | the interest is the rate/100 share of the sum of a sub-multiset of the deposits |
| Summary.EligibleSumAtMost | app/js/_index.js:120-123 | for positive deposits, the eligible ones sum to no more than all of them |
| Summary.ShareMonotone | app/js/_index.js:122 | at a non-negative rate a larger amount earns at least as large a share |
| Summary.InterestAtMostIncomeShare | app/js/_index.js:110-124 | at a non-negative rate, a defined interest implies a defined income, and is at most income * rate / 100 |
| Summary.Total | app/js/_index.js:3-43 | the money held across the listed accounts, the sum of their movement sums; TotalAppend, TotalUpdate and TotalRemove are its properties |
| Summary.TotalUpdate | app/js/_index.js:170-171 | replacing one account's movements changes the total by the difference of the sums |
| Summary.TransferKeepsTotal | app/js/_index.js:170-171 | moving an amount from one account to a different one keeps the total |
| Summary.PushRaisesTotal | app/js/_index.js:188 | pushing an amount onto one account raises the total by that amount |
| Summary.TotalAfterTransfer | app/js/_index.js:170-171 | the same as TransferKeepsTotal, for histories compared element by element |
| Summary.TotalAfterPush | app/js/_index.js:188 | the same as PushRaisesTotal, for histories compared element by element |
| Summary.TotalAppend | app/js/_index.js:43 | the total of two concatenated account lists is the sum of their totals |
| Summary.TotalRemove | app/js/_index.js:204 | removing account i from the list takes exactly its balance out of the total |
| Summary.TotalAfterRemove | app/js/_index.js:204 | the same as TotalRemove, for histories compared element by element |
| UserNames.UserName | app/js/_index.js:74-79 | `owner.toLowerCase().split(' ').map(name => name[0]).join('')`; UserNameIsWordStarts, UserNameIsLowerCase and TwoWordUserName state it |
| UserNames.Initials | app/js/_index.js:78-79 | the first character of each piece, with `join('')`; InitialsAreWordStarts states it |
| UserNames.Join | app/js/_index.js:77 | pieces joined with the separator, the inverse JoinSplit uses to pin down `split` |
| UserNames.Lower | app/js/_index.js:75-76 | `toLowerCase` keeps the length and lower-cases each character (ASCII letters) |
| UserNames.Split | app/js/_index.js:77 | `split(' ')` gives at least one piece and no piece contains the separator |
| UserNames.JoinSplit | app/js/_index.js:77 | joining the pieces with the separator gives back the string, which fixes what split returns |
| UserNames.InitialsAreWordStarts | app/js/_index.js:77-79 | the first characters of the pieces are exactly the characters that start a word |
| UserNames.UserNameIsWordStarts | app/js/_index.js:74-79 | a user name is the word-starting characters of the lower-cased owner, in order |
| UserNames.WordStartsFrom | app/js/_index.js:77-79 | the word starts are no longer than the string and are drawn from it |
| UserNames.UserNameIsLowerCase | app/js/_index.js:74-79 | a user name is no longer than the owner and has no upper-case letter |
| UserNames.InsideWord | app/js/_index.js:77-79 | inside a word, the characters up to the next space contribute no initial |
| UserNames.TwoWords | app/js/_index.js:77-79 | a two-word name gives the first letters of its two words |
| UserNames.LowerAppend | app/js/_index.js:76 | lower-casing distributes over concatenation |
| UserNames.WordStartsOfLower | app/js/_index.js:76-79 | picking the word starts commutes with lower-casing |
| UserNames.OwnerInitials | app/js/_index.js:74-79 | the user name of "First Last" is the lower-cased pair of initials |
| UserNames.SeedUserNames | app/js/_index.js:3-82 | "Jonas Schmedtmann" gets "js" and "Jessica Davis" gets "jd" |
| UserNames.TwoWordUserName | app/js/_index.js:74-79 | the user name of "First Last" is the lower-cased first letter of each word |
| UserNames.LowerInitials | app/js/_index.js:76 | lower-casing a pair of characters lower-cases each |
| SortView.Insert | app/js/_index.js:87 | inserting into an ascending list keeps it ascending and adds exactly that element |
| SortView.PrependLeast | app/js/_index.js:87 | an element below the head of an ascending list stays ascending in front of any ascending permutation of the tail with a larger element added |
| SortView.Sort | app/js/_index.js:87 | the sort with comparator `a - b` gives an ascending permutation |
| SortView.SortedView | app/js/_index.js:87 | with sorting on, the view is an ascending permutation of the movements; with it off, it is the movements themselves |
| SortView.AscendingHeadIsLeast | app/js/_index.js:87 | the head of an ascending list is at most any element of it |
| SortView.AscendingTail | app/js/_index.js:87 | the tail of an ascending list is ascending |
| SortView.HeadTailMultiset | app/js/_index.js:87 | the tail holds every element but one copy of the head |
| SortView.AscendingPermutationUnique | app/js/_index.js:87 | two ascending permutations of the same list are equal |
| SortView.SortedViewIsTheSortedPermutation | app/js/_index.js:87 | any ascending permutation of the movements is the sorted view, so the view does not depend on the engine's sort algorithm |
| Bank.IsPositive | app/js/_index.js:160-161 | the transfer amount passes the falsy and negative tests exactly when it is a finite number above 0, so 0, NaN and negatives fail; Transfer's rejection clause uses it |
| Bank.PinMatches | app/js/_index.js:139 | the strict PIN comparison with a `Number(...)` field, the same as in the close check on line 196: equal exactly when the field is that finite number, so NaN matches no PIN; Login, LoginMatch and Close use it |
| Bank.CachedBelow | app/js/_index.js:163 | the transfer's balance test refuses exactly when the cache is defined and below the amount, since an undefined cache compares false; Transfer uses it |
| Bank.LoanEligible | app/js/_index.js:183 | some movement is at least a tenth of the amount, which no movement is for NaN; Loan's rejection clause uses it |
| Bank.IndexOf | app/js/_index.js:138-202 | `find`/`findIndex` by user name: the first match, or -1 exactly when no name matches |
| Bank.SpliceOne | app/js/_index.js:204 | `splice(start, 1)` with a negative start counted from the end: one element goes exactly when the list is nonempty and the start is before its end |
| Bank.SpliceOneFrom | app/js/_index.js:204 | splicing only removes: what is left is a sub-multiset of the list |
| Bank.SpliceInside | app/js/_index.js:204 | `splice(i, 1)` with i inside the list removes exactly element i |
| Bank.SpliceNotFoundDropsLast | app/js/_index.js:202-204 | `splice(-1, 1)` removes the last element |
| Bank.UniqueRemove | app/js/_index.js:202-204 | removing one entry from a list of unique user names keeps them unique and drops that name entirely |
| Bank.NamesRemove | app/js/_index.js:204 | the user names of the list after `splice(i, 1)` are the old names with entry i removed |
| Bank.Account.constructor | app/js/_index.js:3-41 | an account literal: owner, movements, rate and PIN as given, no user name yet, no cached balance |
| Bank.CreateUserNames | app/js/_index.js:72-82 | every account's user name becomes UserName(owner); no other field changes |
| Bank.SeedAccounts | app/js/_index.js:3-82 | two fresh accounts with the seed movements, PINs and rates and the user names "js" and "jd" |
| Bank.SeedNames | app/js/_index.js:3-82 | the seed accounts' user names are "js" and "jd" |
| Bank.Ledger.Seeded | app/js/_index.js:3-82 | the start-up state: accounts "js" and "jd" with the seed data, Jonas current with his balance cached by the closing `updateUI()` (line 220), Jessica's undefined |
| Bank.Ledger.CalcCurrentBalance | app/js/_index.js:104-107 | the cache becomes the sum of the current movements; an empty list throws and leaves it alone |
| Bank.Ledger.LoginMatch | app/js/_index.js:138-139 | with unique user names, some account has this name and PIN exactly when the account `find` returns for the name has this PIN |
| Bank.Ledger.Login | app/js/_index.js:135-151 | corrected login: succeeds exactly when some account has that user name and PIN; then it is current with its balance cached; otherwise nothing changes; no other account's cache, no movement and no user name changes |
| Bank.Ledger.LoginAsWritten | app/js/_index.js:135-151 | as written: currentUser becomes the account found by name, or undefined, whatever the PIN; success is exactly as in Login and re-establishes Valid; only the new current user's cache may change, and a failure leaves every cache as it was |
| Bank.Ledger.PushTransfer | app/js/_index.js:170-174 | both movements are pushed, the sender's cache is recomputed, Valid holds and the user names are unchanged |
| Bank.Ledger.Credit | app/js/_index.js:170-188 | `movements.push(x)` on one account appends x and keeps Wf and the user names |
| Bank.Ledger.ApplyTransfer | app/js/_index.js:170-174 | the sender's sum drops by the amount and the target's rises by it; the total is kept, or grows by the amount when the sender is no longer listed |
| Bank.Ledger.TransferTotal | app/js/_index.js:170-171 | when only the sender lost x and the target gained x, the total over the listed accounts is kept, or grows by x when the sender is not listed |
| Bank.Ledger.Distinct | app/js/_index.js:157-202 | unique user names make different list positions different accounts |
| Bank.Ledger.Transfer | app/js/_index.js:153-175 | rejected exactly for a missing target, an amount that is 0, NaN or negative, a target with the sender's name, or a cached balance below the amount, with nothing changed; throws exactly when the checks reach an undefined current user; otherwise applies ApplyTransfer and changes no other account; under Valid it succeeds exactly when the sender's sum covers the amount; no user name changes, listed or not |
| Bank.Ledger.TransferTo | app/js/_index.js:162-174 | with the target found and the amount positive: rejected exactly for the sender's own name or a cached balance below the amount, with nothing changed; otherwise exactly the two movements are pushed |
| Bank.Ledger.ApplyLoan | app/js/_index.js:188-190 | the loan is pushed and the cache recomputed, keeping Valid; the borrower's sum rises by the amount, and so does the total when the borrower is listed |
| Bank.Ledger.LoanTotal | app/js/_index.js:188 | when only the current user gained x, the total over the listed accounts grows by x if it is listed and is kept otherwise |
| Bank.Ledger.Loan | app/js/_index.js:177-191 | rejected exactly for an amount that is at most 0, or, with a current user, when no movement reaches a tenth of it (never for NaN), with nothing changed; throws exactly when the check reaches an undefined current user; otherwise the amount is appended, whatever the balance; the current user's name and every other account are unchanged |
| Bank.Ledger.Close | app/js/_index.js:193-209 | corrected close: throws without a current user; rejected on a wrong name or PIN or a current user no longer listed; otherwise exactly that account leaves the list, the others keep their order, its name is gone and its balance leaves the total |
| Bank.Ledger.RemoveAt | app/js/_index.js:204 | removing the current user's own entry keeps Wf, drops the length by 1 and takes its balance out of the total |
| Bank.Ledger.RemoveTotal | app/js/_index.js:204 | when account i left the list and no movement changed, the total dropped by exactly that account's balance |
| Bank.Ledger.CloseAsWritten | app/js/_index.js:193-209 | as written: the same name and PIN check, then `splice(findIndex(...), 1)`: the current user's entry when listed, otherwise the last listed account |
| Bank.Ledger.SpliceAccounts | app/js/_index.js:202-204 | splice at the index findIndex gave: the own entry when listed, the last entry when not |
| Bank.Ledger.SpliceFound | app/js/_index.js:202-204 | splice at the current user's own index removes exactly that entry and keeps Wf |
| Bank.Ledger.SpliceNotFound | app/js/_index.js:202-204 | splice at -1 removes the last account and keeps Wf |
| Scenarios.JonasBalance | app/js/_index.js:5-105 | the seed balance of Jonas is 25952.59 |
| Scenarios.JessicaBalance | app/js/_index.js:25-105 | the seed balance of Jessica is 11720 |
| Scenarios.JonasDeposits | app/js/_index.js:5-111 | Jonas's deposits are 200, 455.23, 25000, 79.97 and 1300 |
| Scenarios.JonasWithdrawals | app/js/_index.js:5-116 | Jonas's withdrawals are -306.5, -642.21 and -133.9 |
| Scenarios.JonasIncomeAndExpense | app/js/_index.js:5-117 | Jonas's income is 27035.2 and his expense -1082.61 |
| Scenarios.JonasInterest | app/js/_index.js:5-124 | Jonas's interest at 1.2 % is 323.46276; the 79.97 deposit's 0.95964 is left out |
| Scenarios.WrongPinThenTransfer | app/js/_index.js:138-171 | as written, a wrong PIN for "jd" leaves Jessica current with no cached balance, and a transfer of 100000 from her goes through, leaving her below zero |
| Scenarios.TransferUncached | app/js/_index.js:159-171 | a transfer of 100000 from a current user with no cached balance goes through |
| Scenarios.WrongPinThenTransferRefused | app/js/_index.js:138-168 | with the corrected login, Jonas stays current and the same transfer is refused |
| Scenarios.TransferCached | app/js/_index.js:159-168 | a transfer above the current user's cached balance is refused and changes nothing |
| Scenarios.UnknownUserThenTransfer | app/js/_index.js:138-163 | as written, an unknown user name leaves no current user, and the next transfer throws |
| Scenarios.TransferWithoutUser | app/js/_index.js:159-163 | a valid-looking transfer with no current user throws |
| Scenarios.LoanRefused | app/js/_index.js:183 | a loan of 250001 is refused to Jonas, whose largest movement is 25000 |
| Scenarios.LoansCompound | app/js/_index.js:183-188 | Jonas, whose balance is 25952.59, gets 250000, ten times his largest movement, and then 2500000 on the strength of that loan |
| Scenarios.LoanOnLoan | app/js/_index.js:183-188 | the 250000 loan, now a movement, covers a loan of 2500000 |
| Scenarios.CloseTwice | app/js/_index.js:196-204 | as written, Jonas closing his account twice leaves no account at all |
| Scenarios.CloseTwiceRefused | app/js/_index.js:196-204 | with the corrected close, the second close is refused and "jd" remains |
| Scenarios.CloseFirst | app/js/_index.js:196-204 | the corrected close of the first account leaves only the second |
| Scenarios.CloseAgain | app/js/_index.js:196-204 | the corrected close by a current user no longer listed is refused and changes nothing |

## Left out

- The DOM is not modelled: queries, rendering of movement rows, label
  text, `toFixed(2)` and the currency sign, opacity, clearing input
  fields, `console.log` and the event wiring.
- `calcSummary` writes only labels. Its values are the functions of
  `Summary`. An exception it raises in `updateUI` after a handler's
  changes undoes nothing, so the handlers do not model it.
- `movementsDates`, `currency` and `locale` are display data; no handler
  updates them.
- Floating point is not modelled. Amounts are exact reals, so rounding
  (for example of 455.23 * 1.2 / 100) and `Infinity` are absent.
- `Number(...)` coercion is not modelled. A form field is already `NaN`
  or a finite number, and user names are compared as given.
- `toLowerCase` is modelled on the ASCII letters only.
- Owner names are read as Unicode characters, not as UTF-16 code units: `name[0]`
  of a word starting with a character outside the Basic Multilingual Plane is
  half a surrogate pair in JavaScript, but a whole character here.
- The `sorted` toggle (lines 211-217) only flips a flag.
- `Wf` requires unique user names. The source never checks this, but its
  two seed accounts satisfy it and no handler creates an account.

## Findings

| source | as written | input that shows it | evidently intended | confidence | as-written member | corrected member |
|---|---|---|---|---|---|---|
| app/js/_index.js:138-143 | `currentUser` is set to the account found by name before the PIN is checked, and stays set when the check fails (Bank.Ledger.LoginAsWritten). That account's balance was never cached, so the transfer's balance check passes. | start-up state; log in as "jd" with PIN 0 (refused); transfer 100000 to "js": done, and Jessica's balance becomes -88280 | a failed login leaves the current user as it was | not executed | Scenarios.WrongPinThenTransfer | Bank.Ledger.Login |
| app/js/_index.js:202-204 | a closed account stays current; closing it again makes findIndex return -1, and `splice(-1, 1)` deletes the last listed account, someone else's (Bank.Ledger.CloseAsWritten) | start-up state; close "js" with PIN 1111 twice: the second close deletes Jessica's account | close removes only the current user's own listed entry, and refuses when there is none | not executed | Scenarios.CloseTwice | Bank.Ledger.Close |
