# BankApp ledger model

A Dafny model of the account ledger of the BankApp banking demo page
(`script.js`). The page keeps four hard-coded accounts in memory. Each
account has an owner, a list of signed movements, an interest rate and a PIN.
The page derives a short user name for each account, shows the balance and
three summary figures, and reacts to four buttons: transfer, loan, close
account and sort.

Here the button handlers are taken out of their DOM event listeners and
written as pure functions from one bank state to the next:

- `options.dfy`: the `Option` wrapper. It stands for `undefined` from a
  failed `find` and for a `reduce` that throws.
- `ledger.dfy` (module `Ledger`): the balance (`calcDisplayBalance`) and the
  figures of `calcDisplaySummary`. Amounts are exact reals. `Reduce` models
  `reduce` without an initial value, so an empty filtered array fails.
- `usernames.dfy` (module `UserNames`): `createUserName` as
  lower-case, `split(' ')`, first character of each word, `join('')`. It is
  proved equal to an independent one-pass scan for word-initial characters.
- `sorting.dfy` (module `Sorting`): the ascending copy that the sort view
  shows. It is proved ascending, a permutation, and the only ascending
  permutation.
- `bank.dfy` (module `Bank`): the bank state and the transfer, loan, close
  and sort handlers. JavaScript shares objects by reference. So the state
  keeps every account object in `heap`, where the index is the object's
  identity. The `accounts` array and `currentAccount` are references into
  `heap`. Closing an account removes it from `accounts`, but `currentAccount`
  still points at the object.
- `seeded.dfy` (module `Seeded`): the four seeded accounts, the state after
  the script has loaded (`currentAccount = account1`, with one `updateUI`),
  and worked examples replayed on the seeded data.

Each handler returns the state unchanged when its guard fails. When the guard
holds, its contract says exactly what changes and that nothing else does.
`updateUI` matters to the state in one way only: `calcDisplayBalance` caches
`balance` on the current account, and the transfer guard reads that cache.
The model keeps the cache as a field. `HandlersKeepCoherent` proves that every
handler keeps it equal to the real balance. With that invariant,
`TransferGuard` shows the guard checks the real balance.

A few facts about the code that shape the model:

- The loan is posted at once (script.js:238). There is no deferred posting.
- Login is commented out and `currentAccount` is fixed to account1. So
  there is no login, logout or idle-timer state machine to model.
- The loan test is `mov >= amount / 10` over all movements, not only
  deposits. For a positive amount these are the same (`BackedByDeposit`).
- account3 holds a movement of exactly 400 and the loan test is `>=`
  (script.js:237), so a loan of 4000 is backed and 4001 is the smallest whole
  amount refused (`Seeded.LoanAgainstAccount3`).
- The sort view is computed here by insertion sort, while the page uses the
  engine's `Array.prototype.sort`. `SortedPermutationUnique` shows that any
  correct ascending sort gives the same sequence, so the choice of algorithm
  does not matter.

## Model

| member | source | states |
|---|---|---|
| Ledger.Fold | script.js:116-117 | definition: the accumulator of `reduce((acc, mov) => acc + mov, acc0)` threaded left to right; `FoldIsSum` relates it to the head-first `Sum` |
| Ledger.FoldIsSum | script.js:116-118 | the left-to-right accumulation of `reduce` from a seed equals the seed plus the sum of the array |
| Ledger.Balance | script.js:115-118 | the balance computed by `reduce(..., 0)` is the sum of all movements |
| Ledger.BalanceAppend | script.js:115-118 | pushing one movement `x` changes the balance by exactly `x` |
| Ledger.SumAppend | script.js:116-118 | the sum of `s + [x]` is the sum of `s` plus `x` |
| Ledger.SumConcat | script.js:136-143 | the sum of a concatenation is the sum of the parts |
| Ledger.Reduce | script.js:136-143 | `reduce` without an initial value fails exactly on an empty array and otherwise yields the sum of its elements |
| Ledger.Filter | script.js:136-142 | a filtered array is never longer than the original; which occurrences it keeps, and in what order, is stated by `FilterCounts` and `FilterConcat` |
| Ledger.FilterCounts | script.js:136-142 | a filter keeps every occurrence of a passing value and none of a failing one, so no duplicate is dropped |
| Ledger.FilterConcat | script.js:136-142 | filtering a concatenation filters each part and concatenates the results, so kept elements stay in their original order |
| Ledger.FilterSingleton | script.js:136-142 | a one-element array keeps its element exactly when it passes; with `FilterConcat` this pins the filter down completely |
| Ledger.FilterMembers | script.js:136-142 | a filtered array holds exactly the elements that pass the test |
| Ledger.FilterNonEmpty | script.js:136-143 | a filtered array is non-empty exactly when some element passes the test, which is when the following `reduce` succeeds |
| Ledger.Deposits | script.js:136 | definition: `filter(mov => mov > 0)`, the positive movements in order; `DepositsPositive`, `FilterCounts` and `FilterConcat` state what it keeps |
| Ledger.Withdrawals | script.js:138 | definition: `filter(mov => mov < 0)`, the negative movements in order; `SumsOfSigns` shows their sum is the signed outflow |
| Ledger.Term | script.js:141 | definition: the interest `d * rate / 100` one deposit would earn |
| Ledger.InterestTerms | script.js:141 | the mapped array has one interest term per deposit, `d * rate / 100`, in the same order |
| Ledger.PaidTerms | script.js:139-142 | definition: the interest terms of the deposits that are at least 1; `PaidTermsNonEmpty` and `InterestBounds` state when it is empty and what it sums to |
| Ledger.InterestTermsSum | script.js:141 | the interest terms sum to the deposits' sum times `rate / 100` |
| Ledger.QualifyingSumBounds | script.js:142-143 | when every term is non-negative, keeping the terms of at least 1 gives a sum no larger than the total of all terms and at least the number of terms kept |
| Ledger.PaidTermsNonEmpty | script.js:139-143 | some interest term qualifies exactly when some deposit `d` has `d * rate / 100 >= 1` |
| Ledger.SummaryDefinedness | script.js:135-143 | each of the three reductions has a non-empty input exactly when a deposit, a withdrawal, or a deposit with a qualifying term exists |
| Ledger.SumsOfSigns | script.js:136-138 | incomes plus signed outflow equals the sum of all movements; incomes are positive and outflow negative when present |
| Ledger.PositiveRate | script.js:141-142 | arithmetic helper of `TermsNonNegative`: a positive deposit can earn a term of at least 1 only at a positive rate |
| Ledger.NonNegativeTerm | script.js:141 | arithmetic helper of `TermsNonNegative`: at a positive rate a deposit earns a non-negative term |
| Ledger.DepositsPositive | script.js:136 | every kept deposit is positive |
| Ledger.TermsNonNegative | script.js:139-142 | once some term qualifies, every interest term is non-negative |
| Ledger.InterestBounds | script.js:139-143 | the interest, when defined, is at least 1 and at most incomes times `rate / 100` |
| Ledger.Summary | script.js:135-143 | the summary fails exactly when there is no deposit, no withdrawal, or no deposit earning at least 1. Otherwise incomes is the sum of the deposits, out the sum of the withdrawals and interest the sum of the terms of at least 1; so incomes > 0, out < 0, incomes + out = balance, and 1 <= interest <= incomes * rate / 100 |
| UserNames.LowerChar | script.js:126 | definition: `toLowerCase` on one character, for A–Z (see "## Left out") |
| UserNames.Lower | script.js:126 | definition: `toLowerCase` applied character by character; `LowerConcat` shows it distributes over concatenation |
| UserNames.Split | script.js:127 | `split(' ')` yields at least one word and no word contains a space |
| UserNames.SplitJoin | script.js:127 | joining the split words with a space gives back the original string |
| UserNames.Join | script.js:129 | definition: `join(sep)`, the parts with `sep` between neighbours; `SplitJoin` shows it inverts `Split` for `sep = " "` |
| UserNames.FirstLetter | script.js:128 | definition: `w[0]`, or the empty string for an empty word because `undefined` joins as nothing |
| UserNames.FirstLetters | script.js:128 | the mapped array has one entry per word, and entry `k` is the first letter of word `k` |
| UserNames.UserName | script.js:125-129 | definition: lower-case, split on spaces, map to first letters, join with nothing; `UserNameIsInitials` proves it equals the independent one-pass scan `Initials` |
| UserNames.JoinEmptySep | script.js:129 | `join('')` of a non-empty list is its first part followed by the join of the rest |
| UserNames.FirstLettersTail | script.js:128 | the mapped first letters follow the words one for one |
| UserNames.LowerConcat | script.js:126 | lower-casing a concatenation lower-cases each part separately |
| UserNames.InitialsOfSplit | script.js:125-129 | split, first letters and join compute exactly the non-space characters that start a word; empty words contribute nothing |
| UserNames.UserNameIsInitials | script.js:123-131 | a user name is the word-initial characters of the lower-cased owner name |
| UserNames.InitialsInsideWord | script.js:128 | inside a word no further initial is taken |
| UserNames.InitialsOfWord | script.js:128-129 | a word at a word start contributes exactly its first character |
| UserNames.LowerStevenThomasWilliams | script.js:126 | "Steven Thomas Williams" lower-cases to "steven thomas williams" |
| UserNames.InitialsStevenThomasWilliams | script.js:127-129 | the initials of "steven thomas williams" are "stw" |
| UserNames.UserNameStevenThomasWilliams | script.js:123-131 | "Steven Thomas Williams" gives "stw" |
| UserNames.LowerJessicaDavis | script.js:126 | "Jessica Davis" lower-cases to "jessica davis" |
| UserNames.InitialsOfTwoWords | script.js:127-129 | a two-word name gives the first letters of its two words, as for "jessica davis", "jonas schmedtmann" and "sarah smith" |
| UserNames.UserNameJessicaDavis | script.js:123-131 | "Jessica Davis" gives "jd" |
| UserNames.LowerJonasSchmedtmann | script.js:126 | "Jonas Schmedtmann" lower-cases to "jonas schmedtmann" |
| UserNames.UserNameJonasSchmedtmann | script.js:123-131 | "Jonas Schmedtmann" gives "js" |
| UserNames.LowerSarahSmith | script.js:126 | "Sarah Smith" lower-cases to "sarah smith" |
| UserNames.UserNameSarahSmith | script.js:123-131 | "Sarah Smith" gives "ss" |
| Sorting.Insert | script.js:88 | inserting into an ascending sequence keeps it ascending and adds exactly one copy of the element |
| Sorting.ConsAscending | script.js:88 | a head no larger than every other element can be put back in front of an ascending tail |
| Sorting.SortAscending | script.js:88 | the sorted copy is ascending and a permutation of the movements |
| Sorting.SameHead | script.js:88 | two ascending arrangements of the same elements start with the same element |
| Sorting.TailMultiset | script.js:88 | dropping the head removes exactly one copy of it |
| Sorting.SortedPermutationUnique | script.js:88 | two ascending permutations of the same elements are equal, so any correct numeric sort gives this copy |
| Sorting.SortAscendingFixesSorted | script.js:88 | sorting an already ascending sequence returns it unchanged |
| Bank.CreateUserNames | script.js:123-131 | definition: every account gets the user name derived from its owner, and nothing else on it changes |
| Bank.Refresh | script.js:115-118 | definition: what `calcDisplayBalance` leaves on the account (script.js:155): the cached balance set to the sum of its movements; `HandlersKeepCoherent` shows the handlers keep this cache right |
| Bank.Push | script.js:225-227 | definition: `movements.push(m)` (also script.js:238), appending one movement and touching nothing else on the account |
| Bank.TotalUpdate | script.js:225-227 | replacing one account changes the total held by all accounts by the difference of the two balances |
| Bank.FindIndex | script.js:248 | `findIndex` yields -1 exactly when no listed account has the name; otherwise it yields the position of the first one that does |
| Bank.Find | script.js:220 | `find` yields nothing exactly when no listed account has the name; otherwise the first listed account with that name |
| Bank.Splice | script.js:249 | `splice(i, 1)` removes position `i` when it is in range; `splice(-1, 1)` removes the last element; past the end it removes nothing |
| Bank.SpliceKeepsRefs | script.js:249 | after a splice every listed reference is still a reference to an existing account |
| Bank.SpliceAtFindIndex | script.js:248-249 | splicing at `findIndex` removes the first listed account with the name, or the last listed account when none has it |
| Bank.SpliceFound | script.js:248-249 | when some listed account has the name, the splice removes the first such account |
| Bank.SpliceInRange | script.js:249 | `splice(i, 1)` with `i` in range removes exactly position `i` |
| Bank.SpliceMissing | script.js:249 | `splice(-1, 1)` removes the last element, and nothing from an empty array |
| Bank.SpliceKeepsUnique | script.js:249 | removing one listed account keeps the listed user names distinct |
| Bank.Covers | script.js:224 | definition: `currentAccount.balance >= amount`, false while the balance is `undefined` |
| Bank.TransferApplies | script.js:224 | definition: the transfer guard on the found receiver and the cached balance; `TransferGuard` restates it over the real balance |
| Bank.Transfer | script.js:216-230 | the state changes exactly when amount > 0, the receiver is found, the cached balance covers the amount, and the receiver's name differs. Then the sender gets one new movement `-amount` and its cached balance drops by `amount`. The receiver gets one new movement `+amount` and nothing else changes on it. Every other account is unchanged, and the total across all accounts is conserved |
| Bank.TransferGuard | script.js:224 | while the cache is coherent, the guard holds exactly when amount > 0, some listed account has the typed name, the real balance covers the amount, and the typed name is not the sender's |
| Bank.Backed | script.js:237 | definition: `movements.some(mov => mov >= amount / 10)`; `BackedByDeposit` shows only a deposit can back a positive loan |
| Bank.LoanApplies | script.js:235-237 | definition: the loan guard on the floored request, `amount > 0` and backed |
| Bank.Loan | script.js:232-242 | the state changes exactly when `floor(request) > 0` and some movement is at least a tenth of it. Then only the current account changes: it gains one movement of `floor(request)` and its cached balance rises by that amount |
| Bank.BackedByDeposit | script.js:237 | for a positive loan, a movement of at least a tenth of it exists exactly when such a deposit exists |
| Bank.CloseApplies | script.js:247 | definition: the typed user name and PIN are the current account's |
| Bank.Close | script.js:244-253 | wrong credentials change nothing. With the right ones, if an account with the current user name is listed, the first such account is removed and the others keep their order. If none is listed, the last account is removed (`splice(-1, 1)`). Account objects, `currentAccount` and the sort flag are never changed |
| Bank.CloseRemovesCurrent | script.js:247-249 | with unique user names and the current account listed, closing removes exactly the current account, which is then no longer listed |
| Bank.SortClick | script.js:255-262 | the click flips the sort flag and changes nothing else. It shows an ascending permutation of the movements when the flag was off, and the stored order when it was on |
| Bank.SortTwice | script.js:255-262 | two clicks restore the state. Of the two views, one is the stored order and the other is the unique ascending permutation |
| Bank.HandlersKeepCoherent | script.js:153-157 | after every handler the current account's cached balance equals its real balance |
| Bank.HandlersKeepUniqueUserNames | script.js:216-262 | no handler renames an account or lists a new one, so listed user names that are distinct stay distinct |
| Seeded.Seeds | script.js:3-55 | definition: the four account literals, before `createUserName` runs and before any balance is cached |
| Seeded.InitialBank | script.js:162-168 | definition: `createUserName(accounts)` (script.js:133), then `currentAccount = account1` and one `updateUI`; `Loaded1`–`Loaded4` and `InitialBankShape` give its value |
| Seeded.Account1Balance | script.js:5 | account1's movements sum to 3840 |
| Seeded.Loaded1 | script.js:3-21 | after `createUserName` and the first `updateUI`, account1 is named "js" and caches balance 3840 |
| Seeded.Loaded2 | script.js:23-41 | account2 is named "jd" and has no cached balance |
| Seeded.Loaded3 | script.js:43-48 | account3 is named "stw" |
| Seeded.Loaded4 | script.js:50-55 | account4 is named "ss" |
| Seeded.InitialBankShape | script.js:57 | the loaded page lists the four accounts in order, account1 is current and the sort flag is off |
| Seeded.LoadedInvariants | script.js:162-168 | the loaded state has valid references, a coherent cache and unique user names |
| Seeded.Account1Filters | script.js:136-142 | account1's deposits, withdrawals and qualifying interest terms, listed in order |
| Seeded.Account1Summary | script.js:135-143 | 70 at 1.2% earns 0.84 and is dropped; 1300 earns 15.6 and is kept; account1's figures are 5020, -1180 and 59.4 |
| Seeded.Account4SummaryFails | script.js:138 | account4 has no withdrawal, so its outflow `reduce` fails and the whole summary fails |
| Seeded.TransferExample | script.js:216-230 | 500 from account1 to "jd" leaves account1 with 3340 and appends 500 to account2 |
| Seeded.TransferRejections | script.js:224 | an amount of 0, an unknown receiver, an amount above the balance, and a transfer to oneself change nothing |
| Seeded.LoanAgainstAccount3 | script.js:237 | against account3's movements, loans of 40 and 4000 are backed and 4001 is not |
| Seeded.LoanClicksOnAccount3 | script.js:235-240 | in a hypothetical state with account3 current, 40.9 pushes 40, 4000 pushes 4000, and 4001.5 is refused (see "## Left out" on re-render exceptions) |
| Seeded.CloseOnce | script.js:247-249 | closing "js" with PIN 1111 removes account1 from the list |
| Seeded.CloseTwice | script.js:247-249 | the same close again finds index -1 and removes the last account, Sarah Smith's |
| Seeded.CloseRejections | script.js:247 | a wrong PIN or a wrong user name closes nothing |
| Seeded.ClosedAccountStillSends | script.js:224-227 | after closing, account1 is still current and can still transfer to listed accounts |

## Left out

- DOM lookups and rendering are not modelled: `displayMovements`' HTML rows, deposit and withdrawal labels, reverse display order, and the welcome text and opacity changes (script.js:59-111, 166-171, 250). They only produce markup.
- Currency formatting, `toFixed` and the `padStart` date strings are not modelled (script.js:91-98, 120, 145-147). They are presentation.
- The `setInterval` wall clock is not modelled (script.js:176-196). It is a timer and I/O.
- The commented-out login handler is left out (script.js:198-214). It is dead code. The live code fixes `currentAccount` to account1.
- There is no inactivity timer or deferred loan in the code, so neither is modelled.
- `movementsDates` is not modelled. Transfer and loan never append to it, and account3 and account4 have none, so no length invariant holds.
- Floating-point arithmetic is not modelled. Amounts and rates are exact reals. For example, `70 * 1.2 / 100` is exactly 0.84 here, and a term that lands within rounding error of 1 could be judged differently by the page.
- Input parsing (`+input.value`, `Math.floor` of a string) is not modelled. Handlers receive the numbers already parsed, and `NaN` inputs are not represented.
- UserNames.LowerChar: `toLowerCase` is modelled for the ASCII letters A–Z only, because all seeded owner names are ASCII. Non-ASCII case mapping is not modelled.
- UserNames.FirstLetter: characters here are Unicode scalar values, while JavaScript strings index UTF-16 code units. So the model differs from `w[0]` (script.js:128) only on a word that starts with a character outside the Basic Multilingual Plane: there the page takes the lone high surrogate, and the model takes the whole character. `UserNameIsInitials` holds for every owner in this character model. All four seeded owner names are ASCII.
- `console.log` in the transfer handler is not modelled (script.js:226).
- Exceptions thrown while the page re-renders are not modelled. `updateUI` runs after a handler's pushes, so a throw cannot undo them. `displayMovements` runs first in `updateUI` (script.js:154). For account3 and account4, which have no `movementsDates`, it throws at script.js:93, before `calcDisplayBalance` caches the balance (script.js:155). The summary runs last (script.js:156), so a `reduce` that throws there comes after the cache is set. On the live page only account1 is ever current (script.js:162), and for it neither throws. The model always applies the balance refresh, so in a state where account3 or account4 were current it would cache a balance that the page leaves unset. `Seeded.LoanClicksOnAccount3` uses such a hypothetical state and states only the pushed movements, which the page pushes before `updateUI` runs.
- Username uniqueness is not enforced, as in the code. `CloseRemovesCurrent` assumes it, and the seeded data satisfies it (`LoadedInvariants`).
- Ledger.Filter: its own contract bounds only the length. Which occurrences it keeps, and in what order, are proved separately in `FilterCounts`, `FilterConcat` and `FilterSingleton`. Stating the occurrence counts on `Filter` itself would make every use of it on the seeded literal data much more expensive to verify.
- Seeded.InitialBankShape: `InitialBank() == Loaded` is stated through its components rather than as one equation: the four heap entries in `Loaded1`–`Loaded4`, and the account list, the current index and the sort flag here.
