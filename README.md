# FairShare front end: expense display and entry logic

FairShare is a browser front end for a shared-expense tracker. Users form
groups, log expenses and split them among the members. Most of the front end
is React screens over a REST back end. This project models the small pieces
of decision logic inside those screens and proves what they do:

- **Avatar initials** (`UserAvatar`). A name is trimmed and split on runs of
  whitespace. The avatar shows the first letters of the first and last words,
  upper-cased (one letter for a single word), or "?" for a blank name.
- **Expense card status** (`ExpenseCard`). The card finds the signed-in
  user's split and works out whether they owe or get money back. It then shows
  one of four chips, by a fixed priority, along with an "N people" count.
- **Add-expense dialog** (`ExpenseForm`). This covers the dialog's state, the
  defaults set when it opens, the reset when it closes, field-by-field
  validation, the request the dialog sends, and member-name lookup.
- **Expense details figures** (`ExpenseDetails`). The page shows the total
  collected so far (a left fold over the splits), the amount still to collect
  and its colour, the expense's status chip, and each split's paid icon.

Modules:

- `Wrappers`: the `Option` type, used for JavaScript's `undefined`.
- `ExpenseTypes`: the records of `src/types/Expense.ts`. Money is held in
  integer minor units.
- `JsString`: the JavaScript string operations these screens depend on,
  written out. These are `trim`, `split(/\s+/)`, `toUpperCase`, and printing
  an integer in a template literal.
- One module per component.

The signed-in user is modelled as an `Option<string>` holding their user id. No
user means `user?.userId` is `undefined`, which equals no id. The dialog's
React state variables are the fields of the class `ExpenseForm.FormState`.
Its two `useEffect` bodies and `validateForm` are methods that update those
fields.

Points where the code's behaviour is easy to misread:

- An expense's `isSettled` is read as its own field
  (src/types/Expense.ts:31). It is not derived from its splits.
- `getMemberName` returns `'Unknown'` when no member matches. It also returns
  `'Unknown'` when the matching member's name is the empty string, because of
  the `|| 'Unknown'`. The model keeps both cases.
- `userOwes` looks only at the first split carrying the user's id, because
  `find` returns the first match. `ExpenseCard.OwesWithUniqueUsers` shows this
  is the same as "some split of the user" when each user has at most one
  split. `ExpenseCard.LaterSplitIgnored` shows that otherwise they can differ:
  a settled first split hides a later unsettled one.

## Model

| member | source | states |
|---|---|---|
| JsString.IsWhitespace | src/components/UserAvatar.tsx:5 | the characters `\s` and `trim` treat as whitespace (the WhiteSpace and LineTerminator sets of ECMA-262) never include an ASCII letter or digit, or any C1 control character such as NEXT LINE (U+0085) |
| JsString.Trim | src/components/UserAvatar.tsx:5 | `trim` leaves no whitespace at either end, and its result is empty exactly when the string is all whitespace (using JavaScript's whitespace set) |
| JsString.TrimOfPadded | src/components/UserAvatar.tsx:5 | trimming a trimmed core with any whitespace around it gives back exactly that core |
| JsString.TrimDecomposes | src/components/UserAvatar.tsx:5 | every string is its trimmed form with a whitespace prefix and a whitespace suffix |
| JsString.TrimIgnoresPadding | src/components/UserAvatar.tsx:5 | adding whitespace around a string never changes what `trim` returns |
| JsString.Split | src/components/UserAvatar.tsx:5 | `split(/\s+/)` always returns at least one piece |
| JsString.JoinSplit | src/components/UserAvatar.tsx:5 | the pieces and the dropped whitespace runs join back to the original string; pieces contain no whitespace; pieces other than the first and last are non-empty; every run is non-empty whitespace |
| JsString.SplitJoin | src/components/UserAvatar.tsx:5 | splitting words joined by any non-empty whitespace runs gives back the words and the runs, so a run of several whitespace characters acts as one separator |
| JsString.SplitOfTrimmed | src/components/UserAvatar.tsx:5-12 | a non-empty trimmed string splits into non-empty words only, so `words[0][0]` and `words[words.length - 1][0]` exist |
| JsString.ToUpperCase | src/components/UserAvatar.tsx:18 | upper-casing keeps the length and maps each character on its own (ASCII letters to capitals) |
| JsString.ToUpperCaseIdempotent | src/components/UserAvatar.tsx:18 | upper-casing twice is the same as upper-casing once |
| JsString.NatToString | src/pages/Expense/ExpenseCard.tsx:83 | a count renders as a non-empty run of decimal digits with no leading zero |
| JsString.NatToStringRoundTrip | src/pages/Expense/ExpenseCard.tsx:83 | reading back the decimal digits of a count gives the count |
| UserAvatar.Initials | src/components/UserAvatar.tsx:7-12 | before upper-casing, the initials have one or two characters |
| UserAvatar.InitialsOfTrimmed | src/components/UserAvatar.tsx:7-12 | from a trimmed name, one or two characters: "?" when it is empty, and otherwise starting with the name's first character |
| UserAvatar.StringAvatar | src/components/UserAvatar.tsx:4-20 | the avatar text has one or two characters |
| UserAvatar.AvatarText | src/components/UserAvatar.tsx:26-28 | a missing `name` prop defaults to "" and so shows "?" |
| UserAvatar.BlankName | src/components/UserAvatar.tsx:8-9 | a blank or all-whitespace name shows "?" |
| UserAvatar.SingleWord | src/components/UserAvatar.tsx:10-11 | a single word, with any whitespace around it, shows that word's first character upper-cased |
| UserAvatar.SeveralWords | src/components/UserAvatar.tsx:12 | several words show the first characters of the first and the last word, upper-cased; the middle words and the separator lengths do not matter |
| UserAvatar.PaddingIgnored | src/components/UserAvatar.tsx:5 | leading and trailing whitespace never change the avatar |
| UserAvatar.SeparatorRunsIgnored | src/components/UserAvatar.tsx:5 | the same words with different whitespace runs between them give the same avatar |
| UserAvatar.NameShapes | src/components/UserAvatar.tsx:5-12 | every name is whitespace around non-empty words (or is all whitespace), so the blank, one-word and several-word cases cover every name |
| ExpenseCard.FindSplit | src/pages/Expense/ExpenseCard.tsx:29 | `find` returns nothing iff no split has the id; otherwise it returns the first split with that id |
| ExpenseCard.UserSplit | src/pages/Expense/ExpenseCard.tsx:29 | the user's split is the first split with their id, and there is none when nobody is signed in or no split has their id |
| ExpenseCard.UserOwes | src/pages/Expense/ExpenseCard.tsx:30 | `userOwes` holds iff a user is signed in and their first split is unsettled with `shareAmount > 0` |
| ExpenseCard.OwesWithUniqueUsers | src/pages/Expense/ExpenseCard.tsx:30 | when each user has at most one split, `userOwes` holds iff some split of the user is unsettled with a positive share |
| ExpenseCard.LaterSplitIgnored | src/pages/Expense/ExpenseCard.tsx:29-30 | with two splits of the same user, a settled first split makes a non-payer see "Pending" even though the second split owes |
| ExpenseCard.SomeOtherUnsettled | src/pages/Expense/ExpenseCard.tsx:32 | `some` holds iff some split of another user is unsettled |
| ExpenseCard.UserGetsBack | src/pages/Expense/ExpenseCard.tsx:31-32 | `userGetsBack` holds iff the signed-in user is the payer and some other user's split is unsettled |
| ExpenseCard.GetStatusChip | src/pages/Expense/ExpenseCard.tsx:34-45 | exactly one chip is shown: "Settled" (success) iff the expense is settled; "You owe" (warning) iff unsettled and the user owes; "You get back" (info) iff unsettled, the user does not owe and gets back; otherwise "Pending", the only chip without a colour |
| ExpenseCard.LabelsDistinct | src/pages/Expense/ExpenseCard.tsx:36-44 | the four chips have four different labels |
| ExpenseCard.SettledWins | src/pages/Expense/ExpenseCard.tsx:35-37 | a settled expense reads "Settled" whatever its splits say |
| ExpenseCard.PayerWithOwnShareOwes | src/pages/Expense/ExpenseCard.tsx:38-43 | a payer whose own split is unsettled with a positive share sees "You owe", ahead of "You get back" |
| ExpenseCard.PayerGetsBack | src/pages/Expense/ExpenseCard.tsx:41-43 | a payer whose own splits are all settled sees "You get back" iff another user's split is unsettled |
| ExpenseCard.SignedOutPending | src/pages/Expense/ExpenseCard.tsx:29-44 | with nobody signed in, an unsettled expense reads "Pending" |
| ExpenseCard.PeopleLabel | src/pages/Expense/ExpenseCard.tsx:83 | the people chip is a number followed by " people" |
| ExpenseCard.PeopleCountIsSplitCount | src/pages/Expense/ExpenseCard.tsx:83 | the number in the people chip is the number of splits |
| ExpenseForm.HasMember | src/pages/Expense/ExpenseForm.tsx:69 | `members.some` holds iff some member has the id |
| ExpenseForm.MemberIds | src/pages/Expense/ExpenseForm.tsx:76 | the default participants are all member ids, in member order |
| ExpenseForm.DefaultPayer | src/pages/Expense/ExpenseForm.tsx:69-73 | the default payer is the signed-in user if they are a member, otherwise the first member |
| ExpenseForm.DefaultPayerIsParticipant | src/pages/Expense/ExpenseForm.tsx:66-77 | the default payer is always one of the default participants |
| ExpenseForm.MemberName | src/pages/Expense/ExpenseForm.tsx:143-145 | gives the first matching member's name; gives 'Unknown' when no member matches or that name is empty |
| ExpenseForm.FormErrors | src/pages/Expense/ExpenseForm.tsx:93-111 | there is a `description` error iff the trimmed description is empty, an `amount` error iff the amount is not positive, a `paidBy` error iff no payer is chosen, and a `participants` error iff none are chosen; each carries its message and no other key appears |
| ExpenseForm.NoErrorsIffValid | src/pages/Expense/ExpenseForm.tsx:112-113 | the error map is empty iff all four checks pass |
| ExpenseForm.BlankDescriptionIsMissing | src/pages/Expense/ExpenseForm.tsx:96-98 | an all-whitespace description counts as missing |
| ExpenseForm.DefaultsPassSelectionChecks | src/pages/Expense/ExpenseForm.tsx:66-110 | after the opening defaults, and given non-empty member ids, there is neither a payer error nor a participants error |
| ExpenseForm.BuildRequest | src/pages/Expense/ExpenseForm.tsx:121-130 | the request always has split strategy 'EQUAL', the selected participants and the form's fields, and has no notes when the notes text is empty |
| ExpenseForm.NotesRoundTrip | src/pages/Expense/ExpenseForm.tsx:126 | reading the notes back from the request, with absent read as "", gives the notes text |
| ExpenseForm.FormState.constructor | src/pages/Expense/ExpenseForm.tsx:55-63 | the dialog starts with empty fields, amount 0, today's date and no errors |
| ExpenseForm.FormState.ApplyDefaults | src/pages/Expense/ExpenseForm.tsx:66-78 | when the dialog is open and has members, it sets the default payer and participants; otherwise it changes nothing |
| ExpenseForm.FormState.ResetIfClosed | src/pages/Expense/ExpenseForm.tsx:81-91 | closing resets description, amount, payer, participants, notes and errors to empty or zero, and the date to today; while open nothing changes |
| ExpenseForm.FormState.ValidateForm | src/pages/Expense/ExpenseForm.tsx:93-114 | records exactly the error map the field checks call for, and returns true iff that map is empty |
| ExpenseForm.FormState.Submit | src/pages/Expense/ExpenseForm.tsx:116-130 | validates the form; when it is valid, gives the request built from the fields; otherwise sends nothing |
| ExpenseForm.FormState.SubmitFailed | src/pages/Expense/ExpenseForm.tsx:135-137 | a failed service call leaves only the `submit` error |
| ExpenseDetails.SettledFold | src/pages/Expense/ExpenseDetails.tsx:78 | the `reduce` fold equals its start value plus the sum of the settled amounts |
| ExpenseDetails.TotalPaid | src/pages/Expense/ExpenseDetails.tsx:78 | `totalPaid` is the sum of `settledAmount` over all splits |
| ExpenseDetails.TotalPaidEmpty | src/pages/Expense/ExpenseDetails.tsx:78 | with no splits, `totalPaid` is 0 |
| ExpenseDetails.TotalPaidAppend | src/pages/Expense/ExpenseDetails.tsx:78 | appending a split raises `totalPaid` by exactly that split's settled amount |
| ExpenseDetails.TotalPaidConcat | src/pages/Expense/ExpenseDetails.tsx:78 | the total of two lists laid end to end is the sum of their totals, in either order |
| ExpenseDetails.RemainingAmount | src/pages/Expense/ExpenseDetails.tsx:79 | the remaining amount plus the amount collected is the expense amount |
| ExpenseDetails.RemainingTone | src/pages/Expense/ExpenseDetails.tsx:204 | the remaining amount shows as a warning iff less than the amount has been collected, otherwise as success |
| ExpenseDetails.RemainingOfConsistentSplits | src/pages/Expense/ExpenseDetails.tsx:78-79 | given shares that sum to the amount and settled amounts between 0 and the share: the remaining amount is what is still owed on the splits, it lies between 0 and the amount, and it shows as success iff every split is paid in full |
| ExpenseDetails.NothingPaidLeavesAmount | src/pages/Expense/ExpenseDetails.tsx:78-79 | when nothing has been paid, the whole amount remains |
| ExpenseDetails.ExpenseStatusChip | src/pages/Expense/ExpenseDetails.tsx:104-107 | the chip reads "Settled" (success) iff the expense is settled, else "Pending" (warning) |
| ExpenseDetails.SplitStatusIcon | src/pages/Expense/ExpenseDetails.tsx:182-186 | a split shows the paid icon iff it is settled |

## Left out

- The avatar's background colour (`userStringToColor`) is not modelled, because its source file is not part of this model.
- JsString.ToUpperCase: maps only the ASCII letters `a`-`z`. JavaScript applies the full Unicode case mapping, which for some characters (such as `ß` becoming `SS`) even changes the length.
- A JavaScript string is a sequence of UTF-16 code units, so `words[0][0]` can be half of a surrogate pair. Here a string is a sequence of Unicode scalar values.
- Amounts are integers in minor units. Not modelled: floating-point addition in the `reduce`, `parseFloat` giving `NaN` (which the source's `!amount` also rejects), and `toFixed(2)` formatting.
- Dates: the date picker's value is held as the ISO text the request carries (`toISOString`), and "now" (`new Date()`) is the `today` parameter. Locale date formatting is not modelled.
- The service call in `handleSubmit` (`expenseService.createExpense`) and its callbacks (`onExpenseCreated`, `onClose`) are not modelled, and neither is the `loading` flag. The model covers validation, the request built, and the error recorded on failure.
- React rendering, the order in which `useEffect` bodies run, navigation, and the "Your share" line of the card (a formatted display of the user split's share) are not modelled.
- The HTTP services, auth context, routing, layout, theme, group pages, profile and authentication forms are outside the logic modelled here.
- No split calculator, settlement payments or balance netting is modelled, because the repository's code does not implement them.
