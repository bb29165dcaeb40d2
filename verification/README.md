# User dashboard: store reducers and derived views

A Dafny model of the logic inside a small browser dashboard that shows
sample user records. The dashboard keeps the records in one store slice,
`users`, and changes them with three reducers: `setUsers`, `addUser` and
`removeUser`. Each time the page renders, it derives a view from that list:

- a search filter over the full name and the e-mail address;
- a per-country tally that feeds a pie chart;
- a "show details" toggle keyed by e-mail address. It opens one card at a
  time when no two cards share an e-mail address. Cards that share one
  open together.

Modules:

- `Seqs` (seqs.dfy): order-preserving `Filter` and the subsequence relation.
  Both `removeUser` and the search box are `Array.prototype.filter` calls.
- `Text` (text.dfy): `toLowerCase`, restricted to ASCII letters, and
  `includes`. `includes` is given a computable definition that is proved
  equal to "there is a position where the text occurs".
- `Users` (users.dfy): the user record. It keeps only the fields some
  computation reads: `id.value`, `name.first`, `name.last`, `email` and
  `location.country`.
- `UserSlice` (user_slice.dfy): the slice state, the three reducers as pure
  functions from state to state, the action type, and histories of actions.
- `Dashboard` (dashboard.dfy): the search filter, the country tally, and
  the card-expansion state.

Properties are stated in terms of independent references rather than the
functions' own bodies:

- The search filter is described through substring positions (`OccursAt`).
- The tally is described through the multiset of the users' countries and
  the sum of its counts.
- `removeUser` is described as the unique subsequence that keeps exactly the
  records with another identifier.
- The toggle is described through the set of open card positions.

## Model

| member | source | states |
|---|---|---|
| `UserSlice.Initial` | src/store/userSlice.ts:8-10 | The initial slice holds no users. |
| `UserSlice.SetUsers` | src/store/userSlice.ts:16-18 | After `setUsers` the users are exactly the payload, whatever the prior state held. |
| `UserSlice.AddUser` | src/store/userSlice.ts:19-21 | `addUser` makes the list one longer and puts the record last. All earlier records stay unchanged and in order. |
| `UserSlice.RemoveUser` | src/store/userSlice.ts:22-26 | After `removeUser(id)`, no record has identifier `id`. A record is present iff it was present and its identifier differs. Each kept record occurs as often as before. The list never grows. |
| `UserSlice.RemoveUserIsSubsequence` | src/store/userSlice.ts:22-26 | The result of `removeUser` is a subsequence of the old users, so the original relative order is kept. |
| `UserSlice.RemoveUserCharacterised` | src/store/userSlice.ts:22-26 | Suppose a subsequence of the old users keeps each record with another identifier as often as before and no record with `id`. Then it is exactly `removeUser`'s result. |
| `UserSlice.RemoveUserNoOp` | src/store/userSlice.ts:22-26 | `removeUser(id)` leaves the state unchanged iff no stored user has identifier `id`. |
| `UserSlice.RemoveUserIdempotent` | src/store/userSlice.ts:22-26 | Removing the same identifier twice gives the same state as removing it once. |
| `UserSlice.RemoveAfterAdd` | src/store/userSlice.ts:19-26 | `removeUser(id)` after `addUser(u)`: if `u` has identifier `id`, the result equals removing from the old state. Otherwise `u` stays, after all surviving older records. |
| `UserSlice.Reduce` | src/store/userSlice.ts:12-28 | The slice reducer: a `setUsers` action leaves exactly the payload, an `addUser` action appends the record, and a `removeUser` action leaves a subsequence of the old users holding exactly those with another identifier, each as often as before. |
| `UserSlice.RunAppend` | src/store/userSlice.ts:12-28 | `Run` dispatches a history of actions, oldest first. Dispatching two action histories in turn equals dispatching their concatenation. |
| `UserSlice.AbsentStaysAbsent` | src/store/userSlice.ts:16-26 | An identifier absent from the state stays absent through any history in which no `setUsers` payload or `addUser` record carries it. |
| `UserSlice.RemovedIdStaysAbsent` | src/store/userSlice.ts:16-26 | After a `removeUser(id)`, no record with `id` is in the final state, provided no later action supplies one. |
| `UserSlice.RunProvenance` | src/store/userSlice.ts:16-26 | Every record in the final state was stored at the start, or came from a `setUsers` payload or an `addUser` in the history. |
| `Text.Lower` | src/pages/Dashboard/index.tsx:43-45 | Lower-casing keeps the length. It maps each character to its lower-case form, so no upper-case ASCII letter remains. |
| `Text.LowerIdempotent` | src/pages/Dashboard/index.tsx:43-45 | Lower-casing a lower-cased string changes nothing. |
| `Text.Contains` | src/pages/Dashboard/index.tsx:44-45 | `includes` is true iff the searched text occurs at some position of the string. |
| `Text.ContainsEmpty` | src/pages/Dashboard/index.tsx:44-45 | Every string includes the empty string. |
| `Dashboard.Matches` | src/pages/Dashboard/index.tsx:41-45 | The per-user search test holds iff the lower-cased search text occurs in the lower-cased "first last" name or in the lower-cased e-mail. |
| `Dashboard.FilterUsers` | src/pages/Dashboard/index.tsx:40-46 | A user is in `filteredUsers` iff it is in the store and the lower-cased search text occurs in the lower-cased "first last" name or the lower-cased e-mail. Each kept user occurs as often as in the store. |
| `Dashboard.FilterUsersIsSubsequence` | src/pages/Dashboard/index.tsx:40-46 | The filtered list is a subsequence of the users: never reordered, never duplicated. |
| `Dashboard.FilterUsersEmptySearch` | src/pages/Dashboard/index.tsx:40-46 | An empty search text returns the full user list unchanged. |
| `Dashboard.FilterUsersIdempotent` | src/pages/Dashboard/index.tsx:40-46 | Filtering the filtered list with the same search text gives the same list. |
| `Dashboard.FilterUsersCaseInsensitive` | src/pages/Dashboard/index.tsx:41-45 | Lower-casing the search text first does not change the result. |
| `Dashboard.FullNameSearchFindsUser` | src/pages/Dashboard/index.tsx:42-44 | Searching for a user's first name, a space and last name always finds that user. |
| `Dashboard.SearchMatchesEmail` | src/pages/Dashboard/index.tsx:40-46 | A user with e-mail `joe@canada.com` is found by the search `ca` through the e-mail alone. |
| `Dashboard.Bump` | src/pages/Dashboard/index.tsx:50 | One tally step adds one to the count of the user's country. A missing entry counts as zero. No other count changes. |
| `Dashboard.CountFromSpec` | src/pages/Dashboard/index.tsx:48-54 | The fold adds, to the starting tally, one per user for that user's country. Its keys are the starting keys plus the countries seen. |
| `Dashboard.CountryCount` | src/pages/Dashboard/index.tsx:48-54 | Each country's count equals the number of users from that country. The tally's keys are exactly the countries present among the users. |
| `Dashboard.CountryCountPositive` | src/pages/Dashboard/index.tsx:48-54 | Every count in the tally is at least one. |
| `Dashboard.CountryCountSumIsTotal` | src/pages/Dashboard/index.tsx:48-54 | The counts sum to the number of users, which is the "Total Users" figure on line 83. |
| `Dashboard.ThreeUserTally` | src/pages/Dashboard/index.tsx:48-54 | Users from US, US and CA give the tally {US: 2, CA: 1}, which sums to 3. |
| `Dashboard.Toggle` | src/pages/Dashboard/index.tsx:129-133 | Toggling e-mail `e` gives none iff `e` was the expanded one. Otherwise `e` becomes the expanded one. |
| `Dashboard.ToggleCard` | src/pages/Dashboard/index.tsx:129-141 | Clicking an open card closes every card. Clicking a closed card opens exactly the cards with its e-mail and closes all others. |
| `Dashboard.AtMostOneOpen` | src/pages/Dashboard/index.tsx:135-141 | When no two cards share an e-mail, at most one card shows its details. |
| `Dashboard.SharedEmailOpensTwoCards` | src/pages/Dashboard/index.tsx:129-141 | Two cards with the same e-mail open together, so "one card at a time" depends on e-mails being distinct. |

## Left out

- The fetch effect is left out (index.tsx:29-38): the HTTP request, the `console.log`/`console.error` calls, and when the effect runs. It runs after the first render and after any render in which the stored array changed, and then fetches only if that array is empty. A fetch result enters the model as a `setUsers` payload.
- All rendering is left out: the layout components, avatars, the collapse animation, and the card list keyed by index.
- The chart is left out: chart library registration, chart data, and the five-colour palette. It is foreign library behaviour. `Object.keys`/`Object.values` list the countries in the order each first appears among the users, with integer-like names first. Only the chart reads that order, so the tally is a Dafny `map` with no order.
- The store wiring and the action-creator machinery are left out. The reducers are modelled directly as pure functions from state to state, and `Reduce` dispatches an action to them. The generated reducer also returns the state unchanged for any other action type, and starts from the initial state when it has none. `Action` has only the three slice actions.
- The user type's definition and fields no computation reads are left out: phone, street, city, state, postcode and picture.
- `Text.Lower`: `toLowerCase` lower-cases all of Unicode, but the model lower-cases only the ASCII letters `A`-`Z`.
- `Dashboard.CountryCount`: the tally is modelled as a plain map. The source builds it in a JavaScript object literal. A country named after a property inherited by every object, such as `constructor` or `__proto__`, would behave differently there.
- Template strings and `includes` work on UTF-16 code units. The model works on Dafny characters.
