# ReWear: the pure rules of a clothing-swap front end, in Dafny

ReWear is a web marketplace for swapping used clothes. Listings cost points. Its pages hold a handful of
deterministic rules inside their event handlers:

- the signed-in user's **points wallet**, with its separate earned and spent counters (`hooks/useAuth.jsx`);
- the **admin panel's** demo login and its moderation lists (`lib/adminAuth.js`);
- the **swapping page's** query building, search, pagination, colour bands and affordability gate
  (`app/swapping/page.jsx`);
- the **create-listing form's** state, its version-4 UUID generator and its submit guard
  (`app/create-listing/page.jsx`);
- the **static browse page's** generated items and filter (`app/items/page.jsx`).

This project models those rules as pure functions over immutable records and proves what they promise.
Store reads and writes, the identity provider and randomness are not performed. Each one's outcome is
passed in as a parameter: a write error message or none, a fetched page or none, the random draws of the
UUID generator.

| file | module | models |
|---|---|---|
| `lists.dfy` | `Options`, `Lists` | optional values; `filter`, `map`-where-id-matches, order-preserving sublists |
| `text.dfy` | `Text` | ASCII `toLowerCase`, `includes`, `trim`, decimal rendering |
| `wallet.dfy` | `Wallet` | `hooks/useAuth.jsx` |
| `moderation.dfy` | `Moderation` | `lib/adminAuth.js` |
| `browse.dfy` | `Browse` | `app/swapping/page.jsx` |
| `uuid.dfy`, `listing_form.dfy` | `Uuid`, `ListingForm` | `app/create-listing/page.jsx` |
| `catalog.dfy` | `Catalog` | `app/items/page.jsx` |

The code has no atomic, versioned swap or points ledger: the Swap button's handler is empty
(app/swapping/page.jsx:412). The item swap route (app/api/items/[id]/swap/route.js:24-30) rejects an
item that is already swapped and otherwise sets its status, swapper and swap time; it moves no points.

## Model

| member | source | states |
|---|---|---|
| Wallet.NewUser | hooks/useAuth.jsx:55-80 | A first-time user gets 100 points, earned 100, spent 0, zero totals, and each profile field from the provider or "" |
| Wallet.FirstSyncStartsBalanced | hooks/useAuth.jsx:56-91 | The first sync of a signed-in account yields a user holding 100 points whose balance equals earned minus spent |
| Wallet.MergeProfile | hooks/useAuth.jsx:35-40 | Each synced profile field takes the provider's value when it is present and non-empty, and otherwise keeps the stored one; id, points, totals and stats are untouched |
| Wallet.MergeIdempotent | hooks/useAuth.jsx:35-52 | Re-running the merge with the same provider data changes nothing further |
| Wallet.MergeKeepsWallet | hooks/useAuth.jsx:35-52 | The profile merge leaves the wallet balanced exactly when it was balanced before |
| Wallet.HasChangesAlways | hooks/useAuth.jsx:44-48 | The "only update if there are changes" test is always true, because the `lastLoginAt` key counts as a change even when no profile field differs |
| Wallet.HasChanges | hooks/useAuth.jsx:45-48 | The left-to-right scan agrees with the `some` definition: it is true exactly when some update key counts as changed |
| Wallet.SyncedUser | hooks/useAuth.jsx:30-91 | A missing document gives the new-user defaults; an existing one is always merged, and either way the id is the session's user id |
| Wallet.Sync | hooks/useAuth.jsx:15-106 | Nothing happens before the session loads; without a signed-in account, provider user and user id the user is cleared; a store error clears the user and records the message; otherwise the user is exactly the synced record (new-user defaults or the merged stored document, under the session's id) and the error is cleared |
| Wallet.SyncMergesStoredUser | hooks/useAuth.jsx:30-91 | A returning user's record is the stored document merged with the provider's profile under the session's id; the stored balance and stats are kept, so a balanced wallet stays balanced |
| Wallet.UpdateUserPoints | hooks/useAuth.jsx:109-151 | No user or user id: returns false with no change. A negative new balance: returns false, leaves the user unchanged and records "Insufficient points". A failed write: returns false, leaves the user unchanged and records the write's error, after attempting the computed update. Otherwise it returns true, the balance becomes old + change and the error is left as it was |
| Wallet.PointsStatsRule | hooks/useAuth.jsx:131-143 | On success, earned grows by the change exactly when it is positive, spent grows by its size exactly when it is negative, and no other field moves |
| Wallet.PointsKeepBalanced | hooks/useAuth.jsx:114-143 | points = earned − spent holds after every call, successful or not, when it held before |
| Wallet.PointsStayNonNegative | hooks/useAuth.jsx:114-121 | No call can take a non-negative balance below zero |
| Wallet.StoreAgreesWithLocalState | hooks/useAuth.jsx:120-143 | The document after the store applies the write agrees with the local state on points, earned and spent |
| Wallet.SpendThenEarn | hooks/useAuth.jsx:114-143 | Spending then earning back the same amount restores the balance while both counters grow by that amount |
| Wallet.CanAffordIffSpendSucceeds | hooks/useAuth.jsx:202-204 | Whatever the session holds, `canAfford(p)` agrees with whether a spend of p would go through once any non-empty user id is set: it holds exactly when a user exists with at least p points |
| Wallet.CanAfford | hooks/useAuth.jsx:202-204 | Affordability needs a user and reads nothing from the session: under the session's own user id, or any other non-empty one, it holds exactly when a spend of that many points would succeed |
| Wallet.UpdateUserStats | hooks/useAuth.jsx:155-179 | Without a user or user id it returns false and changes nothing. On success the user becomes the patch overlaid on it. On a write error the user is unchanged and the write's error message is recorded |
| Wallet.Overlay | hooks/useAuth.jsx:168-171 | Keys in the patch replace the user's (a `stats` key replaces the whole stats object); every other field is kept |
| Wallet.OverlayIdempotent | hooks/useAuth.jsx:168-171 | Applying the same patch twice equals applying it once |
| Wallet.CounterPatchKeepsBalanced | hooks/useAuth.jsx:168-171 | A patch that carries neither points nor stats leaves the wallet's balance invariant as it was |
| Moderation.HandleLogin | lib/adminAuth.js:57-64 | The demo credentials authenticate; any others leave the panel exactly as it was |
| Moderation.LoginAlert | lib/adminAuth.js:57-64 | No alert means the login succeeded. From a signed-out panel the "Invalid credentials" alert shows exactly when the login fails, and then the panel is unchanged |
| Moderation.LoginIffCredentials | lib/adminAuth.js:57-64 | From a signed-out panel, login succeeds iff username is "admin" and password is "password" |
| Moderation.HandleLogout | lib/adminAuth.js:66-69 | Logout drops authentication, empties both form fields and keeps the lists |
| Moderation.LogoutThenLoginFails | lib/adminAuth.js:57-69 | Logging in straight after a logout fails, because the form was cleared |
| Moderation.EditUsername | lib/adminAuth.js:114 | Typing a username changes only that form field |
| Moderation.EditPassword | lib/adminAuth.js:122 | Typing a password changes only that form field |
| Moderation.RetypeCredentialsLogsIn | lib/adminAuth.js:57-125 | After a logout, typing the demo credentials logs back in with all lists unchanged |
| Moderation.HandleItemAction | lib/adminAuth.js:72-76 | Keeps length and order; every item with the id gets the action as status, all other items and fields are unchanged |
| Moderation.ItemActionEffect | lib/adminAuth.js:72-76 | After an action every item with that id carries it, and only the status field of any item differs |
| Moderation.ItemActionLastWins | lib/adminAuth.js:72-76 | No transition is checked: a second action on the same id simply overwrites the first |
| Moderation.HandleDeleteItem | lib/adminAuth.js:78-80 | An item survives exactly when its id differs; no item with the id remains |
| Moderation.DeleteItemKeepsOrder | lib/adminAuth.js:78-80 | The survivors keep their order, and the list shrinks by exactly the number of items with the id |
| Moderation.DeleteAbsentItem | lib/adminAuth.js:78-80 | Deleting an id that is not listed changes nothing |
| Moderation.DeleteErasesAction | lib/adminAuth.js:72-80 | Deleting after an action on the same id equals deleting directly |
| Moderation.HandleUserAction | lib/adminAuth.js:83-87 | The same map guarantee over users: users with the id take the status, all others are unchanged |
| Moderation.HandleDeleteUser | lib/adminAuth.js:89-91 | A user survives exactly when its id differs, and the list shrinks by exactly the number of users with the id, so duplicates with other ids all survive |
| Moderation.DeleteUserKeepsOrder | lib/adminAuth.js:89-91 | The surviving users keep their order, and their number is the list's length minus the users with the id |
| Moderation.EditTarget | lib/adminAuth.js:292 | The edit button sends "suspended" exactly for an active user and "active" for every other status |
| Moderation.EditUser | lib/adminAuth.js:292 | The edit button on a row suspends every user with that row's id when the row is active and activates them otherwise; other users are unchanged |
| Moderation.EditToggles | lib/adminAuth.js:292 | Active and suspended toggle into each other; any other status becomes active; the target always differs from the current status |
| Moderation.EditUserEffect | lib/adminAuth.js:83-87 | Pressing edit on a row changes that row's status and leaves rows with other ids unchanged |
| Moderation.HandleCategoryToggle | lib/adminAuth.js:94-98 | `active` flips on exactly the categories with the id; nothing else changes |
| Moderation.CategoryToggleTwice | lib/adminAuth.js:94-98 | Toggling the same category twice restores the list |
| Moderation.CategoryTogglesCommute | lib/adminAuth.js:94-98 | Toggles of two categories can be applied in either order |
| Browse.WhereClauses | app/swapping/page.jsx:97-115 | The equality constraints start with status == "available" and are all equality constraints |
| Browse.WhereOrder | app/swapping/page.jsx:97-115 | The constrained fields follow the order status, category, size, condition; there is one more for each selection that is not "all" |
| Browse.QueryRecoversSelections | app/swapping/page.jsx:97-143 | Reading the built query back gives "available" for status and the selected category, size and condition ("all" when unconstrained) |
| Browse.SortClause | app/swapping/page.jsx:123-136 | newest → createdAt desc, oldest → createdAt asc, points_low → pointsValue asc, points_high → pointsValue desc; any other option adds no ordering |
| Browse.QueryTail | app/swapping/page.jsx:123-143 | After the constraints come the sort option's ordering (first, when the option is known), the cursor and then the limit; every ordering in it is the sort option's; there is a cursor iff isLoadMore and lastDoc are both set; it holds nothing else, so its length is the ordering (0 or 1), the cursor (0 or 1) and one limit |
| Browse.BuildQuery | app/swapping/page.jsx:91-143 | The query opens with the status constraint and ends with limit 12; its equality constraints are exactly the status, category, size and condition constraints, all at the front; the sort option's ordering directly follows them and no other ordering appears; startAfter appears iff it is a load-more with a last document, just before the limit; the query holds nothing else, so its length is the constraints, the ordering, the cursor and one limit |
| Browse.SearchFilter | app/swapping/page.jsx:152-157 | Keeps a document iff the term is empty or its lowercased title, brand or description contains the lowercased term; the result is an order-preserving sublist holding as many documents as match |
| Browse.MatchesSearch | app/swapping/page.jsx:152-157 | A document matches exactly when its lowercased title, brand or description contains the lowercased term; the `searchTerm === ""` test adds nothing, since every string contains the empty string |
| Browse.EmptySearchKeepsPage | app/swapping/page.jsx:152-157 | With an empty search the fetched page is kept whole |
| Browse.FinishFetch | app/swapping/page.jsx:159-172 | Load-more appends the filtered page, otherwise it replaces the list. hasMore iff the page had exactly 12 documents. lastDoc is the page's last document. A failed fetch changes only `loading` |
| Browse.PagesAccumulate | app/swapping/page.jsx:159-163 | A fresh page followed by a load-more shows exactly the search filter of both pages joined |
| Browse.ShortPageStops | app/swapping/page.jsx:166 | A page shorter than 12 turns hasMore off |
| Browse.StartFetch | app/swapping/page.jsx:92 | A fetch sets `loading` and changes nothing else |
| Browse.LoadMoreItems | app/swapping/page.jsx:199-203 | Load-more fetches iff hasMore and not loading, and then sends the load-more query from lastDoc |
| Browse.NoLoadMoreWhileLoading | app/swapping/page.jsx:199-203 | While a fetch is running, load-more does nothing |
| Browse.ResetForNewFilters | app/swapping/page.jsx:176-181 | A filter change empties the list, forgets lastDoc, turns hasMore on and starts loading: the page is back in its state on mount |
| Browse.ResetFetchStartsOver | app/swapping/page.jsx:176-181 | The fetch after a reset has no cursor, and its filtered page replaces the list |
| Browse.PointsBand | app/swapping/page.jsx:205-209 | ≤ 50 is emerald, 51–100 is amber, > 100 is red |
| Browse.PointsBandMonotone | app/swapping/page.jsx:205-209 | A higher price never gets a lower band |
| Browse.PointsColor | app/swapping/page.jsx:205-209 | `getPointsColor` returns the badge classes of the band the price falls in |
| Browse.CanAfford | app/swapping/page.jsx:211-213 | The page's gate holds exactly when the price is at most the page's balance; it does not consult the hook's user |
| Browse.DetailsDisabled | app/swapping/page.jsx:380-403 | The overlay and the disabled button show exactly when the balance is below the price; with a balance of 0 that is every item priced above 0 |
| Browse.DetailsDisabledRule | app/swapping/page.jsx:211-213 | "View Details" is disabled exactly when the balance is below the price; more points never disable it |
| Browse.FetchUserPoints | app/swapping/page.jsx:73-88 | The lookup keeps the balance when there is no user, when the id property it reads is undefined (the `doc()` error is only logged), or when the read fails or finds no document; otherwise the balance is the document's points, 0 when missing |
| Browse.PageBalanceAsWritten | app/swapping/page.jsx:73-88 | Keyed on `user.uid`, which the hook's user object lacks, the page's balance is always 0 |
| Browse.GateDisagreesWithWallet | app/swapping/page.jsx:73-88 | A user whose hook holds 100 points can afford a 10-point item by `canAfford`, yet the page shows it disabled |
| Browse.PageBalance | app/swapping/page.jsx:73-88 | Keyed on the user's `id`, the page's balance is the stored document's points (0 when missing); with no user, no document for the user or a failed read it stays 0 |
| Browse.PageGateMatchesWallet | app/swapping/page.jsx:211-213 | With the lookup keyed on `id` and a stored balance equal to the hook's, the page's gate and disabled flag agree with the hook's `canAfford` |
| ListingForm.InitialFormDefaults | app/create-listing/page.jsx:9-24 | A fresh form has status "available", approved false, an empty uuid, no images and one empty URL input, with images in step |
| ListingForm.HandleInputChange | app/create-listing/page.jsx:26-32 | A checkbox writes its checked flag, any other input its value, under the input's name; every other key is unchanged |
| ListingForm.NonBlank | app/create-listing/page.jsx:40 | Keeps exactly the URLs that are not all white space (the `trim` rule), in order and with every copy: its length is the number of such entries |
| ListingForm.HandleImageUrlChange | app/create-listing/page.jsx:34-42 | Only the given index changes, the list keeps its length, and images becomes the non-blank URLs in order; the form gains no key but `images` and its other keys keep their values |
| ListingForm.AddImageUrl | app/create-listing/page.jsx:44-46 | One empty input is appended and the form, images included, is untouched |
| ListingForm.AddKeepsImagesSynced | app/create-listing/page.jsx:44-46 | Appending a blank input keeps images equal to the non-blank URLs |
| ListingForm.DropIndex | app/create-listing/page.jsx:49 | Filtering out one position removes exactly that element for a valid index and nothing otherwise |
| ListingForm.RemoveImageUrl | app/create-listing/page.jsx:48-55 | A valid index removes exactly that position, keeping the others in order; an out-of-range index leaves the list unchanged; images is again the non-blank URLs; the form gains no key but `images` and its other keys keep their values |
| ListingForm.RemoveButtonKeepsOneInput | app/create-listing/page.jsx:256-259 | With the remove button shown only for two or more inputs, at least one input remains |
| ListingForm.HandlersKeepImagesSynced | app/create-listing/page.jsx:26-55 | Every handler keeps images equal to the non-blank URL inputs |
| ListingForm.GenerateUuidInto | app/create-listing/page.jsx:57-64 | The form's uuid becomes the version-4 identifier generated from the given random draws; the form gains no key but `uuid`, no other key changes and the URL inputs are kept |
| ListingForm.HandleSubmit | app/create-listing/page.jsx:66-81 | An empty or missing uuid alerts "UUID is required." and writes nothing. Otherwise the form is written to users/uuid/items, and the alert is "Item created successfully!" when the write succeeds and "Failed to create item." when it fails. A truthy uuid that is not a string alerts the failure and writes nothing |
| ListingForm.UuidGuard | app/create-listing/page.jsx:57-74 | The untouched form is refused; once an identifier is generated the same form reaches the write |
| Uuid.TemplateByPosition | app/create-listing/page.jsx:58 | The template has 36 characters: dashes at 8, 13, 18 and 23, '4' at 14, 'y' at 19, 'x' elsewhere |
| Uuid.SlotPosition | app/create-listing/page.jsx:58-62 | Each of the 31 replaced characters sits at a template 'x' or 'y' whose count of earlier replacements is its draw index |
| Uuid.HexRoundTrip | app/create-listing/page.jsx:61 | `toString(16)` on a digit and reading a lowercase hex digit back are inverse |
| Uuid.VariantValueRange | app/create-listing/page.jsx:60 | `(r & 0x3) \| 0x8` is 8 + r mod 4, one of 8, 9, 10, 11 |
| Uuid.UuidFrom | app/create-listing/page.jsx:57-62 | The result has length 36, '-' at 8, 13, 18 and 23, '4' at 14, one of 8, 9, a, b at 19, and lowercase hex everywhere else |
| Uuid.UuidEncodesDraws | app/create-listing/page.jsx:58-62 | Each draw can be read back from its position: exactly at 'x' positions, modulo 4 plus 8 at the variant position |
| Uuid.EveryV4IsGenerated | app/create-listing/page.jsx:57-62 | Every lowercase version-4 string is produced by some sequence of draws |
| Uuid.GenerateUuid | app/create-listing/page.jsx:57-62 | Walking the template literal and replacing each x or y with the next draw gives the position-wise definition, hence a version-4 identifier |
| Catalog.AllItems | app/items/page.jsx:6-12 | There are 20 items; entry i has id i and category "Men" when i is even, "Women" when odd |
| Catalog.TitlesDistinct | app/items/page.jsx:8 | Titles "Item 1" … "Item 20" are pairwise distinct |
| Catalog.FilteredItems | app/items/page.jsx:18-24 | An item is shown iff the category is "All" or matches, and its lowercased title contains the lowercased search; the result is an order-preserving sublist of the items |
| Catalog.Matches | app/items/page.jsx:18-24 | An item matches exactly when the category is "All" or its own, and the lowercased search occurs at some position of the lowercased title |
| Catalog.DefaultShowsEverything | app/items/page.jsx:15-24 | With search "" and category "All" every item is shown |
| Catalog.CategoryParity | app/items/page.jsx:10-19 | "Men" shows only even ids and "Women" only odd ids |
| Catalog.SearchIgnoresCase | app/items/page.jsx:20-22 | Lowercasing the search term first changes nothing |
| Catalog.UnknownCategoryShowsNothing | app/items/page.jsx:10-19 | A category other than "All", "Men" or "Women" shows no items |
| Text.ContainsIffOccurs | app/swapping/page.jsx:154-156 | The model of `includes` holds exactly when the term occurs at some start position |
| Text.TrimEmptyIffAllSpace | app/create-listing/page.jsx:40 | `trim()` yields "" exactly for strings made only of ECMAScript white space and line terminators |
| Text.DecimalRoundTrip | app/items/page.jsx:8-9 | The decimal rendering used in titles and image URLs reads back as the same number |
| Lists.FilterIsSubsequence | app/items/page.jsx:18 | `filter` returns an order-preserving sublist of its input |
| Lists.FilterAppend | app/swapping/page.jsx:160 | Filtering a concatenation equals concatenating the filtered parts |

## Left out

- Store I/O (`getDoc`, `setDoc`, `updateDoc`, `addDoc`, `getDocs`, the API route handlers and the Mongoose models) is not performed. Its outcome is a parameter: an error message or none, a fetched page or none, a write that fails or not.
- Identity-provider sessions and `middleware.js` route matching belong to a foreign library. The session enters only as the loaded, signed-in, user-id and profile fields the hook reads.
- React rendering, styling, `alert` dialogs and the 300 ms search debounce timer (app/swapping/page.jsx:184-193) are presentation and timing. An alert is modelled only by its message text, where a handler raises one: Moderation.LoginAlert and ListingForm.HandleSubmit.
- `Math.random` in `generateUUID` is replaced by the 31 draws it would return, taken as a parameter.
- Text.Lower: lowercases ASCII letters only. JavaScript's `toLowerCase` maps all of Unicode, and modelling that table is out of scope.
- Wallet.UpdateUserPoints: does not model concurrent calls. The source reads the balance from the closed-over `user` but updates the stats from the latest `prev` state, and the model gives both the same state.
- Wallet.UpdateUserPoints: points are unbounded integers. JavaScript numbers are doubles, which lose precision above 2^53.
- The unused `reason` argument of `updateUserPoints` and the `refreshUser` and `signOut` helpers are not modelled. They are a store read and a reset to no user.
- The sync's `preferences`, `joinedAt`, `lastLoginAt`, `lastUpdatedAt` and `clerkUser` fields are left out. They are server timestamps or opaque objects that no rule reads.
- ListingForm.HandleImageUrlChange: requires an index inside the list. Its only caller passes the index of a rendered input (app/create-listing/page.jsx:252). The sparse array JavaScript would create for a larger index is not modelled.
- Wallet.Overlay: a patch carries only the keys points, totalSwaps, totalListings and stats. The source spreads any object (hooks/useAuth.jsx:168-171). A Firestore dotted path such as "stats.itemsListed" updates the nested field in the store but becomes a literal top-level key in the local state; that divergence is not modelled.
- Wallet.UpdateUserStats: inherits the four-key patch of Wallet.Overlay, so the store and local state after a dotted-path patch are not modelled.
- Browse.FinishFetch: does not model overlapping fetches. On mount both the filter effect and the debounced search effect call `fetchItems(false)` without checking `loading` (app/swapping/page.jsx:176-193). One fetch's `finally` can clear `loading` while another runs, and a load-more response that arrives after a reset appends to the fresh list. The model finishes one fetch at a time.
- Browse.SearchFilter: assumes every document has a title, brand and description. A missing field would make `toLowerCase` throw, and the fetch would then end like a failed one.
- The dashboard figures, including the textile-waste number of `app/api/stats/route.js` (floating point and `toFixed`), and the static or marketing pages are outside the modelled rules.
- The code has no atomic, versioned swap or points ledger: the Swap button's handler is empty (app/swapping/page.jsx:412). The item swap route (app/api/items/[id]/swap/route.js) is store I/O and is not modelled.

## Findings

| source | as written | input that shows it | evidently intended | confidence | as-written member | corrected member |
|---|---|---|---|---|---|---|
| app/swapping/page.jsx:77 | The page's balance is looked up under `user.uid`. The hook's user object (hooks/useAuth.jsx:86-91) has `id` and no `uid`, so `doc()` receives undefined, throws, and the catch only logs it; the balance stays at its initial 0 | A signed-in user whose document holds 100 points, viewing an item priced 10 | Look the document up under `user.id`, so the page's gate agrees with the hook's `canAfford` | medium, not executed | Browse.PageBalanceAsWritten, Browse.GateDisagreesWithWallet | Browse.PageBalance, Browse.PageGateMatchesWallet |
