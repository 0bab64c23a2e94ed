# Vehicle rental site: the list logic of `script.js`, verified in Dafny

The rental site's `script.js` fetches a car catalog and shows it three ways:

- a six-card teaser on the home page;
- a grid of up to thirty cards with a colour filter, a search box and a price sort;
- a detail page for one car.

It also keeps a small account list in the browser's local storage and checks the dates of a booking form. Under the DOM and fetch code sits a small pipeline of list and string operations. This project models that pipeline and proves what it does.

Modules, one file each:

- `Catalog` (`catalog.dfy`): the three normalisation maps from raw catalog records to display records. It covers the falsy-value defaults, the `$`/`,` price cleanup, the division by ten, `Math.round` and the placeholder-image palettes. JavaScript's truncating `%` is written out, because a negative id that is not a multiple of 5 gives an undefined detail image (a negative multiple of 5 gives `-0`, the first image).
- `JsStrings` (`jsstrings.dfy`): the string built-ins the pipeline uses: `replace(/[$,]/g, '')`, `trim()`, `toLowerCase()`, `includes()` and `split('@')[0]`.
- `Filters` (`filters.dfy`): `Array.prototype.filter` with the colour callback and the search callback.
- `PriceSort` (`pricesort.dfy`):
  - the price comparators;
  - `SortByKey`, a reference stable sort;
  - the proof that every stable sort by price gives the same list as `SortByKey`;
  - an in-place insertion sort on an array, proved equal to `SortByKey`.
- `VehicleGrid` (`vehiclegrid.dfy`): `applyFilters`, written as a method over arrays. It copies the snapshot, filters, sorts in place and renders. Beside it are `View`, the list it renders as a function, and `render`'s empty-result branch.
- `TypeStats` (`typestats.dfy`): the per-type counting loop of the statistics block, with the key order of the JavaScript object it fills.
- `Accounts` (`accounts.dfy`): local storage as a class `LocalStore`, with its sign-up and log-in handlers.
- `Booking` (`booking.dfy`): the booking form's date check.
- `Seqs` (`seqs.dfy`) and `Optional` (`optional.dfy`): subsequences and the `Option` type.

How JavaScript values are represented:

- A field that may be missing is an `Option`. `x || d` becomes "the value if present and neither 0 nor the empty string, else `d`".
- `parseFloat` is a parameter `parse: string -> real`, the number the cleaned price text denotes.
- A date is the time value `new Date(...)` produces. `None` stands for an Invalid Date.

Two facts about the price that are easy to get wrong:

- A missing or empty price becomes 2000 on every view, unscaled (script.js:48, 98, 209).
- The price cleanup removes only `$` and `,` (script.js:48, 98, 209).

## Model

| member | source | states |
|---|---|---|
| JsStrings.StripCurrency | script.js:98 | the cleaned price is no longer than the raw one and contains no `$` and no `,` |
| JsStrings.StripCurrencyKeepsOthers | script.js:98 | the cleanup keeps every other character, as often as before and in the original order (a subsequence with equal counts); `$` and `,` are all gone |
| JsStrings.StripCurrencyConcat | script.js:98 | the cleanup works character by character: it distributes over concatenation |
| JsStrings.StripCurrencyIdempotent | script.js:98 | cleaning an already cleaned price changes nothing |
| JsStrings.StripCurrencyExample | script.js:48 | "$1,234.50" becomes "1234.50": the decimal point survives |
| JsStrings.Trim | script.js:134 | the result has no white space at either end, and it is empty exactly when the input is all white space |
| JsStrings.TrimIsSlice | script.js:134 | any slice with only white space before and after it and non-space characters at its ends is the trimmed text |
| JsStrings.ToLower | script.js:135 | same length; each upper-case ASCII letter becomes its lower-case letter, every other character is unchanged; no upper-case letter is left and white space is preserved position by position |
| JsStrings.TrimLowerBlank | script.js:134-135 | the blank-input guard on the raw input agrees with blankness of the lower-cased trimmed term |
| JsStrings.Contains | script.js:137-139 | `includes` holds exactly when the term occurs at some position (the empty term everywhere) |
| JsStrings.BeforeFirst | script.js:302 | `split('@')[0]`: a prefix free of `@` that ends at the first `@`, or the whole text when there is none |
| Catalog.Round | script.js:48 | `Math.round` gives the integer within one half of its argument, halves going up |
| Catalog.JsRem | script.js:210 | JavaScript's `%`: smaller than the divisor in magnitude, with the dividend's sign, and the dividend minus it is a multiple of the divisor |
| Catalog.NormalizeHome | script.js:43-50 | `min(n, 6)` records in catalog order; name is make + " " + model; type "Car"; id falls back to position + 1 when absent or 0; colour falls back to "Gray"; a missing or empty price gives 2000, any other price is the integer nearest one tenth of the cleaned parsed price; image i is the i-th of the six teaser images |
| Catalog.NormalizeGrid | script.js:93-100 | `min(n, 30)` records in catalog order with the same id, name, type and colour rules; the price is one tenth of the cleaned parsed price, unrounded, or 2000; image i is palette entry `i % 15` |
| Catalog.VehicleDetails | script.js:204-213 | id passed through without fallback; name, type, colour and rounded price as on the teaser; the image is undefined exactly when `(id or 0)` is negative and not a multiple of 5, and otherwise the palette entry at `(id or 0)` modulo 5 (the first one for a negative multiple of 5, where JavaScript gives `-0`); description is year, make and model; the four listed features |
| Catalog.DetailImageDefined | script.js:210 | a non-negative or missing id always finds a detail image in the palette |
| Catalog.HomeIsGridPrefix | script.js:93-100 | the teaser's cards are the grid's first cards: same id, name, type and colour, and the teaser price is the grid price rounded |
| Filters.MentionsTerm | script.js:137-139 | definition of the search callback: the lower-cased name, or the non-empty type or colour, contains the term; the empty term matches every vehicle |
| Filters.Keep | script.js:131 | a filter never lengthens the list |
| Filters.KeepExact | script.js:136-140 | the filter keeps an order-preserving subsequence holding each matching vehicle as often as the input and no other vehicle |
| Filters.KeepMembers | script.js:131 | a vehicle survives the filter exactly when it was in the list and passes the callback |
| Filters.KeepMatches | script.js:136-140 | every vehicle the filter keeps passes the callback |
| Filters.KeepAll | script.js:130-131 | a list whose every vehicle passes comes back unchanged |
| Filters.KeepIdempotent | script.js:136-140 | filtering the filter's output with the same callback changes nothing |
| Filters.KeepCommutes | script.js:130-140 | the colour filter and the search filter may run in either order |
| Filters.KeepConcat | script.js:131 | filtering distributes over concatenation |
| PriceSort.SortByKey | script.js:143-147 | definition of the reference stable sort by the comparator's key (price, or minus price for `price-desc`); same length as its input; its properties are the lemmas below |
| PriceSort.InsertPermutation | script.js:144 | inserting adds exactly the inserted vehicle to the multiset |
| PriceSort.SortPermutation | script.js:143-147 | the sort returns a permutation of its input |
| PriceSort.InsertSorted | script.js:144 | inserting into a sorted list keeps it sorted and adds exactly one member |
| PriceSort.SortSorted | script.js:143-147 | the result is non-decreasing in price for `price-asc` and non-increasing for `price-desc` |
| PriceSort.InsertSamePrice | script.js:144 | inserting places the new vehicle after every vehicle of its own price |
| PriceSort.SortStable | script.js:143-147 | stability: the vehicles of any one price keep their relative order |
| PriceSort.SortKeepsSorted | script.js:143-147 | an already sorted list comes back unchanged |
| PriceSort.SortIdempotent | script.js:143-147 | sorting twice is sorting once |
| PriceSort.SamePriceMembers | script.js:143-147 | the vehicles listed for one price come from the list and have that price |
| PriceSort.LastIsMaximal | script.js:143-147 | in a sorted list the last vehicle has the largest key |
| PriceSort.LastsAgree | script.js:143-147 | two sorted lists with the same per-price orders end in the same vehicle |
| PriceSort.StableSortUnique | script.js:143-147 | two sorted lists with the same per-price orders are equal, so a stable sort's result is determined |
| PriceSort.AnyStableSortIsSortByKey | script.js:144-146 | whatever algorithm the engine uses, a stable sort by the comparator's key gives `SortByKey` |
| PriceSort.InsertAt | script.js:144 | insertion puts the vehicle just after the last entry whose key is not larger |
| PriceSort.InsertInPlace | script.js:144 | one step of the in-place sort: the array's first i+1 slots become the insertion of slot i into the sorted slots before it, and the rest of the array stays |
| PriceSort.SortInPlace | script.js:143-147 | `filtered.sort(comparator)` leaves the array holding `SortByKey` of its old contents |
| VehicleGrid.ColorStep | script.js:130-132 | definition of the colour step: never longer than its input, and with a colour selected every vehicle left has exactly that colour |
| VehicleGrid.SearchStep | script.js:134-141 | definition of the search step: never longer than its input, and a blank or all-white-space search leaves the list as it is |
| VehicleGrid.View | script.js:127-149 | definition of the list handed to `render`: the colour step, then the search step, then the price sort when one is chosen; never longer than the snapshot |
| VehicleGrid.Render | script.js:106-124 | the "No vehicles found." branch is taken exactly for an empty list; otherwise one card per vehicle, in order, with its fields and a rate within one half of its price |
| VehicleGrid.RenderKeepsOrder | script.js:117 | rounding the rate for display keeps the grid's price order |
| VehicleGrid.ApplyFilters | script.js:127-150 | the grid shown is the rendering of `View` of the snapshot, and the snapshot array is not modified |
| VehicleGrid.ViewSelects | script.js:130-147 | the view holds exactly the snapshot's vehicles that pass both filters, each as often as in the snapshot |
| VehicleGrid.ViewMembers | script.js:130-147 | a vehicle is in the view exactly when it is in the snapshot and passes both filters |
| VehicleGrid.FilteredIsSubsequence | script.js:128-141 | before sorting, the filtered list is an order-preserving subsequence of the snapshot |
| VehicleGrid.ViewOrder | script.js:143-147 | the view is sorted ascending or descending when one is chosen, and keeps the snapshot's order for any other sort value |
| VehicleGrid.ViewStable | script.js:143-147 | vehicles of equal price appear in the view in the order the filters left them |
| VehicleGrid.ViewIdempotent | script.js:127-150 | applying the same controls to the view they produced changes nothing |
| VehicleGrid.BlankControlsShowAll | script.js:130-147 | with no colour, a blank or all-white-space search and no price order, the view is the snapshot itself |
| TypeStats.Occurrences | script.js:158-161 | a type's count is at most the number of vehicles, and positive exactly when the type occurs |
| TypeStats.TypesInOrder | script.js:158-161 | the object's keys are pairwise distinct, and a type is a key exactly when it occurs |
| TypeStats.TotalBump | script.js:160 | raising one listed count by one raises the total by one |
| TypeStats.TotalIgnores | script.js:160 | setting an unlisted count leaves the total unchanged |
| TypeStats.CountSeen | script.js:160 | counting a vehicle of a type already seen adds one to that count; the keys stay |
| TypeStats.CountNew | script.js:160 | counting a vehicle of a new type sets its count to 1 and appends it to the keys |
| TypeStats.CountByType | script.js:158-161 | the loop's result lists each type once, in order of first appearance; each count is that type's number of occurrences; the counts sum to `data.length` |
| TypeStats.Stats | script.js:156-161 | the block is skipped exactly when the snapshot is empty; otherwise it holds that tally |
| TypeStats.OneTypeOnly | script.js:159-161 | for normalised vehicles, all of type "Car", the tally is the single key "Car" with the number of vehicles |
| Accounts.FindByEmail | script.js:282 | `users.find` yields nothing exactly when no account has that address, and otherwise the first account that has it |
| Accounts.FirstIndex | script.js:282 | the position `find` stops at holds the address, and no earlier position does |
| Accounts.AppendKeepsUnique | script.js:286 | appending an account under a new address keeps the addresses pairwise distinct |
| Accounts.LocalStore.constructor | script.js:281 | a fresh profile has an empty account list (a missing `users` key reads as `[]`) and nobody logged in |
| Accounts.LocalStore.Signup | script.js:281-288 | a registered address gives "already registered" and the list stays as it was; otherwise exactly `{name, email, pass}` is appended at the end; unique addresses stay unique |
| Accounts.LocalStore.Login | script.js:301-302 | log-in stores the address and a session named by the part before the first `@`, checking no password |
| Accounts.DisplayNameIsLocalPart | script.js:302 | for an address with an `@`, the display name is the local part: the address is that name, the `@` and the rest |
| Booking.SubmitBooking | script.js:247-253 | the booking is refused exactly when both dates are valid and the drop-off is not later than the pickup; otherwise it is confirmed with the clock reading |
| Booking.ValidDatesOrdered | script.js:247 | with two valid dates, the booking goes through exactly when the drop-off is strictly later |
| Booking.InvalidDateNotRejected | script.js:247 | an unreadable date is never refused, because every comparison with NaN is false |

## Left out

- Network access is not modelled: `fetchJSON`, the response-shape checks and their error messages, and `console.error` are I/O. The inputs are the already fetched records.
- HTML is not modelled: template strings, `innerHTML`, the mobile menu, event wiring and start-up are UI plumbing. `render` is modelled as the list of cards it would paint, or its empty notice.
- `parseFloat` is not modelled: it is a parameter returning a real. A price text that parses to NaN, and the NaN it would carry through the sort comparator, are outside the model.
- `Catalog.NormalizeGrid`: prices are exact reals. The binary floating-point rounding of the division by ten is not modelled. The same holds for `Catalog.NormalizeHome` and `Catalog.VehicleDetails`.
- The average daily price with `toFixed(2)` in the statistics block is floating-point formatting and is not modelled.
- `JsStrings.ToLower`: only the ASCII letters A–Z are lower-cased. Unicode case mapping is not modelled.
- Non-string values are not modelled. The name of a record whose make or model is missing would read "undefined" in JavaScript. A price that is a number rather than a string would make `replace` throw. The model takes both fields as strings.
- `counts` is a plain object, and the model treats it as a map from type to count. Three behaviours of the object are not modelled. `Object.entries` lists integer-like keys first, in numeric order, while the model keeps insertion order for every key. A type named like an inherited property such as `constructor` or `toString` would start from that property's value, not from 0. An assignment to `__proto__` is ignored, so such a type would never be listed. The model counts such types like any other. All normalised vehicles have the type "Car", so the site never meets these cases.
- `localStorage` with its `JSON.parse`/`JSON.stringify` round trip is modelled as a plain field of records. Storage quotas and malformed stored JSON are left out.
- `new Date(...)` string parsing is not modelled: dates are given as time values, or `None` for an Invalid Date. `Date.now()` is the parameter `now`. The `setTimeout` redirect and `form.reset()` are not modelled.
- `PriceSort.SortInPlace` is an insertion sort, not the engine's own algorithm. `PriceSort.AnyStableSortIsSortByKey` shows that every stable sort gives the same result.
- The quick-search `URLSearchParams` encoding and the contact form's acknowledgement are thin wrappers with no logic. `URLSearchParams` reading of the detail page's id is left out too: the detail record is modelled from the fetched car.
