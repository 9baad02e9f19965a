# Job portal page script: applied-jobs cart and search filter

This project models the state-keeping core of the job portal's page script
(`job_portal/job_portal_homepage.js`). Two parts are modelled.

- **The applied-jobs cart.** This is the global `cart` array of
  `{id, title, company, details}` entries.
  - `addToCart` reads a job card and rejects a (title, company) pair that is
    already present. Otherwise it appends the entry.
  - `removeFromCart(index)` deletes the entry at `index` when the index is in
    bounds.
  - After each successful change the whole array is written to local storage
    under `'jobCart'`. The header link is also relabelled `Cart (n)`.
  - At page start the stored array is read back when the item is present and
    non-empty.
- **The search filter.** `performSearch` lower-cases and trims the title and
  location inputs. It shows a card exactly when each filter is empty or occurs
  in the card's lower-cased title (first `h3`) or location (first `p`) text.

Modules:

- `Text`: JavaScript's `trim` (the full ECMAScript whitespace and line
  terminator set), `toLowerCase` on ASCII letters, `includes`, and the decimal
  rendering of a count.
- `Markup`: the card fields the script reads, and the `x?.textContent || fallback`
  idiom.
- `Search`: the visibility predicate and the `performSearch` loop over the
  cards' display slots.
- `Cart`: pure functions that specify each cart operation, with lemmas about
  them. The class `CartPage` holds the in-memory `cart`, the local-storage items
  and the header link text. Its methods update these in place.

Storage is a map from item key to stored value. The `'jobCart'` value is either
the empty string or the JSON text of an entry array. The model keeps that array
itself, not its text. The clock value `Date.now()` used as an entry id is a
parameter. Alerts become the returned `AddNotice`.

What the code does not have:

- The code removes by index (`removeFromCart`). It has no remove-by-id and no
  remove-last.
- The code's duplicate test compares title and company exactly, without
  trimming.
- Unparseable stored text is not turned into an empty cart. `JSON.parse` throws.
- Entry ids come from the clock and are not checked for uniqueness.

## Model

| member | source | states |
|---|---|---|
| Markup.TextOr | job_portal/job_portal_homepage.js:96-97 | a missing node or an empty text gives the fallback; a non-empty text is kept; a non-empty fallback gives a non-empty result |
| Cart.CardTitle | job_portal/job_portal_homepage.js:96 | the title is never empty: the card's non-empty `h3` text, otherwise 'Unknown Job' |
| Cart.CardCompany | job_portal/job_portal_homepage.js:97 | the company is never empty: the card's non-empty `p strong` text, otherwise 'Unknown Company' |
| Cart.CardDetails | job_portal/job_portal_homepage.js:98-99 | details are the second paragraph's text, or '' when the card has at most one paragraph |
| Cart.IsAlreadyInCart | job_portal/job_portal_homepage.js:102 | the scan is true exactly when some entry has the same title and the same company (exact, case-sensitive) |
| Cart.AddedToCart | job_portal/job_portal_homepage.js:101-116 | afterwards the card's pair is always in the cart; the cart is either unchanged, or (only when the pair was absent) the old cart followed by exactly the new entry with the given id, title, company and details; distinct pairs stay distinct |
| Cart.AddTwiceIsAddOnce | job_portal/job_portal_homepage.js:102-107 | adding the same card a second time, with any id, changes nothing |
| Cart.RemovedFromCart | job_portal/job_portal_homepage.js:241-243 | an out-of-range index changes nothing; an in-range index removes exactly that entry: length drops by one, earlier entries keep their places, later ones shift down by one, and the multiset loses exactly that entry |
| Cart.RemoveKeepsPairsDistinct | job_portal/job_portal_homepage.js:242-243 | removing an entry keeps the (title, company) pairs distinct |
| Cart.RemoveUndoesAdd | job_portal/job_portal_homepage.js:95-120 | after a successful add, removing at the old length restores the old cart |
| Cart.SavedStorage | job_portal/job_portal_homepage.js:28-30 | after saving, loading from storage gives back the saved cart whatever the cart was before; the 'jobCart' key is present and no other item changes |
| Cart.CountLabel | job_portal/job_portal_homepage.js:33-37 | the header text is 'Cart (' + digits + ')', the digits read back as the count, and they have no leading zero; an empty cart shows exactly 'Cart (0)' |
| Cart.LoadedCart | job_portal/job_portal_homepage.js:22-24 | the cart after loading: the stored entries when the 'jobCart' item holds a non-empty value, and the cart as it was when the item is absent or '' |
| Text.DecimalRoundTrip | job_portal/job_portal_homepage.js:36 | the rendered decimal digits of a count read back as that count |
| Text.Decimal | job_portal/job_portal_homepage.js:36 | a count renders as at least one decimal digit, with no leading zero except for 0 itself |
| Cart.CartPage.constructor | job_portal/job_portal_homepage.js:2 | the script starts with an empty cart over the existing storage and header |
| Cart.CartPage.LoadCartFromStorage | job_portal/job_portal_homepage.js:20-25 | the cart becomes the stored entries when the item holds a non-empty value, and is otherwise unchanged; storage is not touched |
| Cart.CartPage.SaveCartToStorage | job_portal/job_portal_homepage.js:28-30 | storage now holds exactly the in-memory cart under 'jobCart' |
| Cart.CartPage.UpdateCartCount | job_portal/job_portal_homepage.js:33-37 | a present header link now shows the cart's length; an absent one stays absent |
| Cart.CartPage.AddToCart | job_portal/job_portal_homepage.js:95-120 | the cart becomes AddedToCart of the old cart; the 'already in cart' notice is returned exactly when the pair was present, and then storage and header are untouched; on success storage mirrors the cart and the header shows its length; consistency (mirror, header, distinct pairs) is preserved |
| Cart.CartPage.RemoveFromCart | job_portal/job_portal_homepage.js:241-247 | the cart becomes RemovedFromCart of the old cart; out of range, storage and header are untouched; in range, storage mirrors the cart and the header shows its length; consistency is preserved |
| Cart.StartPage | job_portal/job_portal_homepage.js:5-7 | at page load the cart is the loaded one, the header shows its length, and a stored cart with distinct pairs gives a fully consistent page |
| Text.Trim | job_portal/job_portal_homepage.js:63-64 | the trimmed filter neither starts nor ends with whitespace and is no longer than its input |
| Text.TrimDecomposes | job_portal/job_portal_homepage.js:63-64 | every string is whitespace, then its trim, then whitespace |
| Text.TrimOfPadded | job_portal/job_portal_homepage.js:63-64 | trimming a string that has no whitespace at either end, padded with whitespace, gives back that string |
| Text.TrimIgnoresPadding | job_portal/job_portal_homepage.js:63-64 | whitespace added around a string does not change its trim |
| Text.TrimIdempotent | job_portal/job_portal_homepage.js:63-64 | trimming twice is trimming once |
| Text.Lower | job_portal/job_portal_homepage.js:63 | lower-casing keeps the length, maps each character by LowerChar and leaves no ASCII capital |
| Text.LowerIdempotent | job_portal/job_portal_homepage.js:69-70 | lower-casing twice is lower-casing once |
| Text.Includes | job_portal/job_portal_homepage.js:72-73 | `includes` scans start positions left to right; an empty filter is always included, and an included filter is no longer than the text |
| Text.LowerChar | job_portal/job_portal_homepage.js:69-70 | one character lower-cased: ASCII capitals move to the matching small letter, everything else is unchanged, whitespace stays whitespace |
| Text.IsTrimmable | job_portal/job_portal_homepage.js:63-64 | the characters `trim` removes; among ASCII these are exactly space, tab, LF, VT, FF and CR |
| Text.IncludesIffOccurs | job_portal/job_portal_homepage.js:72-73 | `includes` holds exactly when the filter occurs at some index of the text |
| Search.NormalizedFilter | job_portal/job_portal_homepage.js:63-64 | a missing input gives ''; a normalised filter has no whitespace at either end, no ASCII capital, and is no longer than the typed value; its value is fixed by NormalizedFilterSplits and NormalizedFilterKeepsNormal |
| Search.TitleText | job_portal/job_portal_homepage.js:69 | the card's title text: '' without an `h3`, otherwise the `h3` text lower-cased (same length, each character lower-cased by LowerChar, no ASCII capital) |
| Search.LocationText | job_portal/job_portal_homepage.js:70 | the card's location text: '' without a `p`, otherwise the first `p` text lower-cased (same length, each character lower-cased by LowerChar, no ASCII capital) |
| Search.Accepts | job_portal/job_portal_homepage.js:72-73 | one filter lets a text through exactly when the filter is empty or occurs at some index of the text |
| Search.Visible | job_portal/job_portal_homepage.js:75 | empty filters make a card visible; a visible card has each non-empty filter occurring in its title, respectively location, text |
| Search.DisplayFor | job_portal/job_portal_homepage.js:75-79 | a card's display is flex exactly when it is visible, and none otherwise; empty filters give flex |
| Search.PerformSearch | job_portal/job_portal_homepage.js:59-81 | every card's display becomes flex if it is visible under the normalised filters, and none otherwise |
| Search.VisibleIffOccurs | job_portal/job_portal_homepage.js:68-78 | a card is shown exactly when each normalised filter is empty or occurs at some position of the card's lower-cased title, and likewise of its location |
| Search.NormalizedFilterSplits | job_portal/job_portal_homepage.js:63-64 | the lower-cased input is whitespace, then the normalised filter, then whitespace: the filter is `value.toLowerCase().trim()` |
| Search.NormalizedFilterKeepsNormal | job_portal/job_portal_homepage.js:63-64 | a typed value with no whitespace at either end and no ASCII capital is its own filter, so a typed filter is not discarded |
| Search.BlankFilterIsEmpty | job_portal/job_portal_homepage.js:63-64 | a missing input or one holding only whitespace normalises to '' |
| Search.BlankFiltersShowEveryCard | job_portal/job_portal_homepage.js:63-78 | with both inputs missing or blank, every card is shown |
| Search.FilterIgnoresCase | job_portal/job_portal_homepage.js:63 | typing the filter in another case gives the same filter |
| Search.FilterIgnoresPadding | job_portal/job_portal_homepage.js:63-64 | whitespace typed around the filter gives the same filter |
| Search.CardTextIgnoresCase | job_portal/job_portal_homepage.js:69-73 | lower-casing a card's title and location text does not change whether it is shown |

## Left out

- DOM rendering and event wiring are not modelled. This covers the cart modal, the job form, `createJobCard`, the setup functions and the `"Add"` click handler. Card content enters the model as the `JobCard` value the script would read.
- The `DOMContentLoaded` handler is modelled only by its first two calls, in `StartPage`.
- `alert` calls are not modelled. The choice of alert becomes the returned `AddNotice`.
- JSON text is not modelled. A stored value is the entry array it denotes, or the empty string.
- Stored text that is not valid JSON is left out. `JSON.parse` throws on it. Valid JSON that is not an entry array is left out too.
- Local storage failures (quota, disabled storage) are not modelled. The source does not handle them.
- Entry ids come from `Date.now()` and are a parameter. Nothing is claimed about their uniqueness.
- Text.LowerChar: leaves every non-ASCII character as it is, so non-ASCII capitals are not lower-cased; `toLowerCase`'s full Unicode case mapping is not modelled.
- Text.Lower: lower-cases ASCII letters only, because `toLowerCase`'s full Unicode case mapping is not modelled.
- Cart.CartPage.RemoveFromCart: takes an integer index. The `NaN` that `parseInt` can return is not modelled; it fails the bounds test in the source and so changes nothing.
- Elements the page lacks are covered only through `Option` values. Examples are a missing search input or a missing header link.
