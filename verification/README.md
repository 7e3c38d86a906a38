# Sou9 Lmokawen listings page, modelled in Dafny

The page shows a grid of classified-ad listings. Each listing has a title, description, price, category, condition, location, images, creation time, seller and an optional favourite flag. Four operations on the list are modelled:

- **The `filtered` query.** It starts from a copy of the list. It keeps the listings whose lower-cased title or description contains the lower-cased search text; this stage runs only when the text is not blank. It then keeps one category unless "all" (`الكل`) is chosen. It keeps prices at or above the minimum and at or below the maximum; each bound is a string, and an empty one switches the bound off. Finally it sorts by ascending price, descending price, or newest first.
- **`toggleFav(id)`.** It flips the favourite flag of the listing(s) with that identifier.
- **`submit`.** The "new listing" form refuses the form when title, price, category or condition is empty. Otherwise it builds a listing with one image.
- **`onAdd`.** It puts the new listing at the head of the list.

The JavaScript pieces the query relies on are modelled from ECMA-262:

- `String.prototype.trim`. It strips the WhiteSpace and LineTerminator code points of sections 12.2 and 12.3.
- `toLowerCase`: ASCII letters only.
- `includes`.
- `Number(string)`: StringToNumber, section 7.1.4.1.1, with the StrNumericLiteral grammar: decimal, exponent, `Infinity`, `0x`/`0o`/`0b`, and NaN for anything else.
- The rule that every comparison with NaN is false.
- `Array.prototype.sort`: section 23.1.3.30, which is stable since the 2019 edition.

Modules:

- `Options`: `Option` and `Result`.
- `JsText`: trim, lower-casing, `includes`.
- `JsNumbers`: `Number()` and comparisons.
- `Listings`: the entities.
- `Filtering`: `filter`.
- `StableSort`: the reference stable sort and the in-place array sort proved equal to it.
- `Query`: the pipeline and its properties.
- `Store`: toggle, submit, prepend.
- `Scenarios`: worked queries over the three seed listings.

`Query.Filtered` is imperative, as in the source. It narrows a local list stage by stage, then sorts an array copy in place. It is proved equal to `Query.View`, the declarative reference definition, and the properties of the query are lemmas about `View`.

Behaviour of the code a reader may not expect, which the model follows:

- The search text is trimmed only to decide whether the text filter runs. Matching then uses the untrimmed text, so `" iPhone "` does not find "iPhone 12 128GB" (`Scenarios.PaddedSearchMissesTitle`).
- A price bound that is not a number is not ignored. It becomes NaN, and every comparison with NaN is false, so the grid becomes empty (`Query.UnparsableBoundShowsNothing`; for the bound "abc", `Scenarios.AbcMinimumShowsNothing`).
- A bound made only of spaces is not empty, so the bound is present, and `Number()` reads it as 0 (`Query.BlankBoundIsZero`).
- `toggleFav` flips every listing with the identifier, not exactly one. Exactly one changes only when identifiers are unique (`Store.ToggleFavChangesOne`).
- The validation message does not name the missing fields. The model's single error value `MissingRequired` carries no field list either.

## Model

| member | source | states |
|---|---|---|
| Query.Filtered | src/App.tsx:57-72 | the pipeline (copy, text, category, min, max stages, then an in-place sort of its own array) returns exactly the reference view; it takes the list by value and modifies nothing, so the listings are never changed |
| Query.PriceBound | src/App.tsx:64-65 | a bound is absent exactly when its string is empty; the body converts any other string with `Number()` |
| Query.View | src/App.tsx:57-72 | the reference shown list: the stable sort, by the chosen key, of the listings that pass every active stage; its contract bounds its length by the input's, and `Filtered`, `ViewSelects`, `ViewOrder` and `ViewStable` state the rest |
| Query.TextFilterOn | src/App.tsx:59 | defines the switch `if(q.trim())`: the trimmed search text is not empty |
| Query.MatchesText | src/App.tsx:61 | defines the filter callback: the lower-cased title or the lower-cased description includes the given text |
| Query.TextOk | src/App.tsx:59-61 | defines the text stage: when the trimmed search text is not empty, the lower-cased title or description must contain the lower-cased untrimmed text |
| Query.CategoryOk | src/App.tsx:63 | defines the category stage: any category but "all" (`الكل`) must equal the listing's category exactly |
| Query.MinOk | src/App.tsx:64-66 | defines the minimum stage: a present minimum must be met by `price >= minN`, JavaScript's comparison, false against NaN |
| Query.MaxOk | src/App.tsx:65-67 | defines the maximum stage: a present maximum must be met by `price <= maxN`, false against NaN |
| Query.Keep | src/App.tsx:59-67 | defines the conjunction of the four stages, which `ViewSelects` shows is exactly what is kept |
| Query.Comparator | src/App.tsx:68-70 | defines the three comparators handed to `sort`: `a.price-b.price`, `b.price-a.price`, `b.createdAt-a.createdAt` |
| Query.SortKey | src/App.tsx:68-70 | for every pair of listings, the source's comparator equals the difference of the chosen keys, so sorting by the key orders as the comparator does |
| Query.ByPrice | src/App.tsx:68 | defines the ascending-price key |
| Query.ByPriceDescending | src/App.tsx:69 | defines the descending-price key, the negated price |
| Query.ByNewest | src/App.tsx:70 | defines the newest-first key, the negated creation time |
| Query.ViewSelects | src/App.tsx:59-67 | a listing appears in the result, as often as in the input, exactly when it passes every active stage; no other listing appears |
| Query.ViewOrder | src/App.tsx:68-70 | `priceAsc` gives non-decreasing prices, `priceDesc` non-increasing prices, any other sort key non-increasing creation times |
| Query.ViewStable | src/App.tsx:68-70 | listings with equal sort keys keep their relative order from the filtered list |
| Query.ViewIsTheStableSort | src/App.tsx:68-70 | any sorted, stable arrangement of the filtered listings is the shown list |
| Query.TextStageMeaning | src/App.tsx:59-62 | the text stage passes everything when the search text is all white space, else exactly the listings whose lower-cased title or description contains the lower-cased, untrimmed search text |
| Query.UnparsableBoundShowsNothing | src/App.tsx:64-67 | a bound whose string `Number()` reads as NaN empties the result |
| Query.BlankBoundIsZero | src/App.tsx:64-66 | a minimum of only white space keeps exactly the non-negative prices |
| StableSort.SortInPlace | src/App.tsx:68-70 | sorting the array in place leaves it holding the stable sort of its old contents |
| StableSort.InsertAt | src/App.tsx:68-70 | one insertion step places `a[i]` into the sorted prefix and leaves the rest of the array unchanged |
| StableSort.SortByKeySorted | src/App.tsx:68-70 | the reference sort returns its input in ascending key order |
| StableSort.SortByKeyStable | src/App.tsx:68-70 | the reference sort keeps the relative order of equal keys |
| StableSort.SortedStableUnique | src/App.tsx:68-70 | two sorted sequences that agree on the order within every key are equal |
| StableSort.SortByKeyIsTheStableSort | src/App.tsx:68-70 | sorted and stable determine the sort's result uniquely |
| StableSort.PlaceWithKey | src/App.tsx:68-70 | inserting an element appends it to its own key's list and leaves the others unchanged |
| StableSort.PlaceSorted | src/App.tsx:68-70 | inserting into a sorted sequence keeps it sorted |
| StableSort.SortByKey | src/App.tsx:68-70 | the sort is a permutation of its input |
| Filtering.Filter | src/App.tsx:61-67 | `list.filter`, used by each of the four stages: never longer than its input (`FilterCount` states which elements it keeps) |
| Filtering.FilterCount | src/App.tsx:61 | `filter` keeps every occurrence of an element that passes and none of one that fails |
| Filtering.FilterCompose | src/App.tsx:61-67 | filtering by one predicate and then another is filtering once by their conjunction |
| Filtering.FilterKeepsAll | src/App.tsx:58 | a predicate every element satisfies returns the whole list, as the spread copy does |
| JsText.IsTrimmable | src/App.tsx:59 | defines the white-space set that `trim()` and `Number()` strip: ECMA-262's WhiteSpace and LineTerminator code points |
| JsText.Trim | src/App.tsx:59 | `trim()` is empty exactly when every character is white space |
| JsText.TrimStart | src/App.tsx:59 | the result is a suffix whose first character is not white space, and only white space was removed |
| JsText.TrimEnd | src/App.tsx:59 | the result is a prefix whose last character is not white space, and only white space was removed |
| JsText.TrimIgnoresPadding | src/App.tsx:59 | white space added on either side does not change `trim()` |
| JsText.ToLower | src/App.tsx:60-61 | lower-casing keeps the length, maps each capital letter to its small letter, and changes no other character |
| JsText.Includes | src/App.tsx:61 | the empty needle is found in every string, and a needle longer than the string is never found |
| JsText.IncludesIff | src/App.tsx:61 | `includes` holds exactly when the needle occurs at some position |
| JsNumbers.ToNumber | src/App.tsx:64-65 | `Number()` of a string of only white space is 0 |
| JsNumbers.AtLeast | src/App.tsx:66 | `x >= n` is false when `n` is NaN or positive infinity, true when `n` is negative infinity, the real comparison for a finite `n`, and holds exactly when `-x <= -n` does |
| JsNumbers.AtMost | src/App.tsx:67 | `x <= n` is false when `n` is NaN or negative infinity, true when `n` is positive infinity, and the real comparison for a finite `n` |
| JsNumbers.NatToString | src/App.tsx:64-65 | the decimal numeral of a natural number has only digits, no leading zero, and denotes the number |
| JsNumbers.ToNumberOfIntString | src/App.tsx:64-65 | `Number()` reads back every integer from its decimal numeral |
| JsNumbers.ToNumberIgnoresPadding | src/App.tsx:64-65 | white space around a bound does not change the number it denotes |
| Listings.IsFav | src/App.tsx:74 | defines the truth value of `x.fav` that `!x.fav` reads: an absent flag counts as false |
| Store.Toggled | src/App.tsx:74 | the map callback returns a listing whose identifier differs exactly as it was; for the matching one it changes only the favourite flag, which becomes present with its truth value flipped |
| Store.ToggleFav | src/App.tsx:74 | order and length kept; every listing with the identifier has its flag flipped and made present (absent counts as false) with all other fields equal; every other listing is unchanged |
| Store.ToggleFavKeepsIds | src/App.tsx:74 | toggling keeps the identifiers in order |
| Store.ToggleFavMissingId | src/App.tsx:74 | toggling an identifier no listing has returns the list unchanged |
| Store.ToggleFavTwice | src/App.tsx:74 | toggling twice restores every flag's truth value, and a listing whose flag was present is restored exactly |
| Store.ToggleFavChangesOne | src/App.tsx:74 | with unique identifiers only the listing at the identifier's position changes, and its flag flips |
| Store.ValidPriceField | src/App.tsx:196 | defines what the `type="number"` price input delivers: nothing, or a string `Number()` reads as a finite number |
| Store.RequiredFilled | src/App.tsx:172 | defines the form check: title, price, category and condition all non-empty |
| Store.OptionalField | src/App.tsx:182 | an empty e-mail or phone field becomes absent, a non-empty one is kept as typed |
| Store.Submit | src/App.tsx:171-185 | refused exactly when title, price, category or condition is empty; otherwise the listing has the given identifier and creation time, the form's fields, `Number()` of the price, exactly one image (the uploaded one, else the title's placeholder), absent e-mail/phone when empty, and no favourite flag |
| Store.Prepend | src/App.tsx:148 | the list grows by one, the new listing is at the head and the old list is the tail |
| Store.AddFromForm | src/App.tsx:148 | a refused form leaves the list unchanged; an accepted one puts exactly the listing `Submit` built in front of the old list |
| Store.AddKeepsIdsUnique | src/App.tsx:148 | a listing added under a new identifier keeps the identifiers unique |
| Store.NewListingShownFirst | src/App.tsx:148 | under newest first, a new listing with the latest creation time that passes the filters is shown first |
| Scenarios.PaddedSearchMissesTitle | src/App.tsx:59-61 | `" iPhone "` turns the text filter on but is not found in "iPhone 12 128GB"; `"iPhone"` is |
| Scenarios.AbcIsNaN | src/App.tsx:64 | the bound "abc" is present and `Number()` reads it as NaN |
| Scenarios.AbcMinimumShowsNothing | src/App.tsx:64-67 | a minimum of "abc" empties the grid, whatever the listings |
| Scenarios.PriceBandExample | src/App.tsx:64-67 | on the seed listings, bounds "700" and "3000" keep only the 850 listing |
| Scenarios.PriceDescendingExample | src/App.tsx:69 | on the seed listings, highest price first gives 3200, 850, 600 |
| Scenarios.DefaultQueryKeepsAll | src/App.tsx:57-67 | with the initial query state (empty search, all categories, no bounds) every listing passes |

## Left out

- Rendering (JSX, `motion`/`AnimatePresence`, icons, layout) and the React state and memo machinery: presentation only. The state updates are modelled as functions from the old list to the new.
- `formatPriceMAD`: locale-aware number formatting, used only for display.
- `placeholderSVG`: string templating over `encodeURIComponent`. It is a parameter of `Submit` from titles to image references.
- `crypto.randomUUID` and `Date.now`: nondeterministic. The identifier and the creation time are parameters of `Submit`.
- `FileReader` and `alert`: browser I/O. The uploaded image is an optional field of the form, and the alert is the `Err` result.
- JavaScript Numbers are IEEE doubles. Prices are exact reals here, creation times are integers, and `Number()` does not round to the nearest double.
- `toLowerCase` beyond ASCII: Unicode case mapping is not modelled. The Arabic text of the page has no case.
- Store.Submit: requires the price field to be empty or a string `Number()` reads as a finite number. This is what a `type="number"` input delivers, and it keeps the listing's price a finite real; the NaN or infinite price a hand-edited input could produce is not modelled.
- The seed data: only a shortened copy of the three seed listings (title, category, price, creation time) is used, in `Scenarios`. The padded-search example checks the title only.
- Category and condition are kept as strings. The form casts them to their enumerated types without a check.
- The `sort` comparators subtract numbers. The model sorts by the equivalent real key (price, negated price, negated creation time); a comparator that returns NaN is out of scope, since prices are finite.
