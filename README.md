# ProductCarousel state model

A Dafny model of the state logic of `ProductCarousel`, the singleton object in
`Muhammed_Sacid_UCAK.js`. The object backs a home-page product carousel. The
model covers its state object (`products`, the `favorites` Set, `currentIndex`,
`itemsPerView`, `isInitialized`), the home-page guard, the one-shot `init`, the
product fetch with its fallback to the cached snapshot, the cache-age check,
and the persisted favorites (`saveFavorites`, `loadFavorites`,
`toggleFavorite`).

The browser is abstracted as follows:

- `window.location.pathname` and `Date.now()` are parameters.
- The outcome of `fetch` + `response.json()` is a `FetchOutcome`: either the parsed body or a failure.
- `localStorage` is the class `BrowserStorage.Storage`, holding a map from key to stored text. The widget uses three keys: `carousel_products_data`, `user_favorite_items` and `last_data_fetch_time`.
- Whether the browser accepts a write is the parameter `accepted`. A refused write is the exception that `setItem` throws.
- A stored text is either the JSON text of a value as `JSON.stringify` writes it (`Serialized`; a number is its plain numeral) or text that JSON.parse rejects (`Other`), the empty string among them.
- `JSON.stringify`/`JSON.parse` are abstract: parsing a `Serialized(v)` gives back `v`.
- `Date.now().toString()` is the JSON text of that number. `parseInt(…, 10)` is modelled concretely (white space, sign, leading digits, NaN as `None`).
- A JavaScript `Set` is a duplicate-free sequence kept in insertion order (module `InsertionSet`), because `Array.from` writes the favorites out in that order.

Files: `json_values.dfy` (parsed values and stored texts), `decimal.dfy`
(numerals and `parseInt`), `insertion_set.dfy` (Set operations),
`browser_storage.dfy` (the storage object), `carousel.dfy` (the widget).

Behaviour the model makes explicit:

- `fetchProducts` catches every exception in one handler, and a failing `setItem` lands there too. If a fetch succeeds but storage refuses the write, the fresh data in `products` is replaced by the old cached snapshot when that snapshot is truthy.
- The fallback keeps `products` as it was when the cached value is absent, unparsable, or parses to a falsy value (`null`, `0`, `""`, `false`). An empty array is truthy, so it is still taken.
- `isCacheValid` is never consulted by `fetchProducts`, which always tries the network first.
- Toggling an id twice restores the Set's members. When the id was absent, the Set comes back exactly, order included. When it was present, the id moves to the end of the insertion order, and so to the end of the stored array.
- `loadFavorites` hands the parsed value to `new Set`:
  - `null` gives an empty Set.
  - A string gives the Set of its characters.
  - A number, boolean or object throws, and the favorites are left unchanged.
- `init` only checks the page and sets the flag; it never fetches, loads favorites or renders. A failed fetch with no usable cache leaves `products` as it was rather than emptying it.

## Model

| member | source | states |
|---|---|---|
| `Carousel.ProductCarousel.constructor` | Muhammed_Sacid_UCAK.js:23-29 | the initial state: empty products array, empty favorites, index 0, five items per view, not initialized |
| `Carousel.IsHomePage` | Muhammed_Sacid_UCAK.js:47-50 | true exactly for the paths `/`, `/index.html` and the empty path |
| `Carousel.ProductCarousel.Init` | Muhammed_Sacid_UCAK.js:31-44 | off the home page the flag is unchanged; on it the flag ends set; once set it stays set and nothing else changes, so a second call is a no-op |
| `Carousel.ProductCarousel.FetchProducts` | Muhammed_Sacid_UCAK.js:52-73 | on a fetched body with writes accepted: products become the body, storage gains the snapshot and `now`, and the snapshot reads back as the products with a valid cache; on failure storage is untouched and products become the cached snapshot if truthy, else stay; on a refused write the cached snapshot, if truthy, overrides the fetched body |
| `JsonValues.Truthy` | Muhammed_Sacid_UCAK.js:69 | the `if (cached)` test: falsy exactly for null, false, 0 and the empty string; every array and object, even an empty one, is truthy |
| `JsonValues.TextTruthy` | Muhammed_Sacid_UCAK.js:88 | the truthiness of a stored string, tested by `if (!lastFetch)` and likewise by `cached ?` and `if (stored)`: falsy exactly for the empty string |
| `JsonValues.Parse` | Muhammed_Sacid_UCAK.js:107 | `JSON.parse` (also used on the cached snapshot): succeeds exactly on JSON text and gives back the value that text was written from; any other text throws |
| `Carousel.GetCachedProducts` | Muhammed_Sacid_UCAK.js:75-83 | null when the key is absent or its text is empty or unparsable; otherwise the value the snapshot was serialized from |
| `Carousel.IsCacheValid` | Muhammed_Sacid_UCAK.js:86-92 | false without a stored timestamp; for a stored number t, true exactly when `now - t < 3600000`; false for any other JSON value; for foreign text, decided by what parseInt reads |
| `Carousel.CacheExpiryIsFinal` | Muhammed_Sacid_UCAK.js:86-91 | an expired cache stays expired as time advances |
| `Decimal.ParseInt` | Muhammed_Sacid_UCAK.js:90 | `parseInt(s, 10)`: NaN exactly when no digit follows the leading white space and an optional sign; a negative result only after a minus sign; reads back every numeral `toString` writes (`Decimal.ParseIntReadsNumeral`) |
| `Decimal.ParseSigned` | Muhammed_Sacid_UCAK.js:90 | after the white space: a negative result only after a minus sign, a minus never gives a positive result, and text starting with a digit is read as its leading digits |
| `Decimal.ReadDigits` | Muhammed_Sacid_UCAK.js:90 | the digit run parseInt reads: NaN exactly when the text does not start with a digit, otherwise a non-negative number |
| `Decimal.ParseIntText` | Muhammed_Sacid_UCAK.js:90 | parseInt on stored text: a stored number reads back as itself; any other JSON value gives NaN |
| `Decimal.ParseIntReadsNumeral` | Muhammed_Sacid_UCAK.js:90 | parseInt reads back the numeral `toString` writes for any integer, even when non-digit text follows it |
| `Decimal.LeadingDigits` | Muhammed_Sacid_UCAK.js:90 | the longest prefix of decimal digits that parseInt consumes |
| `Decimal.TrimStart` | Muhammed_Sacid_UCAK.js:90 | the white space parseInt skips: a suffix, all white space removed from the front, none left at its head |
| `Decimal.IntToDecimal` | Muhammed_Sacid_UCAK.js:62 | `Date.now().toString()`: for a non-negative number all digits, one digit exactly below 10 and otherwise no leading zero; for a negative one a minus sign then at least one digit, one digit exactly above -10 and otherwise no leading zero; `ParseIntReadsNumeral` fixes its value |
| `Decimal.NatToDecimal` | Muhammed_Sacid_UCAK.js:62 | the numeral `toString` writes: all digits, a single digit exactly for n < 10 and otherwise no leading zero; its value is n (`DigitsValueOfNatToDecimal`) |
| `Carousel.ProductCarousel.SaveFavorites` | Muhammed_Sacid_UCAK.js:94-101 | an accepted write stores the Set as a JSON array in insertion order, which loads back as the same Set; a refused write leaves storage unchanged |
| `Carousel.ProductCarousel.LoadFavorites` | Muhammed_Sacid_UCAK.js:103-113 | a stored, non-empty, parsable value accepted by `new Set` replaces the favorites; a missing, empty or unparsable text or a non-iterable value leaves them; the Set stays duplicate-free |
| `Carousel.SetFromIterable` | Muhammed_Sacid_UCAK.js:108 | `new Set(v)`: defined exactly for null, arrays and strings, duplicate-free, with the array's elements or the string's characters |
| `Carousel.FavoritesRoundTrip` | Muhammed_Sacid_UCAK.js:96-108 | a duplicate-free favorites sequence written as an array loads back identical |
| `Carousel.ProductCarousel.ToggleFavorite` | Muhammed_Sacid_UCAK.js:115-123 | the id's membership flips, no other id's membership changes, and storage then holds exactly the new Set |
| `InsertionSet.Toggled` | Muhammed_Sacid_UCAK.js:116-120 | the flip: the id is in the result exactly when it was not before; all other members unchanged; no duplicates introduced |
| `InsertionSet.Without` | Muhammed_Sacid_UCAK.js:117 | `Set.delete`: members are the old ones except the id, the Set unchanged when the id is absent, one element fewer when it was present |
| `InsertionSet.WithoutAt` | Muhammed_Sacid_UCAK.js:117 | deleting the member at position i leaves the others in their insertion order: exactly the Set with that one position cut out |
| `InsertionSet.Inserted` | Muhammed_Sacid_UCAK.js:108 | `Set.add`, as `new Set` uses it and as the add branch of `toggleFavorite` (line 119) calls it: members gain the value, the old sequence is a prefix, no duplicates |
| `InsertionSet.AddAll` | Muhammed_Sacid_UCAK.js:108 | adding values one by one keeps the old set as a prefix, stays duplicate-free, and ends with the union of members |
| `InsertionSet.FromSeq` | Muhammed_Sacid_UCAK.js:108 | `new Set(array)`: duplicate-free with exactly the array's members |
| `InsertionSet.FromSeqAppended` | Muhammed_Sacid_UCAK.js:108 | the Set is in order of first occurrence: one more array element is appended at the end exactly when it was not already a member |
| `InsertionSet.AddAllOfDistinct` | Muhammed_Sacid_UCAK.js:108 | adding values that are already distinct from each other and from the set appends them in order |
| `InsertionSet.FromSeqOfDistinct` | Muhammed_Sacid_UCAK.js:96-108 | a Set built from a duplicate-free array is that array |
| `InsertionSet.WithoutAppended` | Muhammed_Sacid_UCAK.js:117-119 | deleting an id just added to a Set without it gives the old Set back |
| `InsertionSet.ToggleTwiceAbsent` | Muhammed_Sacid_UCAK.js:116-120 | toggling an absent id twice restores the Set exactly, order included |
| `InsertionSet.ToggleTwicePresent` | Muhammed_Sacid_UCAK.js:116-120 | toggling a present id twice restores the members, with the id moved to the end |
| `BrowserStorage.Storage.SetItem` | Muhammed_Sacid_UCAK.js:61-62 | an accepted write updates the one key; a refused write changes nothing and is reported |

## Left out

- `updateFavoriteIcon` (DOM class changes on the favorite icon) and every `console` call.
- The network request, `response.ok`, `response.json()` and `async`/`await`. They become the single outcome `Fetched(data)` or `FetchFailed`.
- JSON text itself: stringify/parse are an abstract pair that round-trips. Under the products and favorites keys only the parsed value matters, so parsable text from another writer is represented by its value; only the last-fetch key depends on the form of the text (see `ParseIntText` below). JSON numbers are integers, so floating-point values (prices) are not represented.
- `Number.prototype.toString` in exponent form, for magnitudes of 10^21 and above. `IntToDecimal` writes plain numerals only.
- `ParseIntText`: a stored number is assumed to be written as its plain numeral. JSON text of a number in another form, left by another writer, is not represented: for `1e3` parseInt reads 1 while the model reads 1000, so `IsCacheValid` can differ on such text. parseInt also returns a double, rounded above 2^53, while the model's integer is exact.
- Exceptions thrown by `localStorage.getItem` (storage disabled). Reads always succeed in the model.
- Partial write failures inside one `fetchProducts` call. Both writes share one `accepted` flag, although the code handles a failure of either.
- JavaScript `Set` equality: the model compares arrays and objects by value, while a Set compares them by reference. A string is iterated by Unicode scalar value, as `new Set` iterates by code point; a string holding a lone surrogate cannot be represented.
- `currentIndex` and `itemsPerView` are declared and initialized but never used in this file, so no operation on them is modelled. The tablet and mobile view sizes are kept only as constants.
- The exception handler in `init`: once the path is a parameter, nothing inside the `try` can throw.
- The surrounding immediately-invoked function never calls `init` or any other operation. The model gives the operations, not a call sequence.
