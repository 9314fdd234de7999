# Cafe directory core, modelled in Dafny

This project models the sequential logic of a map-based cafe directory. The
directory shows cafes from its own database, with reported coffee prices,
together with cafes found in OpenStreetMap through the Overpass API. The model
covers four parts:

- **Types** (`types.dfy`): the `Cafe`, `CoffeePrice` and `CafeWithPrices` records.
  It also defines `Option`, and `Fetch`, the ok/failed outcome of an outside call.
- **Currency** (`currency.dfy`): `convert` goes through the rate table's base
  currency. It returns the price untouched when there is no table or when the
  two currencies are equal. `getExchangeRates` returns a fixed fallback table
  when the rate service fails.
- **OverpassMapping** (`map_service.dfy`): turns each Overpass element into a
  cafe and fills in defaults. A failed request gives no cafes. So does an
  element whose mapping would throw.
- **CafeRows** (`cafe_service.dfy`): turns database rows into cafes. Each row
  gets the mean of its review ratings, or 0 when it has no reviews. A failed
  query falls back to the built-in mock list.
- **CafeMerge** (`merge.dfy`) and **AppStore** (`app_store.dfy`): the store record,
  its initial value, and its setters. `fetchCafes` keeps the database cafes
  first. It then appends each Overpass cafe whose exact name is not yet in the
  list.

Amounts, coordinates and ratings are `real`s. Strings are `seq<char>`. The
clock (`new Date().toISOString()`) becomes a parameter. One reading `now`
stands for the clock readings taken while one Overpass answer is mapped. One
reading `mockLoadedAt` stands for the readings taken when the cafe service
module loads and builds its mock list. Every network or database call is a `Fetch` value given as
input.

The merge has a reference definition, `CafeMerge.Survivors`, that does not
use the growing list: an Overpass cafe is kept when its name is neither a
database name nor the name of an earlier Overpass cafe. `CafeMerge.MergeCafes`
runs the store's loop, including its inner `find` loop. It is proved to
compute `Merge`.

Behaviours of the code worth noting:

- Duplicate detection compares names exactly. It is case-sensitive and ignores
  coordinates, so "Lab Coffee" and "lab coffee" both stay (`CafeMerge.CaseSensitiveNames`).
- There is no incremental merge against the cafes already held: each fetch
  replaces `cafes` wholesale.
- A failed rate fetch does not keep the previous table. It stores the fallback
  table, even over a table fetched earlier (`AppStore.FetchRates`).
- A successful rate answer without a `rates` property clears the table. Prices
  are then shown unconverted (`Currency.MissingRatesLeavePricesUnconverted`),
  as they are before the first rate fetch completes, since the store starts
  with no table. The sidebar still labels such a number with the display
  currency, so an 85 TRY price can read "85.00 USD".
- A currency code missing from the table is not handled by the code. The
  model excludes it with a precondition (`Currency.CanConvert`).

## Model

| member | source | states |
|---|---|---|
| `Currency.GetExchangeRates` | src/services/currencyService.ts:3-14 | The answer's `rates` property is returned as is, absent when the answer has none; on failure the table is exactly {TRY 31.2, EUR 0.92, USD 1, GBP 0.79}, all positive |
| `Currency.Convert` | src/services/currencyService.ts:17-21 | No table or equal codes return the price exactly; otherwise result times the source rate equals price times the target rate; sign of the price is kept |
| `Currency.ConvertRoundTrip` | src/services/currencyService.ts:19-20 | Converting A to B and back to A returns the original price exactly |
| `Currency.ConvertToBase` | src/services/currencyService.ts:19-20 | Converting into a currency whose rate is 1 divides by the source rate |
| `Currency.FallbackLiraToDollar` | src/services/currencyService.ts:13-20 | With the fallback table 85 TRY are 85/31.2 USD, between 2.72 and 2.73 |
| `Currency.MissingRatesLeavePricesUnconverted` | src/services/currencyService.ts:10-18 | An ok answer without `rates` leaves no table, and every conversion then returns the price unchanged |
| `Currency.FallbackCoversItsCodes` | src/services/currencyService.ts:13 | After a failed fetch, any pair of TRY, EUR, USD, GBP can be converted |
| `OverpassMapping.NatToString` | src/services/mapService.ts:26 | The id string is non-empty, all digits, and has a leading zero only for 0 |
| `OverpassMapping.DecimalRoundTrip` | src/services/mapService.ts:26 | Reading the id string as a decimal number gives back the element id |
| `OverpassMapping.NatToStringInjective` | src/services/mapService.ts:26 | Different element ids give different id strings |
| `OverpassMapping.AddressOf` | src/services/mapService.ts:30 | Street, a space, and house number (or nothing) when a street is present; otherwise the no-address text; never empty |
| `OverpassMapping.ToCafe` | src/services/mapService.ts:25-34 | An element maps exactly when the code would not throw; the id parses back to the element id, the name is non-empty, prices are empty |
| `OverpassMapping.FetchNearbyCafes` | src/services/mapService.ts:16-38 | A failed request or any unmappable element gives []; otherwise one cafe per element, in element order |
| `OverpassMapping.TagDefaults` | src/services/mapService.ts:27-31 | Name, address and website come from the tags, with the placeholder name, the no-address text and the empty website as defaults |
| `OverpassMapping.CoordinatesFromElementOrCenter` | src/services/mapService.ts:28-29 | Latitude and longitude come from the element when truthy, and from its centre otherwise, a 0 counting as absent |
| `OverpassMapping.FetchNearbyCafesStampOnly` | src/services/mapService.ts:25-34 | Two fetches of the same answer at different times give the same cafes by id and name, in the same order |
| `OverpassMapping.DistinctElementsDistinctIds` | src/services/mapService.ts:25-26 | Elements with different ids give cafes with different ids |
| `CafeRows.AverageRating` | src/services/cafeService.ts:31-33 | Missing or empty reviews give 0; otherwise the average times the count equals the sum of ratings |
| `CafeRows.SumAtLeast` | src/services/cafeService.ts:32 | If every rating is at least lo, the sum is at least count times lo |
| `CafeRows.SumAtMost` | src/services/cafeService.ts:32 | If every rating is at most hi, the sum is at most count times hi |
| `CafeRows.AverageWithinBounds` | src/services/cafeService.ts:31-32 | The average of a non-empty list lies within any bounds that all its ratings share |
| `CafeRows.AverageBetweenMinAndMax` | src/services/cafeService.ts:31-32 | Some rating is at most the average and some rating is at least it |
| `CafeRows.AverageBetweenExtremes` | src/services/cafeService.ts:31-32 | With at least one review, the average lies between the smallest and the largest rating |
| `CafeRows.NormalizeRow` | src/services/cafeService.ts:29-34 | Cafe fields and prices are carried over; the rating is the exact mean of the reviews, 0 without reviews and between the smallest and largest rating otherwise |
| `CafeRows.MockCafes` | src/services/cafeService.ts:4-18 | The fallback list, stamped at load time, has the one cafe `mock-1`, and each of its prices names that cafe as owner |
| `CafeRows.GetAllCafes` | src/services/cafeService.ts:21-40 | A failed query gives the mock list; otherwise one cafe per row, in row order, with fields and prices kept and the average rating added |
| `CafeRows.GetAllCafesKeepsOwnership` | src/services/cafeService.ts:29-38 | If each row's prices name that row's cafe, so do the returned cafes' prices; the fallback list always does |
| `CafeMerge.Merge` | src/store/useAppStore.ts:54-59 | The database cafes are an unchanged prefix; length is between db and db plus osm; the names are the union of both name sets; appended cafes come from the Overpass list, have no database name and have distinct names |
| `CafeMerge.SurvivorsSubsequence` | src/store/useAppStore.ts:55-58 | The kept Overpass cafes keep their input relative order |
| `CafeMerge.SurvivorsNames` | src/store/useAppStore.ts:55-58 | The kept cafes' names are exactly the Overpass names that are not database names |
| `CafeMerge.SurvivorsDistinct` | src/store/useAppStore.ts:55-58 | No two kept Overpass cafes share a name, so duplicates inside the feed are also dropped |
| `CafeMerge.NothingSurvivesKnownNames` | src/store/useAppStore.ts:55-58 | When every Overpass name is already in the list, nothing is appended |
| `CafeMerge.MergeKeepsOverpassOrder` | src/store/useAppStore.ts:55-58 | The part after the database prefix is a subsequence of the Overpass list |
| `CafeMerge.MergeIdempotent` | src/store/useAppStore.ts:54-59 | Merging the merged list again with the same Overpass list adds nothing |
| `CafeMerge.DatabaseWins` | src/store/useAppStore.ts:54-58 | A cafe with a database name appears only inside the database prefix |
| `CafeMerge.SurvivorsSameKeys` | src/store/useAppStore.ts:55-58 | Overpass lists with the same ids and names keep the same cafes, by id and name |
| `CafeMerge.MergeSameKeys` | src/store/useAppStore.ts:54-59 | The merged list depends only on the Overpass cafes' ids and names, not on their other fields |
| `CafeMerge.CaseSensitiveNames` | src/store/useAppStore.ts:56 | Names differing only in case are not duplicates, so both cafes are kept |
| `CafeMerge.SameNameDroppedAnywhere` | src/store/useAppStore.ts:56 | An Overpass cafe named like a database cafe is dropped whatever its coordinates |
| `CafeMerge.SurvivorsStep` | src/store/useAppStore.ts:55-58 | One loop step keeps the next Overpass cafe exactly when its name is missing from the list built so far |
| `CafeMerge.ContainsName` | src/store/useAppStore.ts:56 | The `find` succeeds exactly when some cafe in the list carries the name |
| `CafeMerge.MergeCafes` | src/store/useAppStore.ts:54-59 | The store's copy-then-push loop computes exactly the reference merge |
| `AppStore.Initial` | src/store/useAppStore.ts:29-39 | Theme system, language tr, currency TRY, no rates, comfortable font, no cafes, no selection, sidebar closed on details, not loading |
| `AppStore.SetTheme` | src/store/useAppStore.ts:41 | Sets the theme and changes no other field |
| `AppStore.SetLanguage` | src/store/useAppStore.ts:42 | Sets the language and changes no other field |
| `AppStore.SetCurrency` | src/store/useAppStore.ts:43 | Sets the display currency and changes no other field |
| `AppStore.SetFontSize` | src/store/useAppStore.ts:44 | Sets the font size and changes no other field |
| `AppStore.SetSelectedCafe` | src/store/useAppStore.ts:45 | Sets the selection; the sidebar is open exactly when a cafe is selected; its kind becomes details; nothing else changes |
| `AppStore.SetSidebarOpen` | src/store/useAppStore.ts:46 | Sets open/closed and the kind, details when omitted; nothing else changes, the selection included |
| `AppStore.BeginFetch` | src/store/useAppStore.ts:49 | Raises the loading flag and changes nothing else |
| `AppStore.StoreCafes` | src/store/useAppStore.ts:60 | Stores the given list and clears the loading flag; nothing else changes |
| `AppStore.FinishFetch` | src/store/useAppStore.ts:54-60 | Clears the loading flag; the new list starts with the database cafes and carries all names of both sources; only cafes and the flag change |
| `AppStore.FetchCafes` | src/store/useAppStore.ts:48-61 | Ends not loading, with the database answer (or the load-time mock list) as prefix, and only cafes and the flag changed |
| `AppStore.FetchRates` | src/store/useAppStore.ts:63-66 | The answer replaces the held table: the fallback table on failure, the answer's `rates` (possibly absent) otherwise; nothing else changes |
| `AppStore.FinishFetchForgetsOldCafes` | src/store/useAppStore.ts:60 | The stored list does not depend on the cafes held before |
| `AppStore.FetchRaisesThenClearsLoading` | src/store/useAppStore.ts:49-60 | The flag is raised, then cleared; the merge result is stored; no other field changes |
| `AppStore.FetchCafesStoresMerge` | src/store/useAppStore.ts:48-61 | One uninterrupted fetch stores the merge of the database (or mock) answer and the Overpass cafes, ends not loading, and changes nothing else |
| `AppStore.RefetchIsStable` | src/store/useAppStore.ts:48-61 | Fetching again later with the same answers stores the same cafes by id and name, in the same order, and changes no other field |
| `AppStore.BothSourcesFail` | src/store/useAppStore.ts:50-60 | With both sources failing, the store holds exactly the mock list, the same list whatever the fetch time |
| `AppStore.OverpassFails` | src/store/useAppStore.ts:50-60 | With the Overpass request failing, the store holds exactly the database answer |
| `AppStore.UnnamedOverpassCafesCollapse` | src/store/useAppStore.ts:55-58 | No two cafes after the database prefix both carry the unnamed placeholder |
| `AppStore.RatesSurviveRepeatedFailure` | src/store/useAppStore.ts:63-66 | Two failed rate fetches in a row still leave the fallback table |
| `AppStore.DisplayAfterRateFailure` | src/store/useAppStore.ts:63-66 | After a failed rate fetch, every price in a fallback currency can be converted into a fallback display currency |
| `AppStore.SelectThenClose` | src/store/useAppStore.ts:45-46 | Selecting opens the details sidebar; closing it afterwards keeps the selection |
| `AppStore.SettersLastWriteWins` | src/store/useAppStore.ts:41-42 | Setting the theme twice keeps the later value; setting the theme and the language commute |

## Left out

- Network and database I/O: the rate request, the Overpass POST and its query
  text, the Supabase select, and the Supabase client setup. Each answer is a
  `Fetch` input instead.
- The `updatePrice` upsert (src/services/cafeService.ts:42-58): it is only a
  database write, and no core logic depends on its result.
- The `lat`/`lon` arguments of `fetchCafes` and their defaults: they only go
  into the Overpass query text, which is outside the model.
- Concurrency: `Promise.all` and overlapping `fetchCafes` calls. The model
  splits a fetch into `BeginFetch` and `FinishFetch`, so any other transition
  may run between them. Which overlapping call finishes last is up to the caller.
- Floating point: NaN and Infinity, the `undefined` that a missing rate key
  gives, and rounding. `Currency.Convert` uses exact reals and requires both
  codes to have positive rates when the table is used.
- `OverpassMapping.ToCafe`: a centre that lacks `lat` or `lon`, and NaN
  coordinates, are not modelled. The centre is a pair of reals. Element ids are
  natural numbers, so precision loss above 2^53 is not modelled.
- `OverpassMapping.FetchNearbyCafes`: an answer without an `elements` array
  throws in the code and returns []. The model counts it as `Failed`.
- `CafeRows.NormalizeRow`: the spread copies the joined `reviews` array onto the
  returned object. `CafeWithPrices` does not declare that property, so the
  model drops it.
- Rendering, pages, the map component, theme handling, and the store features
  that pages use but the store file does not define (pending approvals, login,
  UI scale, version, the `about` sidebar kind). No source defines their
  behaviour.
- `OverpassMapping.FetchNearbyCafes`: one clock reading `now` stands for the
  per-element readings of `new Date()` inside the mapping. So all cafes of one
  answer share a `createdAt`, which the code does not guarantee once mapping
  crosses a millisecond. No merge or store property depends on the stamps.
- `CafeRows.MockCafes`: one reading `loadedAt` stands for the three clock
  readings taken while the mock list is built, for the cafe and its two prices.
- Logging: the `console.warn` and `console.error` calls on the failure paths
  have no effect on any returned value, so the model drops them.
- `AppStore.FetchRates`: does not promise that a table is held after every
  fetch. An ok answer without `rates` stores an absent table, as the code does.
- `AppStore.RefetchIsStable`: promises equal ids and names, not equal
  records. Each fetch stamps its Overpass cafes with a new time.
- src/lib/constants.ts is not part of this model. Its rate table has GBP 0.78.
  The service's fallback has GBP 0.79, and the model uses that.
