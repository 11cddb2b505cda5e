# Real-time car park finder: the data core in Dafny

This project models the data handling of the car park finder web page, in
`scripts/functions.js`, and proves properties of it.

- **Merge.** `loadCarparkData` takes the rows of the HDB car-park CSV and the
  live availability feed, and builds the list of car parks that the page
  shows. Rows missing a number or a coordinate are dropped. The rest go into
  an insertion-ordered map keyed by the trimmed car-park number. Each live
  entry then writes its parsed lot count onto the record its trimmed number
  names.
- **Ranking.** `handleSuccess` copies every car park with its distance from
  the user, sorts the copies by distance with a stable sort, and keeps the
  first five.
- **Explore table.** `filterExploreTable`, `changePage`, `renderExploreTable`
  and `setupPagination` search the list, cut it into pages of ten rows and
  lay out the page buttons.
- **Availability.** The markers, the nearest list and the table colour a car
  park by the same thresholds: more than 50 lots, more than 0, otherwise full.

Modules:

- `Wrappers`: `Option`.
- `Seqs`: `Array.prototype.filter`.
- `JsStrings`: `trim`, ASCII `toLowerCase` and `includes`.
- `JsValues`: the dynamically typed cells and JSON fields, their truthiness and `String(v)`.
- `JsNumbers`: `parseInt` and `String(n)` for integers.
- `Carparks`: the records, the SVY21 guard and the live-entry accessors.
- `Reconcile`: the merge. It is specified on sequences (`Unify`, `Overlay`, `Reconciled`). Methods then build it with a key order and a map, as the source does.
- `Ranking`: the nearest list.
- `Pagination`: page counts, `slice`, the page guard and the buttons.
- `Availability`: the three levels.
- `Search`: the explore search.
- `ExploreState`: the page's shared variables as a class, with the handlers that change them.

Points where the code does something other than what its comments or a
reader might expect, and which the model follows:

- **Negative lot counts.** `scripts/functions.js:90-97` stores whatever
  `parseInt` returns unless it is NaN, so a count such as "-3" gives -3 lots
  (`Carparks.LiveLotsOfDecimal` holds for every integer).
- **Repeated numbers in the feed.** `scripts/functions.js:74-99` writes
  `available` for every live entry whose number matches, so the last matching
  entry wins (`Reconcile.OverlayLots`).
- **Letter case of feed numbers.** `scripts/functions.js:76-78` trims the feed
  number and looks it up in the map as it is, so `a1` does not find the
  record `A1` (`Carparks.LiveKey`, `Reconcile.OverlayLots`).
- **How many nearest car parks.** `scripts/functions.js:334` comments "Find
  Nearest 10" while `slice(0, 5)` at line 337 keeps five; the model keeps five
  (`Ranking.NEAREST_COUNT`, `Ranking.NearestSorted`).

## Model

| member | source | states |
|---|---|---|
| Seqs.Filter | scripts/functions.js:34 | the filtered list is no longer than the input and every kept element satisfies the predicate |
| Seqs.FilterAppend | scripts/functions.js:34 | filtering distributes over concatenation, so the kept elements stay in input order |
| Seqs.FilterCount | scripts/functions.js:34 | an element that satisfies the predicate is kept as often as it occurs; any other element is never kept |
| Seqs.FilterKeepsAll | scripts/functions.js:464-469 | when every element satisfies the predicate, the filter returns the input unchanged |
| JsStrings.TrimStart | scripts/functions.js:43-44 | the result is a suffix of the input, everything dropped is white space, and the result does not start with white space |
| JsStrings.TrimEnd | scripts/functions.js:43-44 | the result is a prefix of the input, everything dropped is white space, and the result does not end with white space |
| JsStrings.TrimOfBlank | scripts/functions.js:457 | a string of white space only trims to the empty string |
| JsStrings.TrimOfTrimmed | scripts/functions.js:43-44 | a string with no white space at either end is its own trim |
| JsStrings.ToLower | scripts/functions.js:465-466 | lower-casing keeps the length, leaves every character outside A-Z as it is, and turns each of A-Z into the same letter of a-z |
| JsStrings.ToLowerIdempotent | scripts/functions.js:465-466 | lower-casing twice is lower-casing once, and leaves no upper-case ASCII letter |
| JsStrings.TrimLower | scripts/functions.js:457 | lower-casing and trimming commute |
| JsStrings.Includes | scripts/functions.js:465-466 | `includes` holds exactly when the term occurs at some position of the string |
| JsStrings.IncludesTrivial | scripts/functions.js:465-466 | every string includes the empty string and itself |
| JsNumbers.CharDigit | scripts/functions.js:90 | a character's digit value is at most 36, and below 10 exactly for the decimal digits |
| JsNumbers.DigitRun | scripts/functions.js:90 | parsing stops at the first character that is no digit in the radix |
| JsNumbers.Digits | scripts/functions.js:539 | `String(n)` of a natural number is a non-empty run of decimal digits with no leading zero |
| JsNumbers.DigitsValueOfDigits | scripts/functions.js:90 | reading back the decimal digits of n gives n |
| JsNumbers.ParseIntOfDecimal | scripts/functions.js:90 | `parseInt(String(n) + rest)` is n, for every integer n and any rest that does not continue the number |
| JsNumbers.ParseIntSkipsSpace | scripts/functions.js:90 | `parseInt` ignores leading white space |
| JsNumbers.ParseIntWithoutDigits | scripts/functions.js:90-94 | a text with no decimal digit parses to NaN |
| Carparks.Svy21ToWgs84 | scripts/functions.js:5-16 | anything but two numbers gives the (0, 0) sentinel; two numbers go to the projection, northing first |
| Carparks.ToCarpark | scripts/functions.js:41-52 | a usable row becomes a record with the trimmed number as id, the trimmed address, the row's type, the converted position, 0 lots and distance 0 |
| Carparks.LiveLots | scripts/functions.js:82-97 | a matched entry sets 0 without a snapshot, otherwise `parseInt` of the first snapshot's count, with NaN read as 0 |
| Carparks.LiveEntries | scripts/functions.js:56-72 | a failed request or a response without items gives no live entries; otherwise the live entries are exactly `items[0].carpark_data`, or none when it is absent |
| Carparks.LiveLotsOfDecimal | scripts/functions.js:90-94 | a count written as a decimal integer, negative ones included, is taken exactly |
| Carparks.LiveLotsWithoutDigits | scripts/functions.js:90-94 | a count with no digit in it, such as "N/A", leaves 0 lots |
| Reconcile.IndexOfId | scripts/functions.js:78-79 | the lookup finds the first record with the key, or -1 exactly when none has it |
| Reconcile.Upsert | scripts/functions.js:43 | `Map.set` keeps the positions and keys of the records already there and leaves every record with another key unchanged; an existing key's slot (its first position) takes the new record and the length stays, and a new key is added at the end |
| Reconcile.UpsertUnique | scripts/functions.js:43 | `Map.set` keeps the keys unique |
| Reconcile.UpsertAt | scripts/functions.js:43 | with unique keys, `Map.set` replaces exactly the record with the new record's key |
| Reconcile.HasIdUpsert | scripts/functions.js:43 | after `Map.set` the map holds the old keys and the new one, and no other |
| Reconcile.UnifyUnique | scripts/functions.js:39-53 | the map built from the rows has one record per key |
| Reconcile.UnifyKeys | scripts/functions.js:39-53 | the map has a key exactly when some inserted record has it |
| Reconcile.UnifyLastWins | scripts/functions.js:39-53 | each stored record is the last inserted record with its key |
| Reconcile.UnifyFirstOrder | scripts/functions.js:39-53 | records are kept in the order in which their keys first appear |
| Reconcile.OverlayLots | scripts/functions.js:74-101 | live data never adds, removes or reorders records and changes only `available`; each record gets the lots of the last live entry naming its key, or keeps its own |
| Reconcile.StaticRecordsKeys | scripts/functions.js:34-53 | a key is among the converted records exactly when some row passing the filter has it |
| Reconcile.StaticSetFresh | scripts/functions.js:48-51 | before live data every record has 0 lots and distance 0 |
| Reconcile.FetchFailureLeavesZero | scripts/functions.js:56-104 | for every feed that yields no live entries (a failed request, no items, no `carpark_data`), every published record has 0 lots |
| Reconcile.ReconciledRecord | scripts/functions.js:34-104 | each published record is the last usable row with its key, with the lot count of the last live entry naming that key, or 0 |
| Reconcile.ReconciledKeys | scripts/functions.js:34-104 | the published list has unique keys: one per distinct key of a usable row, and no other |
| Reconcile.Values | scripts/functions.js:104 | `Array.from(map.values())` of a well-formed ordered map has unique keys |
| Reconcile.MapSetView | scripts/functions.js:43 | setting a key in the ordered map is `Upsert` on its list of values |
| Reconcile.SetLotsView | scripts/functions.js:97 | writing lots into the map entry is `SetLots` on its list of values |
| Reconcile.BuildStaticMap | scripts/functions.js:34-53 | the loop builds a well-formed ordered map whose values are the static set |
| Reconcile.MergeLive | scripts/functions.js:74-101 | the loop over live entries leaves the map well-formed, with values equal to the overlay of the live entries |
| Reconcile.MergeCarparkData | scripts/functions.js:34-104 | the published list is the reconciled list of the rows and the feed's live entries |
| Ranking.InsertByDistance | scripts/functions.js:335-336 | inserting adds one record |
| Ranking.SortByDistance | scripts/functions.js:335-336 | sorting keeps the length |
| Ranking.InsertSorted | scripts/functions.js:335-336 | inserting into a sorted list keeps it sorted |
| Ranking.InsertPermutes | scripts/functions.js:335-336 | inserting adds exactly the inserted record |
| Ranking.InsertStable | scripts/functions.js:335-336 | the inserted record goes before the other records at the same distance |
| Ranking.SortSorted | scripts/functions.js:335-336 | the sorted copies are in non-decreasing distance |
| Ranking.SortPermutes | scripts/functions.js:335-336 | the sort is a permutation |
| Ranking.SortStable | scripts/functions.js:335-336 | the sort is stable: records at the same distance keep their list order |
| Ranking.PrefixFarther | scripts/functions.js:337 | cutting a sorted list keeps a sorted prefix, and no kept record is farther than a dropped one |
| Ranking.PrefixStable | scripts/functions.js:335-337 | the first k sorted records at each distance are the first at that distance in list order |
| Ranking.CopiesOfInput | scripts/functions.js:329-332 | every ranked record is a car park with only its distance replaced |
| Ranking.NearestSorted | scripts/functions.js:329-337 | the nearest list holds min(5, n) of the distance-tagged car parks, in non-decreasing distance |
| Ranking.NearestAreClosest | scripts/functions.js:329-337 | no car park left out is nearer than one in the list |
| Ranking.NearestKeepsListOrder | scripts/functions.js:329-337 | among car parks at the same distance the list keeps the first ones in list order |
| Pagination.TotalPages | scripts/functions.js:500 | `Math.ceil(count / 10)` is the fewest pages that hold the rows |
| Pagination.SliceBound | scripts/functions.js:555 | a `slice` bound counts negatives from the end and is clamped to the length |
| Pagination.JsSlice | scripts/functions.js:555 | `slice(start, end)` with bounds inside the list is `data[start..end]`; in general it has max(end' - start', 0) elements, element k being data element start' + k, where start' and end' are the clamped bounds; it is empty when start is at or past the end, when end is at or before a non-negative start, or when a negative end reaches back to the front or beyond |
| Pagination.PageSliceContents | scripts/functions.js:551-555 | page p, for p >= 1, holds at most 10 rows: those from position 10(p-1) on that exist |
| Pagination.AcceptedPageNotEmpty | scripts/functions.js:482-487 | every page `changePage` accepts shows between 1 and 10 rows, row k being data row 10(p-1)+k |
| Pagination.PagesUpToPrefix | scripts/functions.js:551-555 | pages 1..k together are the first 10k rows |
| Pagination.PagesCoverData | scripts/functions.js:551-555 | paging through all pages shows every row once, in order |
| Pagination.PageWindowShape | scripts/functions.js:528-535 | with the page in range, the window lies in 1..total, contains the current page and spans min(5, total) pages |
| Pagination.NumberButtons | scripts/functions.js:538-540 | one button per page number from start to end |
| Pagination.AppendNumberButtons | scripts/functions.js:538-540 | the loop appends exactly the page-number buttons of the window |
| Pagination.SetupPagination | scripts/functions.js:491-544 | the buttons laid out are those of `PaginationButtons` |
| Pagination.ButtonsLayout | scripts/functions.js:524-543 | with more than one page: Previous (current - 1), the window's numbers, then Next (current + 1) |
| Pagination.ButtonsHighlightCurrent | scripts/functions.js:500-540 | for any page in range, including page 1 of an empty list: there are buttons exactly when there is more than one page; then exactly the current page's button is highlighted |
| Pagination.NumberButtonAt | scripts/functions.js:528-540 | the k-th button between Previous and Next is the button of page start + k - 1, which lies in 1..total, highlighted exactly when it is the current page |
| Pagination.NumberButtonsAccepted | scripts/functions.js:538-540 | for any page in range, every number button asks for a page `changePage` accepts, and its label parses back to that page |
| Pagination.EdgeButtonsRefused | scripts/functions.js:483-543 | Previous is refused exactly on page 1, and Next exactly on the last page |
| Availability.LevelRanges | scripts/functions.js:226-232 | the three levels are the ranges > 50, 1..50 and <= 0; more lots never make a car park look worse |
| Availability.ColoursDistinguishLevels | scripts/functions.js:226-232 | the marker, list and table colours each tell the three levels apart |
| Availability.TableTextReadsBack | scripts/functions.js:582 | the table's lot text always parses back to the count |
| Availability.ListTextReadsBack | scripts/functions.js:400-409 | the list text parses back to the count unless the car park is full; a full car park shows "Full (0 Lots)", which is no number, whatever its count |
| Search.FilterCarparksSpec | scripts/functions.js:464-469 | the search keeps every matching car park as often as it occurs, no other, in list order |
| Search.BlankSearchKeepsAll | scripts/functions.js:457-469 | a blank search keeps every car park |
| Search.SearchFindsNumber | scripts/functions.js:457-469 | searching for a car park's number, with any ASCII letter case and surrounding white space, finds it |
| Search.SearchIgnoresCase | scripts/functions.js:457 | the search ignores the ASCII letter case of the input |
| ExploreState.PageInRangeShowsRows | scripts/functions.js:546-555 | on a page in range the table shows 1 to 10 rows when there is data, and none otherwise |
| ExploreState.CarparkFinder.constructor | scripts/functions.js:449-451 | the page starts unloaded, with no table data, on page 1 |
| ExploreState.CarparkFinder.LoadCarparkData | scripts/functions.js:104-121 | the merged list is published; a non-empty list becomes the table data on page 1, and an empty one leaves the table as it was |
| ExploreState.CarparkFinder.Publish | scripts/functions.js:104-115 | the given list becomes the full list and the data counts as loaded; a non-empty list becomes the table data on page 1, and an empty one leaves the table as it was |
| ExploreState.CarparkFinder.FilterExploreTable | scripts/functions.js:455-479 | before loading nothing changes; afterwards the table holds the search result, on page 1 |
| ExploreState.CarparkFinder.ChangePage | scripts/functions.js:482-488 | the page changes exactly when the guard accepts it; the data never changes |
| ExploreState.CarparkFinder.RenderExploreTable | scripts/functions.js:546-598 | the rows shown are the current page's slice, 1 to 10 of them when there is data; the buttons are those of `setupPagination` |

## Left out

- SVY21 projection: the inverse transverse Mercator mathematics is a parameter `project(northing, easting)`. Only the guard in front of it is modelled. `NaN` coordinates do not exist in the model, since numbers are reals.
- Haversine distance: `calculateDistance` is floating-point trigonometry. Ranking takes the distance function as a parameter. NaN distances, which would break the comparator, are not modelled.
- I/O: PapaParse's download and parsing, `fetch` and `response.json()`. The parsed rows and the outcome of the request (`FeedResult`) are inputs. A CSV parse error leaves the state untouched; its callback only logs.
- Number formatting: ECMAScript's Number::toString for non-integer numbers. A number cell carries its own rendering (`JsValues.Number.shown`). Integers below 1e21 in magnitude are rendered by `JsNumbers.Decimal`; from 1e21 on `String(n)` switches to exponent notation, which is not modelled (lot counts and page numbers never get near it).
- JsNumbers.ParseInt: the result is exact. JavaScript's parseInt rounds to a double above 2^53; lot counts never get near that.
- JsStrings.ToLower: maps only the ASCII letters. JavaScript's `toLowerCase` also maps other Unicode letters.
- A non-array `carpark_data` or `carpark_info` in the feed: the model types these fields as lists or absent.
- Carparks.LiveEntries / Reconcile.MergeLive: a null element of `carpark_data` (`scripts/functions.js:76`) or a null `carpark_info[0]` (line 87) throws a TypeError outside the try block of lines 56-71, so the load stops before line 104 and nothing is published or shown. The model's live-entry datatypes cannot be null, so this abort is not modelled.
- DOM, Leaflet and geolocation: markers, popups, status messages, `showExploreCarparkOnMap`, `addExploreMarkerToMap`, `renderResults` beyond its availability text and colours, and `handleSuccess` beyond the ranking.
- Three.js: the 3D scene (`initThree` and what follows).
- `main.js`: the event wiring that calls these handlers.
- `handleSuccess` before loading: `ALL_CARPARK_DATA_MOCK.map` throws when the data was never loaded. The ranking is modelled only on a loaded list.
