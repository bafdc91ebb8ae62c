# Raycast store statistics, modelled in Dafny

This project models the core of a Raycast extension. The extension shows statistics about the Raycast
extension store:

- per-author download and growth totals;
- extension rankings by installs and by growth;
- a store browser with sort and category selection;
- a "new and updated" view over recent days;
- a small SVG line chart.

The model takes the fetched extension list as an input value. Each source file is one module:

| module | source | what it covers |
|---|---|---|
| `Extensions` | src/lib/extensions.ts | the `User`, `Command`, `Extension` and growth records (values) |
| `AuthorCharts` | src/components/author_charts.tsx | `combineUserData` (a loop over the list that fills a dictionary), the author `sortMap`, the in-place sort of the author list |
| `ExtensionCharts` | src/components/extension_charts.tsx | the install link, `sortExtensionByDownloads`, the extension `sortMap`, the headline totals, the author lookup, `getDownloadsGraph`, the detail markdown |
| `Store` | src/store.tsx | `sortFuncs`, the `sort_`/`cat_` dropdown values and their decoder, `getAllCategories`, the sorted and category-filtered list |
| `ExtensionsUpdates` | src/components/extensions_updates.tsx | `filterByDays` and the `filterMap` day counts |
| `Chart` | src/components/chart.tsx | the `SvgGraph` class, y-range padding, the polyline points |

Shared helpers:

- `Sorting.SortWith` is `Array.prototype.sort(compare)`. It is an insertion sort that works in place on an `array`. It is proved to keep the multiset of elements and to leave the array ordered by the comparator, for any comparator that is a total preorder.
- `Seqs.Filter` is `Array.prototype.filter`.
- `StringOrder` is the default string order of `sort()`: lexicographic over UTF-16 code units.
- `Text` holds the string operations the templates use: `startsWith`, `join`, decimal digits.
- `ObjectPrototype` lists the names every object literal inherits from `Object.prototype`. A lookup such as `sortFuncs[name]` or `filterMap[mode]` finds them, and the model says what each then does.
- `Wrappers` holds `Option`, for `T | undefined`, and `Completion`, a value or a thrown exception.

Where the source mutates, the model does too:

- `combineUserData` and `getAllCategories` are methods with loops.
- Every `sort` call works in place on an `array`.
- `ExtensionDetail` builds its parts with a loop.
- `SvgGraph` is a class with read-only fields.

The comparators, the decoder, the filters and the templates are functions.

Two points of the code shape the model:

- `||` reads a zero count or ratio as absent. So in `combineUserData`, a growth record that is present but has a ratio of 0 contributes 1 to the product (`Extensions.RatioOrOne`), and a count of 0 contributes 0 (`Extensions.CountOrZero`).
- The `Extension` interface (src/lib/extensions.ts:28-44) declares no `title` and no growth or history fields. The views read them all, so the record carries them.

## Model

| member | source | states |
|---|---|---|
| AuthorCharts.CombineUserData | src/components/author_charts.tsx:22-57 | undefined input gives undefined; otherwise the result is exactly `Combined(xs)`: one record per distinct handle, in order of first occurrence, each the `Aggregate` of that author's extensions |
| AuthorCharts.Insert | src/components/author_charts.tsx:30-50 | the definition of one step of the loop; `TracksInsert`, `AggregateSnocNew` and `AggregateSnocKnown` carry its properties |
| AuthorCharts.Handles | src/components/author_charts.tsx:26-30 | every listed handle has at least one extension |
| AuthorCharts.HandlesComplete | src/components/author_charts.tsx:26-55 | a handle is in the result's key list if and only if some extension has it |
| AuthorCharts.HandlesDistinct | src/components/author_charts.tsx:30-55 | no handle is listed twice |
| AuthorCharts.HandlesFirstOccurrenceOrder | src/components/author_charts.tsx:38-55 | records come in the order of their authors' first extensions |
| AuthorCharts.OfAuthorEmpty | src/components/author_charts.tsx:30-38 | a handle that occurs nowhere has no extensions |
| AuthorCharts.OfAuthorStartsAtFirst | src/components/author_charts.tsx:38-41 | an author's extension list starts with their first extension in the input |
| AuthorCharts.CombinedRecord | src/components/author_charts.tsx:31-41 | a record's `author` is the author object of the first extension with that handle; its `extensions` are exactly that author's extensions in input order; its `download_count` is their sum |
| AuthorCharts.AggregateSnocOther | src/components/author_charts.tsx:30-36 | adding one extension at the end leaves every other author's record unchanged |
| AuthorCharts.AggregateSnocNew | src/components/author_charts.tsx:38-50 | the first extension of a handle starts its record: its author, its download count, count-or-0 and ratio-or-1 per window, and `[e]` |
| AuthorCharts.AggregateSnocKnown | src/components/author_charts.tsx:30-36 | a further extension of a known handle is added into the record: counts summed, ratios multiplied, extension appended |
| AuthorCharts.TracksInsert | src/components/author_charts.tsx:27-51 | the loop invariant (dictionary = aggregates of the prefix, keys in first-occurrence order) survives one step |
| AuthorCharts.CombinedPartitions | src/components/author_charts.tsx:36-41 | the authors' extension lists partition the input: summing any per-extension quantity over the records equals summing it over the input |
| AuthorCharts.CombinedPreservesTotals | src/components/author_charts.tsx:31-47 | total downloads and total day and week growth counts (absent as 0) are the same over the records as over the input |
| AuthorCharts.RatioWithoutDataIsOne | src/components/author_charts.tsx:33-48 | an author none of whose extensions has a (non-zero) ratio for a window gets exactly 1 |
| AuthorCharts.SortMap | src/components/author_charts.tsx:59-67 | the definition of the five comparators; `SortMapRanksDescending` and `SortMapIsTotalPreorder` carry their properties |
| AuthorCharts.SortMapRanksDescending | src/components/author_charts.tsx:59-67 | each of the five comparators is "key of b minus key of a" for its field, so larger keys come first |
| AuthorCharts.SortMapIsTotalPreorder | src/components/author_charts.tsx:59-67 | each comparator is total and transitive, as `sort` requires |
| AuthorCharts.SortUsers | src/components/author_charts.tsx:74 | the in-place sort keeps the records (same multiset) and leaves the chosen key non-increasing |
| AuthorCharts.RankAuthors | src/components/author_charts.tsx:71-74 | undefined exactly for undefined input; otherwise a permutation of `Combined(xs)` with the chosen key non-increasing |
| ExtensionCharts.InstallUrl | src/components/extension_charts.tsx:11 | the definition of the install link; `InstallUrlRoundTrip` carries its property |
| ExtensionCharts.InstallUrlRoundTrip | src/components/extension_charts.tsx:11 | the install link is `raycast://extensions/<handle>/<name>?source=webstore`: parsing it gives back exactly the handle and name (for a handle without `/`) |
| ExtensionCharts.SortExtensionByDownloads | src/components/extension_charts.tsx:15-21 | undefined stays undefined; otherwise the same array is returned, sorted in place, a permutation of its old contents, with `download_count` non-increasing |
| ExtensionCharts.RankKey | src/components/extension_charts.tsx:70-78 | the key each entry ranks by: total downloads, or the chosen growth field with an absent growth record read as 0 |
| ExtensionCharts.SortMap | src/components/extension_charts.tsx:70-78 | the definition of the five comparators; `SortMapRanksDescending` and `SortMapIsTotalPreorder` carry their properties |
| ExtensionCharts.SortMapRanksDescending | src/components/extension_charts.tsx:70-78 | each comparator is "key of b minus key of a", so larger keys come first |
| ExtensionCharts.SortMapIsTotalPreorder | src/components/extension_charts.tsx:70-78 | each comparator is total and transitive |
| ExtensionCharts.SortExtensions | src/components/extension_charts.tsx:91 | the in-place sort keeps the extensions (same multiset) and leaves the chosen key non-increasing |
| ExtensionCharts.TotalInstallsOf | src/components/extension_charts.tsx:86-87 | the definition of `totalInstalls`; `TotalsAgreeWithAuthors` and `TotalsIgnoreOrder` carry its properties |
| ExtensionCharts.InstallsLastDayOf | src/components/extension_charts.tsx:88-89 | the definition of `installsLastDay`; `TotalsAgreeWithAuthors` and `TotalsIgnoreOrder` carry its properties |
| ExtensionCharts.TotalsAgreeWithAuthors | src/components/extension_charts.tsx:86-90 | `totalInstalls` and `installsLastDay` equal the sums over the author records `combineUserData` returns |
| ExtensionCharts.TotalsIgnoreOrder | src/components/extension_charts.tsx:86-91 | the totals depend only on the multiset of extensions, so computing them before or after the sort agrees |
| ExtensionCharts.SumByRemove | src/components/extension_charts.tsx:86-89 | removing one extension from the list takes exactly its contribution off a total |
| ExtensionCharts.ExtensionListView | src/components/extension_charts.tsx:85-91 | both totals over the list as fetched (0 for undefined), the author records, then the list sorted in place by the chosen entry |
| ExtensionCharts.FindAuthor | src/components/extension_charts.tsx:113 | `find` returns a record with the handle, and nothing only when no record has it |
| ExtensionCharts.FindAuthorFirst | src/components/extension_charts.tsx:113 | `find` returns the first matching record |
| ExtensionCharts.AuthorDataOfListed | src/components/extension_charts.tsx:90-113 | every listed extension finds its author's record, and it is the aggregate of exactly that author's extensions |
| ExtensionCharts.CodeFence | src/components/extension_charts.tsx:175-177 | the text is wrapped in a fenced code block and can be read back from inside it |
| ExtensionCharts.DownloadCoords | src/components/extension_charts.tsx:172-178 | no points when the history is absent or shorter than two days; otherwise one point `(i, v[i])` per day |
| ExtensionCharts.GetDownloadsGraph | src/components/extension_charts.tsx:171-191 | a graph exactly when there are points; it is non-empty, fenced, and holds the plot of the points |
| ExtensionCharts.CommandsHeadingCount | src/components/extension_charts.tsx:201 | the command-count heading holds the decimal digits of the number of commands |
| ExtensionCharts.ExtensionDetailMarkdown | src/components/extension_charts.tsx:193-205 | the parts are `# title`, the description, the graph if any, `## Commands (n)`, and one `### title\n\ndescription` per command in order; the markdown is their join with `"\n  "` |
| Store.SortFunc | src/store.tsx:8-14 | the definition of `sortFuncs`; `SortFuncKnown`, `SortFuncOrders`, `SortFuncReversals` and `SortFuncIsTotalPreorder` carry its properties |
| Store.SortFuncKnown | src/store.tsx:8-14 | exactly the five names `newest`, `oldest`, `mostDownloads`, `leastDownloads` and `update` have a comparator |
| Store.SortFuncOrders | src/store.tsx:8-14 | newest/oldest order by `created_at` descending/ascending, most/least downloads by `download_count` descending/ascending, update by `updated_at` descending |
| Store.SortFuncReversals | src/store.tsx:9-12 | `oldest` is `newest` reversed and `leastDownloads` is `mostDownloads` reversed |
| Store.SortFuncIsTotalPreorder | src/store.tsx:8-14 | each comparator is total and transitive |
| Store.SortValue | src/store.tsx:21 | the definition of a sort item's value; `SortValueRoundTrip` carries its property |
| Store.CategoryValue | src/store.tsx:50-52 | the definition of a category item's value; `CategoryValueRoundTrip` carries its property |
| Store.OnChange | src/store.tsx:33-39 | a value starting with `cat_` selects the category after the prefix; otherwise one starting with `sort_` selects the sort after the prefix; anything else changes nothing |
| Store.SortValueRoundTrip | src/store.tsx:21-39 | decoding `sort_<v>` gives the sort change `v` |
| Store.CategoryValueRoundTrip | src/store.tsx:33-52 | decoding `cat_<c>` gives the category change `c`, and the "All" item `cat_` gives the empty category |
| Store.Apply | src/store.tsx:33-130 | a choice changes only the category, or only the sort, or nothing, as the decoder says |
| Store.ApplySelectedItem | src/store.tsx:33-41 | choosing the item shown as selected leaves the selection unchanged |
| Store.GetAllCategories | src/store.tsx:88-101 | undefined gives `[]`; otherwise exactly the categories some extension lists, each once, in strictly ascending UTF-16 code-unit order |
| Store.SortThrows | src/store.tsx:110 | the definition of when the sort throws: for `__proto__` always, and for the inherited methods that need an object `this` once there are two elements to compare; `ShownExtensions` carries its use |
| Store.ShownExtensions | src/store.tsx:110-112 | it throws exactly when `SortThrows` says, leaving the list as it was; otherwise the list is sorted in place by the chosen sort (a name without a comparator of its own leaves it unchanged), and an empty category shows it whole, any other the extensions listing it, in the sorted order |
| Store.InCategory | src/store.tsx:112 | the definition of the category test; `CategoryFilterMembership` carries its property |
| Store.CategoryFilterMembership | src/store.tsx:112 | a non-empty category keeps an extension exactly when its categories are present and contain it |
| Store.FilterCategoriesListed | src/store.tsx:51-112 | a category that selects any extension is one of the dropdown's categories |
| StringOrder.CodeUnits | src/store.tsx:100 | one character is one UTF-16 unit below U+10000, else a surrogate pair that decodes back to it |
| StringOrder.Utf16Injective | src/store.tsx:100 | different strings have different UTF-16 encodings |
| StringOrder.CompareIsLess | src/store.tsx:100 | the comparison says "before" exactly when the standard's IsLessThan holds: a proper prefix, or a smaller unit at the first difference |
| StringOrder.CompareAntisymmetric | src/store.tsx:100 | swapping the arguments negates the comparison |
| StringOrder.CompareZero | src/store.tsx:100 | the comparison is 0 exactly for equal unit sequences |
| StringOrder.CompareTransitive | src/store.tsx:100 | the comparison is transitive |
| StringOrder.CodeUnitOrderIsTotalPreorder | src/store.tsx:100 | the default string order is total and transitive |
| StringOrder.CodeUnitOrderTiesOnlyEqual | src/store.tsx:100 | only equal strings compare equal |
| ExtensionsUpdates.DateOf | src/lib/utils.ts:19-21 | the definition of `unixTimestampToDate` with TimeClip's range; `FilterByDaysMembership` carries its property |
| ExtensionsUpdates.CreatedSince | src/components/extensions_updates.tsx:35 | the definition of the `created_at` test; `FilterByDaysMembership` carries its property |
| ExtensionsUpdates.UpdatedSince | src/components/extensions_updates.tsx:36 | the definition of the `updated_at` test; `FilterByDaysMembership` carries its property |
| ExtensionsUpdates.FilterByDays | src/components/extensions_updates.tsx:23-39 | both lists are undefined exactly when the input is; each kept extension was created (updated) at or after the threshold, at a time within ±8.64e15 ms |
| ExtensionsUpdates.FilterByDaysMembership | src/components/extensions_updates.tsx:35-36 | an extension is in the new (updated) list exactly when it is in the input and its creation (update) time is valid and at or after the threshold; the two lists are independent |
| ExtensionsUpdates.FilterByDaysMonotone | src/components/extensions_updates.tsx:33-36 | a later threshold's list is the earlier threshold's list filtered again, so a sub-list of it |
| ExtensionsUpdates.DaysOf | src/components/extensions_updates.tsx:49-52 | `1_day`, `2_days`, `3_days` and `7_days` have day counts 1, 2, 3 and 7 |
| ExtensionsUpdates.FilterMap | src/components/extensions_updates.tsx:41-60 | `today` is `filterToday`, each day-count mode is `filterByDays` with the clock's threshold for its day count, the seven inherited names that return give two undefined lists, and every other key throws |
| ExtensionsUpdates.FilterMapWidens | src/components/extensions_updates.tsx:33-52 | with a clock that reaches further back for more days, a mode with more days keeps every extension a mode with fewer days keeps |
| ExtensionsUpdates.UpdatesView | src/components/extensions_updates.tsx:58-60 | the list is sorted in place by downloads, whatever the mode (same multiset, `download_count` non-increasing); the result is `FilterMap` of the sorted list, so the day-count lists are most-downloaded first, and it throws exactly when `FilterMap` does |
| Chart.SeqMax | src/components/chart.tsx:56-65 | `Math.max` of a non-empty list is an element and bounds every element |
| Chart.SeqMin | src/components/chart.tsx:57-66 | `Math.min` of a non-empty list is an element and is below every element |
| Chart.SvgGraph.constructor | src/components/chart.tsx:23-30 | the graph keeps the six values it is built from |
| Chart.SvgGraph.MapX | src/components/chart.tsx:32-36 | the definition of `mapX`; `MapXEndpoints`, `MapXLinear`, `MapXIncreasing` and `MapInsideArea` carry its properties |
| Chart.SvgGraph.MapY | src/components/chart.tsx:38-42 | the definition of `mapY`; `MapYEndpoints`, `MapYDecreasing` and `MapInsideArea` carry its properties |
| Chart.SvgGraph.MapXEndpoints | src/components/chart.tsx:32-36 | `mapX(minX) = 0` and `mapX(maxX) = svgWidth` |
| Chart.SvgGraph.MapXLinear | src/components/chart.tsx:32-36 | `mapX` is linear |
| Chart.SvgGraph.MapXIncreasing | src/components/chart.tsx:32-36 | `mapX` is strictly increasing for a rising x range |
| Chart.SvgGraph.MapYEndpoints | src/components/chart.tsx:38-42 | `mapY(minY) = svgHeight` and `mapY(maxY) = 0` |
| Chart.SvgGraph.MapYDecreasing | src/components/chart.tsx:38-42 | `mapY` is strictly decreasing for a rising y range |
| Chart.SvgGraph.MapInsideArea | src/components/chart.tsx:32-42 | values inside the ranges map inside `[0, svgWidth]` and `[0, svgHeight]` |
| Chart.YRange | src/components/chart.tsx:56-64 | non-constant data keeps its minimum and maximum; constant data `v` gets `[v - 5, v + 5]` with the lower end raised to 0 when it is not positive |
| Chart.YRangeCoversData | src/components/chart.tsx:56-64 | for non-empty non-negative data the range is proper and contains every value |
| Chart.LineChart | src/components/chart.tsx:51-71 | a 300 by 180 graph over the label range and the padded data range, with one point per data value, in data order, shifted right by 30; for non-negative data every point lies within x in [30, 330] and y in [0, 180] |
| Chart.PointsText | src/components/chart.tsx:72 | the definition of the `points` text; `PointsTextSplits` carries its property |
| Chart.PointsTextSplits | src/components/chart.tsx:72 | the `points` text splits at spaces into exactly one `x,y` pair per point, in order |
| Sorting.SortWith | src/components/extension_charts.tsx:19 | `Array.prototype.sort(compare)`: in place, same multiset, ordered by any total-preorder comparator |
| Seqs.FilterMembership | src/store.tsx:112 | `filter` keeps an element exactly when it is in the input and passes |
| Seqs.FilterOfFilter | src/components/extensions_updates.tsx:35-36 | filtering by a stronger test equals filtering twice |
| Seqs.FilterKeepsOrder | src/store.tsx:110-112 | `filter` keeps any pairwise order the input had |
| Text.SplitJoin | src/components/chart.tsx:72 | splitting at a separator undoes joining with it when no part contains it |
| Text.DecimalValueOfNatToString | src/components/extension_charts.tsx:201 | the decimal text of a count reads back as the count |

## Left out

- Fetching and caching are not modelled: `fetchExtensions` and `useExtensions` (src/lib/extensions.ts). They are network I/O and a third-party cache, so the extension list is an input.
- The views read growth and history fields that no code in this model produces. The model takes them as part of the input records.
- All rendering, React state (`useState`, `useCachedState`) and the `useEffect` that selects the first item (src/store.tsx:114-118) are left out. They belong to the UI toolkit. The store's selection is modelled as a value (`Store.Selection`).
- Number formatting is left out: `compactNumberFormat`, `legendNumber`, `toFixed`, and the text of `${n}` for non-integers. `Intl.NumberFormat` and host preferences are not modelled. In `Chart.PointsText` the number formatter is a parameter.
- `filterToday` and all of src/components/extensions_today.tsx are left out, because they read the clock and the local time zone. `filterToday` is the parameter `today` of `ExtensionsUpdates.FilterMap`.
- The `since.setDate` calendar step is a parameter, the threshold in milliseconds, because it is local and sensitive to daylight saving time.
- `simple-ascii-chart`'s `plot` and its formatter are an opaque library, so `plot` is a parameter of `ExtensionCharts.GetDownloadsGraph`.
- `getGrowthPercentage` is not modelled. It is imported from src/lib/extensions.ts, but that file does not define it and no other file in this model does.
- `getUserRaycastPageURL` and `getErrorMessage` are not modelled. They are display helpers outside the modelled views.
- src/lib/svg.ts (rendering to a string, base64, file writes) is not part of this model.
- Floating point is not modelled: counts are integers, ratios and chart coordinates are reals. NaN and Infinity ratios, and rounding in `mapX` and `mapY`, are not captured.
- Chart.LineChart: requires non-empty data, because `Math.max`/`Math.min` of an empty list are infinite.
- Chart.LineChart: requires distinct label extremes (the source divides by zero there).
- Chart.LineChart: requires at least as many labels as data values. With fewer labels, `labels[i]` is `undefined` and the point's x is `NaN`, which the real-valued model cannot represent.
- Chart.LineChart: requires that constant data is not exactly -5, because then the padded range is empty and `mapY` divides by zero.
- The range lemmas assume non-negative data. For constant data below -5, the clamp makes `minY` exceed `maxY`.
- AuthorCharts.CombineUserData: requires every handle to be an ordinary object key, because `h in result` is true for names inherited from `Object.prototype`. For `toString`, say, the source crashes at line 32.
- AuthorCharts.CombineUserData: also requires no handle to be a canonical array index ("0", "17", ...), because `Object.keys` would list those first rather than in insertion order.
- Sorting.SortWith: stability is not proved. No stated property depends on the relative order of elements that compare equal.
- StringOrder: characters are Unicode scalar values, so strings holding lone surrogates, which JavaScript allows, are not represented.
- The growth objects in `combineUserData` are updated with `+=` and `*=`. In the model records are immutable values, so the input extensions cannot be changed by the aggregation.
