# OMR post-processing of `processOMR`, modelled in Dafny

`processOMR` sends an answer-sheet image to a document-analysis service. It then
turns the selection marks the service reports into answer items. This project
models that second half: everything after the analysis call has returned its
`pages` or thrown an error. The function exists in two near-identical
revisions, `app/lib/omr/OmniOMRProcessor.ts` and `lib/omr/OmniOMRProcessor.ts`.
Both are modelled by one set of definitions, parameterised by
`ItemClassifier.Revision` (`AppRevision`, `LibRevision`). The revisions differ in
five ways:

- the answer alphabet: seven letters in the app revision, six in the lib revision;
- the far corner of the bounding box: the third polygon point vs the last one;
- a missing corner coordinate: the app revision falls back to the reference
  point (a width or height of 0), the lib revision subtracts from `undefined`
  (NaN);
- the formula of the mean confidence;
- the text of the failure warning.

For each page, in page order, the pipeline does five things:

1. **Admission** (`MarkFilter`). It keeps the marks whose state is exactly
   `"selected"`, whose confidence is present and at least 0.85, and whose
   polygon has at least three points, the first of them with both coordinates.
   Each kept mark is normalised to a `Mark`.
2. **Tolerance sort** (`TolerantSort`). Marks less than 20 apart in height are
   ordered by x, the others by height. This comparator is not transitive:
   `CmpHasCycle` exhibits three marks that each precede the next in a cycle. So
   the language leaves the order of the sorted page implementation-defined;
   nothing beyond its being a rearrangement of the marks can be relied on. The
   model therefore takes the page order as a parameter `order` of the pipeline
   (`TolerantSort.PageOrder`), and every property of rows and items is proved
   for each `order` that rearranges its input (`TolerantSort.Rearranges`). An
   insertion sort under the comparator, `TolerantSort.TolSort`, shows such an
   order exists; that particular sort also happens to order each adjacent pair,
   which is a fact about it and not about engines.
3. **First-fit rows** (`RowClustering`). Each mark joins the first row, in
   creation order, whose first mark is strictly less than 15 away in height.
   When there is none, it starts a new row. `GroupRows` models the source's
   in-place `row.push` and `rows.push` by replacing one row of a sequence of
   rows, or appending a new one; it is proved equal to the function `Cluster`, and the
   partition, tolerance and first-fit properties are proved about `Cluster`. The
   15-unit tolerance is measured against a row's first mark only, so two marks
   of one row can be up to (but not) 30 apart, and marks 15 or more apart can
   share a row (`RowSpread`, `RowSpreadCanReachTolerance`).
4. **Items** (`RowOrder`, `ItemClassifier`). Each row is sorted by x with a
   proper comparator. The model does this with an in-place insertion sort on an
   array, proved equal to a stable functional sort. The row becomes an item:
   - the id `P<n>`, from a counter shared by all pages;
   - `true_false` for exactly two marks, otherwise `multiple_choice`;
   - the letter at the saturating index `min(n - 1, alphabet length - 1)`;
   - the smallest confidence in the row;
   - a bounding box from the first mark's reference point to a corner of the
     last mark.
5. **Result** (`ResultAggregator`). A successful run returns the items and
   their mean confidence, which is 0 when there are no items. A thrown error
   becomes a failed result with no items, one warning and mean 0.

JavaScript numbers are modelled as `real`. An absent value (`undefined` or
`null`) is `Detector.Option.None`. Subtracting from an undefined coordinate
gives NaN in JavaScript; the model represents that NaN as a `None` width or
height.

## Model

| member | source | states |
|---|---|---|
| Detector.Option.GetOr | app/lib/omr/OmniOMRProcessor.ts:57-59 | `x ?? d` is the value when present and `d` otherwise (`pages ?? []`, `selectionMarks ?? []`) |
| MarkFilter.Admit | app/lib/omr/OmniOMRProcessor.ts:60-69 | the filter predicate: state exactly `"selected"`, confidence present and at least 0.85, a polygon array of at least 3 points whose first point has both coordinates (its contract is stated by `AdmittedCounts` and `FilteredAdmission`) |
| MarkFilter.Admitted | app/lib/omr/OmniOMRProcessor.ts:59-69 | every kept raw mark passes all admission conditions; the filter never lengthens the list (lib: lib/omr/OmniOMRProcessor.ts:72-82) |
| MarkFilter.AdmittedCounts | app/lib/omr/OmniOMRProcessor.ts:59-69 | the filter keeps each admitted mark exactly as often as it occurs and drops every mark failing a condition |
| MarkFilter.Normalize | app/lib/omr/OmniOMRProcessor.ts:70-76 | normalisation keeps the polygon; for an admitted mark it keeps the confidence and gives a well-formed mark (state `"selected"`, confidence at least 0.85, at least 3 points, first point located) |
| MarkFilter.NormalizeAll | app/lib/omr/OmniOMRProcessor.ts:70-76 | the map keeps the length and normalises each mark at its own position |
| MarkFilter.Filtered | app/lib/omr/OmniOMRProcessor.ts:59-76 | the whole filter-then-map chain of one page: exactly the admitted raw marks, in order, each normalised (stated by `AdmittedCounts` and `FilteredAdmission`; lib: lib/omr/OmniOMRProcessor.ts:72-89) |
| MarkFilter.FilteredAdmission | app/lib/omr/OmniOMRProcessor.ts:59-76 | every mark after filter and map is well formed and comes from an admitted raw mark with polygon and confidence unchanged; every admitted raw mark is kept; nothing is added (lib: lib/omr/OmniOMRProcessor.ts:72-89) |
| TolerantSort.Cmp | app/lib/omr/OmniOMRProcessor.ts:77-82 | the page comparator: by x when the heights differ by less than 20, by height otherwise (its properties are `CmpAntisymmetric` and `CmpHasCycle`) |
| TolerantSort.CmpAntisymmetric | app/lib/omr/OmniOMRProcessor.ts:77-82 | swapping the arguments of the tolerance comparator negates its result |
| TolerantSort.CmpHasCycle | app/lib/omr/OmniOMRProcessor.ts:80-81 | there are three marks that each precede the next in a cycle: the comparator is not a strict weak order |
| TolerantSort.InsertTol | app/lib/omr/OmniOMRProcessor.ts:77-82 | one insertion step of the tolerance sort adds one mark and ends with that mark or with the previous last mark |
| TolerantSort.TolSort | app/lib/omr/OmniOMRProcessor.ts:77-82 | the sorted page has as many marks as the input |
| TolerantSort.InsertTolPermutes | app/lib/omr/OmniOMRProcessor.ts:77-82 | an insertion step adds exactly the inserted mark to the multiset |
| TolerantSort.TolSortPermutes | app/lib/omr/OmniOMRProcessor.ts:77-82 | the tolerance sort is a permutation of the filtered marks (lib: lib/omr/OmniOMRProcessor.ts:90-97) |
| TolerantSort.InsertTolOrdered | app/lib/omr/OmniOMRProcessor.ts:77-82 | an insertion step keeps every adjacent pair ordered by the comparator |
| TolerantSort.TolSortOrdered | app/lib/omr/OmniOMRProcessor.ts:77-82 | in the insertion-sorted page each mark is ordered before its right neighbour by the comparator (a property of this sort, not of every engine) |
| TolerantSort.Rearranges | app/lib/omr/OmniOMRProcessor.ts:77-82 | what is known of any engine's `.sort` with this comparator: it returns a rearrangement of the page's marks |
| TolerantSort.TolSortRearranges | app/lib/omr/OmniOMRProcessor.ts:77-82 | the insertion sort is such a rearrangement, so the assumption on the engine's order can be met |
| RowClustering.Near | app/lib/omr/OmniOMRProcessor.ts:87 | the `rows.find` test: the row's first mark is strictly less than 15 away in height (used by `FindRow` and stated for every row by `ClusterInvariants`; lib: lib/omr/OmniOMRProcessor.ts:102) |
| RowClustering.FindRow | app/lib/omr/OmniOMRProcessor.ts:87 | `rows.find` returns the first row whose first mark is within 15 in height, or none when no row is |
| RowClustering.FindFirstRow | app/lib/omr/OmniOMRProcessor.ts:87 | the scan over the rows in creation order returns exactly the row `rows.find` finds |
| RowClustering.Place | app/lib/omr/OmniOMRProcessor.ts:86-89 | placing a mark keeps every row non-empty and adds at most one row |
| RowClustering.PlaceAddsMark | app/lib/omr/OmniOMRProcessor.ts:88-89 | placing a mark adds exactly that mark to the rows' contents |
| RowClustering.PlaceKeepsInvariants | app/lib/omr/OmniOMRProcessor.ts:85-89 | placing a mark keeps every row within tolerance of its first mark and keeps first fit; existing rows keep their first mark |
| RowClustering.Cluster | app/lib/omr/OmniOMRProcessor.ts:84-90 | clustering yields non-empty rows, no more rows than marks |
| RowClustering.GroupRows | app/lib/omr/OmniOMRProcessor.ts:84-90 | the loop that pushes onto rows in place builds exactly the first-fit clustering (lib: lib/omr/OmniOMRProcessor.ts:100-105) |
| RowClustering.ClusterPartitions | app/lib/omr/OmniOMRProcessor.ts:84-90 | the rows together are a permutation of the page's marks: nothing added, nothing lost |
| RowClustering.ClusterMembers | app/lib/omr/OmniOMRProcessor.ts:84-90 | every mark of every row is one of the page's marks and every page mark is in some row |
| RowClustering.ClusterInvariants | app/lib/omr/OmniOMRProcessor.ts:86-89 | every mark of a row is strictly within 15 of the row's first mark, and no mark of a row is within 15 of the first mark of an earlier row (first fit) |
| RowClustering.RowSpread | app/lib/omr/OmniOMRProcessor.ts:87 | any two marks of one row are less than 30 apart in height |
| RowClustering.RowSpreadCanReachTolerance | app/lib/omr/OmniOMRProcessor.ts:87 | there are three marks, two of them 15 or more apart in height, that all end up in one row |
| RowOrder.InsertX | app/lib/omr/OmniOMRProcessor.ts:93 | an insertion step of the row sort adds one mark |
| RowOrder.SortByX | app/lib/omr/OmniOMRProcessor.ts:93 | the row sorted by x has the row's length |
| RowOrder.InsertXPermutes | app/lib/omr/OmniOMRProcessor.ts:93 | an insertion step adds exactly the inserted mark to the multiset |
| RowOrder.SortByXPermutes | app/lib/omr/OmniOMRProcessor.ts:93 | the sorted row is a permutation of the row (lib: lib/omr/OmniOMRProcessor.ts:109) |
| RowOrder.InsertXSorted | app/lib/omr/OmniOMRProcessor.ts:93 | inserting into an x-sorted row keeps it x-sorted |
| RowOrder.SortByXSorted | app/lib/omr/OmniOMRProcessor.ts:93 | the sorted row is in non-decreasing x order |
| RowOrder.InsertXStable | app/lib/omr/OmniOMRProcessor.ts:93 | an insertion step places the inserted mark after every mark of equal x |
| RowOrder.SortByXStable | app/lib/omr/OmniOMRProcessor.ts:93 | marks of equal x keep their relative order (the sort is stable) |
| RowOrder.ShiftGreater | app/lib/omr/OmniOMRProcessor.ts:93 | the inner loop shifts right by one exactly the marks before position i with greater x, leaving the rest of the array alone |
| RowOrder.InsertAt | app/lib/omr/OmniOMRProcessor.ts:93 | one outer step turns the prefix up to i into the insertion of the i-th mark into the sorted prefix, leaving the rest alone |
| RowOrder.SortRowByX | app/lib/omr/OmniOMRProcessor.ts:93 | `row.sort` by x in place leaves the array equal to the stable sort of its old contents |
| ItemClassifier.Letters | app/lib/omr/OmniOMRProcessor.ts:98 | the alphabet has 7 letters in the app revision and 6 in the lib revision (lib/omr/OmniOMRProcessor.ts:111), starting at "A" |
| ItemClassifier.Letter | app/lib/omr/OmniOMRProcessor.ts:99 | the value of a row is a single letter |
| ItemClassifier.LetterChoice | app/lib/omr/OmniOMRProcessor.ts:98-99 | the index is always in bounds; the value is "A" for one mark, the n-th letter for n marks up to the alphabet length, and the last letter ("G", or "F" in lib/omr/OmniOMRProcessor.ts:111-112) for longer rows |
| ItemClassifier.Classify | app/lib/omr/OmniOMRProcessor.ts:96 | the type is `true_false` exactly for two marks and `multiple_choice` exactly otherwise, so `pairing` and `unknown` never occur |
| ItemClassifier.DecimalString | app/lib/omr/OmniOMRProcessor.ts:95 | the decimal numeral a template literal writes for the counter, never empty (its round trip is `DecimalRoundTrip`) |
| ItemClassifier.ItemId | app/lib/omr/OmniOMRProcessor.ts:95 | the id `P` followed by the counter's numeral (distinct counters give distinct ids: `ItemIdInjective`) |
| ItemClassifier.DecimalRoundTrip | app/lib/omr/OmniOMRProcessor.ts:95 | the numeral in the id is all digits and reads back as the counter value |
| ItemClassifier.ItemIdInjective | app/lib/omr/OmniOMRProcessor.ts:95 | different counter values give different ids |
| ItemClassifier.MinConfidence | app/lib/omr/OmniOMRProcessor.ts:117 | `Math.min` over the row's confidences (stated by `MinConfidenceIsMin`) |
| ItemClassifier.MinConfidenceIsMin | app/lib/omr/OmniOMRProcessor.ts:117 | `Math.min` over the row's confidences is at most each of them and equal to one of them |
| ItemClassifier.MinConfidenceOrderFree | app/lib/omr/OmniOMRProcessor.ts:117 | the minimum is the same for any permutation of the row, so sorting the row does not change it |
| ItemClassifier.MakeItem | app/lib/omr/OmniOMRProcessor.ts:112-119 | the item pushed for a row in x order: id, type, letter, `raw` empty, minimum confidence, box (stated by `RowItem` and `BoxExtent`) |
| ItemClassifier.RowItem | app/lib/omr/OmniOMRProcessor.ts:92-119 | the item of a row carries id `P<n>`, `true_false` iff two marks, the row's letter and the minimum confidence of the unsorted row |
| ItemClassifier.Corner | app/lib/omr/OmniOMRProcessor.ts:102-103 | the polygon point giving the far corner: `lastPoly[2] ?? lastPoly[lastPoly.length - 1]` in the app revision, the last point in the lib revision (lib/omr/OmniOMRProcessor.ts:115-116); stated by `BoxExtent` |
| ItemClassifier.Extent | app/lib/omr/OmniOMRProcessor.ts:108-109 | one extent of the box: `(c ?? base) - base` in the app revision, `c - base` (NaN when `c` is undefined) in the lib revision (lib/omr/OmniOMRProcessor.ts:124); stated by `BoxExtent` |
| ItemClassifier.BoxOf | app/lib/omr/OmniOMRProcessor.ts:101-110 | the `[x, y, width, height]` box of a row in x order; stated by `BoxExtent` and `RowBox` |
| ItemClassifier.BoxExtent | app/lib/omr/OmniOMRProcessor.ts:101-110 | the box starts at the first mark's reference point; in the app revision width and height are never NaN and are the third point's coordinates (the last point's for a shorter polygon) minus the reference point, a missing coordinate giving 0; in the lib revision (lib/omr/OmniOMRProcessor.ts:114-124) they are present exactly when the last point's coordinate is, and are then that coordinate minus the reference point |
| ItemClassifier.RowBox | app/lib/omr/OmniOMRProcessor.ts:101-110 | the box starts at the reference point of a row mark with the least x, and the mark whose polygon gives the far corner (see `BoxExtent`) is a row mark with the greatest x (lib: lib/omr/OmniOMRProcessor.ts:114-116) |
| ItemClassifier.AppCornerIsThirdPoint | app/lib/omr/OmniOMRProcessor.ts:103 | for an admitted mark the app revision's corner is always the third polygon point: the fallback never applies |
| ResultAggregator.PageRawMarks | app/lib/omr/OmniOMRProcessor.ts:59 | a page's detector marks, or none when `selectionMarks` is missing (its marks after the filter are stated by `PageRowsFromFiltered` and `DocMarksAdmitted`; lib: lib/omr/OmniOMRProcessor.ts:72) |
| ResultAggregator.PageMarks | app/lib/omr/OmniOMRProcessor.ts:59-82 | a page's marks after filter, normalisation and the engine's order `order` |
| ResultAggregator.PageRows | app/lib/omr/OmniOMRProcessor.ts:84-90 | the first-fit rows of a page's ordered marks (stated by `PageRowCount` and `PageRowsFromFiltered`) |
| ResultAggregator.PageRowCount | app/lib/omr/OmniOMRProcessor.ts:59-90 | for any order that rearranges the marks, a page yields no more rows, hence items, than it has admitted marks |
| ResultAggregator.DocRows | app/lib/omr/OmniOMRProcessor.ts:57-90 | the rows of all pages, page after page |
| ResultAggregator.ItemOfRow | app/lib/omr/OmniOMRProcessor.ts:93-119 | the row-loop body: the item of the row sorted by x under the current number (stated by `DocItemAt`, `RowItem` and `BoxExtent`; lib: lib/omr/OmniOMRProcessor.ts:110-126) |
| ResultAggregator.DocItems | app/lib/omr/OmniOMRProcessor.ts:55-120 | one item per document row, numbered from 1 in page-then-row order (stated by `DocItemAt`, `DocItemIds`, `DocItemConfidence`, `DocItemCount`) |
| ResultAggregator.PageRowsFromFiltered | app/lib/omr/OmniOMRProcessor.ts:59-90 | for any order that rearranges the marks, every mark in a page's rows is one of that page's filtered marks |
| ResultAggregator.DocRowsFromFiltered | app/lib/omr/OmniOMRProcessor.ts:57-90 | for any order that rearranges each page's marks, every mark in the document's rows is a filtered mark of one of the pages |
| ResultAggregator.DocMarksAdmitted | app/lib/omr/OmniOMRProcessor.ts:57-90 | for any order that rearranges each page's marks, every mark in any row is well formed and comes from an admitted detector mark of some page with polygon and confidence unchanged |
| ResultAggregator.DocItemAt | app/lib/omr/OmniOMRProcessor.ts:92-119 | there is one item per row, and item k describes row k under the number k + 1 (id, type, letter, empty `raw`, minimum confidence, and the box of the row sorted by x) |
| ResultAggregator.DocItemIds | app/lib/omr/OmniOMRProcessor.ts:55-95 | ids run P1, P2, ... consecutively over all pages in page-then-row order and are pairwise distinct (lib: lib/omr/OmniOMRProcessor.ts:68,119) |
| ResultAggregator.DocItemConfidence | app/lib/omr/OmniOMRProcessor.ts:117 | for any order that rearranges each page's marks, every item's confidence is at least 0.85 |
| ResultAggregator.DocItemCount | app/lib/omr/OmniOMRProcessor.ts:57-120 | for any order that rearranges each page's marks, there are never more items than detector marks over all pages |
| ResultAggregator.Average | app/lib/omr/OmniOMRProcessor.ts:123-125 | both revisions' formulas (the lib one at lib/omr/OmniOMRProcessor.ts:129-130) give 0 for no items and otherwise the arithmetic mean of the confidences |
| ResultAggregator.Sum | app/lib/omr/OmniOMRProcessor.ts:124 | `items.reduce((s, i) => s + i.confidence, 0)` (bounded by `SumAtLeast` and `SumAtMost`) |
| ResultAggregator.SumAtLeast | app/lib/omr/OmniOMRProcessor.ts:124 | confidences of at least lo sum to at least n times lo |
| ResultAggregator.SumAtMost | app/lib/omr/OmniOMRProcessor.ts:124 | confidences of at most hi sum to at most n times hi |
| ResultAggregator.AverageBetween | app/lib/omr/OmniOMRProcessor.ts:123-125 | the mean of confidences in [lo, hi] lies in [lo, hi] |
| ResultAggregator.AverageAtLeast | app/lib/omr/OmniOMRProcessor.ts:123-125 | the mean of confidences of at least lo is at least lo |
| ResultAggregator.SuccessConfidence | app/lib/omr/OmniOMRProcessor.ts:123-125 | for any order that rearranges each page's marks, a successful run with items reports a mean confidence of at least 0.85 |
| ResultAggregator.FailureMessage | app/lib/omr/OmniOMRProcessor.ts:138 | the warning of a failed run: `Error OMR: ` and the error's message or "fallo" in the app revision, the message or "Error OMR" in the lib revision (lib/omr/OmniOMRProcessor.ts:143); its use is stated by `ProcessOMR` |
| ResultAggregator.FailureResult | app/lib/omr/OmniOMRProcessor.ts:134-141 | the failed result: `success` false, no items, the one warning, mean 0 (lib/omr/OmniOMRProcessor.ts:139-146); stated by `ProcessOMR` |
| ResultAggregator.SortedRow | app/lib/omr/OmniOMRProcessor.ts:93 | sorting a row through an array gives the stable sort by x |
| ResultAggregator.RowToItem | app/lib/omr/OmniOMRProcessor.ts:92-119 | the row-loop body builds the item of the row sorted by x under the current counter |
| ResultAggregator.PushRows | app/lib/omr/OmniOMRProcessor.ts:92-120 | the row loop appends one item per row, numbered on from the counter, and advances the counter by the number of rows |
| ResultAggregator.BuildItems | app/lib/omr/OmniOMRProcessor.ts:54-121 | the page loop with its shared counter builds exactly the document's items for the given page order: all rows of all pages in order, numbered from 1 (lib: lib/omr/OmniOMRProcessor.ts:67-127) |
| ResultAggregator.ProcessOMR | app/lib/omr/OmniOMRProcessor.ts:54-141 | a thrown error gives failure, no items, one warning (`Error OMR: <message or "fallo">`, or `<message or "Error OMR">` in lib/omr/OmniOMRProcessor.ts:139-146) and mean 0; otherwise success, no warnings, the document's items for the engine's page order and their mean |

## Left out

- Image re-encoding with `sharp`, the credential lookup and the analysis call with `pollUntilDone`: these are foreign and network calls. Their outcome is the input `Detector.Analysis`, either the pages or the value thrown.
- `processingTimeMs` and `Date.now()`: these read the wall clock.
- IEEE-754 arithmetic: coordinates and confidences are `real`, so rounding in the differences, the sum and the division is not modelled.
- The engine's order for the tolerance sort: the comparator is not transitive, so that order is implementation-defined. It is a parameter of the pipeline, assumed only to be a rearrangement of the page's marks (`TolerantSort.Rearranges`); a deterministic engine is assumed, one whose order depends on the page's marks alone.
- ItemClassifier.Extent: a lib-revision corner coordinate that is `null` rather than `undefined` would coerce to 0 in `last.x - first.x`. The model treats every absent coordinate as `undefined`, giving NaN (`None`).
- ItemClassifier.Corner: polygon entries are always points. A `null` or `undefined` entry inside a polygon array is not modelled.
- ResultAggregator.FailureMessage: a thrown non-`Error` value that still carries a `message` property is modelled by its `Error`/non-`Error` distinction only (`Detector.Thrown`). In the lib revision (`err?.message`), such a value's message is not used.
- RowClustering.GroupRows: rows are sequence values, not shared arrays. `row.push` on the array that `rows.find` returns is modelled by replacing that row in `rows`; no other reference to the row exists, so no aliasing effect is lost.
- RowOrder.SortRowByX: the in-place sort of a row that stays inside `rows` is modelled by sorting a copy. `rows` is not read afterwards, so no aliasing effect is lost.
- The item field `warnings` is never set by the processor, so `ItemClassifier.Item` has no such field.
