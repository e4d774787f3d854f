/** Stage 4 and the driver: pages in order, rows in order, one item per row
    numbered by a counter shared by all pages, the mean confidence, and a
    thrown error turned into a failed result.

    The order the engine's tolerance sort gives a page is a parameter
    `order`; the properties that depend on it hold for every order that
    `Rearranges` the page's marks. */
module ResultAggregator {
  import opened Detector
  import opened MarkFilter
  import opened TolerantSort
  import opened RowClustering
  import opened RowOrder
  import opened ItemClassifier
  import opened SeqFacts

  /** `OMRResult` without `processingTimeMs`. */
  datatype OMRResult = OMRResult(success: bool, items: seq<Item>, warnings: seq<string>, confidenceAvg: real)

  function PageRawMarks(page: Page): seq<RawMark> {
    page.selectionMarks.GetOr([])
  }

  /** A page's marks after the filter, the normalisation and the tolerance sort. */
  function PageMarks(order: PageOrder, page: Page): seq<LocatedMark> {
    order(Filtered(PageRawMarks(page)))
  }

  /** The rows of one page. */
  function PageRows(order: PageOrder, page: Page): seq<Row> {
    Cluster(PageMarks(order, page))
  }

  /** A page yields no more rows than it has admitted marks. */
  lemma PageRowCount(order: PageOrder, page: Page)
    requires Rearranges(order)
    ensures |PageRows(order, page)| <= |Admitted(PageRawMarks(page))|
  {
    var f := Filtered(PageRawMarks(page));
    assert |order(f)| == |multiset(order(f))| == |multiset(f)| == |f|;
  }

  /** The rows of all pages, page after page. */
  function DocRows(order: PageOrder, pages: seq<Page>): seq<Row> {
    if pages == [] then [] else DocRows(order, pages[..|pages| - 1]) + PageRows(order, pages[|pages| - 1])
  }

  /** The item pushed for a row numbered `n`: the row sorted by x, classified. */
  function ItemOfRow(v: Revision): (Row, nat) -> Item {
    (row: Row, n: nat) => assert |SortByX(row)| == |row|; MakeItem(v, SortByX(row), n)
  }

  /** The items of a whole document: every row in page and row order, numbered from 1. */
  function DocItems(v: Revision, order: PageOrder, pages: seq<Page>): seq<Item> {
    Numbered(ItemOfRow(v), DocRows(order, pages), 1)
  }

  /** Every mark in a page's rows is one of the page's filtered marks. */
  lemma PageRowsFromFiltered(order: PageOrder, page: Page)
    requires Rearranges(order)
    ensures forall k, t :: 0 <= k < |PageRows(order, page)| && 0 <= t < |PageRows(order, page)[k]| ==>
              PageRows(order, page)[k][t] in Filtered(PageRawMarks(page))
  {
    var f := Filtered(PageRawMarks(page));
    ClusterMembers(order(f));
    assert multiset(order(f)) == multiset(f);
    forall m <- order(f) ensures m in f {
      assert m in multiset(order(f));
    }
  }

  /** `m` is a filtered mark of one of the pages. */
  predicate FromSomePage(pages: seq<Page>, m: LocatedMark) {
    exists p :: 0 <= p < |pages| && m in Filtered(PageRawMarks(pages[p]))
  }

  /** Every mark in the document's rows is a filtered mark of some page. */
  lemma {:induction false} DocRowsFromFiltered(order: PageOrder, pages: seq<Page>)
    requires Rearranges(order)
    ensures forall k, t :: 0 <= k < |DocRows(order, pages)| && 0 <= t < |DocRows(order, pages)[k]| ==>
              FromSomePage(pages, DocRows(order, pages)[k][t])
  {
    if pages != [] {
      var n := |pages| - 1;
      var init := pages[..n];
      var a, b := DocRows(order, init), PageRows(order, pages[n]);
      DocRowsFromFiltered(order, init);
      PageRowsFromFiltered(order, pages[n]);
      forall m | FromSomePage(init, m) ensures FromSomePage(pages, m) {
        var p :| 0 <= p < |init| && m in Filtered(PageRawMarks(init[p]));
        assert init[p] == pages[p];
      }
      forall m | m in Filtered(PageRawMarks(pages[n])) ensures FromSomePage(pages, m) {
        assert n < |pages|;
      }
      DocRowsStep(order, pages, n);
      assert pages[..n + 1] == pages;
      EveryInConcat(a, b, DocRows(order, pages), m => FromSomePage(pages, m));
    }
  }

  /** Each mark in a row came from an admitted detector mark of some page,
      kept with its polygon and confidence, so it is well formed. */
  lemma DocMarksAdmitted(order: PageOrder, pages: seq<Page>, k: nat, t: nat)
    requires Rearranges(order)
    requires k < |DocRows(order, pages)| && t < |DocRows(order, pages)[k]|
    ensures WellFormed(DocRows(order, pages)[k][t])
    ensures exists p, m :: 0 <= p < |pages| && m in PageRawMarks(pages[p]) && Admit(m)
              && DocRows(order, pages)[k][t].polygon == m.polygon.value
              && DocRows(order, pages)[k][t].confidence == m.confidence.value
  {
    DocRowsFromFiltered(order, pages);
    assert FromSomePage(pages, DocRows(order, pages)[k][t]);
    var p :| 0 <= p < |pages| && DocRows(order, pages)[k][t] in Filtered(PageRawMarks(pages[p]));
    FilteredAdmission(PageRawMarks(pages[p]));
  }

  /** What the item built for `row` under number `n` says: the id `P<n>`,
      `true_false` exactly for two marks and `multiple_choice` otherwise
      (never `pairing` or `unknown`), the row's letter, an empty `raw`, the
      smallest confidence in the row, and the box of the row sorted by x
      (whose coordinates `BoxExtent` and `RowBox` state). */
  predicate DescribesRow(v: Revision, item: Item, row: Row, n: nat) {
    && item.id == ItemId(n)
    && (item.kind == TrueFalse <==> |row| == 2)
    && (item.kind == MultipleChoice <==> |row| != 2)
    && item.value == Letter(v, |row|)
    && item.raw == ""
    && item.confidence == MinConfidence(row)
    && |SortByX(row)| == |row|
    && item.bbox == BoxOf(v, SortByX(row))
  }

  /** Item `k` of numbered rows describes row `k` under number `k + 1`. */
  lemma NumberedItemAt(v: Revision, rows: seq<Row>, k: nat)
    requires k < |rows|
    ensures DescribesRow(v, Numbered(ItemOfRow(v), rows, 1)[k], rows[k], k + 1)
  {
    NumberedAt(ItemOfRow(v), rows, 1, k);
    RowItem(v, rows[k], k + 1);
  }

  /** Item `k` of the document describes row `k` of the document. */
  lemma DocItemAt(v: Revision, order: PageOrder, pages: seq<Page>, k: nat)
    requires k < |DocRows(order, pages)|
    ensures |DocItems(v, order, pages)| == |DocRows(order, pages)|
    ensures DescribesRow(v, DocItems(v, order, pages)[k], DocRows(order, pages)[k], k + 1)
  {
    NumberedItemAt(v, DocRows(order, pages), k);
  }

  /** Ids run P1, P2, ... over the whole document, so no two items share one. */
  lemma DocItemIds(v: Revision, order: PageOrder, pages: seq<Page>)
    ensures forall k :: 0 <= k < |DocItems(v, order, pages)| ==> DocItems(v, order, pages)[k].id == ItemId(k + 1)
    ensures forall j, k :: 0 <= j < k < |DocItems(v, order, pages)| ==>
              DocItems(v, order, pages)[j].id != DocItems(v, order, pages)[k].id
  {
    var items := DocItems(v, order, pages);
    forall k | 0 <= k < |items| ensures items[k].id == ItemId(k + 1) {
      DocItemAt(v, order, pages, k);
    }
    forall j, k | 0 <= j < k < |items| ensures items[j].id != items[k].id {
      ItemIdInjective(j + 1, k + 1);
    }
  }

  /** No item is less confident than the admission floor. */
  lemma DocItemConfidence(v: Revision, order: PageOrder, pages: seq<Page>)
    requires Rearranges(order)
    ensures forall item <- DocItems(v, order, pages) :: item.confidence >= ConfidenceFloor
  {
    var items := DocItems(v, order, pages);
    forall item <- items ensures item.confidence >= ConfidenceFloor {
      var k :| 0 <= k < |items| && items[k] == item;
      DocItemAt(v, order, pages, k);
      var row := DocRows(order, pages)[k];
      MinConfidenceIsMin(row);
      var t :| 0 <= t < |row| && MinConfidence(row) == row[t].confidence;
      DocMarksAdmitted(order, pages, k, t);
    }
  }

  /** The number of detector marks over all pages. */
  function RawCount(pages: seq<Page>): nat {
    if pages == [] then 0 else RawCount(pages[..|pages| - 1]) + |PageRawMarks(pages[|pages| - 1])|
  }

  /** There are never more items than detector marks. */
  lemma {:induction false} DocItemCount(v: Revision, order: PageOrder, pages: seq<Page>)
    requires Rearranges(order)
    ensures |DocItems(v, order, pages)| <= RawCount(pages)
  {
    if pages != [] {
      var init := pages[..|pages| - 1];
      DocItemCount(v, order, init);
      PageRowCount(order, pages[|pages| - 1]);
      assert DocRows(order, pages) == DocRows(order, init) + PageRows(order, pages[|pages| - 1]);
    }
  }

  /** `items.reduce((s, i) => s + i.confidence, 0)`. */
  function Sum(items: seq<Item>): real {
    if items == [] then 0.0 else Sum(items[..|items| - 1]) + items[|items| - 1].confidence
  }

  /** `confidenceAvg`: `n ? sum / n : 0` in the app revision,
      `sum / Math.max(1, n)` in the lib revision. Both are the mean, and 0
      for no items. */
  function Average(v: Revision, items: seq<Item>): (avg: real)
    ensures items == [] ==> avg == 0.0
    ensures items != [] ==> avg * (|items| as real) == Sum(items)
  {
    match v
    case AppRevision => if |items| > 0 then Sum(items) / (|items| as real) else 0.0
    case LibRevision => Sum(items) / (if 1 < |items| then |items| else 1) as real
  }

  /** Confidences of at least `lo` sum to at least `n * lo`. */
  lemma {:induction false} SumAtLeast(items: seq<Item>, lo: real)
    requires forall i :: 0 <= i < |items| ==> lo <= items[i].confidence
    ensures (|items| as real) * lo <= Sum(items)
  {
    if items != [] {
      var n := |items| - 1;
      SumAtLeast(items[..n], lo);
      assert Sum(items) == Sum(items[..n]) + items[n].confidence;
      assert (|items| as real) * lo == (n as real) * lo + lo;
    }
  }

  /** Confidences of at most `hi` sum to at most `n * hi`. */
  lemma {:induction false} SumAtMost(items: seq<Item>, hi: real)
    requires forall i :: 0 <= i < |items| ==> items[i].confidence <= hi
    ensures Sum(items) <= (|items| as real) * hi
  {
    if items != [] {
      var n := |items| - 1;
      SumAtMost(items[..n], hi);
      assert Sum(items) == Sum(items[..n]) + items[n].confidence;
      assert (|items| as real) * hi == (n as real) * hi + hi;
    }
  }

  /** Multiplying by a positive count can be undone on both sides of `<=`. */
  lemma CancelCount(a: real, b: real, n: real)
    requires n > 0.0 && a * n <= b * n
    ensures a <= b
  {
    assert a == (a * n) / n && b == (b * n) / n;
  }

  /** A value whose product with a positive count is a sum bounded by `n * lo`
      and `n * hi` lies between `lo` and `hi`. */
  lemma MeanBetween(avg: real, sum: real, n: real, lo: real, hi: real)
    requires n > 0.0 && avg * n == sum
    requires n * lo <= sum <= n * hi
    ensures lo <= avg <= hi
  {
    assert lo * n == n * lo && hi * n == n * hi;
    CancelCount(lo, avg, n);
    CancelCount(avg, hi, n);
  }

  /** The mean lies between any lower and any upper bound of the confidences. */
  lemma AverageBetween(v: Revision, items: seq<Item>, lo: real, hi: real)
    requires items != []
    requires forall item <- items :: lo <= item.confidence
    requires forall item <- items :: item.confidence <= hi
    ensures lo <= Average(v, items) <= hi
  {
    forall i | 0 <= i < |items| ensures lo <= items[i].confidence <= hi {
      assert items[i] in items;
    }
    SumAtLeast(items, lo);
    SumAtMost(items, hi);
    MeanBetween(Average(v, items), Sum(items), |items| as real, lo, hi);
  }

  /** With no upper bound given: the mean is at least any lower bound. */
  lemma AverageAtLeast(v: Revision, items: seq<Item>, lo: real)
    requires items != []
    requires forall item <- items :: lo <= item.confidence
    ensures lo <= Average(v, items)
  {
    forall i | 0 <= i < |items| ensures lo <= items[i].confidence {
      assert items[i] in items;
    }
    SumAtLeast(items, lo);
    var avg, sum, n := Average(v, items), Sum(items), |items| as real;
    assert avg * n == sum && n * lo <= sum;
    assert lo * n == n * lo;
    CancelCount(lo, avg, n);
  }

  /** The warning of a failed run: `Error OMR: ${message or "fallo"}` in the
      app revision, the message or "Error OMR" in the lib revision. */
  function FailureMessage(v: Revision, err: Thrown): string {
    match v
    case AppRevision => "Error OMR: " + (if err.ErrorObject? then err.message else "fallo")
    case LibRevision => if err.ErrorObject? then err.message else "Error OMR"
  }

  function FailureResult(v: Revision, err: Thrown): OMRResult {
    OMRResult(false, [], [FailureMessage(v, err)], 0.0)
  }

  /** `row.sort((a, b) => a.polygon[0].x - b.polygon[0].x)`, done on an array
      holding the row. */
  method SortedRow(row: seq<LocatedMark>) returns (sorted: seq<LocatedMark>)
    ensures sorted == SortByX(row)
  {
    var a := new LocatedMark[|row|](i requires 0 <= i < |row| => row[i]);
    assert a[..] == row;
    SortRowByX(a);
    sorted := a[..];
  }

  /** The body of the row loop: the row sorted by x becomes item `index`. */
  method RowToItem(v: Revision, row: Row, index: nat) returns (item: Item)
    ensures item == ItemOfRow(v)(row, index)
  {
    var sorted := SortedRow(row);
    item := MakeItem(v, sorted, index);
  }

  /** The row loop of one page: its rows become the items numbered `index`
      onwards, the counter moving on with each. */
  method PushRows(v: Revision, rows: seq<Row>, items0: seq<Item>, index0: nat)
      returns (items: seq<Item>, index: nat)
    ensures items == items0 + Numbered(ItemOfRow(v), rows, index0) && index == index0 + |rows|
  {
    items, index := items0, index0;
    for r := 0 to |rows|
      invariant items == items0 + Numbered(ItemOfRow(v), rows[..r], index0)
      invariant index == index0 + r
    {
      var item := RowToItem(v, rows[r], index);
      NumberedPush(ItemOfRow(v), rows, index0, r, items0, items, item);
      items := items + [item];
      index := index + 1;
    }
    assert rows[..|rows|] == rows;
  }

  /** One more page appends that page's rows. */
  lemma DocRowsStep(order: PageOrder, pages: seq<Page>, p: nat)
    requires p < |pages|
    ensures DocRows(order, pages[..p + 1]) == DocRows(order, pages[..p]) + PageRows(order, pages[p])
  {
    assert pages[..p + 1][..p] == pages[..p];
  }

  /** The page loop: `itemIndex` starts at 1 once and counts on across pages.
      Each page's marks are filtered, normalised and put in the engine's order
      before they are grouped into rows. */
  method BuildItems(v: Revision, order: PageOrder, pages: seq<Page>) returns (items: seq<Item>)
    ensures items == DocItems(v, order, pages)
  {
    items := [];
    var index: nat := 1;
    for p := 0 to |pages|
      invariant items == DocItems(v, order, pages[..p])
      invariant index == |items| + 1
    {
      var marks := order(Filtered(PageRawMarks(pages[p])));
      var rows: seq<Row> := GroupRows(marks);
      ghost var before := items;
      items, index := PushRows(v, rows, items, index);
      DocRowsStep(order, pages, p);
      NumberedExtend(ItemOfRow(v), DocRows(order, pages[..p]), rows, DocRows(order, pages[..p + 1]), 1, before, items);
    }
    assert pages[..|pages|] == pages;
  }

  /** `processOMR` from the moment the analysis call has returned or thrown. */
  method ProcessOMR(v: Revision, order: PageOrder, analysis: Analysis) returns (res: OMRResult)
    ensures analysis.Threw? ==> !res.success && res.items == [] && res.confidenceAvg == 0.0
    ensures analysis.Threw? ==> res.warnings == [FailureMessage(v, analysis.error)]
    ensures analysis.Analyzed? ==> res.success && res.warnings == []
    ensures analysis.Analyzed? ==> res.items == DocItems(v, order, analysis.pages.GetOr([]))
    ensures analysis.Analyzed? ==> res.confidenceAvg == Average(v, res.items)
  {
    match analysis
    case Threw(err) =>
      res := FailureResult(v, err);
    case Analyzed(pages) =>
      var items := BuildItems(v, order, pages.GetOr([]));
      res := OMRResult(true, items, [], Average(v, items));
  }

  /** A successful run that found items reports a mean confidence no lower
      than the admission floor, whatever order the engine gave each page. */
  lemma SuccessConfidence(v: Revision, order: PageOrder, pages: seq<Page>)
    requires Rearranges(order)
    requires DocItems(v, order, pages) != []
    ensures Average(v, DocItems(v, order, pages)) >= ConfidenceFloor
  {
    DocItemConfidence(v, order, pages);
    AverageAtLeast(v, DocItems(v, order, pages), ConfidenceFloor);
  }
}
