/** Stage 3: one answer item per row. The two revisions of the processor
    differ here in the letter alphabet and in the bounding-box corner. */
module ItemClassifier {
  import opened Detector
  import opened MarkFilter
  import opened RowOrder

  /** `AppRevision` is app/lib/omr/OmniOMRProcessor.ts, `LibRevision` is lib/omr/OmniOMRProcessor.ts. */
  datatype Revision = AppRevision | LibRevision

  datatype ItemType = MultipleChoice | TrueFalse | Pairing | Unknown

  /** `[x, y, width, height]`; a `None` width or height is a NaN. */
  datatype BBox = BBox(x: real, y: real, width: Option<real>, height: Option<real>)

  /** `OMRResultItem` as the processor fills it (it never sets `warnings`). */
  datatype Item = Item(id: string, kind: ItemType, value: string, raw: string, confidence: real, bbox: BBox)

  /** How many letters the revision's alphabet has. */
  function AlphabetSize(v: Revision): nat {
    if v == AppRevision then 7 else 6
  }

  /** The answer alphabet: "ABCDEFG" in the app revision, "ABCDEF" in the lib revision. */
  function Letters(v: Revision): (s: string)
    ensures |s| == AlphabetSize(v)
    ensures s[0] == 'A'
  {
    if v == AppRevision then "ABCDEFG" else "ABCDEF"
  }

  function Min(a: real, b: real): real {
    if a <= b then a else b
  }

  // ---- identifiers: `P${n}`

  function Digit(d: nat): char
    requires d < 10
  {
    (48 + d) as char
  }

  predicate IsDigit(c: char) {
    48 <= c as int <= 57
  }

  predicate AllDigits(s: string) {
    forall i :: 0 <= i < |s| ==> IsDigit(s[i])
  }

  /** The decimal numeral of `n`, as a template literal writes it. */
  function DecimalString(n: nat): (s: string)
    ensures |s| >= 1
  {
    if n < 10 then [Digit(n)] else DecimalString(n / 10) + [Digit(n % 10)]
  }

  /** The number a string of decimal digits denotes. */
  function DecimalValue(s: string): nat
    requires AllDigits(s)
  {
    if s == [] then 0
    else
      assert IsDigit(s[|s| - 1]);
      DecimalValue(s[..|s| - 1]) * 10 + (s[|s| - 1] as int - 48)
  }

  /** The numeral is made of digits and reads back as `n`. */
  lemma {:induction false} DecimalRoundTrip(n: nat)
    ensures AllDigits(DecimalString(n)) && DecimalValue(DecimalString(n)) == n
  {
    var s := DecimalString(n);
    if n >= 10 {
      DecimalRoundTrip(n / 10);
      assert s[..|s| - 1] == DecimalString(n / 10);
    } else {
      assert s[..|s| - 1] == [];
    }
  }

  const IdPrefix: string := "P"

  function ItemId(n: nat): string {
    IdPrefix + DecimalString(n)
  }

  /** Different counter values give different identifiers. */
  lemma ItemIdInjective(a: nat, b: nat)
    ensures ItemId(a) == ItemId(b) ==> a == b
  {
    if ItemId(a) == ItemId(b) {
      assert DecimalString(a) == ItemId(a)[1..] == ItemId(b)[1..] == DecimalString(b);
      DecimalRoundTrip(a);
      DecimalRoundTrip(b);
    }
  }

  // ---- classification

  /** The item type from the number of marks in the row. */
  function Classify(count: nat): (t: ItemType)
    ensures t == TrueFalse <==> count == 2
    ensures t == MultipleChoice <==> count != 2
  {
    if count == 2 then TrueFalse else MultipleChoice
  }

  /** `letters[Math.min(count - 1, letters.length - 1)]`: the count-th letter,
      saturating at the last one. */
  function Letter(v: Revision, count: nat): (s: string)
    requires count >= 1
    ensures |s| == 1
  {
    var last := AlphabetSize(v) - 1;
    [('A' as int + (if count - 1 <= last then count - 1 else last)) as char]
  }

  /** A row of `count` marks answers the `count`-th letter, or the alphabet's
      last letter when the row is longer than the alphabet; one mark is "A". */
  lemma LetterChoice(v: Revision, count: nat)
    requires count >= 1
    ensures Letter(v, count)[0] in Letters(v)
    ensures count == 1 ==> Letter(v, count) == "A"
    ensures count <= |Letters(v)| ==> Letter(v, count)[0] == Letters(v)[count - 1]
    ensures count >= |Letters(v)| ==> Letter(v, count)[0] == Letters(v)[|Letters(v)| - 1]
  {
    var i := if count - 1 <= AlphabetSize(v) - 1 then count - 1 else AlphabetSize(v) - 1;
    assert Letter(v, count)[0] == Letters(v)[i];
  }

  /** `Math.min(...row.map((m) => m.confidence))`. */
  function MinConfidence(row: seq<LocatedMark>): real
    requires row != []
  {
    if |row| == 1 then row[0].confidence else Min(row[0].confidence, MinConfidence(row[1..]))
  }

  /** The minimum is at most every confidence in the row and is one of them. */
  lemma {:induction false} MinConfidenceIsMin(row: seq<LocatedMark>)
    requires row != []
    ensures forall i :: 0 <= i < |row| ==> MinConfidence(row) <= row[i].confidence
    ensures exists i :: 0 <= i < |row| && MinConfidence(row) == row[i].confidence
  {
    if |row| > 1 {
      MinConfidenceIsMin(row[1..]);
      assert forall i :: 1 <= i < |row| ==> row[i] == row[1..][i - 1];
      var j :| 0 <= j < |row[1..]| && MinConfidence(row[1..]) == row[1..][j].confidence;
      assert row[1..][j] == row[j + 1];
      if row[0].confidence <= MinConfidence(row[1..]) {
        assert MinConfidence(row) == row[0].confidence;
      } else {
        assert MinConfidence(row) == row[j + 1].confidence;
      }
    } else {
      assert MinConfidence(row) == row[0].confidence;
    }
  }

  /** The minimum does not depend on the order of the marks. */
  lemma MinConfidenceOrderFree(a: seq<LocatedMark>, b: seq<LocatedMark>)
    requires a != [] && multiset(a) == multiset(b)
    ensures b != [] && MinConfidence(a) == MinConfidence(b)
  {
    assert |b| == |multiset(b)| == |multiset(a)| == |a|;
    MinConfidenceIsMin(a);
    MinConfidenceIsMin(b);
    var i :| 0 <= i < |a| && MinConfidence(a) == a[i].confidence;
    var j :| 0 <= j < |b| && MinConfidence(b) == b[j].confidence;
    assert a[i] in multiset(b);
    assert b[j] in multiset(a);
    var i' :| 0 <= i' < |b| && b[i'] == a[i];
    var j' :| 0 <= j' < |a| && a[j'] == b[j];
    assert MinConfidence(b) <= b[i'].confidence;
    assert MinConfidence(a) <= a[j'].confidence;
  }

  // ---- bounding box

  /** The polygon point that gives the far corner: `lastPoly[2] ?? lastPoly[lastPoly.length - 1]`
      in the app revision, the last point in the lib revision. */
  function Corner(v: Revision, poly: seq<Point>): Point
    requires poly != []
  {
    if v == AppRevision && |poly| > 2 then poly[2] else poly[|poly| - 1]
  }

  /** `(c ?? base) - base` in the app revision, `c - base` in the lib revision
      (NaN when `c` is undefined). */
  function Extent(v: Revision, c: Option<real>, base: real): Option<real> {
    match v
    case AppRevision => Some(c.GetOr(base) - base)
    case LibRevision => if c.Some? then Some(c.value - base) else None
  }

  function BoxOf(v: Revision, sorted: seq<LocatedMark>): BBox
    requires sorted != []
  {
    var first := sorted[0];
    var corner := Corner(v, sorted[|sorted| - 1].polygon);
    BBox(RefX(first), RefY(first), Extent(v, corner.x, RefX(first)), Extent(v, corner.y, RefY(first)))
  }

  /** The box spans from the reference point of the first mark to the far
      corner of the last one. In the app revision that corner is the third
      polygon point (the last point of a shorter polygon) and a missing
      coordinate falls back to the reference point, so width and height are
      never NaN; in the lib revision it is the last point, and a missing
      coordinate makes the width or height NaN. */
  lemma BoxExtent(v: Revision, sorted: seq<LocatedMark>)
    requires sorted != []
    ensures var x0, y0, p, box := RefX(sorted[0]), RefY(sorted[0]), sorted[|sorted| - 1].polygon, BoxOf(v, sorted);
      && box.x == x0 && box.y == y0
      && (v == AppRevision ==> box.width.Some? && box.height.Some?)
      && (v == AppRevision && |p| >= 3 ==>
            box.width.value == p[2].x.GetOr(x0) - x0 && box.height.value == p[2].y.GetOr(y0) - y0)
      && (v == AppRevision && |p| < 3 ==>
            box.width.value == p[|p| - 1].x.GetOr(x0) - x0 && box.height.value == p[|p| - 1].y.GetOr(y0) - y0)
      && (v == LibRevision ==> (box.width.Some? <==> p[|p| - 1].x.Some?) && (box.height.Some? <==> p[|p| - 1].y.Some?))
      && (v == LibRevision && box.width.Some? ==> box.width.value == p[|p| - 1].x.value - x0)
      && (v == LibRevision && box.height.Some? ==> box.height.value == p[|p| - 1].y.value - y0)
  {
  }

  /** The item for a row already in x order, numbered `n`. */
  function MakeItem(v: Revision, sorted: seq<LocatedMark>, n: nat): Item
    requires sorted != []
  {
    Item(ItemId(n), Classify(|sorted|), Letter(v, |sorted|), "", MinConfidence(sorted), BoxOf(v, sorted))
  }

  /** The item of a row: numbered `n`, `true_false` exactly for two marks,
      the row's letter, and the confidence of the row's weakest mark, whatever
      the row's order. */
  lemma RowItem(v: Revision, row: seq<LocatedMark>, n: nat)
    requires row != []
    ensures SortByX(row) != []
    ensures var item := MakeItem(v, SortByX(row), n);
      && item.id == ItemId(n)
      && (item.kind == TrueFalse <==> |row| == 2)
      && item.value == Letter(v, |row|)
      && item.confidence == MinConfidence(row)
  {
    SortByXPermutes(row);
    MinConfidenceOrderFree(SortByX(row), row);
  }

  /** The box of a row starts at the reference point of a mark with the least
      x and takes its far corner from a mark with the greatest x. */
  lemma RowBox(v: Revision, row: seq<LocatedMark>)
    requires row != []
    ensures SortByX(row) != []
    ensures var sorted := SortByX(row);
      && sorted[0] in row && sorted[|sorted| - 1] in row
      && BoxOf(v, sorted).x == RefX(sorted[0]) && BoxOf(v, sorted).y == RefY(sorted[0])
      && forall m <- row :: RefX(sorted[0]) <= RefX(m) <= RefX(sorted[|sorted| - 1])
  {
    var sorted := SortByX(row);
    SortByXPermutes(row);
    SortByXSorted(row);
    var first, last := sorted[0], sorted[|sorted| - 1];
    assert first in multiset(row) && last in multiset(row);
    forall m | m in row ensures RefX(first) <= RefX(m) <= RefX(last) {
      assert m in multiset(sorted);
      var k :| 0 <= k < |sorted| && sorted[k] == m;
    }
  }

  /** In the app revision the fallback to the last point never applies to a
      well-formed mark: the corner is its third polygon point. */
  lemma AppCornerIsThirdPoint(m: Mark)
    requires WellFormed(m)
    ensures Corner(AppRevision, m.polygon) == m.polygon[2]
  {
  }
}
