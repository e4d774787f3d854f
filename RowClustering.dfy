/** Stage 2: grouping a page's ordered marks into rows, first fit. */
module RowClustering {
  import opened Detector
  import opened MarkFilter

  /** A mark joins a row when its height is strictly closer than this to the
      height of the row's first mark. */
  const RowTolerance: real := 15.0

  predicate Near(head: LocatedMark, y: real)
  {
    Abs(RefY(head) - y) < RowTolerance
  }

  /** A row as the clusterer builds it: never empty. */
  type Row = r: seq<LocatedMark> | r != [] witness [Mark([Point(Some(0.0), Some(0.0))], 0.0, "selected")]

  /** Rows as the clusterer builds them: none is empty. */
  predicate NonEmptyRows(rows: seq<seq<LocatedMark>>) {
    forall i :: 0 <= i < |rows| ==> rows[i] != []
  }

  /** Every mark of a row is near the row's first mark. */
  predicate WithinTolerance(rows: seq<seq<LocatedMark>>)
    requires NonEmptyRows(rows)
  {
    forall i, t :: 0 <= i < |rows| && 0 <= t < |rows[i]| ==> Near(rows[i][0], RefY(rows[i][t]))
  }

  /** No mark of a row is near the first mark of an earlier row. */
  predicate FirstFit(rows: seq<seq<LocatedMark>>)
    requires NonEmptyRows(rows)
  {
    forall i, k, t :: 0 <= i < k < |rows| && 0 <= t < |rows[k]| ==> !Near(rows[i][0], RefY(rows[k][t]))
  }

  /** All marks of all rows, in row order. */
  function Flatten(rows: seq<seq<LocatedMark>>): seq<LocatedMark> {
    if rows == [] then [] else rows[0] + Flatten(rows[1..])
  }

  /** `rows.find(...)`: the index of the first row whose first mark is near `y`. */
  function FindRow(rows: seq<seq<LocatedMark>>, y: real): (k: Option<nat>)
    requires NonEmptyRows(rows)
    ensures k.Some? ==> k.value < |rows| && Near(rows[k.value][0], y)
    ensures k.Some? ==> forall j :: 0 <= j < k.value ==> !Near(rows[j][0], y)
    ensures k.None? ==> forall j :: 0 <= j < |rows| ==> !Near(rows[j][0], y)
  {
    if rows == [] then None
    else if Near(rows[0][0], y) then Some(0)
    else
      match FindRow(rows[1..], y)
      case None => None
      case Some(j) => Some(j + 1)
  }

  lemma {:induction false} FlattenConcat(a: seq<seq<LocatedMark>>, b: seq<seq<LocatedMark>>)
    ensures Flatten(a + b) == Flatten(a) + Flatten(b)
    decreases |a|
  {
    if a == [] {
      assert a + b == b;
    } else {
      assert (a + b)[0] == a[0] && (a + b)[1..] == a[1..] + b;
      FlattenConcat(a[1..], b);
    }
  }

  lemma FlattenUpdate(rows: seq<seq<LocatedMark>>, k: nat, x: seq<LocatedMark>)
    requires k < |rows|
    ensures multiset(Flatten(rows[k := x])) + multiset(rows[k]) == multiset(Flatten(rows)) + multiset(x)
  {
    var pre, suf := rows[..k], rows[k + 1..];
    assert rows == pre + ([rows[k]] + suf);
    assert rows[k := x] == pre + ([x] + suf);
    FlattenConcat(pre, [rows[k]] + suf);
    FlattenConcat(pre, [x] + suf);
    assert Flatten([rows[k]] + suf) == rows[k] + Flatten(suf);
    assert Flatten([x] + suf) == x + Flatten(suf);
  }

  lemma {:induction false} FlattenAppend(rows: seq<seq<LocatedMark>>, x: seq<LocatedMark>)
    ensures Flatten(rows + [x]) == Flatten(rows) + x
    decreases |rows|
  {
    if rows == [] {
      assert Flatten([x]) == x + Flatten([]);
    } else {
      assert (rows + [x])[1..] == rows[1..] + [x];
      FlattenAppend(rows[1..], x);
    }
  }

  /** One step of the loop: `row.push(mark)` onto the first near row, or `rows.push([mark])`. */
  function Place(rows: seq<seq<LocatedMark>>, m: LocatedMark): (r: seq<seq<LocatedMark>>)
    requires NonEmptyRows(rows)
    ensures NonEmptyRows(r)
    ensures |rows| <= |r| <= |rows| + 1
  {
    match FindRow(rows, RefY(m))
    case Some(k) => rows[k := rows[k] + [m]]
    case None => rows + [[m]]
  }

  /** The rows built from `marks` taken in the given order. */
  function Cluster(marks: seq<LocatedMark>): (rows: seq<seq<LocatedMark>>)
    ensures NonEmptyRows(rows)
    ensures |rows| <= |marks|
  {
    if marks == [] then []
    else Place(Cluster(marks[..|marks| - 1]), marks[|marks| - 1])
  }

  /** Placing a mark adds exactly that mark to the rows' contents. */
  lemma PlaceAddsMark(rows: seq<seq<LocatedMark>>, m: LocatedMark)
    requires NonEmptyRows(rows)
    ensures multiset(Flatten(Place(rows, m))) == multiset(Flatten(rows)) + multiset{m}
  {
    match FindRow(rows, RefY(m))
    case Some(k) =>
      var r := rows[k := rows[k] + [m]];
      assert Place(rows, m) == r;
      FlattenUpdate(rows, k, rows[k] + [m]);
      assert multiset(rows[k] + [m]) == multiset(rows[k]) + multiset{m};
      var lhs, rhs, row := multiset(Flatten(r)), multiset(Flatten(rows)) + multiset{m}, multiset(rows[k]);
      assert lhs + row == rhs + row;
      forall e ensures lhs[e] == rhs[e] {
        assert (lhs + row)[e] == lhs[e] + row[e] && (rhs + row)[e] == rhs[e] + row[e];
      }
      assert lhs == rhs;
    case None =>
      FlattenAppend(rows, [m]);
  }

  /** Placing a mark keeps the row invariants: each row within tolerance of its
      first mark, first fit in creation order, first marks unchanged. */
  lemma PlaceKeepsInvariants(rows: seq<seq<LocatedMark>>, m: LocatedMark)
    requires NonEmptyRows(rows)
    requires WithinTolerance(rows) && FirstFit(rows)
    ensures WithinTolerance(Place(rows, m)) && FirstFit(Place(rows, m))
    ensures forall i :: 0 <= i < |rows| ==> Place(rows, m)[i][0] == rows[i][0]
  {
    var r := Place(rows, m);
    match FindRow(rows, RefY(m))
    case Some(k) =>
      assert r == rows[k := rows[k] + [m]];
      forall i, t | 0 <= i < |r| && 0 <= t < |r[i]|
        ensures Near(r[i][0], RefY(r[i][t]))
      {
        if i == k && t == |rows[k]| {
          assert r[i][0] == rows[k][0] && r[i][t] == m;
        } else {
          assert r[i][0] == rows[i][0] && r[i][t] == rows[i][t];
        }
      }
      forall i, j, t | 0 <= i < j < |r| && 0 <= t < |r[j]|
        ensures !Near(r[i][0], RefY(r[j][t]))
      {
        assert r[i][0] == rows[i][0];
        if j == k && t == |rows[k]| {
          assert r[j][t] == m;
        } else {
          assert r[j][t] == rows[j][t];
        }
      }
    case None =>
      assert r == rows + [[m]];
      forall i, t | 0 <= i < |r| && 0 <= t < |r[i]|
        ensures Near(r[i][0], RefY(r[i][t]))
      {
        if i < |rows| {
          assert r[i] == rows[i];
        }
      }
      forall i, j, t | 0 <= i < j < |r| && 0 <= t < |r[j]|
        ensures !Near(r[i][0], RefY(r[j][t]))
      {
        assert r[i] == rows[i];
        if j < |rows| {
          assert r[j] == rows[j];
        }
      }
  }

  /** Clustering partitions the marks: concatenating the rows gives back the
      input, up to order. */
  lemma {:induction false} ClusterPartitions(marks: seq<LocatedMark>)
    ensures multiset(Flatten(Cluster(marks))) == multiset(marks)
    decreases |marks|
  {
    if marks != [] {
      var p := marks[..|marks| - 1];
      ClusterPartitions(p);
      PlaceAddsMark(Cluster(p), marks[|marks| - 1]);
      assert marks == p + [marks[|marks| - 1]];
    }
  }

  /** Every mark of every row is in the flattened rows. */
  lemma {:induction false} FlattenContains(rows: seq<seq<LocatedMark>>, k: nat, t: nat)
    requires k < |rows| && t < |rows[k]|
    ensures rows[k][t] in Flatten(rows)
  {
    if k > 0 {
      FlattenContains(rows[1..], k - 1, t);
      assert rows[1..][k - 1] == rows[k];
    } else {
      assert rows[0][t] in rows[0];
    }
  }

  /** Every mark placed in a row is one of the input marks, and every input
      mark is placed in some row. */
  lemma ClusterMembers(marks: seq<LocatedMark>)
    ensures forall k, t :: 0 <= k < |Cluster(marks)| && 0 <= t < |Cluster(marks)[k]| ==> Cluster(marks)[k][t] in marks
    ensures forall m <- marks :: m in Flatten(Cluster(marks))
  {
    var rows := Cluster(marks);
    ClusterPartitions(marks);
    forall k, t | 0 <= k < |rows| && 0 <= t < |rows[k]| ensures rows[k][t] in marks {
      FlattenContains(rows, k, t);
      assert rows[k][t] in multiset(Flatten(rows));
    }
    forall m <- marks ensures m in Flatten(rows) {
      assert m in multiset(marks);
    }
  }

  /** For any input order, each mark shares its row with a first mark less than
      the tolerance away, and lies at least the tolerance away from the first
      mark of every earlier row (so a row is only opened when none fits). */
  lemma {:induction false} ClusterInvariants(marks: seq<LocatedMark>)
    ensures WithinTolerance(Cluster(marks)) && FirstFit(Cluster(marks))
    decreases |marks|
  {
    if marks != [] {
      var p := marks[..|marks| - 1];
      ClusterInvariants(p);
      PlaceKeepsInvariants(Cluster(p), marks[|marks| - 1]);
    }
  }

  /** Within a row, any two marks are less than twice the tolerance apart in height. */
  lemma RowSpread(marks: seq<LocatedMark>, i: nat, s: nat, t: nat)
    requires i < |Cluster(marks)| && s < |Cluster(marks)[i]| && t < |Cluster(marks)[i]|
    ensures Abs(RefY(Cluster(marks)[i][s]) - RefY(Cluster(marks)[i][t])) < 2.0 * RowTolerance
  {
    ClusterInvariants(marks);
    var row := Cluster(marks)[i];
    assert Near(row[0], RefY(row[s])) && Near(row[0], RefY(row[t]));
  }

  /** Twice the tolerance is the right bound: two marks 28 apart in height end
      up in one row when a mark between them comes first. */
  lemma RowSpreadCanReachTolerance()
    ensures exists marks: seq<LocatedMark> :: |marks| == 3 &&
              |Cluster(marks)| == 1 && Abs(RefY(marks[1]) - RefY(marks[2])) >= RowTolerance &&
              marks[1] in Cluster(marks)[0] && marks[2] in Cluster(marks)[0]
  {
    var corner := Point(Some(0.0), Some(0.0));
    var a := Mark([Point(Some(0.0), Some(100.0)), corner, corner], 0.9, "selected");
    var b := Mark([Point(Some(1.0), Some(86.0)), corner, corner], 0.9, "selected");
    var c := Mark([Point(Some(2.0), Some(114.0)), corner, corner], 0.9, "selected");
    var marks := [a, b, c];
    assert marks[..2][..1] == [a] && marks[..2] == [a, b] && marks[..1] == [a];
    assert Cluster([a]) == [[a]];
    assert FindRow([[a]], RefY(b)) == Some(0);
    assert [a] + [b] == [a, b] && [[a]][0 := [a, b]] == [[a, b]];
    assert Place([[a]], b) == [[a, b]];
    assert Cluster([a, b]) == [[a, b]];
    assert FindRow([[a, b]], RefY(c)) == Some(0);
    assert [a, b] + [c] == [a, b, c] && [[a, b]][0 := [a, b, c]] == [[a, b, c]];
    assert Place([[a, b]], c) == [[a, b, c]];
    assert Cluster(marks) == [[a, b, c]];
  }

  /** `rows.find(...)` as a linear scan in row-creation order. */
  method FindFirstRow(rows: seq<seq<LocatedMark>>, y: real) returns (k: Option<nat>)
    requires NonEmptyRows(rows)
    ensures k == FindRow(rows, y)
  {
    var i := 0;
    while i < |rows|
      invariant 0 <= i <= |rows|
      invariant forall j :: 0 <= j < i ==> !Near(rows[j][0], y)
    {
      if Near(rows[i][0], y) {
        return Some(i);
      }
      i := i + 1;
    }
    return None;
  }

  /** The clustering loop over a page's marks. */
  method GroupRows(marks: seq<LocatedMark>) returns (rows: seq<seq<LocatedMark>>)
    ensures rows == Cluster(marks)
  {
    rows := [];
    var i := 0;
    while i < |marks|
      invariant 0 <= i <= |marks|
      invariant rows == Cluster(marks[..i])
    {
      var mark := marks[i];
      assert marks[..i + 1][..i] == marks[..i];
      var k := FindFirstRow(rows, RefY(mark));
      if k.Some? {
        rows := rows[k.value := rows[k.value] + [mark]];
      } else {
        rows := rows + [[mark]];
      }
      i := i + 1;
    }
    assert marks[..i] == marks;
  }
}
