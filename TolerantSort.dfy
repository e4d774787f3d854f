/** Stage 1, second half: the page's marks ordered top to bottom, with marks
    whose reference heights differ by less than the tie tolerance ordered left
    to right instead. */
module TolerantSort {
  import opened Detector
  import opened MarkFilter
  import opened SeqFacts

  /** Heights closer than this compare as equal. */
  const TieTolerance: real := 20.0

  /** The comparator handed to `.sort`: negative when `a` goes first. */
  function Cmp(a: LocatedMark, b: LocatedMark): real
  {
    if Abs(RefY(a) - RefY(b)) < TieTolerance then RefX(a) - RefX(b) else RefY(a) - RefY(b)
  }

  lemma CmpAntisymmetric(a: LocatedMark, b: LocatedMark)
    ensures Cmp(a, b) == -Cmp(b, a)
  {
    assert Abs(RefY(a) - RefY(b)) == Abs(RefY(b) - RefY(a));
  }

  /** The comparator is not a strict weak order: three marks can each precede
      the next in a cycle, so no order of them is sorted by it and the order
      an engine's sort returns is not determined by the comparator. */
  lemma CmpHasCycle()
    ensures exists a: LocatedMark, b: LocatedMark, c: LocatedMark ::
      Cmp(a, b) < 0.0 && Cmp(b, c) < 0.0 && Cmp(c, a) < 0.0
  {
    var corner := Point(Some(0.0), Some(0.0));
    var a := Mark([Point(Some(0.0), Some(0.0)), corner, corner], 0.9, "selected");
    var b := Mark([Point(Some(1.0), Some(-10.0)), corner, corner], 0.9, "selected");
    var c := Mark([Point(Some(2.0), Some(-20.0)), corner, corner], 0.9, "selected");
    assert Cmp(a, b) < 0.0 && Cmp(b, c) < 0.0 && Cmp(c, a) < 0.0;
  }

  /** Each mark is ordered before its right neighbour by the comparator: all a
      sort can promise of a comparator that is not transitive. */
  predicate LocallyOrdered(s: seq<LocatedMark>)
  {
    forall i :: 0 <= i < |s| - 1 ==> Cmp(s[i], s[i + 1]) <= 0.0
  }

  /** Inserts `m` into `t` from the right, past every mark the comparator puts after it. */
  function InsertTol(m: LocatedMark, t: seq<LocatedMark>): (r: seq<LocatedMark>)
    ensures |r| == |t| + 1
    ensures r[|r| - 1] == m || (t != [] && r[|r| - 1] == t[|t| - 1])
  {
    if t == [] || Cmp(t[|t| - 1], m) <= 0.0 then t + [m]
    else InsertTol(m, t[..|t| - 1]) + [t[|t| - 1]]
  }

  /** The page's `.sort(...)` with the tolerance comparator, as an insertion sort:
      one of the orders an engine may return. */
  function TolSort(s: seq<LocatedMark>): (r: seq<LocatedMark>)
    ensures |r| == |s|
  {
    if s == [] then [] else InsertTol(s[|s| - 1], TolSort(s[..|s| - 1]))
  }

  lemma {:induction false} InsertTolPermutes(m: LocatedMark, t: seq<LocatedMark>)
    ensures multiset(InsertTol(m, t)) == multiset(t) + multiset{m}
    decreases |t|
  {
    if t != [] && Cmp(t[|t| - 1], m) > 0.0 {
      InsertTolPermutes(m, t[..|t| - 1]);
      MultisetSnoc(t);
    }
  }

  /** The tolerance sort returns a permutation of the page's marks: nothing is
      added or lost. */
  lemma {:induction false} TolSortPermutes(s: seq<LocatedMark>)
    ensures multiset(TolSort(s)) == multiset(s)
    decreases |s|
  {
    if s != [] {
      var p, x := s[..|s| - 1], s[|s| - 1];
      assert TolSort(s) == InsertTol(x, TolSort(p));
      TolSortPermutes(p);
      InsertTolPermutes(x, TolSort(p));
      MultisetSnoc(s);
    }
  }

  lemma {:induction false} InsertTolOrdered(m: LocatedMark, t: seq<LocatedMark>)
    requires LocallyOrdered(t)
    ensures LocallyOrdered(InsertTol(m, t))
    decreases |t|
  {
    if t == [] || Cmp(t[|t| - 1], m) <= 0.0 {
      if t != [] {
        var r := InsertTol(m, t);
        assert r == t + [m];
        forall i | 0 <= i < |r| - 1 ensures Cmp(r[i], r[i + 1]) <= 0.0 {
          if i < |t| - 1 {
            assert r[i] == t[i] && r[i + 1] == t[i + 1];
          }
        }
      }
    } else {
      var p := t[..|t| - 1];
      var last := t[|t| - 1];
      assert LocallyOrdered(p) by {
        forall i | 0 <= i < |p| - 1 ensures Cmp(p[i], p[i + 1]) <= 0.0 {
          assert p[i] == t[i] && p[i + 1] == t[i + 1];
        }
      }
      InsertTolOrdered(m, p);
      var q := InsertTol(m, p);
      var r := q + [last];
      assert InsertTol(m, t) == r;
      CmpAntisymmetric(last, m);
      assert Cmp(q[|q| - 1], last) <= 0.0 by {
        if q[|q| - 1] != m {
          assert q[|q| - 1] == t[|t| - 2];
        }
      }
      forall i | 0 <= i < |r| - 1 ensures Cmp(r[i], r[i + 1]) <= 0.0 {
        if i < |q| - 1 {
          assert r[i] == q[i] && r[i + 1] == q[i + 1];
        }
      }
    }
  }

  /** The sorted page is locally ordered by the tolerance comparator. */
  lemma {:induction false} TolSortOrdered(s: seq<LocatedMark>)
    ensures LocallyOrdered(TolSort(s))
    decreases |s|
  {
    if s != [] {
      TolSortOrdered(s[..|s| - 1]);
      InsertTolOrdered(s[|s| - 1], TolSort(s[..|s| - 1]));
    }
  }

  /** What an engine's `.sort` with this comparator does to a page's marks.
      The comparator is not consistent, so the language leaves the order
      implementation-defined; all that is known is that the result is a
      rearrangement of the input. */
  type PageOrder = seq<LocatedMark> -> seq<LocatedMark>

  ghost predicate Rearranges(order: PageOrder) {
    forall s :: multiset(order(s)) == multiset(s)
  }

  /** The insertion sort above is one such order, so the assumption an
      engine's order is held to can be met. */
  lemma TolSortRearranges()
    ensures Rearranges(TolSort)
  {
    forall s ensures multiset(TolSort(s)) == multiset(s) {
      TolSortPermutes(s);
    }
  }
}
