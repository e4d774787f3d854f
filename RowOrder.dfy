/** Stage 3, first step: each row reordered left to right by reference x,
    with the engine's stable sort and the comparator `a.x - b.x`. */
module RowOrder {
  import opened MarkFilter
  import opened SeqFacts

  predicate SortedByX(s: seq<LocatedMark>)
  {
    forall i, j :: 0 <= i < j < |s| ==> RefX(s[i]) <= RefX(s[j])
  }

  /** Inserts `m` after every mark of `t`, from the right, whose x is not greater. */
  function InsertX(m: LocatedMark, t: seq<LocatedMark>): (r: seq<LocatedMark>)
    ensures |r| == |t| + 1
  {
    if t == [] || RefX(t[|t| - 1]) <= RefX(m) then t + [m]
    else InsertX(m, t[..|t| - 1]) + [t[|t| - 1]]
  }

  /** The stable insertion sort by reference x that the in-place row sort computes. */
  function SortByX(s: seq<LocatedMark>): (r: seq<LocatedMark>)
    ensures |r| == |s|
  {
    if s == [] then [] else InsertX(s[|s| - 1], SortByX(s[..|s| - 1]))
  }

  lemma {:induction false} InsertXPermutes(m: LocatedMark, t: seq<LocatedMark>)
    ensures multiset(InsertX(m, t)) == multiset(t) + multiset{m}
    decreases |t|
  {
    if t != [] && RefX(t[|t| - 1]) > RefX(m) {
      InsertXPermutes(m, t[..|t| - 1]);
      MultisetSnoc(t);
    }
  }

  /** The row sort is a permutation of the row. */
  lemma {:induction false} SortByXPermutes(s: seq<LocatedMark>)
    ensures multiset(SortByX(s)) == multiset(s)
    decreases |s|
  {
    if s != [] {
      var p, x := s[..|s| - 1], s[|s| - 1];
      assert SortByX(s) == InsertX(x, SortByX(p));
      SortByXPermutes(p);
      InsertXPermutes(x, SortByX(p));
      MultisetSnoc(s);
    }
  }

  /** Inserting a mark keeps every mark at or left of a bound that the mark
      and the row already respect. */
  lemma {:induction false} InsertXBounded(m: LocatedMark, t: seq<LocatedMark>, b: real)
    requires RefX(m) <= b
    requires forall k :: 0 <= k < |t| ==> RefX(t[k]) <= b
    ensures forall i :: 0 <= i < |InsertX(m, t)| ==> RefX(InsertX(m, t)[i]) <= b
    decreases |t|
  {
    if t != [] && RefX(t[|t| - 1]) > RefX(m) {
      var p := t[..|t| - 1];
      InsertXBounded(m, p, b);
      assert InsertX(m, t) == InsertX(m, p) + [t[|t| - 1]];
    }
  }

  lemma {:induction false} InsertXSorted(m: LocatedMark, t: seq<LocatedMark>)
    requires SortedByX(t)
    ensures SortedByX(InsertX(m, t))
    decreases |t|
  {
    if t != [] && RefX(t[|t| - 1]) > RefX(m) {
      var p, last := t[..|t| - 1], t[|t| - 1];
      assert SortedByX(p) by {
        forall i, j | 0 <= i < j < |p| ensures RefX(p[i]) <= RefX(p[j]) {
          assert p[i] == t[i] && p[j] == t[j];
        }
      }
      InsertXSorted(m, p);
      forall k | 0 <= k < |p| ensures RefX(p[k]) <= RefX(last) {
        assert p[k] == t[k];
      }
      InsertXBounded(m, p, RefX(last));
      var q := InsertX(m, p);
      var r := q + [last];
      assert InsertX(m, t) == r;
      forall i, j | 0 <= i < j < |r| ensures RefX(r[i]) <= RefX(r[j]) {
        if j < |q| {
          assert r[i] == q[i] && r[j] == q[j];
        } else {
          assert r[i] == q[i];
        }
      }
    }
  }

  /** The row sort orders a row by non-decreasing reference x. */
  lemma {:induction false} SortByXSorted(s: seq<LocatedMark>)
    ensures SortedByX(SortByX(s))
    decreases |s|
  {
    if s != [] {
      SortByXSorted(s[..|s| - 1]);
      InsertXSorted(s[|s| - 1], SortByX(s[..|s| - 1]));
    }
  }

  /** The marks of `s` whose reference x is `x`, in their order in `s`. */
  function WithX(s: seq<LocatedMark>, x: real): (r: seq<LocatedMark>)
  {
    if s == [] then []
    else WithX(s[..|s| - 1], x) + (if RefX(s[|s| - 1]) == x then [s[|s| - 1]] else [])
  }

  lemma {:induction false} InsertXStable(m: LocatedMark, t: seq<LocatedMark>, x: real)
    ensures WithX(InsertX(m, t), x) == WithX(t, x) + (if RefX(m) == x then [m] else [])
    decreases |t|
  {
    var r := InsertX(m, t);
    if t == [] || RefX(t[|t| - 1]) <= RefX(m) {
      assert r[..|r| - 1] == t;
    } else {
      var p, last := t[..|t| - 1], t[|t| - 1];
      InsertXStable(m, p, x);
      var q := InsertX(m, p);
      assert r == q + [last] && r[..|r| - 1] == q;
      var mx := if RefX(m) == x then [m] else [];
      var lx := if RefX(last) == x then [last] else [];
      assert mx == [] || lx == [];
      calc {
        WithX(r, x);
        WithX(q, x) + lx;
        WithX(p, x) + mx + lx;
        WithX(p, x) + lx + mx;
        WithX(t, x) + mx;
      }
    }
  }

  /** The row sort is stable: marks with equal x keep their relative order. */
  lemma {:induction false} SortByXStable(s: seq<LocatedMark>, x: real)
    ensures WithX(SortByX(s), x) == WithX(s, x)
    decreases |s|
  {
    if s != [] {
      var p := s[..|s| - 1];
      SortByXStable(p, x);
      InsertXStable(s[|s| - 1], SortByX(p), x);
    }
  }

  /** Where `InsertX` puts the new mark: after the prefix `t[..j]`, when the
      marks from `j` on are all greater in x and the mark before `j` is not. */
  lemma {:induction false} InsertXAt(key: LocatedMark, t: seq<LocatedMark>, j: nat)
    requires j <= |t|
    requires j == 0 || RefX(t[j - 1]) <= RefX(key)
    requires forall k :: j <= k < |t| ==> RefX(t[k]) > RefX(key)
    ensures InsertX(key, t) == t[..j] + [key] + t[j..]
    decreases |t|
  {
    if |t| == j {
      assert t[..j] == t && t[j..] == [];
    } else {
      var n := |t|;
      var p := t[..n - 1];
      assert p[..j] == t[..j] && p[j..] == t[j..n - 1];
      assert j > 0 ==> p[j - 1] == t[j - 1];
      InsertXAt(key, p, j);
      assert t[j..] == t[j..n - 1] + [t[n - 1]];
    }
  }

  lemma SortByXPrefix(s: seq<LocatedMark>, i: nat)
    requires i < |s|
    ensures SortByX(s[..i + 1]) == InsertX(s[i], SortByX(s[..i]))
  {
    assert s[..i + 1][..i] == s[..i];
  }

  /** The inner loop of one insertion pass: the marks of `a[..i]` greater in x
      than `a[i]`, found from the right, each move one place right; `j` is the
      gap left for `a[i]`. */
  method ShiftGreater(a: array<LocatedMark>, i: nat) returns (j: nat)
    requires i < a.Length
    modifies a
    ensures j <= i
    ensures forall k :: 0 <= k < j ==> a[k] == old(a[k])
    ensures forall k :: j < k <= i ==> a[k] == old(a[k - 1])
    ensures forall k :: i < k < a.Length ==> a[k] == old(a[k])
    ensures forall k :: j <= k < i ==> RefX(old(a[k])) > RefX(old(a[i]))
    ensures j == 0 || RefX(old(a[j - 1])) <= RefX(old(a[i]))
  {
    var key := a[i];
    j := i;
    while j > 0 && RefX(a[j - 1]) > RefX(key)
      invariant 0 <= j <= i
      invariant forall k :: 0 <= k < j ==> a[k] == old(a[k])
      invariant forall k :: j < k <= i ==> a[k] == old(a[k - 1])
      invariant forall k :: i < k < a.Length ==> a[k] == old(a[k])
      invariant forall k :: j <= k < i ==> RefX(old(a[k])) > RefX(key)
    {
      a[j] := a[j - 1];
      j := j - 1;
    }
  }

  /** One pass of the in-place sort: `a[i]` moves left past the greater marks of
      the sorted prefix `a[..i]`. */
  method InsertAt(a: array<LocatedMark>, i: nat)
    requires i < a.Length
    modifies a
    ensures a[..i + 1] == InsertX(old(a[i]), old(a[..i]))
    ensures a[i + 1..] == old(a[i + 1..])
  {
    var key := a[i];
    ghost var t := a[..i];
    var j := ShiftGreater(a, i);
    InsertXAt(key, t, j);
    a[j] := key;
    ghost var r := t[..j] + [key] + t[j..];
    assert |r| == i + 1;
    forall k | 0 <= k <= i ensures a[k] == r[k] {
      if k < j {
        assert r[k] == t[k];
      } else if j < k {
        assert r[k] == t[k - 1];
      }
    }
    assert a[..i + 1] == r;
  }

  /** `row.sort((a, b) => a.polygon[0].x - b.polygon[0].x)`, in place. */
  method SortRowByX(a: array<LocatedMark>)
    modifies a
    ensures a[..] == SortByX(old(a[..]))
  {
    ghost var orig := a[..];
    var i := 0;
    while i < a.Length
      invariant 0 <= i <= a.Length
      invariant a[..i] == SortByX(orig[..i])
      invariant a[i..] == orig[i..]
    {
      assert a[i] == orig[i];
      SortByXPrefix(orig, i);
      ghost var pre := a[..];
      assert pre[i + 1..] == a[i..][1..] == orig[i..][1..] == orig[i + 1..];
      assert pre[..i] == a[..i];
      InsertAt(a, i);
      i := i + 1;
    }
    assert a[..] == a[..a.Length] && orig == orig[..a.Length];
  }
}
