/** Facts about sequences shared by the sorting and grouping proofs. */
module SeqFacts {

  /** Splitting off the last element splits the multiset the same way. */
  lemma MultisetSnoc<T>(s: seq<T>)
    requires s != []
    ensures multiset(s) == multiset(s[..|s| - 1]) + multiset{s[|s| - 1]}
  {
    assert s == s[..|s| - 1] + [s[|s| - 1]];
  }

  /** `f` applied to each element together with its running number, the
      first element numbered `first`: a loop that pushes `f(x, counter++)`. */
  function Numbered<A, B>(f: (A, nat) -> B, s: seq<A>, first: nat): (r: seq<B>)
    ensures |r| == |s|
  {
    if s == [] then [] else Numbered(f, s[..|s| - 1], first) + [f(s[|s| - 1], first + |s| - 1)]
  }

  /** Numbering one more element of `s` appends `f` of it and its number. */
  lemma NumberedStep<A, B>(f: (A, nat) -> B, s: seq<A>, first: nat, r: nat)
    requires r < |s|
    ensures Numbered(f, s[..r + 1], first) == Numbered(f, s[..r], first) + [f(s[r], first + r)]
  {
    assert s[..r + 1][..r] == s[..r];
  }

  /** Element `k` is `f` of the `k`-th element and the number `first + k`. */
  lemma {:induction false} NumberedAt<A, B>(f: (A, nat) -> B, s: seq<A>, first: nat, k: nat)
    requires k < |s|
    ensures Numbered(f, s, first)[k] == f(s[k], first + k)
  {
    if k < |s| - 1 {
      NumberedAt(f, s[..|s| - 1], first, k);
    }
  }

  /** Numbering two runs one after the other numbers their concatenation. */
  lemma {:induction false} NumberedAppend<A, B>(f: (A, nat) -> B, a: seq<A>, b: seq<A>, first: nat)
    ensures Numbered(f, a + b, first) == Numbered(f, a, first) + Numbered(f, b, first + |a|)
    decreases |b|
  {
    if b == [] {
      assert a + b == a;
    } else {
      var init := b[..|b| - 1];
      NumberedAppend(f, a, init, first);
      assert (a + b)[..|a + b| - 1] == a + init;
    }
  }

  /** One turn of a loop that pushes `f(s[r], counter)` keeps the pushed
      items equal to the numbered prefix. */
  lemma NumberedPush<A, B>(f: (A, nat) -> B, s: seq<A>, first: nat, r: nat, done: seq<B>, items: seq<B>, item: B)
    requires r < |s|
    requires items == done + Numbered(f, s[..r], first) && item == f(s[r], first + r)
    ensures items + [item] == done + Numbered(f, s[..r + 1], first)
  {
    NumberedStep(f, s, first, r);
  }

  /** Items numbered from `first` for `a`, followed by items numbered on
      from there for `b`, are the items of `c`, when `c` is `a + b`. */
  lemma NumberedExtend<A, B>(f: (A, nat) -> B, a: seq<A>, b: seq<A>, c: seq<A>, first: nat, items0: seq<B>, items: seq<B>)
    requires c == a + b
    requires items0 == Numbered(f, a, first) && items == items0 + Numbered(f, b, first + |a|)
    ensures items == Numbered(f, c, first)
  {
    NumberedAppend(f, a, b, first);
  }

  /** A property of every element of every inner sequence of `a` and of `b`
      holds of every element of every inner sequence of `a + b`. */
  lemma EveryInConcat<T>(a: seq<seq<T>>, b: seq<seq<T>>, c: seq<seq<T>>, P: T -> bool)
    requires c == a + b
    requires forall k, t :: 0 <= k < |a| && 0 <= t < |a[k]| ==> P(a[k][t])
    requires forall k, t :: 0 <= k < |b| && 0 <= t < |b[k]| ==> P(b[k][t])
    ensures forall k, t :: 0 <= k < |c| && 0 <= t < |c[k]| ==> P(c[k][t])
  {
    forall k, t | 0 <= k < |c| && 0 <= t < |c[k]| ensures P(c[k][t]) {
      if k < |a| {
        assert c[k] == a[k];
      } else {
        assert c[k] == b[k - |a|];
      }
    }
  }
}
