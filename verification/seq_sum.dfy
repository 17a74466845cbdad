/**
 Sums of a per-item quantity over a sequence of items, and the fact that such
 a sum depends only on which items occur how often, not on their order.
 */
module SeqSum {

  /** `sum(f(x) for x in xs)`, accumulated front to back. */
  function Sum<T>(xs: seq<T>, f: T -> nat): nat
    decreases |xs|
  {
    if |xs| == 0 then 0 else Sum(xs[..|xs| - 1], f) + f(xs[|xs| - 1])
  }

  lemma {:induction false} SumConcat<T>(xs: seq<T>, ys: seq<T>, f: T -> nat)
    ensures Sum(xs + ys, f) == Sum(xs, f) + Sum(ys, f)
    decreases |ys|
  {
    if |ys| == 0 {
      assert xs + ys == xs;
    } else {
      var ys' := ys[..|ys| - 1];
      assert (xs + ys)[..|xs + ys| - 1] == xs + ys';
      SumConcat(xs, ys', f);
    }
  }

  /** Taking one item out of the sequence takes its value out of the sum. */
  lemma SumSplice<T>(a: seq<T>, x: T, b: seq<T>, f: T -> nat)
    ensures Sum(a + [x] + b, f) == Sum(a + b, f) + f(x)
  {
    var ax := a + [x];
    assert Sum(ax, f) == Sum(a, f) + f(x) by {
      assert ax[..|ax| - 1] == a;
    }
    SumConcat(ax, b, f);
    SumConcat(a, b, f);
  }

  /** Removing the last item of `xs` and a matching item of `ys` keeps them permutations. */
  lemma RemoveMatching<T>(xs: seq<T>, ys: seq<T>, i: nat)
    requires multiset(xs) == multiset(ys)
    requires 0 < |xs| && i < |ys| && ys[i] == xs[|xs| - 1]
    ensures multiset(xs[..|xs| - 1]) == multiset(ys[..i] + ys[i + 1..])
  {
    var x, front, ys' := ys[i], xs[..|xs| - 1], ys[..i] + ys[i + 1..];
    assert xs == front + [x];
    assert ys == ys[..i] + [x] + ys[i + 1..];
    assert multiset(xs) == multiset(front) + multiset{x};
    assert multiset(ys) == multiset(ys[..i]) + multiset{x} + multiset(ys[i + 1..]);
    assert multiset(ys') == multiset(ys[..i]) + multiset(ys[i + 1..]);
    forall y ensures multiset(front)[y] == multiset(ys')[y] {
      assert multiset(xs)[y] == multiset(ys)[y];
    }
  }

  /** Reordering the items leaves the sum unchanged. */
  lemma {:induction false} SumPermutation<T>(xs: seq<T>, ys: seq<T>, f: T -> nat)
    requires multiset(xs) == multiset(ys)
    ensures Sum(xs, f) == Sum(ys, f)
    decreases |xs|
  {
    if |xs| == 0 {
      assert |ys| == |multiset(ys)| == 0;
    } else {
      var x := xs[|xs| - 1];
      assert x in multiset(ys) by {
        assert x in multiset(xs);
      }
      var i :| 0 <= i < |ys| && ys[i] == x;
      RemoveMatching(xs, ys, i);
      SumPermutation(xs[..|xs| - 1], ys[..i] + ys[i + 1..], f);
      assert ys == ys[..i] + [x] + ys[i + 1..];
      SumSplice(ys[..i], x, ys[i + 1..], f);
    }
  }
}
