/**
 `itertools.combinations(s, 2)`: every pair `(s[i], s[j])` with `i < j`, in
 lexicographic order of positions. Applied to a strictly sorted sequence of
 labels it yields each canonical pair `(a, b)` with `a < b` exactly once.
 */
module Combinations {
  import opened StringOrder

  type Pair = (string, string)

  /** The pairs `(x, y)` for each `y` of `rest`, in order. */
  function PairsWith(x: string, rest: seq<string>): seq<Pair>
  {
    seq(|rest|, i requires 0 <= i < |rest| => (x, rest[i]))
  }

  /** `combinations(s, 2)`. */
  function Pairs(s: seq<string>): (r: seq<Pair>)
    ensures |r| == |s| * (|s| - 1) / 2
    ensures forall p :: p in r ==> p.0 in s && p.1 in s
    decreases |s|
  {
    if |s| == 0 then []
    else
      var n := |s|;
      assert (n - 1) * (n - 2) + 2 * (n - 1) == n * (n - 1);
      PairsWith(s[0], s[1..]) + Pairs(s[1..])
  }

  /** With no repeats in `rest`, each `(x, y)` with `y` in `rest` appears once. */
  lemma {:induction false} PairsWithOccurrences(x: string, rest: seq<string>, p: Pair)
    requires StrictlySorted(rest)
    ensures multiset(PairsWith(x, rest))[p] == if p.0 == x && p.1 in rest then 1 else 0
    decreases |rest|
  {
    if |rest| > 0 {
      var tail := rest[1..];
      assert PairsWith(x, rest) == [(x, rest[0])] + PairsWith(x, tail);
      assert StrictlySorted(tail);
      PairsWithOccurrences(x, tail, p);
      if p == (x, rest[0]) && p.1 in tail {
        var j :| 0 <= j < |tail| && tail[j] == rest[0];
        assert Less(rest[0], rest[j + 1]);
        LessIrreflexive(rest[0]);
      }
    }
  }

  /**
   The pairs drawn from a strictly sorted sequence are exactly the ordered
   pairs `a < b` of its elements, each exactly once.
   */
  lemma {:induction false} PairsOccurrences(s: seq<string>, p: Pair)
    requires StrictlySorted(s)
    ensures multiset(Pairs(s))[p] == if p.0 in s && p.1 in s && Less(p.0, p.1) then 1 else 0
    decreases |s|
  {
    if |s| > 0 {
      var x, rest := s[0], s[1..];
      assert StrictlySorted(rest);
      assert Pairs(s) == PairsWith(x, rest) + Pairs(rest);
      PairsWithOccurrences(x, rest, p);
      PairsOccurrences(rest, p);
      assert forall y :: y in s <==> y == x || y in rest;
      if p.0 == x {
        if p.1 in rest {
          var j :| 0 <= j < |rest| && rest[j] == p.1;
          assert Less(s[0], s[j + 1]);
        }
        if x in rest {
          var j :| 0 <= j < |rest| && rest[j] == x;
          assert Less(s[0], s[j + 1]);
          LessIrreflexive(x);
        }
        LessIrreflexive(x);
      } else if p.1 == x && p.0 in rest && Less(p.0, p.1) {
        var j :| 0 <= j < |rest| && rest[j] == p.0;
        assert Less(s[0], s[j + 1]);
        LessAsymmetric(p.0, p.1);
      }
    }
  }
}
