/**
 Python's `collections.Counter`, restricted to what the network builder uses:
 reading a count (a missing key reads as zero) and `update` with an iterable,
 which adds one to a key for every time it is produced.
 */
module Counter {

  /** `c[k]` on a Counter: zero for a key that was never counted. */
  function Count<K>(c: map<K, nat>, k: K): nat
  {
    if k in c then c[k] else 0
  }

  /** Every stored key has been counted at least once. */
  ghost predicate Positive<K>(c: map<K, nat>)
  {
    forall k :: k in c ==> c[k] > 0
  }

  /** `c.update(ks)`: one increment per element of `ks`, in order. */
  function Update<K(!new)>(c: map<K, nat>, ks: seq<K>): (r: map<K, nat>)
    ensures forall k {:trigger Count(r, k)} :: Count(r, k) == Count(c, k) + multiset(ks)[k]
    ensures forall k {:trigger k in r} :: k in r <==> k in c || k in ks
    ensures Positive(c) ==> Positive(r)
    decreases |ks|
  {
    if |ks| == 0 then c
    else
      assert ks == [ks[0]] + ks[1..];
      Update(c[ks[0] := Count(c, ks[0]) + 1], ks[1..])
  }

  /** For a positive counter, a key is stored exactly when its count is non-zero. */
  lemma PositiveKeys<K>(c: map<K, nat>, k: K)
    requires Positive(c)
    ensures k in c <==> Count(c, k) > 0
  {
  }

  /** Two positive counters that agree on every count are the same map. */
  lemma PositiveExtensional<K>(c: map<K, nat>, d: map<K, nat>)
    requires Positive(c) && Positive(d)
    requires forall k :: Count(c, k) == Count(d, k)
    ensures c == d
  {
    forall k ensures k in c <==> k in d {
      PositiveKeys(c, k);
      PositiveKeys(d, k);
    }
    forall k | k in c ensures c[k] == d[k] {
      assert Count(c, k) == Count(d, k);
    }
  }

  /** Sum of the counts of `keys`. */
  ghost function SumOn<K>(c: map<K, nat>, keys: set<K>): nat
    decreases keys
  {
    if keys == {} then 0
    else
      var k :| k in keys;
      Count(c, k) + SumOn(c, keys - {k})
  }

  /** Sum of all counts, `sum(c.values())`. */
  ghost function Total<K>(c: map<K, nat>): nat
  {
    SumOn(c, c.Keys)
  }

  /** `SumOn` does not depend on which key it picks first. */
  lemma {:induction false} SumOnRemove<K>(c: map<K, nat>, keys: set<K>, k: K)
    requires k in keys
    ensures SumOn(c, keys) == Count(c, k) + SumOn(c, keys - {k})
    decreases keys
  {
    var k' :| k' in keys && SumOn(c, keys) == Count(c, k') + SumOn(c, keys - {k'});
    if k' != k {
      SumOnRemove(c, keys - {k'}, k);
      SumOnRemove(c, keys - {k}, k');
      assert keys - {k'} - {k} == keys - {k} - {k'};
    }
  }

  /** Counters that agree on `keys` have the same sum over `keys`. */
  lemma {:induction false} SumOnAgree<K>(c: map<K, nat>, d: map<K, nat>, keys: set<K>)
    requires forall k :: k in keys ==> Count(c, k) == Count(d, k)
    ensures SumOn(c, keys) == SumOn(d, keys)
    decreases keys
  {
    if keys != {} {
      var k :| k in keys;
      SumOnRemove(c, keys, k);
      SumOnRemove(d, keys, k);
      SumOnAgree(c, d, keys - {k});
    }
  }

  /** Adding one to a key adds one to the total. */
  lemma TotalIncrement<K>(c: map<K, nat>, k: K)
    ensures Total(c[k := Count(c, k) + 1]) == Total(c) + 1
  {
    var d := c[k := Count(c, k) + 1];
    SumOnRemove(d, d.Keys, k);
    if k in c {
      assert d.Keys == c.Keys;
      SumOnRemove(c, c.Keys, k);
      SumOnAgree(c, d, c.Keys - {k});
    } else {
      assert d.Keys - {k} == c.Keys;
      SumOnAgree(c, d, c.Keys);
    }
  }

  /** `update` with `n` elements raises the total by exactly `n`. */
  lemma {:induction false} UpdateTotal<K(!new)>(c: map<K, nat>, ks: seq<K>)
    ensures Total(Update(c, ks)) == Total(c) + |ks|
    decreases |ks|
  {
    if |ks| > 0 {
      var c' := c[ks[0] := Count(c, ks[0]) + 1];
      var rest := ks[1..];
      assert Update(c, ks) == Update(c', rest);
      assert Total(c') == Total(c) + 1 by {
        TotalIncrement(c, ks[0]);
      }
      assert Total(Update(c', rest)) == Total(c') + |rest| by {
        UpdateTotal(c', rest);
      }
    }
  }
}
