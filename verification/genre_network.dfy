/**
 The genre co-occurrence graph builder of the anime dashboard's network page
 (`build_genre_network`).

 Input: one genre list per catalog entry, in catalog order, and an integer
 threshold. One pass over the lists fills two counters: a genre counter that
 counts every raw occurrence of a genre, and a pair counter that counts, once
 per entry, every unordered pair of distinct genres of that entry, keyed by the
 canonical pair `(a, b)` with `a < b`. The graph then has one node per counted
 genre, sized by its count, and one edge per counted pair whose count reaches
 the threshold, weighted by that count.

 The reference definitions `Occurrences`, `ItemsWithBoth` and `AllGenres`
 state what the counts mean without mentioning counters; the lemmas connect
 the builder to them.
 */
module GenreNetwork {
  import opened StringOrder
  import opened Counter
  import opened Combinations
  import opened SeqSum

  /** One catalog entry's genre list, as split from the CSV column. */
  type Genres = seq<string>

  /** The two counters the loop fills. */
  datatype Counters = Counters(genres: map<string, nat>, pairs: map<Pair, nat>)

  /** Nodes carry their `size`, edges their `value`; edge keys are canonical pairs. */
  datatype Graph = Graph(nodes: map<string, nat>, edges: map<Pair, nat>)

  // ---------------------------------------------------------------------------
  // What the counts mean

  /** Raw occurrences of `g` over all lists, repeats within one list included. */
  function Occurrences(items: seq<Genres>, g: string): nat
  {
    Sum(items, (genres: Genres) => multiset(genres)[g])
  }

  /** Number of entries whose list holds both `a` and `b`. */
  function ItemsWithBoth(items: seq<Genres>, a: string, b: string): nat
  {
    Sum(items, (genres: Genres) => if a in genres && b in genres then 1 else 0)
  }

  /** Every genre that appears in some list. */
  function AllGenres(items: seq<Genres>): set<string>
  {
    set i, g | 0 <= i < |items| && g in items[i] :: g
  }

  /** Total length of all lists. */
  function TotalLength(items: seq<Genres>): nat
  {
    Sum(items, (genres: Genres) => |genres|)
  }

  /** What one list contributes to the count of pair `p`. */
  function PairIncrement(genres: Genres, p: Pair): nat
  {
    if Less(p.0, p.1) && p.0 in genres && p.1 in genres then 1 else 0
  }

  // ---------------------------------------------------------------------------
  // The builder

  /** One iteration of the loop over the entries. */
  function ScanItem(c: Counters, genres: Genres): Counters
  {
    var counted := Update(c.genres, genres);
    if |genres| > 1 then
      Counters(counted, Update(c.pairs, Pairs(SortedDistinct(genres))))
    else
      Counters(counted, c.pairs)
  }

  /** The loop over the entries, from empty counters, in order. */
  function Scan(items: seq<Genres>): Counters
    decreases |items|
  {
    if |items| == 0 then Counters(map[], map[])
    else ScanItem(Scan(items[..|items| - 1]), items[|items| - 1])
  }

  /** Node and edge construction from the filled counters. */
  function ToGraph(c: Counters, threshold: int): Graph
  {
    Graph(c.genres, map p | p in c.pairs && c.pairs[p] >= threshold :: c.pairs[p])
  }

  /** `build_genre_network(df, threshold)`. */
  function BuildGenreNetwork(items: seq<Genres>, threshold: int): (g: Graph)
    ensures g.nodes.Keys == AllGenres(items)
    ensures forall x :: x in g.nodes ==> g.nodes[x] == Occurrences(items, x)
    ensures forall p :: p in g.edges <==>
      Less(p.0, p.1) && ItemsWithBoth(items, p.0, p.1) > 0 && ItemsWithBoth(items, p.0, p.1) >= threshold
    ensures forall p :: p in g.edges ==> g.edges[p] == ItemsWithBoth(items, p.0, p.1)
  {
    var c := Scan(items);
    ScanCounts(items);
    assert forall x :: x in c.genres <==> x in AllGenres(items) by {
      forall x ensures x in c.genres <==> x in AllGenres(items) {
        PositiveKeys(c.genres, x);
        OccurrencesPositive(items, x);
      }
    }
    assert forall p :: p in c.pairs <==> Count(c.pairs, p) > 0 by {
      forall p ensures p in c.pairs <==> Count(c.pairs, p) > 0 {
        PositiveKeys(c.pairs, p);
      }
    }
    ToGraph(c, threshold)
  }

  // ---------------------------------------------------------------------------
  // One entry

  /** One entry adds each raw occurrence of a genre to that genre's count. */
  lemma ScanItemGenres(c: Counters, genres: Genres)
    ensures forall x :: Count(ScanItem(c, genres).genres, x) == Count(c.genres, x) + multiset(genres)[x]
    ensures Positive(c.genres) ==> Positive(ScanItem(c, genres).genres)
  {
  }

  /**
   One entry adds exactly one to each canonical pair of distinct genres it
   holds, however often they repeat, and leaves every other pair count alone.
   */
  lemma ScanItemPairs(c: Counters, genres: Genres, p: Pair)
    ensures Count(ScanItem(c, genres).pairs, p) == Count(c.pairs, p) + PairIncrement(genres, p)
  {
    if |genres| > 1 {
      PairsOccurrences(SortedDistinct(genres), p);
    } else if p.0 in genres && p.1 in genres {
      LessIrreflexive(p.0);
    }
  }

  /**
   An entry with fewer than two distinct genres (empty, one genre, or one
   genre repeated) leaves the pair counter exactly as it was.
   */
  lemma FewDistinctKeepsPairs(c: Counters, genres: Genres)
    requires forall a, b :: a in genres && b in genres ==> a == b
    ensures ScanItem(c, genres).pairs == c.pairs
  {
    if |genres| > 1 {
      var s := SortedDistinct(genres);
      if |s| >= 2 {
        assert Less(s[0], s[1]);
        assert s[0] in genres && s[1] in genres;
        LessIrreflexive(s[0]);
      }
      assert Pairs(s) == [];
    }
  }

  // ---------------------------------------------------------------------------
  // The whole pass

  /**
   After the loop, the genre counter holds the raw occurrences of every genre
   and the pair counter holds, under each canonical key, the number of entries
   holding both genres; neither stores a zero.
   */
  lemma {:induction false} ScanCounts(items: seq<Genres>)
    ensures Positive(Scan(items).genres) && Positive(Scan(items).pairs)
    ensures forall x :: Count(Scan(items).genres, x) == Occurrences(items, x)
    ensures forall p :: Count(Scan(items).pairs, p) ==
                        (if Less(p.0, p.1) then ItemsWithBoth(items, p.0, p.1) else 0)
    decreases |items|
  {
    if |items| > 0 {
      var front, last := items[..|items| - 1], items[|items| - 1];
      ScanCounts(front);
      ScanItemGenres(Scan(front), last);
      forall p ensures Count(Scan(items).pairs, p) == Count(Scan(front).pairs, p) + PairIncrement(last, p) {
        ScanItemPairs(Scan(front), last, p);
      }
    }
  }

  /** Appending one entry adds exactly that entry's genres and counts. */
  lemma AppendEntry(items: seq<Genres>, genres: Genres)
    ensures AllGenres(items + [genres]) == AllGenres(items) + (set g | g in genres)
    ensures forall x :: Occurrences(items + [genres], x) == Occurrences(items, x) + multiset(genres)[x]
    ensures forall a, b :: ItemsWithBoth(items + [genres], a, b) ==
                           ItemsWithBoth(items, a, b) + (if a in genres && b in genres then 1 else 0)
  {
    var all := items + [genres];
    assert all[..|all| - 1] == items;
    forall g ensures g in AllGenres(all) <==> g in AllGenres(items) || g in genres {
      if g in genres {
        assert all[|items|] == genres;
      }
      if g in AllGenres(items) {
        var i :| 0 <= i < |items| && g in items[i];
        assert all[i] == items[i];
      }
    }
  }

  /** A genre has a non-zero count exactly when it appears in some list. */
  lemma {:induction false} OccurrencesPositive(items: seq<Genres>, x: string)
    ensures Occurrences(items, x) > 0 <==> x in AllGenres(items)
    decreases |items|
  {
    if |items| > 0 {
      var front, last := items[..|items| - 1], items[|items| - 1];
      OccurrencesPositive(front, x);
      assert items == front + [last];
      AppendEntry(front, last);
      assert multiset(last)[x] > 0 <==> x in last;
    }
  }

  /** No pair is counted more often than either of its genres. */
  lemma {:induction false} ItemsWithBothBounded(items: seq<Genres>, a: string, b: string)
    ensures ItemsWithBoth(items, a, b) <= Occurrences(items, a)
    ensures ItemsWithBoth(items, a, b) <= Occurrences(items, b)
    decreases |items|
  {
    if |items| > 0 {
      var last := items[|items| - 1];
      ItemsWithBothBounded(items[..|items| - 1], a, b);
      assert a in last ==> multiset(last)[a] > 0;
      assert b in last ==> multiset(last)[b] > 0;
    }
  }

  // ---------------------------------------------------------------------------
  // Properties of the graph

  /**
   Every genre counter entry becomes a node whatever the threshold, so raising
   the threshold keeps the nodes and only removes edges, never adds or
   reweights one.
   */
  lemma ThresholdMonotone(items: seq<Genres>, low: int, high: int)
    requires low <= high
    ensures BuildGenreNetwork(items, high).nodes == BuildGenreNetwork(items, low).nodes
    ensures forall p :: p in BuildGenreNetwork(items, high).edges ==>
      p in BuildGenreNetwork(items, low).edges
      && BuildGenreNetwork(items, high).edges[p] == BuildGenreNetwork(items, low).edges[p]
  {
  }

  /**
   Edge keys are canonical: the first genre sorts strictly before the second,
   so there are no self-loops and `(a, b)` and `(b, a)` are never both edges.
   */
  lemma EdgesCanonical(items: seq<Genres>, threshold: int, p: Pair)
    requires p in BuildGenreNetwork(items, threshold).edges
    ensures Less(p.0, p.1) && p.0 != p.1
    ensures (p.1, p.0) !in BuildGenreNetwork(items, threshold).edges
  {
    LessIrreflexive(p.0);
    LessAsymmetric(p.0, p.1);
  }

  /**
   Every edge joins two existing nodes, and its value is at most the size of
   each endpoint.
   */
  lemma EdgesWithinNodes(items: seq<Genres>, threshold: int, p: Pair)
    requires p in BuildGenreNetwork(items, threshold).edges
    ensures p.0 in BuildGenreNetwork(items, threshold).nodes
    ensures p.1 in BuildGenreNetwork(items, threshold).nodes
    ensures BuildGenreNetwork(items, threshold).edges[p] <= BuildGenreNetwork(items, threshold).nodes[p.0]
    ensures BuildGenreNetwork(items, threshold).edges[p] <= BuildGenreNetwork(items, threshold).nodes[p.1]
  {
    ItemsWithBothBounded(items, p.0, p.1);
    OccurrencesPositive(items, p.0);
    OccurrencesPositive(items, p.1);
  }

  /** The node sizes add up to the total length of all genre lists. */
  lemma {:induction false} SizesAddUp(items: seq<Genres>, threshold: int)
    ensures Total(BuildGenreNetwork(items, threshold).nodes) == TotalLength(items)
    decreases |items|
  {
    if |items| > 0 {
      var front, last := items[..|items| - 1], items[|items| - 1];
      SizesAddUp(front, threshold);
      UpdateTotal(Scan(front).genres, last);
    }
  }

  /** Reordering the entries changes neither the nodes nor the edges. */
  lemma OrderIrrelevant(items: seq<Genres>, reordered: seq<Genres>, threshold: int)
    requires multiset(items) == multiset(reordered)
    ensures BuildGenreNetwork(items, threshold) == BuildGenreNetwork(reordered, threshold)
  {
    var c, d := Scan(items), Scan(reordered);
    ScanCounts(items);
    ScanCounts(reordered);
    forall x ensures Count(c.genres, x) == Count(d.genres, x) {
      SumPermutation(items, reordered, (genres: Genres) => multiset(genres)[x]);
    }
    forall p ensures Count(c.pairs, p) == Count(d.pairs, p) {
      SumPermutation(items, reordered, (genres: Genres) => if p.0 in genres && p.1 in genres then 1 else 0);
    }
    PositiveExtensional(c.genres, d.genres);
    PositiveExtensional(c.pairs, d.pairs);
  }
}
