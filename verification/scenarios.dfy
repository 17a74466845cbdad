/**
 Worked inputs for the network builder, derived from its general properties.

 Each lemma receives its literal catalog through a `requires` equality rather
 than a local `var`: with literal arguments in the contract, the verifier
 evaluates the recursive counters on the literal and runs out of resource.
 */
module Scenarios {
  import opened StringOrder
  import opened Combinations
  import opened GenreNetwork

  /**
   A list that repeats a genre: the repeat adds to the genre's size, but the
   pair of the two genres is counted once for the entry.
   */
  lemma RepeatedGenreCountedRaw(items: seq<Genres>, l: Genres)
    requires l == ["Action", "Action", "Comedy"] && items == [l]
    ensures "Action" in BuildGenreNetwork(items, 1).nodes && BuildGenreNetwork(items, 1).nodes["Action"] == 2
    ensures "Comedy" in BuildGenreNetwork(items, 1).nodes && BuildGenreNetwork(items, 1).nodes["Comedy"] == 1
    ensures ("Action", "Comedy") in BuildGenreNetwork(items, 1).edges
         && BuildGenreNetwork(items, 1).edges[("Action", "Comedy")] == 1
  {
    assert [l] == [] + [l];
    assert Occurrences(items, "Action") == 2 && Occurrences(items, "Comedy") == 1 by {
      AppendEntry([], l);
      assert multiset(l) == multiset{"Action", "Action", "Comedy"};
    }
    assert ItemsWithBoth(items, "Action", "Comedy") == 1 by {
      AppendEntry([], l);
    }
    assert "Action" in AllGenres(items) && "Comedy" in AllGenres(items) by {
      AppendEntry([], l);
    }
    assert Less("Action", "Comedy");
  }

  /**
   Two entries with both genres and one with only the first: the pair has
   count 2, so it is an edge at threshold 2 and absent at threshold 3, while
   both genres stay nodes.
   */
  lemma ThresholdScenario(items: seq<Genres>, ac: Genres, a: Genres)
    requires ac == ["Action", "Comedy"] && a == ["Action"] && items == [ac, ac, a]
    ensures BuildGenreNetwork(items, 2) == Graph(map["Action" := 3, "Comedy" := 2], map[("Action", "Comedy") := 2])
    ensures BuildGenreNetwork(items, 3) == Graph(map["Action" := 3, "Comedy" := 2], map[])
  {
    ScenarioCounts(items, ac, a);
    assert Less("Action", "Comedy");
    OnlyEdge(items, 2);
    OnlyEdge(items, 3);
    assert BuildGenreNetwork(items, 2).edges.Keys == {("Action", "Comedy")};
    assert BuildGenreNetwork(items, 3).edges.Keys == {};
  }

  /** The reference counts of the three-entry catalog. */
  lemma ScenarioCounts(items: seq<Genres>, ac: Genres, a: Genres)
    requires ac == ["Action", "Comedy"] && a == ["Action"] && items == [ac, ac, a]
    ensures Occurrences(items, "Action") == 3 && Occurrences(items, "Comedy") == 2
    ensures ItemsWithBoth(items, "Action", "Comedy") == 2
    ensures AllGenres(items) == {"Action", "Comedy"}
  {
    assert [ac] == [] + [ac] && [ac, ac] == [ac] + [ac] && items == [ac, ac] + [a];
    AppendEntry([], ac);
    AppendEntry([ac], ac);
    AppendEntry([ac, ac], a);
    assert multiset(ac) == multiset{"Action", "Comedy"};
    assert multiset(a) == multiset{"Action"};
  }

  /** With only two genres, the one canonical pair is the only possible edge. */
  lemma OnlyEdge(items: seq<Genres>, threshold: int)
    requires AllGenres(items) == {"Action", "Comedy"}
    ensures BuildGenreNetwork(items, threshold).nodes.Keys == {"Action", "Comedy"}
    ensures forall p :: p in BuildGenreNetwork(items, threshold).edges ==> p == ("Action", "Comedy")
  {
    var g := BuildGenreNetwork(items, threshold);
    forall p | p in g.edges ensures p == ("Action", "Comedy") {
      EdgesWithinNodes(items, threshold, p);
      EdgesCanonical(items, threshold, p);
    }
  }
}
