# Genre co-occurrence network, modelled in Dafny

This project models the genre co-occurrence graph builder of the AnimeLens
dashboard, `build_genre_network` on the "Genre Co-occurrence Network" page.
The input is one genre list per anime, in catalog order, and an integer
threshold. The builder makes one pass over the lists and fills two
`collections.Counter`s:

- a **genre counter**, which counts every raw occurrence of a genre;
- a **pair counter**, which counts every unordered pair of distinct genres
  once per anime. Each pair is keyed by its canonical form `(a, b)` with
  `a < b`, produced by `combinations(sorted(set(genres)), 2)`.

It then builds a `networkx` graph. The graph has one node per counted genre,
with `size` equal to that genre's count. It has one edge per counted pair
whose count is at least the threshold, with `value` equal to that count.

Files and modules:

- `string_order.dfy` (`StringOrder`): Python's `<` on `str`, which is
  lexicographic code-point order. It is proved to be a strict total order.
  `sorted(set(xs))` is modelled as insertion into a strictly increasing
  sequence. A uniqueness lemma shows that any correct sort gives the same
  sequence.
- `counter.dfy` (`Counter`): a `Counter` as `map<K, nat>`, reading a missing
  key as 0. `Counter.update` with a list is a left fold. `Total` is the sum
  of all counts.
- `combinations.dfy` (`Combinations`): `itertools.combinations(s, 2)`.
- `seq_sum.dfy` (`SeqSum`): sums of a per-anime quantity over the catalog.
  Such a sum does not depend on the catalog's order.
- `genre_network.dfy` (`GenreNetwork`): the loop, the graph, and the
  reference definitions. `Occurrences`, `AllGenres` and `ItemsWithBoth`
  say what the counts mean without mentioning counters. The lemmas tie the
  builder to these definitions. `ScanItem` is one iteration of the loop body
  (lines 23-26), `Scan` is the loop over the catalog (lines 19-26), and
  `ToGraph` builds the nodes and the thresholded edges (lines 28-37).
- `scenarios.dfy` (`Scenarios`): worked catalogs derived from the general
  lemmas.

**Raw counts, not per-anime counts.** A natural reading is that a genre's
size counts each anime at most once. The code does not do this: line 23 calls
`genre_counter.update(genres)` on the raw list, so
`["Action", "Action", "Comedy"]` adds 2 to Action's size but only 1 to the
`(Action, Comedy)` pair. The model follows the code:

- `Occurrences` counts raw occurrences.
- `RepeatedGenreCountedRaw` shows the example above.
- `SizesAddUp` shows that the sizes sum to the total raw list length. This
  equals the number of distinct genres summed over the anime when no list
  repeats a genre, and exceeds it whenever some list does.

The guard on line 24 tests the raw length, `len(genres) > 1`. The model
keeps that guard. `FewDistinctKeepsPairs` and `ScanItemPairs` show what it
amounts to: pairs come only from anime with at least two distinct genres.

The threshold is any integer. A pair is a key of the pair counter only after
some anime has counted it. So at a threshold of 0 or below, the edges are
exactly the co-occurring pairs, never pairs with a count of 0.

## Model

| member | source | states |
|---|---|---|
| GenreNetwork.BuildGenreNetwork | AnimeDashboard/pages/7_genre_cooccurence_network.py:18-37 | The nodes are exactly the genres in some list, and each size is that genre's raw occurrence count. `(a, b)` is an edge iff `a < b`, some anime has both, and the number of anime having both is at least the threshold. An edge's value is that number. |
| GenreNetwork.ScanItemGenres | AnimeDashboard/pages/7_genre_cooccurence_network.py:23 | One anime adds each raw occurrence of a genre to the genre counter, duplicates included, and no zero count is stored. |
| GenreNetwork.ScanItemPairs | AnimeDashboard/pages/7_genre_cooccurence_network.py:24-26 | One anime adds exactly 1 to each canonical pair of distinct genres it holds, however often they repeat. No other pair count changes. |
| GenreNetwork.FewDistinctKeepsPairs | AnimeDashboard/pages/7_genre_cooccurence_network.py:24-26 | An anime with fewer than two distinct genres leaves the pair counter unchanged. This covers an empty list, one genre, and one genre repeated, which passes the raw-length guard. |
| GenreNetwork.ScanCounts | AnimeDashboard/pages/7_genre_cooccurence_network.py:19-26 | After the loop, each genre's count is its number of raw occurrences. The count under `(a, b)` is the number of anime holding both when `a < b`, and 0 otherwise. Neither counter stores a zero. |
| GenreNetwork.OccurrencesPositive | AnimeDashboard/pages/7_genre_cooccurence_network.py:23 | A genre has a non-zero count iff it appears in some list. So the node set is exactly the set of genres that appear. |
| GenreNetwork.ItemsWithBothBounded | AnimeDashboard/pages/7_genre_cooccurence_network.py:23-26 | A pair is never counted more often than either of its genres. |
| GenreNetwork.ThresholdMonotone | AnimeDashboard/pages/7_genre_cooccurence_network.py:30-35 | The nodes do not depend on the threshold. Raising the threshold only removes edges; it never adds or reweights one. |
| GenreNetwork.EdgesCanonical | AnimeDashboard/pages/7_genre_cooccurence_network.py:25-35 | Every edge key `(a, b)` has `a < b`. So there is no self-loop, and `(a, b)` and `(b, a)` are never both edges. |
| GenreNetwork.EdgesWithinNodes | AnimeDashboard/pages/7_genre_cooccurence_network.py:30-35 | Both endpoints of every edge are already nodes, so adding edges creates no node. An edge's value is at most the size of each endpoint. |
| GenreNetwork.SizesAddUp | AnimeDashboard/pages/7_genre_cooccurence_network.py:22-31 | The node sizes sum to the total length of all genre lists, duplicates included. |
| GenreNetwork.OrderIrrelevant | AnimeDashboard/pages/7_genre_cooccurence_network.py:19-37 | Reordering the catalog leaves the graph unchanged: the same nodes, sizes, edges and values. |
| Scenarios.RepeatedGenreCountedRaw | AnimeDashboard/pages/7_genre_cooccurence_network.py:23-26 | For `["Action","Action","Comedy"]`, Action has size 2, Comedy has size 1, and the Action–Comedy edge has value 1. |
| Scenarios.ThresholdScenario | AnimeDashboard/pages/7_genre_cooccurence_network.py:28-35 | For two `["Action","Comedy"]` lists and one `["Action"]` list, the graph has nodes Action:3 and Comedy:2. At threshold 2 it has the single edge (Action, Comedy):2. At threshold 3 it has no edges. |
| Counter.Update | AnimeDashboard/pages/7_genre_cooccurence_network.py:23 | `Counter.update(ks)` raises each key's count by the number of times it occurs in `ks`. It adds exactly the keys of `ks`, and it keeps every stored count positive. |
| Counter.UpdateTotal | AnimeDashboard/pages/7_genre_cooccurence_network.py:23 | `update` with `n` elements raises the sum of all counts by exactly `n`. |
| Combinations.Pairs | AnimeDashboard/pages/7_genre_cooccurence_network.py:25 | `combinations(s, 2)` yields `n(n-1)/2` pairs, and both parts of every pair are elements of `s`. |
| Combinations.PairsOccurrences | AnimeDashboard/pages/7_genre_cooccurence_network.py:25 | On a strictly sorted list, each pair `(a, b)` with `a < b` of its elements occurs exactly once, and no other pair occurs. |
| StringOrder.SortedDistinct | AnimeDashboard/pages/7_genre_cooccurence_network.py:25 | `sorted(set(xs))` is strictly increasing and holds exactly the elements of `xs`. |
| StringOrder.SortedUnique | AnimeDashboard/pages/7_genre_cooccurence_network.py:25 | Two strictly increasing lists with the same elements are equal. So `SortedDistinct` agrees with Python's `sorted(set(xs))`. |
| StringOrder.InsertSorted | AnimeDashboard/pages/7_genre_cooccurence_network.py:25 | Inserting a genre into a strictly increasing list keeps it strictly increasing. |
| StringOrder.LessIrreflexive | AnimeDashboard/pages/7_genre_cooccurence_network.py:25 | No string sorts before itself. |
| StringOrder.LessAsymmetric | AnimeDashboard/pages/7_genre_cooccurence_network.py:25 | If `a < b` then not `b < a`. |
| StringOrder.LessTransitive | AnimeDashboard/pages/7_genre_cooccurence_network.py:25 | String order is transitive. |
| StringOrder.LessConnected | AnimeDashboard/pages/7_genre_cooccurence_network.py:25 | Any two different strings are ordered one way or the other. |
| SeqSum.SumPermutation | AnimeDashboard/pages/7_genre_cooccurence_network.py:22 | A per-anime sum over the catalog does not depend on the catalog's order. |

## Left out

- `load_data` (lines 10-15) is not modelled: it reads the CSV, uses Streamlit caching, fills missing genres with "Unknown" and splits on `", "`. The model takes its result, a sequence of genre lists, as input.
- `generate_pyvis_graph` (lines 40-53) is not modelled: it does floating-point visual scaling, builds tooltip strings, sets the pyvis layout and writes an HTML file.
- `main` (lines 56-72) is not modelled: it is the Streamlit page, the threshold slider (10 to 100, step 5) and the HTML embedding. The threshold is a parameter of the model and may be any integer; the default value 50 is not modelled.
- The non-list branch of line 24 is not modelled. If an entry were a bare string, `Counter.update` would count its characters. Entries are always lists here, and the types enforce this.
- The `networkx` graph object is modelled as two maps. Its undirected identification of `(a, b)` with `(b, a)` is not modelled. `EdgesCanonical` shows that it never matters. Node and edge insertion order is not modelled; it affects only the rendered layout.
- Strings are sequences of Dafny `char`, which are Unicode scalar values. A Python `str` can also hold lone surrogate code points (U+D800 to U+DFFF); such genre names are outside the model. Text decoded from a UTF-8 CSV cannot contain them.
- Determinism has no lemma. A Dafny function is a function of its arguments, so building twice from the same catalog and threshold gives the same graph by construction.
- The other dashboard pages and `Home.py` are not modelled. They are pandas, plotly and seaborn pipelines that use floating-point statistics, random sampling and a scikit-learn classifier. They have no logic of their own to model.
