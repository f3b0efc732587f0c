# Multiple-boundary edit distance and boundary similarity, in Dafny

This project models the multiple-boundary edit distance of segeval (Algorithms 4.1–4.3 of Fournier 2013) and the boundary similarity (B) computed from it. Both are modelled as they appear in `src/segeval/similarity/distance/multipleboundary.py` and `segeval/similarity/Boundary.py`, and the model's properties are proved.

Two segmentations of one text are compared as *boundary strings*. A boundary string is one set of boundary types (labels) per potential boundary position. The distance explains every disagreement between two strings of equal length as one of three edits:
- **additions**: a label placed by only one string;
- **substitutions**: two different labels at the same position;
- **transpositions**: a label that sits one or more positions apart in the two strings.

The distance runs in four phases, and the model follows them module by module:

| module | file | models |
|---|---|---|
| `Edits` | `edits.dfy` | The four records `Addition`, `Substitution`, `Transposition` and `Difference`, and `optional_set_edits`. That function builds the table of differing positions, which the class `DifferenceTable` holds while the finder changes it in place. |
| `Substitutions` | `substitutions.dfy` | `additions_substitutions` and `additions_substitutions_sets`. The second is the brute-force search over all orderings of the two one-sided sets for the pairing of least summed distance. The first such pairing is kept, and the labels left unpaired become additions. |
| `Transpositions` | `transpositions.dfy` | `find_transpositions` with `__overlaps_existing__` and `__has_substitutions__`. Its three nested loops are methods, each proved equal to a fold over the scan state (list, claimed positions, table). |
| `TranspositionFacts`, `TranspositionResults` | `transposition_facts.dfy`, `transposition_results.dfy` | The invariant of that fold, and what it yields: soundness, order, no shared endpoints, the residual table, and conservation of differing labels. |
| `EditDistance` | `editdistance.dfy` | `boundary_edit_distance`: the three phases in sequence, with the accounting rule and two worked examples. |
| `BoundarySimilarity` | `boundarysimilarity.dfy` | `__boundary_similarity__` (edit counts, `pbs`, and the per-position counting loop) and `boundary_similarity` (the ratio with its fallback of 1). |
| `Enumeration` | `enumeration.dfy` | Python's iteration over a set, taken in ascending order, and `itertools.permutations` of a sorted list, in the order itertools produces them. |

Where the source changes state, the model does too. The difference table is an object whose `entries` map `discard` changes. `find_transpositions`, `optional_set_edits`, `additions_substitutions_sets`, `boundary_edit_distance` and the similarity's counting loop are methods with loops. Each method is proved equal to a specification function of its inputs, and the properties the source promises are proved about those functions.

The code does not check that the two strings have equal length: `zip` truncates (multipleboundary.py:204, Boundary.py:56) and `find_transpositions` indexes B with A's length (multipleboundary.py:145-152). The model makes equal length a precondition.

Boundary labels are natural numbers. The three weighting functions are parameters of the similarity (a `Weights` value of three functions returning `real`). Python's true division and `Decimal` arithmetic are modelled with Dafny's exact `real`.

## Model

| member | source | states |
|---|---|---|
| Edits.SetEdits | src/segeval/similarity/distance/multipleboundary.py:204-213 | Position p is a key exactly when A[p] and B[p] differ. Its record is (A[p] △ B[p], A[p] ∖ B[p], B[p] ∖ A[p]), and `sim` is the disjoint union of the other two. Identical strings give an empty table. |
| Edits.OptionalSetEdits | src/segeval/similarity/distance/multipleboundary.py:195-213 | The positional loop builds exactly that table. |
| Edits.Without | src/segeval/similarity/distance/multipleboundary.py:185-190 | Discarding d from a record removes d from all three sets and nothing else, and keeps the record well-formed. |
| Edits.DifferenceTable.constructor | src/segeval/similarity/distance/multipleboundary.py:243 | The table object starts out holding the given entries. |
| Edits.DifferenceTable.Discard | src/segeval/similarity/distance/multipleboundary.py:185-190 | Only the record at p changes, and it becomes that record less d. |
| Substitutions.AdditionsSubstitutions | src/segeval/similarity/distance/multipleboundary.py:41-43 | For disjoint a and b with d = a ∪ b: additions = abs(\|a\| − \|b\|) and substitutions = min(\|a\|, \|b\|). The substitution count is a real, because of true division, and additions + 2·substitutions = \|d\|. |
| Substitutions.DocumentedCounts | src/segeval/similarity/distance/multipleboundary.py:32-38 | The documented example gives (2, 1.0). |
| Substitutions.Zip | src/segeval/similarity/distance/multipleboundary.py:72 | Python's zip: it has as many pairs as the shorter input, and pair k takes element k of each. |
| Substitutions.SearchOrderings | src/segeval/similarity/distance/multipleboundary.py:68-78 | The nested search loop over orderings keeps what the scan of every pair of orderings keeps. A pairing replaces the current one only when strictly cheaper. |
| Substitutions.SearchIsFirstMinimal | src/segeval/similarity/distance/multipleboundary.py:70-78 | Over any non-empty lists of orderings, the search keeps the zip of the first pair of orderings, in enumeration order, whose cost is least. |
| Substitutions.BestPairingIsFirstMinimal | src/segeval/similarity/distance/multipleboundary.py:70-78 | The same for the orderings of sorted(a) and sorted(b). |
| Substitutions.BestPairingOrderings | src/segeval/similarity/distance/multipleboundary.py:70-73 | The chosen pairing zips one ordering of a with one ordering of b. |
| Substitutions.BestPairingShape | src/segeval/similarity/distance/multipleboundary.py:72-73 | The chosen pairing has exactly min(\|a\|, \|b\|) pairs. Each pair takes one label of a and one of b, and no label is used twice. |
| Substitutions.BestPairingOptimal | src/segeval/similarity/distance/multipleboundary.py:74-78 | No injective pairing of that size has a smaller summed distance Σ\|a_i − b_i\|. |
| Substitutions.CollectAdditions | src/segeval/similarity/distance/multipleboundary.py:79-91 | The substituted labels are exactly those of the pairs. The additions are the unpaired labels of a, tagged 'a', then those of b, tagged 'b'. |
| Substitutions.AdditionsSubstitutionsSets | src/segeval/similarity/distance/multipleboundary.py:46-93 | The result is the additions and the pairing of the specification. There are min(\|a\|, \|b\|) substitutions and \|d\| − 2·\|substitutions\| additions, which is the assertion on line 92. |
| Substitutions.PositionEditsCount | src/segeval/similarity/distance/multipleboundary.py:85-93 | Per position: \|additions\| + 2·\|substitutions\| = \|a ∪ b\|, and the additions number the labels no pair uses. |
| Substitutions.PositionEditsAdditions | src/segeval/similarity/distance/multipleboundary.py:86-91 | Addition(l, side) is listed exactly when l is on that side and no pair uses it. |
| Substitutions.UnpairedMembers | src/segeval/similarity/distance/multipleboundary.py:86-91 | Each unused label is listed with its side, and nothing else is listed. |
| Substitutions.UnpairedCount | src/segeval/similarity/distance/multipleboundary.py:85-92 | The listed additions number \|(a ∪ b) − used\|. |
| Substitutions.UsedLabels | src/segeval/similarity/distance/multipleboundary.py:79-84 | The pairs use min(\|a\|, \|b\|) labels of each side. |
| Substitutions.DocumentedPairing | src/segeval/similarity/distance/multipleboundary.py:59-65 | For a = {2, 3, 4} and b = {6}, the kept pairing is [(4, 6)]. |
| Substitutions.DocumentedPositionEdits | src/segeval/similarity/distance/multipleboundary.py:59-65 | The documented result: additions [(2, 'a'), (3, 'a')] and substitutions [(4, 6)]. |
| Substitutions.DocumentedUnpaired | src/segeval/similarity/distance/multipleboundary.py:86-91 | With 4 and 6 used, the unpaired labels are 2 and 3 from side 'a'. |
| Enumeration.SortedElements | src/segeval/similarity/distance/multipleboundary.py:70-71 | sorted(s): every element once, in strictly ascending order. |
| Enumeration.SortedElementsUnique | src/segeval/similarity/distance/multipleboundary.py:70-71 | Any strictly ascending listing of s is sorted(s). |
| Enumeration.PermutationsSound | src/segeval/similarity/distance/multipleboundary.py:70-71 | Every entry of permutations(s) is an ordering of s. |
| Enumeration.PermutationsComplete | src/segeval/similarity/distance/multipleboundary.py:70-71 | Every ordering of s is an entry of permutations(s). |
| Enumeration.PermutationsNonEmpty | src/segeval/similarity/distance/multipleboundary.py:70-71 | permutations yields at least one ordering, the empty one for an empty list. |
| Transpositions.Candidates | src/segeval/similarity/distance/multipleboundary.py:155-161 | d is in the four-way intersection exactly when it is in one string at i, in the other string at j, and absent from the other two sets. There are none when i = j. |
| Transpositions.Mentions | src/segeval/similarity/distance/multipleboundary.py:119-127 | check_position finds d exactly when a transposition recorded at that position has label d. |
| Transpositions.CheckPosition | src/segeval/similarity/distance/multipleboundary.py:119-127 | A position is flagged for d exactly when transpositions are recorded there and one of them has label d. |
| Transpositions.OverlapsExisting | src/segeval/similarity/distance/multipleboundary.py:112-128 | A candidate overlaps exactly when a transposition of the same label is recorded at i or at j. |
| TranspositionFacts.ClaimMapMentions | src/segeval/similarity/distance/multipleboundary.py:171-181 | In the record map built from the accepted transpositions, a position is flagged for d exactly when an accepted transposition of d starts or ends there. |
| Transpositions.HasSubstitutions | src/segeval/similarity/distance/multipleboundary.py:96-109 | True exactly when d is still in both `sim` sets and both positions still have labels on both sides, so each would count a substitution. False when either position has no record. |
| Transpositions.TryCandidate | src/segeval/similarity/distance/multipleboundary.py:164-190 | One candidate: accepted unless it overlaps or would remove two substitutions, then recorded at i and j and discarded at both. Keys are never removed. |
| Transpositions.TryPair | src/segeval/similarity/distance/multipleboundary.py:164-190 | The loop over the candidate labels of (i, j), in ascending order. |
| Transpositions.TrySpan | src/segeval/similarity/distance/multipleboundary.py:145-190 | The loop over start positions i, with j = i + n − 1 and i < \|A\| − n + 1. |
| Transpositions.FindTranspositions | src/segeval/similarity/distance/multipleboundary.py:131-192 | The spans are taken in ascending order. The returned list and the table left behind are those of the specification fold, and the table keeps its keys. |
| Transpositions.CandidatePositions | src/segeval/similarity/distance/multipleboundary.py:155-161 | Candidates occur only where both positions differ between the strings, so both are table keys. |
| TranspositionResults.FindAllSound | src/segeval/similarity/distance/multipleboundary.py:143-161 | Every transposition (i, j, d) has 0 ≤ i < j < \|A\| and a span j − i + 1 among those requested, and moves d between i and j. |
| TranspositionResults.FindAllNoSpans | src/segeval/similarity/distance/multipleboundary.py:143 | With no span to try, there are no transpositions and the table is unchanged. |
| TranspositionResults.FindAllOrdered | src/segeval/similarity/distance/multipleboundary.py:143-146 | The output is in ascending span, then ascending start position. |
| TranspositionResults.FindAllApart | src/segeval/similarity/distance/multipleboundary.py:112-128 | Two transpositions of the same label share no endpoint. |
| TranspositionResults.FindAllTable | src/segeval/similarity/distance/multipleboundary.py:174-190 | The final table has the original keys. At each position it holds the original record less exactly the labels of the transpositions ending there. |
| TranspositionResults.FreshAtEnds | src/segeval/similarity/distance/multipleboundary.py:161-190 | An accepted label was still recorded at both of its endpoints at the moment it was accepted. |
| TranspositionResults.FindAllKeepsSubstitutions | src/segeval/similarity/distance/multipleboundary.py:170-171 | No transposition was accepted while both of its positions would still have counted a substitution. |
| TranspositionResults.FindAllCount | src/segeval/similarity/distance/multipleboundary.py:185-190 | Each accepted transposition takes two labels out of the table: the table's total plus 2·\|transpositions\| is the original total. |
| EditDistance.Spans | src/segeval/similarity/distance/multipleboundary.py:241 | range(2, n_t + 1): exactly the spans 2 … n_t, and none when n_t < 2. |
| EditDistance.BoundaryEditDistance | src/segeval/similarity/distance/multipleboundary.py:217-256 | The three phases in sequence. The additions and substitutions are read off the residual table in ascending position order, and the result is the distance of the specification. |
| EditDistance.DistanceConservation | src/segeval/similarity/distance/multipleboundary.py:241-256 | \|additions\| + 2·\|substitutions\| + 2·\|transpositions\| = Σ_p \|A[p] △ B[p]\|: every differing label occurrence lands in exactly one edit. |
| EditDistance.DistanceEmpty | src/segeval/similarity/distance/multipleboundary.py:241-256 | The three lists are all empty exactly when the two strings are equal. |
| EditDistance.DistanceTranspositions | src/segeval/similarity/distance/multipleboundary.py:143-161 | Each transposition spans between 2 and n_t positions inside the strings and moves its label between its ends. |
| EditDistance.DistanceShortSpan | src/segeval/similarity/distance/multipleboundary.py:241-246 | With n_t < 2 there are no transpositions. |
| EditDistance.CollectTwo | src/segeval/similarity/distance/multipleboundary.py:251-254 | A two-position table yields the edits of position 0 followed by those of position 1. |
| EditDistance.ShiftedBoundary | src/segeval/similarity/distance/multipleboundary.py:143-192 | A = [{1}, {}] and B = [{}, {1}] give exactly one transposition (0, 1, 1) and no other edit. |
| EditDistance.SwappedBoundaries | src/segeval/similarity/distance/multipleboundary.py:103-108 | For A = [{1}, {2}] and B = [{2}, {1}], both transpositions are rejected, because each would remove two substitutions. The result is the substitutions (1, 2) and (2, 1). |
| EditDistance.SinglePair | src/segeval/similarity/distance/multipleboundary.py:68-93 | One label on each side forms one substitution and leaves no addition. |
| BoundarySimilarity.Largest | segeval/similarity/Boundary.py:48 | max(boundary_types): a member that no member exceeds. |
| BoundarySimilarity.Smallest | segeval/similarity/Boundary.py:49 | min(boundary_types): a member that no member undercuts. |
| BoundarySimilarity.CountBoundaries | segeval/similarity/Boundary.py:53-59 | The loop accumulates matches = Σ\|A_p ∩ B_p\|, full_misses = Σ\|A_p △ B_p\| and boundaries_all = Σ(\|A_p\| + \|B_p\|). |
| BoundarySimilarity.PositionCounts | segeval/similarity/Boundary.py:57-59 | At one position, \|A_p △ B_p\| + 2·\|A_p ∩ B_p\| = \|A_p\| + \|B_p\|. |
| BoundarySimilarity.MissesAndMatches | segeval/similarity/Boundary.py:53-59 | full_misses + 2·matches = boundaries_all. |
| BoundarySimilarity.MatchesZero | segeval/similarity/Boundary.py:57 | There are no matches exactly when no position has a label in both strings. |
| BoundarySimilarity.SimilarityParts | segeval/similarity/Boundary.py:24-61 | The eight values __boundary_similarity__ returns, as specified. An empty boundary_types set fails, as max() does. |
| BoundarySimilarity.PartsFailure | segeval/similarity/Boundary.py:47-49 | The comparison fails exactly when no boundary type is given. |
| BoundarySimilarity.PartsContents | segeval/similarity/Boundary.py:40-51 | pbs = \|B\|·\|boundary_types\|. The edit lists are those of the distance, unchanged, and count_edits is the sum of the three weighted counts. |
| BoundarySimilarity.PartsAccounting | segeval/similarity/Boundary.py:40-61 | full_misses = \|additions\| + 2·\|substitutions\| + 2·\|transpositions\|, and full_misses + 2·matches = boundaries_all. |
| BoundarySimilarity.Similarity | segeval/similarity/Boundary.py:64-91 | boundary_similarity returns the values of the specification, or the failure of the parts. |
| BoundarySimilarity.ScoreFraction | segeval/similarity/Boundary.py:84-91 | With return_parts, the edit lists come back unchanged, the denominator is \|additions\| + \|substitutions\| + \|transpositions\| + matches, and numerator + count_edits = denominator. Without it, the ratio is numerator / denominator when the denominator is positive, and 1 otherwise. |
| BoundarySimilarity.DenominatorZero | segeval/similarity/Boundary.py:86-91 | The fallback of 1 is taken exactly when neither string places any boundary. |
| BoundarySimilarity.ScoreUnweighted | segeval/similarity/Boundary.py:86-91 | With no weighted edits, the ratio is exactly 1. |
| BoundarySimilarity.ScoreBounds | segeval/similarity/Boundary.py:86-91 | A weighted count between 0 and the unweighted count puts the ratio in [0, 1]. |
| BoundarySimilarity.SelfSimilarity | segeval/similarity/Boundary.py:64-91 | A string compared with itself scores exactly 1 when empty edit lists weigh 0. |
| BoundarySimilarity.SimilarityBounds | segeval/similarity/Boundary.py:64-91 | With each weight between 0 and the length of its list, the similarity succeeds and lies in [0, 1]. |

## Left out

- Input handling, files, the command line and rendering in Boundary.py (`parse`, `create_parser`, the TSV writer and the display helpers). They are I/O.
- `boundary_string_from_masses` and the three default weighting functions. They come from modules that are not part of this model, so the weights are abstract parameters and only the `convert_to_boundary_strings=False` path is modelled.
- The pairwise aggregates (`pairwise_similarity`, `pairwise_b` and their micro forms). They depend on `compute_pairwise`, which is not part of this model.
- `confusion_matrix` and `values_b_detailed`, which return nothing and index a two-field tuple with `[2]` respectively. Neither is used by the two modelled functions.
- Strings of different lengths: a precondition, as above.
- Negative boundary types: labels are natural numbers. segeval numbers boundary types from 1.
- Set iteration order: the model fixes it as ascending. CPython iterates a set of integers in ascending order only while every label is smaller than the set's hash-table size; `{1, 8}`, for instance, iterates 8 before 1. The labels of a position's additions are therefore listed in ascending order, A side first, where CPython may list them in another order. The candidate labels of a transposition are tried in ascending order. Within one pair (i, j) the accepted candidates do not depend on that order, only their order in the returned list does. A label passing the overlap test is still recorded at both positions, so the substitution test asks the same question of every label of the pair: do both positions still count a substitution? A rejection changes nothing, and discarding labels never creates a substitution, so the labels passing the overlap test are either all accepted or all rejected.
- AdditionsSubstitutionsSets: the source returns the substitutions as a Python set, and the model returns the pairing as a duplicate-free sequence in zip order. The search's cost is summed over that sequence, which equals the sum over the set because a zip of two duplicate-free orderings repeats no pair.
- `is` comparisons (lines 92 and 126 of multipleboundary.py) are modelled as equality, as they behave on small integers.
- FindTranspositions: the span lengths are required to be at least 1. The only caller passes range(2, n_t + 1), and a span of 0 would make the source index outside the strings.
- FindTranspositions: the span lengths are a set, where the source takes a list `n_t`. `sorted(n_t)` keeps duplicates, and a repeated span is scanned again, where a candidate rejected by `__has_substitutions__` the first time can be accepted. The only caller passes `range(2, n_t + 1)`, which repeats nothing.
- Similarity: `boundary_types` is a set of labels (the source accepts any collection and only takes its `len`, `max` and `min`). The defaults `n_t=2` and `boundary_types={1}` (Boundary.py:18-19) are not modelled; both are explicit parameters.
- BoundaryEditDistance: the table's values are visited in ascending position order, which is the order Python's dict keeps for keys inserted ascending.
- Similarity: the integer fallback value 1 is modelled as the real 1.0, and Decimal and float arithmetic as exact reals. Rounding is not modelled.
