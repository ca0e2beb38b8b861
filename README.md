# demo-recommender, modelled in Dafny

This project models the core of `demo-recommender`. It is an in-memory bipartite
graph between users and items, built from (user, item, weight) interactions. Three
recommenders score items by walking short paths through the graph. A few utilities
load, anonymise and evaluate datasets.

## What is modelled

- **The graph** (`graph.dfy`, module `GraphStore`).
  - Each of the three `Recommender` classes keeps a `users` table and an `items` table.
    Its `put_interaction` creates missing nodes lazily and max-merges the weight into
    both mirrored profiles. The three copies are identical, so one class `Graph` models
    them.
  - Python dicts keep insertion order, and that order decides ties in the final sort.
    So every table is a `Dict`: a sequence of keys plus a map (`dicts.dfy`).
  - Nodes are values stored in the tables.
  - The graph invariant says the two sides agree on every edge. An entry without an
    item-side mirror is allowed only with weight 0.0, because `get_similarity` writes
    such entries.
- **Path-product recommender** (`excluded_history.dfy`). It sums, over every path
  user → item → user′ → item′, the product of the three edge weights. Items the user
  already has are skipped, and the ten best are returned.
- **Normalized recommender** (`normalized.dfy`). It follows the same paths, and divides
  by the norms of the user and of the neighbour, left to right as Python evaluates it.
- **Neighbour recommender.**
  - Cosine similarity, including the 0.0 entries it inserts into `profile_b`
    (`user_neighbours.dfy`).
  - The candidate heuristic: the number of shared items divided by the candidate's
    norm, keeping the top 1000 (`user_neighbours.dfy`).
  - The batch pass that stores the 50 most similar candidates of every user
    (`detection.dfy`, `detect_run.dfy`).
  - Scoring through the stored neighbours (`neighbour_recommend.dfy`).
- **Top-K selection** (`topk.dfy`). `sorted(keys, key=score, reverse=True)[:K]` is the
  K-prefix of a stable descending insertion sort. Ties keep the order in which keys
  first received a score.
- **Evaluation** (`evaluation.dfy`).
  - `evaluate` builds per-user sets of test items. It asks the recommender once per
    test user, then divides hits by test items.
  - `check_dataset` counts the test users that are absent from the training data.
- **Preprocessing** (`preprocessing.dfy`, with `text.dfy` and `decimal.dfy`).
  - `load_dataset` over a given sequence of lines: the header is skipped, fields are
    split on `;`, quotes are stripped, and zero ratings are dropped.
  - `anonymize_dataset`: dense offsets in order of first appearance, formatted as
    `user_{:04}` and `item_{:04}`.

Loops in the source are methods with loop invariants. Each method is proved equal to a
function of its inputs, such as `Scores`, `Candidates`, `DetectAll`, `RatingsOf` or
`LoadUpTo`. What the source promises is then proved about those functions:
- each score equals an independent reference sum;
- no recommended item is already owned;
- the top-K list is sorted, stable and a best-K selection;
- the neighbours of every user are formed as described;
- anonymised ids are injective and dense.

Three behaviours of the code that one might not expect, and that the model keeps:
- `put_interaction` never recomputes a norm, so a norm stays at the value last stored
  with `UpdateUserNorm` / `UpdateItemNorm`.
- `get_similarity`, the candidate heuristic and the normalized path weights divide
  without a guard. A zero norm raises `ZeroDivisionError` rather than contributing 0,
  so nonzero divisors are preconditions, exactly on the paths that divide.
- The candidate heuristic also visits the querying user itself. The skip happens later,
  in `detect_user_neighbours`.

## Model

| member | source | states |
|---|---|---|
| GraphStore.Graph.constructor | recommender/recommender_exluded_history.py:29-31 | a new graph has empty user and item tables, satisfies the graph invariant, and has mirrored profiles |
| GraphStore.Graph.PutInteraction | recommender/recommender_exluded_history.py:33-54 | the tables become the max-merge of the edge on the user side and on the item side; the graph invariant is kept, and mirrored profiles stay mirrored (the code is identical in the other two recommenders) |
| GraphStore.MergeNodes | recommender/normalized_recommender.py:44-59 | afterwards both nodes exist; an existing node is reused, keeping its position, norm and neighbours; a new node is appended with norm 0.0 and no neighbours; every other node is unchanged |
| GraphStore.MergeWeights | recommender/recommender_exluded_history.py:53-54 | on both sides the edge (u, i) becomes max(w, old weight), a missing weight reading as 0.0; every other edge keeps its weight |
| GraphStore.MergeIdempotent | recommender/recommender_exluded_history.py:53-54 | inserting the same interaction twice gives the same tables as inserting it once |
| GraphStore.MergeShape | recommender/recommender_exluded_history.py:33-54 | only the node of u and the node of i change, and in them only the entries i and u |
| GraphStore.MergePreservesInvariant | recommender/recommender_exluded_history.py:53-54 | the max-merge keeps the graph invariant (both sides agree, items are known, neighbours are known), and keeps mirrored profiles mirrored |
| GraphStore.Agreement | recommender/recommender_exluded_history.py:53-54 | under the invariant, the user side and the item side agree on every edge, read with get-or-zero |
| GraphStore.Graph.UpdateUserNorm | recommender/user_neighbours_recommender.py:18-21 | the given norm is stored in the user's node, nothing else changes, and the invariant is kept |
| GraphStore.Graph.UpdateItemNorm | recommender/user_neighbours_recommender.py:32-35 | the given norm is stored in the item's node, nothing else changes, and the invariant is kept |
| ExcludedHistory.LookupsSucceed | recommender/recommender_exluded_history.py:65-70 | under the graph invariant, every `items[user_item_id]` and `users[neighbour_id]` that `recommend` performs finds a node with a well-formed profile |
| Dicts.AddUnowned | recommender/recommender_exluded_history.py:73-77 | the loop body shared by the path and neighbour recommenders (also user_neighbours_recommender.py:137-140): an item the user has leaves the scores unchanged; any other item has its weight added to its score, a new key going to the end |
| ExcludedHistory.AddNeighbourItems | recommender/recommender_exluded_history.py:70-77 | the innermost loop adds exactly the contributions of the neighbour's unowned items to the scores |
| ExcludedHistory.AddNeighbours | recommender/recommender_exluded_history.py:68-77 | the middle loop adds exactly the contributions of every neighbour reached through one item |
| ExcludedHistory.Recommend | recommender/recommender_exluded_history.py:56-80 | an unknown user gets []; otherwise the result is the top 10 of the path scores; at most 10 distinct items, none already in the user's profile; the graph is not modified |
| ExcludedHistory.NeighbourItemPathsTotal | recommender/recommender_exluded_history.py:70-77 | one neighbour adds wi·wn·np[c] to the score of c, and nothing when the user has c |
| ExcludedHistory.NeighbourPathsSum | recommender/recommender_exluded_history.py:68-77 | the contributions through one item add up to the reference sum over that item's users |
| ExcludedHistory.UserItemPathsSum | recommender/recommender_exluded_history.py:66-77 | the contributions through the first m items of the user add up to the reference path sum |
| ExcludedHistory.ScoreIsPathScore | recommender/recommender_exluded_history.py:62-77 | the score of an unowned item equals the total weight of the length-3 paths to it; an owned item gets no score |
| Normalized.NeighbourIsReady | recommender/normalized_recommender.py:75-83 | a neighbour reached through an item of the user is a node whose profile holds that item, so the lookup at line 83 always finds an existing key |
| Normalized.LookupsSucceed | recommender/normalized_recommender.py:74-84 | under the graph invariant and nonzero divisors, every lookup and every division of `recommend` is defined |
| Normalized.AddCandidateStep | recommender/normalized_recommender.py:78-84 | one turn skips an owned item; for any other item the divisions are defined and the normalized path weight is added to its score |
| Normalized.AddCandidates | recommender/normalized_recommender.py:76-84 | the innermost loop adds exactly the normalized contributions of the neighbour's unowned items |
| Normalized.AddNeighbours | recommender/normalized_recommender.py:75-84 | the middle loop adds exactly the contributions of every neighbour of one item |
| Normalized.Recommend | recommender/normalized_recommender.py:67-87 | an unknown user gets []; otherwise the top 10 of the normalized scores; at most 10 distinct items, none owned; the graph is not modified |
| Normalized.PathTermWeight | recommender/normalized_recommender.py:82-84 | with nonzero norms, the reference path term is Python's left-to-right weight wi/nu·wn/nn·wc; a missing last edge contributes 0 |
| Normalized.CandidatePathsTotal | recommender/normalized_recommender.py:76-84 | one neighbour adds its normalized path weight to the score of c, and nothing when the user has c |
| Normalized.NeighbourPathsSum | recommender/normalized_recommender.py:75-84 | the contributions through one item add up to the reference normalized sum over its users |
| Normalized.UserItemPathsSum | recommender/normalized_recommender.py:74-84 | the contributions through the first m items of the user add up to the reference normalized path sum |
| Normalized.ScoreIsPathScore | recommender/normalized_recommender.py:73-84 | the score of an unowned item equals the total normalized weight of the length-3 paths to it; an owned item gets no score |
| UserNeighbours.Touch | recommender/user_neighbours_recommender.py:77 | reading `profile_b[i]` on a defaultdict inserts i with 0.0 at the end when it is missing, and otherwise changes nothing |
| UserNeighbours.PaddedExtends | recommender/user_neighbours_recommender.py:76-77 | the loop of `get_similarity` only appends keys to `profile_b`, each holding 0.0, and changes no existing entry |
| UserNeighbours.PaddedKeys | recommender/user_neighbours_recommender.py:76-77 | every key the loop adds to `profile_b` is a key of `profile_a` |
| UserNeighbours.PaddedRead | recommender/user_neighbours_recommender.py:76-77 | every read in the loop returns the original entry of `profile_b`, or 0.0 when it is missing, despite the earlier insertions |
| UserNeighbours.DotExtends | recommender/user_neighbours_recommender.py:76-79 | padding a profile with 0.0 entries does not change its dot product with `profile_a` |
| UserNeighbours.GetSimilarity | recommender/user_neighbours_recommender.py:71-79 | returns Σ a[i]·b[i] over the keys of a (a missing b[i] reads 0.0) divided by norm_a·norm_b, together with `profile_b` as the loop leaves it |
| UserNeighbours.DotSymmetric | recommender/user_neighbours_recommender.py:71-79 | the dot product is the same whichever profile drives the loop: both add up the products over the shared keys |
| UserNeighbours.SimilaritySymmetric | recommender/user_neighbours_recommender.py:71-79 | `get_similarity(a, na, b, nb) == get_similarity(b, nb, a, na)` for valid profiles and nonzero norms |
| UserNeighbours.SimilarityPadded | recommender/user_neighbours_recommender.py:71-79 | padding either profile with 0.0 entries, as the defaultdict reads of later turns do, leaves the similarity unchanged |
| UserNeighbours.ItemUsersSum | recommender/user_neighbours_recommender.py:88-89 | one item adds 1/norm(n) to the candidate score of each of its users n, exactly once |
| UserNeighbours.AddItemUsers | recommender/user_neighbours_recommender.py:88-89 | the inner loop adds exactly one item's contributions to the candidate table |
| UserNeighbours.CandidateScore | recommender/user_neighbours_recommender.py:86-89 | a user holds a candidate score exactly when it shares an item with the profile, and its score is (number of shared items) · 1/norm |
| UserNeighbours.CandidatesAreUsers | recommender/user_neighbours_recommender.py:86-89 | every user holding a candidate score is a node with a nonzero norm |
| UserNeighbours.CandidatesReadyFor | recommender/user_neighbours_recommender.py:86-89 | when every user with an edge has a nonzero norm, the lookups and divisions of `get_neighbours_candidates` succeed on any user's profile |
| UserNeighbours.SelfCandidate | recommender/user_neighbours_recommender.py:86-89 | in a graph built only by interactions, a user with an edge receives a candidate score of its own |
| UserNeighbours.Candidates | recommender/user_neighbours_recommender.py:91 | at most 1000 distinct candidates, each a node with a nonzero norm |
| UserNeighbours.GetNeighboursCandidates | recommender/user_neighbours_recommender.py:81-91 | returns the 1000 best users of the candidate table (stable descending order); the graph is only read |
| NeighbourDetection.ScoreCandidateFacts | recommender/user_neighbours_recommender.py:108-115 | one turn skips `a` itself; otherwise it records exactly the similarity of b and pads only the profile of b |
| NeighbourDetection.ScoreCandidates | recommender/user_neighbours_recommender.py:107-115 | the loop over the candidates only pads profiles, with keys of the profile of `a` |
| NeighbourDetection.ScoreCandidatesScored | recommender/user_neighbours_recommender.py:107-115 | after the loop, b is scored iff it is a candidate other than `a`, and its score is its similarity to `a` on the profiles before the loop |
| NeighbourDetection.ScorePassScored | recommender/user_neighbours_recommender.py:103-115 | the same for the candidates `get_neighbours_candidates` returns for `a` |
| NeighbourDetection.BestNeighbours | recommender/user_neighbours_recommender.py:117-118 | at most 50 neighbours are stored |
| NeighbourDetection.BestNeighboursScored | recommender/user_neighbours_recommender.py:117-118 | the stored neighbours are distinct scored users, each with its score, with similarity non-increasing |
| NeighbourDetection.BestNeighboursBest | recommender/user_neighbours_recommender.py:117 | no scored user left out scores higher than a stored one; when fewer than 50 are stored, every scored user is stored |
| NeighbourDetection.NewNeighboursScored | recommender/user_neighbours_recommender.py:103-118 | the neighbours stored at a's turn: at most 50, distinct, never `a`, all candidates of `a`, each carrying its similarity to `a` at that turn, most similar first |
| NeighbourDetection.NewNeighboursBest | recommender/user_neighbours_recommender.py:103-118 | no candidate left out is more similar to `a` than a stored neighbour |
| NeighbourDetection.NewNeighboursAll | recommender/user_neighbours_recommender.py:107-118 | fewer than 50 neighbours are stored only when every candidate other than `a` is |
| NeighbourDetection.DetectOneKeys | recommender/user_neighbours_recommender.py:99-118 | a turn keeps the users of the table, in the same order |
| NeighbourDetection.DetectOneNode | recommender/user_neighbours_recommender.py:103-118 | a turn keeps every norm, only pads profiles (with 0.0 entries, keys of the profile of `a`, and only on nodes with a nonzero norm), and changes only the neighbours of `a` |
| NeighbourDetection.DetectOneKeeps | recommender/user_neighbours_recommender.py:99-118 | a turn keeps the graph invariant and keeps the norms of users with edges nonzero |
| NeighbourDetection.NewNeighboursFormed | recommender/user_neighbours_recommender.py:108-118 | the list a turn chooses for `a` is formed: at most 50, distinct, never `a`, naming users, most similar first |
| NeighbourDetection.TurnFormed | recommender/user_neighbours_recommender.py:99-118 | a turn for b forms the neighbours of b and keeps every other user's list formed |
| NeighbourDetectionRun.DetectUpTo | recommender/user_neighbours_recommender.py:99-118 | after the turns of the first m users, the invariant holds, the users and their order are kept, and each of those m users has a formed neighbours list |
| NeighbourDetectionRun.DetectAll | recommender/user_neighbours_recommender.py:93-118 | after the whole pass, every user's neighbours list is formed: at most 50 entries, distinct, never the user itself, naming users, non-increasing similarity |
| NeighbourDetectionRun.ScoreOne | recommender/user_neighbours_recommender.py:108-115 | one turn of the candidate loop updates the graph and the scores as `ScoreCandidate` specifies |
| NeighbourDetectionRun.ScoreCandidatesOf | recommender/user_neighbours_recommender.py:107-115 | the candidate loop leaves the graph and `neighbours_scored` as `ScoreCandidates` specifies; the items are unchanged |
| NeighbourDetectionRun.StoreNeighbours | recommender/user_neighbours_recommender.py:117-118 | only the neighbours of `a` change, and they become the best 50 of the scores |
| NeighbourDetectionRun.DetectFor | recommender/user_neighbours_recommender.py:103-118 | one turn of the outer loop changes the users table as `DetectOne` specifies |
| NeighbourDetectionRun.DetectUserNeighbours | recommender/user_neighbours_recommender.py:93-118 | the users table becomes `DetectAll` of the old tables; the items are unchanged; the invariant and the nonzero norms are kept |
| NeighbourRecommend.LookupsSucceed | recommender/user_neighbours_recommender.py:130-136 | under the graph invariant, every `users[neighbour_id]` of `recommend` finds a node with a well-formed profile |
| NeighbourRecommend.ItemContribs | recommender/user_neighbours_recommender.py:136-140 | no owned item receives a contribution, and every contribution is for an item of the neighbour |
| NeighbourRecommend.AddNeighbourItems | recommender/user_neighbours_recommender.py:136-140 | the inner loop adds exactly one neighbour's contributions to the scores |
| NeighbourRecommend.Recommend | recommender/user_neighbours_recommender.py:120-142 | an unknown user gets []; otherwise the top 10 of the neighbour scores; at most 10 distinct items, none owned; the graph is not modified |
| NeighbourRecommend.ItemContribsTotal | recommender/user_neighbours_recommender.py:136-140 | one neighbour adds similarity·np[c] to the score of c, and nothing when the user has c |
| NeighbourRecommend.NeighbourContribsSum | recommender/user_neighbours_recommender.py:131-140 | the contributions of the first m neighbours add up to the reference sum Σ similarity·weight |
| NeighbourRecommend.ScoreIsNeighbourScore | recommender/user_neighbours_recommender.py:129-140 | the score of an unowned item is Σ over the neighbours of similarity · the neighbour's weight on it; an owned item gets no score |
| NeighbourRecommend.NoNeighboursNoItems | recommender/user_neighbours_recommender.py:131-142 | a user with no neighbours gets an empty recommendation |
| NeighbourRecommend.ScoredFromNeighbours | recommender/user_neighbours_recommender.py:131-140 | every scored item, and so every recommended one, is in the profile of one of the user's neighbours |
| TopK.Top | recommender/recommender_exluded_history.py:80 | the first min(n, len) keys of the stable descending sort: sorted by non-increasing score, distinct when the input is, and no key left out scores higher than one kept |
| TopK.TopKeys | recommender/recommender_exluded_history.py:80 | min(n, len) distinct keys of the table, sorted by non-increasing score, with no key left out scoring higher than a kept one |
| TopK.SortDescSorted | recommender/recommender_exluded_history.py:80 | the descending sort is ordered by non-increasing score |
| TopK.SortDescPermutes | recommender/recommender_exluded_history.py:80 | the descending sort is a permutation of its input |
| TopK.SortDescStable | recommender/recommender_exluded_history.py:80 | for every score value, the keys having it keep their input order (Python's sort is stable, also with `reverse=True`) |
| TopK.TopIsStableSortPrefix | recommender/recommender_exluded_history.py:80 | the top-n list is exactly the n-prefix of the stable descending sort |
| TopK.TopKeysAll | recommender/recommender_exluded_history.py:80 | with no more than n keys, every key is returned |
| Dicts.AccumulateValue | recommender/recommender_exluded_history.py:64-77 | in a `defaultdict(float)` built by `+=`, each key's value is the sum of its contributions (0.0 when it has none) |
| Dicts.AccumulateKeys | recommender/recommender_exluded_history.py:64-77 | the score table lists exactly the scored keys, in the order in which they first received a contribution |
| Evaluation.CollectRatings | recommender/utils.py:35-39 | the loop builds the ratings table `RatingsOf` of the test set |
| Evaluation.RatingsUsers | recommender/utils.py:35-39 | the ratings table has a key for each test user and for no one else |
| Evaluation.RatingsOrder | recommender/utils.py:35-39 | the users of the ratings table are in order of first appearance |
| Evaluation.RatingsItems | recommender/utils.py:35-39 | a user's set holds item i iff the test set has the interaction (user, i), so duplicates count once |
| Evaluation.RatingsNonempty | recommender/utils.py:35-39 | every user's set of test items is nonempty |
| Evaluation.CountHits | recommender/utils.py:44-50 | the loop adds \|test items ∩ recommended\| per user to the hits and \|test items\| per user to the total, asking each user once, in table order |
| Evaluation.HitsAtMostTotal | recommender/utils.py:49-50 | there are never more hits than test items |
| Evaluation.TotalAtLeastUsers | recommender/utils.py:50 | each user adds at least one test item to the total |
| Evaluation.TotalZero | recommender/utils.py:50-54 | the denominator is zero exactly when the test set is empty |
| Evaluation.EvaluateOutcome | recommender/utils.py:49-54 | the denominator is zero iff the test set is empty, and the numerator never exceeds it |
| Evaluation.Share | recommender/utils.py:54 | true division of hits by a nonzero total gives a value in [0, 1] whose product with the total is the hits |
| Evaluation.Evaluate | recommender/utils.py:34-54 | `recommend` is asked exactly once per distinct test user, in first-appearance order; an empty test set fails with ZeroDivisionError; otherwise the result is hits / total, in [0, 1] |
| Evaluation.AbsentStep | recommender/utils.py:27-29 | each distinct test user adds 1 to the count exactly when training lacks it |
| Evaluation.MissingAbsent | recommender/utils.py:26-29 | the test users the training table lacks are exactly the missing ones, and there are at most as many as test users |
| Evaluation.CheckDataset | recommender/utils.py:13-29 | `n_missing` is the number of distinct test users with no training interaction, and at most the number of distinct test users |
| Preprocessing.LoadDataset | preprocessing/utils.py:1-24 | the loop returns `LoadUpTo` over all lines: the header is skipped, zero ratings are dropped, and the first line with fewer than three fields raises IndexError |
| Preprocessing.LoadFailureStays | preprocessing/utils.py:10-14 | once a line has raised, the outcome no longer changes |
| Preprocessing.HeaderIgnored | preprocessing/utils.py:7-8 | line 0 is never read: files that differ only in it load alike |
| Preprocessing.LoadAtMostOnePerLine | preprocessing/utils.py:6-22 | at most one record per line after the header |
| Preprocessing.LoadPrefix | preprocessing/utils.py:6-22 | loading m lines reads only those m lines |
| Preprocessing.RStripNewline | preprocessing/utils.py:10 | `rstrip()` removes the trailing newline of a line and nothing before it |
| Preprocessing.ParseFormatted | preprocessing/utils.py:10-22 | a line `"u";"i";"r"` parses back to the record (u, i), or to nothing when r is a zero rating |
| Preprocessing.LoadFormatted | preprocessing/utils.py:1-24 | loading a header plus one formatted line per record, with nonzero ratings, gives the records back, in order |
| Preprocessing.NumberingDense | preprocessing/utils.py:41-47 | throughout the loop, `offset2id[id2offset[x]] == x` for every offset in use, numbered 0 .. len-1 |
| Preprocessing.NumberingOffset | preprocessing/utils.py:41-47 | the offset the tables hold for an id is its position among the distinct ids in order of first appearance |
| Preprocessing.NumberingNew | preprocessing/utils.py:41-43 | a new id gets the next offset, `len(offset2id)` |
| Preprocessing.NumberingSeen | preprocessing/utils.py:41 | a known id leaves the tables unchanged |
| Preprocessing.AnonymizeDataset | preprocessing/utils.py:27-54 | one record per interaction, in order, each id replaced by `user_`/`item_` and its zero-padded offset; users and items are numbered independently |
| Preprocessing.OffsetInjective | preprocessing/utils.py:41-47 | different ids get different offsets |
| Preprocessing.AnonymizeConsistent | preprocessing/utils.py:41-51 | two interactions get the same anonymous user (item) iff they had the same user (item) |
| Preprocessing.OffsetFirstAppearance | preprocessing/utils.py:41-43 | an id first seen at position j gets as offset the number of distinct ids before j |
| Preprocessing.OffsetsDense | preprocessing/utils.py:41-43 | the offsets in use are exactly 0 .. D-1 for the D distinct ids |
| Text.RStripSpaces | preprocessing/utils.py:10 | `rstrip()` keeps a prefix that ends in a non-whitespace character, and removes only whitespace |
| Text.SplitPieces | preprocessing/utils.py:10 | no piece of `split(';')` contains the separator |
| Text.JoinSplit | preprocessing/utils.py:10 | joining the pieces of a split gives the string back |
| Text.SplitJoin | preprocessing/utils.py:10 | splitting joined pieces that have no separator gives the pieces back |
| Text.QuoteUnquote | preprocessing/utils.py:12-14 | a field between double quotes is the quoting of what `[1:-1]` leaves of it |
| Text.UnquoteQuote | preprocessing/utils.py:12-14 | `[1:-1]` removes the surrounding quotes again |
| Decimal.Format04 | preprocessing/utils.py:50-51 | `'{:04}'` gives only digits, and max(4, number of digits) of them |
| Decimal.ValueDigits | preprocessing/utils.py:50-51 | the decimal digits of n denote n |
| Decimal.Format04Value | preprocessing/utils.py:50-51 | the zero-padded form still denotes n |
| Decimal.Format04Injective | preprocessing/utils.py:50-51 | two numbers are formatted alike iff they are equal |
| Decimal.Label | preprocessing/utils.py:50-51 | the label starts with the prefix and has at least 4 more characters |
| Decimal.LabelInjective | preprocessing/utils.py:50-51 | labels with the same prefix are equal iff their numbers are |

## Left out

- `User.update_norm` / `Item.update_norm` compute `sqrt(Σ w ** w)`, which needs square
  roots and real powers. The norm is a stored real that `UpdateUserNorm` /
  `UpdateItemNorm` receive as a parameter. The code raises each weight to itself, where
  a Euclidean norm would square it; the model does not depend on the formula.
- Floating-point rounding: weights, scores, similarities and norms are exact reals.
- `split_dataset` calls scikit-learn's `train_test_split`, whose code is not part of
  this model.
- All `logging` calls, including the progress logs of `detect_user_neighbours` and
  `evaluate`.
- `experiment.py`, a script that wires the modules together and has no logic of its own.
- File I/O in `load_dataset`. The lines of the file are a parameter.
- `float()` parsing in `load_dataset`. Whether a rating field parses to zero is a
  parameter (`ratingIsZero`), and the ValueError of an unparsable rating is not modelled.
- Aliasing: the source mutates node objects through local aliases (`user = self.users[u]`).
  Nodes are values here, and every mutated node is stored back into its table.
- The recommender classes store `user_id` / `item_id` inside their nodes. The model keys
  nodes only by the table.
- The path-product recommender's nodes have no `norm` and no `neighbours`. The shared
  graph carries these fields, and that recommender never reads them.
- Normalized.Recommend, UserNeighbours.GetSimilarity and
  UserNeighbours.GetNeighboursCandidates require the divisors they use to be nonzero,
  and DetectUserNeighbours requires a nonzero norm for every user with an edge. Python
  raises `ZeroDivisionError` there, and that crash is not modelled as a result value.
  With the source as written, where no norm is ever set, every call that reaches one of
  these divisions crashes. Normalized.Recommend still returns [] for an unknown user, or
  when no path reaches an item the user does not have.
- Evaluation.Evaluate: the recommender object is a function `recommend`. The model does
  not let the recommender change state between calls.
- Evaluation.CheckDataset: the source only logs `n_missing`; the model returns it.
- NeighbourDetectionRun.DetectAll: states that every final neighbours list is formed
  (at most 50, distinct, never the user itself, naming users, most similar first). It
  does not state that each final list is exactly the one chosen at its user's turn.
  Per turn, that choice is characterised by NeighbourDetection.NewNeighboursScored,
  NewNeighboursBest and NewNeighboursAll.
- NeighbourDetection.NewNeighboursScored: each stored similarity is the cosine similarity
  on the profiles at the user's turn. Later turns may pad those profiles with 0.0
  entries. UserNeighbours.SimilarityPadded shows that such padding leaves a similarity
  unchanged. The model does not restate each stored value on the final profiles.
- UserNeighbours.SelfCandidate: states that the querying user receives a candidate
  score, not that it survives the cut to the best 1000.
