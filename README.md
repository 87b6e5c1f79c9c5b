# Attribute inference on a social graph, in Dafny

This project models the prediction core of `challenge2/challenge2_skeleton.py`.
The script fills in the missing profile attributes (location, employer,
college) of the "empty" nodes of a LinkedIn-style graph. It has six parts:

- **`naive_method`** and its copy **`naive_method2`**: each empty node gets
  the value its neighbours hold most often. On a tie, the value met first
  wins (`Counter` keeps first-seen order; `max` keeps its first maximum).
- **`max_clique`**: the first longest clique of a list, or `[]`.
- **`coeff_method`**: the candidate pool is the largest clique of the node's
  closed neighbourhood when that clique has more than 4 nodes, and the
  node's neighbours otherwise. Each candidate value weighs
  `count × (1 + ordered pairs of distinct subgraph nodes that both hold it)`.
  The prediction is the first `[value, weight]` pair of maximal weight.
- **`attribut_exhaustive_method`**: runs `coeff_method` once per attribute
  type. Then, for each empty node, it clears the types whose weight is below
  the node's largest weight and collapses the others to `[value]`.
- **`evaluation_accuracy`**: for each predicted node, adds the share of its
  ground-truth values that the prediction names. The sum becomes a
  percentage of the number of predicted nodes.
- **`vect_model`**: appends to the caller's list the distinct values held
  by the graph's nodes, in first-met order.

Layout, one module per file:

| file | module | models |
|---|---|---|
| `graphs.dfy` | `Graphs` | nodes, values, attribute tables, the networkx graph, the clique contract, failures |
| `tally.dfy` | `Tally` | `Counter` and `max(items, key=...)` |
| `neighbour_values.dfy` | `NeighbourValues` | the loop that collects a pool's values |
| `naive.dfy` | `NaivePredictor` | `naive_method`, `naive_method2` |
| `cliques.dfy` | `Cliques` | `max_clique` |
| `coeff.dfy` | `CoeffPredictor` | `coeff_method` |
| `arbitration.dfy` | `Arbitration` | `attribut_exhaustive_method` |
| `evaluation.dfy` | `Evaluation` | `evaluation_accuracy`, as written and corrected |
| `vocabulary.dfy` | `Vocabulary` | `vect_model` |

Each loop of the source is a Dafny method with the same loop. Each method is
proved against a specification function: `NaivePrediction`, `Longest`,
`CoeffPrediction`, `Kept`, `Accuracy` and `Vocabulary`. Lemmas then prove
what the script promises about those functions. Failures are values: a node
of `empty` missing from the graph gives `Err(NodeNotInGraph(node))`, and a
division by zero gives `Err(DivisionByZero)`.

Two behaviours of the code are modelled as they are:

- `graph.neighbors(n)` (lines 47, 72 and 113) raises for a node the graph
  does not hold, so such a node of `empty` is an error, not an empty
  prediction.
- The comment at lines 173-174 says a node with an empty prediction and an
  empty ground truth "may happen" and is meant to score, yet line 179 then
  divides by zero (see Findings).

The clique enumeration `nx.find_cliques` is an input. For one node,
`CoeffPrediction` and its lemmas take the list networkx gives for the
node's subgraph (`cs`). The methods over all empty nodes take a map
`cliques` from each graph node to that list. `Graphs.CliquesOf` states the
enumeration's contract: every listed clique is a set of pairwise-adjacent
nodes of the closed neighbourhood. Lemmas that need the contract require
it.

## Model

| member | source | states |
|---|---|---|
| Graphs.CliquesOf | challenge2/challenge2_skeleton.py:73 | What `nx.find_cliques` is trusted to return: every listed clique is a set of pairwise-adjacent nodes of `n` and its neighbours. |
| Graphs.SubgraphNodes | challenge2/challenge2_skeleton.py:72 | The subgraph's nodes are exactly `n` and its neighbours, each listed once on a well-formed graph. |
| Tally.Counter | challenge2/challenge2_skeleton.py:54 | `Counter(s).items()`: each distinct value of the list, in first-seen order, paired with its number of occurrences. |
| Tally.MostCommon | challenge2/challenge2_skeleton.py:56 | The value of the first item of maximal count in the Counter of a non-empty list. |
| Tally.Count | challenge2/challenge2_skeleton.py:54 | A value's count in the Counter is at most the list's length, and it is positive exactly when the value occurs. |
| Tally.Distinct | challenge2/challenge2_skeleton.py:54 | The Counter's keys are exactly the list's values, each once, and there is at least one key when the list is non-empty. |
| Tally.FirstMaxIndex | challenge2/challenge2_skeleton.py:56 | `max(..., key=...)` picks an item of maximal weight, and every earlier item weighs strictly less. |
| Tally.DistinctPrefix | challenge2/challenge2_skeleton.py:54 | The keys seen in a prefix of the list are a prefix of the Counter's keys, which is first-seen order. |
| Tally.DistinctOrder | challenge2/challenge2_skeleton.py:54 | When the list first shows the `j`-th key, all earlier keys have already appeared. |
| Tally.TallyFirstMax | challenge2/challenge2_skeleton.py:54-56 | Over items in Counter key order, the first maximum comes from the list, and it is met no later than any value of equal weight. |
| Tally.CounterKey | challenge2/challenge2_skeleton.py:54 | Every list element is a Counter key that carries its count. |
| Tally.MostCommonChoice | challenge2/challenge2_skeleton.py:53-57 | The chosen value occurs in the list. No value occurs more often. Among equally frequent values, it is met first. |
| NeighbourValues.PoolValues | challenge2/challenge2_skeleton.py:46-50 | The values of the pool's nodes found in the table, node after node, each node's list in its own order. |
| NeighbourValues.PoolValuesMembers | challenge2/challenge2_skeleton.py:47-50 | A value is collected exactly when some pool node in the table holds it. |
| NeighbourValues.PoolValuesEmpty | challenge2/challenge2_skeleton.py:47-52 | Nothing is collected exactly when every pool node in the table has an empty list. |
| NeighbourValues.CollectValues | challenge2/challenge2_skeleton.py:46-50 | The collecting loop yields every pool node's values, node after node, with multiplicity. |
| NaivePredictor.NaivePrediction | challenge2/challenge2_skeleton.py:44-57 | One empty node's prediction: `[]` when its neighbours contribute no value, otherwise `[MostCommon(values)]`. |
| NaivePredictor.PredictNaive | challenge2/challenge2_skeleton.py:46-57 | One loop iteration gives the node `[]` when its neighbours hold no value, and otherwise the Counter's first most common value. |
| NaivePredictor.NaiveMethod | challenge2/challenge2_skeleton.py:18-58 | Fails exactly when some empty node is not in the graph, with the first such node. Otherwise it maps exactly the empty nodes, each to its majority prediction. |
| NaivePredictor.NaiveMethod2 | challenge2/challenge2_skeleton.py:105-124 | The same contract as `naive_method`: the first missing node as the error, or exactly the empty nodes mapped to their majority predictions. |
| NaivePredictor.NaiveMethodsAgree | challenge2/challenge2_skeleton.py:18-124 | `naive_method` and `naive_method2` return the same result, map or error, on every input. |
| NaivePredictor.NaiveShape | challenge2/challenge2_skeleton.py:44-58 | A prediction holds at most one value. It is `[]` exactly when no neighbour in the table contributes a value. |
| NaivePredictor.NaiveChoice | challenge2/challenge2_skeleton.py:53-57 | The predicted value is held by a neighbour and is the most frequent neighbour value, the first met on a tie. |
| NaivePredictor.NaiveMajorityExample | challenge2/challenge2_skeleton.py:44-58 | Neighbours holding A, A and B give the prediction `["A"]`. |
| Cliques.Longest | challenge2/challenge2_skeleton.py:60-66 | The clique the `toReturn` scan keeps: a later clique replaces the kept one only when strictly longer; `[]` for no cliques. |
| Cliques.LongestIsFirstLongest | challenge2/challenge2_skeleton.py:60-66 | For no cliques the result is `[]`. Otherwise it is an element at least as long as every element, and every earlier element is strictly shorter. |
| Cliques.MaxClique | challenge2/challenge2_skeleton.py:60-66 | The loop returns that first longest clique, or `[]` for no cliques. |
| CoeffPredictor.Pool | challenge2/challenge2_skeleton.py:75-79 | `iterListe`: the longest listed clique when it has more than 4 nodes, the node's neighbours otherwise. |
| CoeffPredictor.SharedPairs | challenge2/challenge2_skeleton.py:93-97 | The count the nested `nbr1`/`nbr2` loops add: ordered pairs of distinct subgraph nodes, both in the table, both holding the value. |
| CoeffPredictor.Score | challenge2/challenge2_skeleton.py:98 | A value's weight: its Counter count times `1 + SharedPairs`. |
| CoeffPredictor.Weighted | challenge2/challenge2_skeleton.py:91-98 | `coeff_dict` after the loop: each Counter item, in key order, with its count multiplied by its share number. |
| CoeffPredictor.CoeffPrediction | challenge2/challenge2_skeleton.py:71-102 | One empty node's prediction: `[]` when the pool contributes no value, otherwise `[Best(...)]` over the pool's values and the subgraph. |
| CoeffPredictor.Best | challenge2/challenge2_skeleton.py:101 | The pair `max` picks: the first item of maximal weight in the weighted Counter. |
| CoeffPredictor.Holders | challenge2/challenge2_skeleton.py:94-97 | The number of subgraph nodes holding a value is at most the number of nodes. |
| CoeffPredictor.ShareCount | challenge2/challenge2_skeleton.py:93-97 | `number_of_share` ends as 1 plus the ordered pairs of distinct subgraph nodes in the table that both hold the value. |
| CoeffPredictor.WeighCounter | challenge2/challenge2_skeleton.py:91-98 | Each Counter item's count is multiplied by its value's share number, keeping the key order. |
| CoeffPredictor.PredictNode | challenge2/challenge2_skeleton.py:71-102 | One loop iteration computes the node's prediction: `[]`, or the first pair of maximal weight over the pool's values. |
| CoeffPredictor.CoeffMethod | challenge2/challenge2_skeleton.py:68-103 | Fails exactly when some empty node is not in the graph, with the first such node. Otherwise it maps exactly the empty nodes to their predictions. |
| CoeffPredictor.PoolInNeighbourhood | challenge2/challenge2_skeleton.py:72-79 | When the clique listing meets its contract, the pool lies within `n` and its neighbours. |
| CoeffPredictor.CoeffShape | challenge2/challenge2_skeleton.py:75-87 | A prediction holds at most one pair. It is `[]` exactly when no pool node in the table has a value. Otherwise its value is held by a pool node. |
| CoeffPredictor.WeightedScores | challenge2/challenge2_skeleton.py:87-98 | The weighted Counter lists each distinct pool value once, in first-seen order, with weight `count × share number`. |
| CoeffPredictor.BestWeight | challenge2/challenge2_skeleton.py:98-101 | The picked pair's value occurs in the pool. Its weight is that value's score, which is at least its count, which is at least 1. |
| CoeffPredictor.BestBeats | challenge2/challenge2_skeleton.py:98-101 | A single pool value scores no more than the picked pair. If it scores as much, the picked value is met no later than it. |
| CoeffPredictor.BestIsFirstMaxScore | challenge2/challenge2_skeleton.py:98-101 | No pool value scores more than the picked pair. Among values of equal score, the picked value is met first. |
| CoeffPredictor.CoeffWeight | challenge2/challenge2_skeleton.py:91-101 | The predicted weight is `count × (1 + shared pairs)`. It is at least the count, which is at least 1. It is maximal over the pool's values, first met on a tie. |
| CoeffPredictor.RowHolders | challenge2/challenge2_skeleton.py:95-97 | The inner loop counts, for a node holding the value, every other holder. For any other node it counts none. |
| CoeffPredictor.PairsHolders | challenge2/challenge2_skeleton.py:94-97 | The nested loops count `holders among the outer nodes × (all holders − 1)` pairs. |
| CoeffPredictor.SharedPairsClosedForm | challenge2/challenge2_skeleton.py:93-97 | With `h` holders in a duplicate-free subgraph, exactly `h × (h − 1)` ordered pairs share the value. |
| CoeffPredictor.ScoreClosedForm | challenge2/challenge2_skeleton.py:93-101 | Over a duplicate-free subgraph (every networkx subgraph is one), a value's weight is `count × (1 + h × (h − 1))`, where `h` counts the subgraph nodes holding it. |
| Arbitration.NodeScores | challenge2/challenge2_skeleton.py:129-130 | One node's `coeff_method` prediction for each attribute type. |
| Arbitration.Kept | challenge2/challenge2_skeleton.py:133-142 | A type's arbitrated entry: `[value]` when it predicts and no type's weight exceeds its own, `[]` otherwise. |
| Arbitration.MaxWeight | challenge2/challenge2_skeleton.py:133-137 | `maxi` ends as the largest weight among the node's predictions, or 0 when it has none. |
| Arbitration.ArbitrateNode | challenge2/challenge2_skeleton.py:132-142 | For one node, every type's new entry is `[value]` when no type outweighs it, and `[]` otherwise. |
| Arbitration.ScoreAllTypes | challenge2/challenge2_skeleton.py:128-130 | Either the first `coeff_method` failure, or for every type the scored predictions of exactly the empty nodes. |
| Arbitration.ArbitratedStep | challenge2/challenge2_skeleton.py:138-142 | Arbitrating one more node changes that node's entries only. |
| Arbitration.ArbitrateAll | challenge2/challenge2_skeleton.py:132-142 | After the loop, every empty node's entry of every type is its arbitrated entry. |
| Arbitration.ColumnIsNodeScores | challenge2/challenge2_skeleton.py:129-136 | A node's entries across types are its per-type `coeff_method` predictions. |
| Arbitration.AttributeExhaustiveMethod | challenge2/challenge2_skeleton.py:127-144 | Fails as `coeff_method` does, when there is a type to run it on. Otherwise every type maps exactly the empty nodes to their arbitrated entries. |
| Arbitration.SomeTypeSurvives | challenge2/challenge2_skeleton.py:132-142 | If any type predicted something for a node, some type keeps a value. |
| Arbitration.Heaviest | challenge2/challenge2_skeleton.py:133-137 | Some type's prediction weighs at least as much as every other prediction of the node. |
| Arbitration.KeptIsMaximal | challenge2/challenge2_skeleton.py:138-142 | An entry is `[]` or the type's own value. It is kept exactly when its weight is the node's largest, so all kept types weigh the same. |
| Arbitration.OnlyPredictingTypeKept | challenge2/challenge2_skeleton.py:138-142 | When one type alone predicts for a node, that type keeps its value and every other type gets `[]`. |
| Evaluation.Matches | challenge2/challenge2_skeleton.py:179 | The matched count is at most the prediction's length. It equals that length exactly when every predicted value is in the ground truth. It is 0 exactly when none is. |
| Evaluation.Credit | challenge2/challenge2_skeleton.py:172-179 | A node's term: 0 when absent from the ground truth, 1 when both lists are empty (corrected code only), else the matched share of its ground-truth values. |
| Evaluation.Total | challenge2/challenge2_skeleton.py:171-179 | The credits of a set of predicted nodes, summed. |
| Evaluation.Accuracy | challenge2/challenge2_skeleton.py:170-181 | The evaluator's outcome: division by zero when some node's term divides by zero or `pred` is empty, otherwise `100 × Total / len(pred)`. |
| Evaluation.TotalRemove | challenge2/challenge2_skeleton.py:171-179 | The sum does not depend on the order the keys are visited in. |
| Evaluation.TotalAdd | challenge2/challenge2_skeleton.py:171-179 | Visiting one more node adds exactly its credit to the sum. |
| Evaluation.NodeCredit | challenge2/challenge2_skeleton.py:172-179 | One iteration as written fails exactly when the node is in the ground truth with an empty list, and otherwise adds the node's credit. |
| Evaluation.NodeCreditFixed | challenge2/challenge2_skeleton.py:172-179 | One corrected iteration fails only when the ground truth is empty and the prediction is not. Otherwise it adds the node's credit, 1 when both lists are empty. |
| Evaluation.SumCredits | challenge2/challenge2_skeleton.py:170-179 | The loop as written fails exactly when some predicted node has empty ground truth. Otherwise it yields the sum of all predicted nodes' credits. |
| Evaluation.SumCreditsFixed | challenge2/challenge2_skeleton.py:170-179 | The corrected loop fails exactly when some node has empty ground truth and a non-empty prediction. Otherwise it yields the sum of all credits. |
| Evaluation.EvaluationAccuracy | challenge2/challenge2_skeleton.py:170-181 | As written: a division by zero when some node in both maps has empty ground truth, or when `pred` is empty. Otherwise 100 times the summed credit, divided by the number of predicted nodes. |
| Evaluation.EvaluationAccuracyFixed | challenge2/challenge2_skeleton.py:170-181 | With the ratio as the `else` of the both-empty test: a node with both lists empty earns 1. It fails only for an empty `pred` or a non-empty prediction against empty ground truth. |
| Evaluation.CreditBounds | challenge2/challenge2_skeleton.py:172-179 | A node's credit is at least 0, and at most 1 when it predicts at most one value. |
| Evaluation.TotalBounds | challenge2/challenge2_skeleton.py:171-179 | The sum lies between 0 and the number of nodes summed when each predicts at most one value. |
| Evaluation.AccuracyBounds | challenge2/challenge2_skeleton.py:170-181 | A computed accuracy is at least 0, and at most 100 when each node predicts at most one value. |
| Evaluation.TotalFixedAgrees | challenge2/challenge2_skeleton.py:175-179 | Where the code as written computes a sum, the corrected code computes the same sum. |
| Evaluation.FixedExtendsAsWritten | challenge2/challenge2_skeleton.py:170-181 | The correction changes no result the code as written computes. It fails only where that code fails too. |
| Evaluation.BothEmptyNode | challenge2/challenge2_skeleton.py:175-179 | A node with empty prediction and empty ground truth makes the code as written divide by zero. The corrected code credits it with 1. |
| Evaluation.AccuracyOfOne | challenge2/challenge2_skeleton.py:170-181 | A prediction for a single node scores 100 times that node's credit. |
| Evaluation.AccuracyOfTwo | challenge2/challenge2_skeleton.py:170-181 | A prediction for two nodes scores 100 times the mean of their credits. |
| Evaluation.BothEmptyExample | challenge2/challenge2_skeleton.py:175-181 | `{n: []}` scored against `{n: []}`: division by zero as written, 100.0 once corrected. |
| Evaluation.PartialCreditExample | challenge2/challenge2_skeleton.py:179-181 | One of two ground-truth values predicted scores 50.0. |
| Evaluation.OneOfTwoExample | challenge2/challenge2_skeleton.py:171-181 | One node right and one node wrong scores 50.0. |
| Evaluation.MissingNodeExample | challenge2/challenge2_skeleton.py:171-181 | A predicted node missing from the ground truth earns nothing but still counts in the denominator: 50.0. |
| Vocabulary.Vocabulary | challenge2/challenge2_skeleton.py:264-273 | The appended list holds each value once: exactly the values some graph node in the table holds. |
| Vocabulary.VocabularyOrder | challenge2/challenge2_skeleton.py:269-273 | The list is in first-met order over the graph's nodes. |
| Vocabulary.DistinctSnoc | challenge2/challenge2_skeleton.py:272-273 | A visited value is appended exactly when it is not yet in the list. |
| Vocabulary.AddValues | challenge2/challenge2_skeleton.py:270-273 | After one node's values are visited, the last list is the distinct values of the whole visit so far, and the earlier lists are unchanged. |
| Vocabulary.VectModel | challenge2/challenge2_skeleton.py:264-273 | The caller's list gains one last list, the vocabulary, and its earlier lists are unchanged. |
| Vocabulary.VectList.constructor | challenge2/challenge2_skeleton.py:276 | A fresh caller list is empty. |

## Left out

- The module-level script (lines 184-246 and 276-279) is left out. It reads the graph and the pickled tables from disk, prints, and sequences the runs. This includes line 242, which scores college predictions against the employer ground truth.
- networkx is not part of this model. `graph.neighbors` is the adjacency map. `nx.subgraph` is `Graphs.SubgraphNodes`. `nx.find_cliques` is an input, the clique list of each node's subgraph, constrained by `Graphs.CliquesOf` where a lemma needs it. The enumeration algorithm and its listing order are not modelled.
- The order of `SG.nodes()` is taken as `adj[n]` followed by `n`. It does not affect the result, because the pair count is a sum over all ordered pairs.
- Dictionary iteration in `attribut_exhaustive_method` and `evaluation_accuracy` is an arbitrary choice of the next key. Their results do not depend on that order.
- `attribut_exhaustive_method` overwrites its per-type results in place. The model builds the arbitrated map beside the scored one. Each entry is still computed from the node's scored predictions, as in the source.
- Arbitration.AttributeExhaustiveMethod: requires `empty` to be duplicate-free. A repeated node would make line 136 index into an already-collapsed string value, which the model does not follow.
- CoeffPredictor.CoeffMethod: requires the clique map to answer for every graph node, as networkx does for any node it is asked about. `Arbitration.ScoreAllTypes` and `Arbitration.AttributeExhaustiveMethod` require the same of the map they pass on.
- `evaluation_accuracy` uses Python floats. The model uses exact reals, so rounding is not modelled.
- The unused imports (lines 10-12), the unused `iter = []` (line 74) and the commented-out code (lines 111-112, 250-258, 282-287) are left out.

## Findings

| source | as written | input that shows it | evidently intended | confidence | as-written member | corrected member |
|---|---|---|---|---|---|---|
| challenge2/challenge2_skeleton.py:175-179 | A node whose prediction and ground truth are both empty gets 1 at line 176. Line 179 then divides by `len(groundtruth[p_key])`, which is 0, so the unit is never counted and the evaluation fails. | `evaluation_accuracy({"n": []}, {"n": []})` | The ratio is the `else` of the both-empty test, so that input scores 100.0. | high; not executed | Evaluation.EvaluationAccuracy, Evaluation.BothEmptyExample | Evaluation.EvaluationAccuracyFixed, Evaluation.FixedExtendsAsWritten |
