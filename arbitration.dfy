/** The cross-attribute arbitrator `attribut_exhaustive_method`: it runs
    `coeff_method` once per attribute type, then, for every empty node, keeps
    the predictions of the types whose weight is the largest among that
    node's predictions and clears the others. */
module Arbitration {
  import opened Graphs
  import opened Tally
  import opened CoeffPredictor

  /** The scored predictions of one empty node, one per attribute type,
      with `cs` the cliques networkx lists for the node's subgraph. */
  function NodeScores(g: Graph, allAttr: map<AttrType, AttrTable>, cs: seq<seq<Node>>, n: Node)
    : map<AttrType, seq<Scored>>
    requires n in g.adj
  {
    map t | t in allAttr :: CoeffPrediction(g, cs, allAttr[t], n)
  }

  /** What one node's entry for type `t` becomes: `[value]` when `t` has a
      prediction whose weight no other type's prediction exceeds, `[]`
      otherwise. */
  function Kept(scores: map<AttrType, seq<Scored>>, t: AttrType): seq<Value>
    requires t in scores
  {
    if scores[t] != [] && forall u :: u in scores && scores[u] != [] ==> scores[u][0].weight <= scores[t][0].weight
    then [scores[t][0].value]
    else []
  }

  /** The first inner loop: `maxi` ends as the largest weight among the
      node's predictions, or 0 when it has none. */
  method MaxWeight(scored: map<AttrType, map<Node, seq<Scored>>>, n: Node) returns (maxi: nat)
    requires forall u :: u in scored ==> n in scored[u]
    ensures forall u :: u in scored && scored[u][n] != [] ==> scored[u][n][0].weight <= maxi
    ensures maxi == 0 || exists u :: u in scored && scored[u][n] != [] && scored[u][n][0].weight == maxi
  {
    maxi := 0;
    var ts := scored.Keys;
    while ts != {}
      invariant ts <= scored.Keys
      invariant forall u :: u in scored.Keys - ts && scored[u][n] != [] ==> scored[u][n][0].weight <= maxi
      invariant maxi == 0 || exists u :: u in scored.Keys - ts && scored[u][n] != [] && scored[u][n][0].weight == maxi
    {
      var t :| t in ts;
      if scored[t][n] != [] && maxi < scored[t][n][0].weight {
        maxi := scored[t][n][0].weight;
      }
      ts := ts - {t};
    }
  }

  /** One node's entry of every type: `scored[u][n]` for each type `u`. */
  function Column(scored: map<AttrType, map<Node, seq<Scored>>>, n: Node): map<AttrType, seq<Scored>>
    requires forall u :: u in scored ==> n in scored[u]
  {
    map u | u in scored :: scored[u][n]
  }

  /** The body of the arbitration loop for one empty node `n`: the `maxi`
      loop, then the loop that clears each type's entry below `maxi` and
      collapses the others to `[value]`; the result holds the node's new
      entry of every type. */
  method ArbitrateNode(scored: map<AttrType, map<Node, seq<Scored>>>, n: Node)
    returns (kept: map<AttrType, seq<Value>>)
    requires forall u :: u in scored ==> n in scored[u]
    ensures kept.Keys == scored.Keys
    ensures forall u :: u in kept ==> kept[u] == Kept(Column(scored, n), u)
  {
    ghost var col := Column(scored, n);
    var maxi := MaxWeight(scored, n);
    kept := map[];
    var ts := scored.Keys;
    while ts != {}
      invariant ts <= scored.Keys
      invariant kept.Keys == scored.Keys - ts
      invariant forall u :: u in kept ==> kept[u] == Kept(col, u)
    {
      var t :| t in ts;
      if scored[t][n] != [] && maxi > scored[t][n][0].weight {
        var u :| u in scored && scored[u][n] != [] && scored[u][n][0].weight == maxi;
        assert col[u] == scored[u][n] && col[t] == scored[t][n];
        kept := kept[t := []];
      } else if scored[t][n] != [] {
        assert Kept(col, t) == [scored[t][n][0].value];
        kept := kept[t := [scored[t][n][0].value]];
      } else {
        assert Kept(col, t) == [];
        kept := kept[t := []];
      }
      ts := ts - {t};
    }
  }

  /** The first loop of `attribut_exhaustive_method`: `coeff_method` once
      per attribute type, stopping at the first failure. */
  method ScoreAllTypes(g: Graph, empty: seq<Node>, allAttr: map<AttrType, AttrTable>,
                       cliques: map<Node, seq<seq<Node>>>)
    returns (r: Result<map<AttrType, map<Node, seq<Scored>>>>)
    requires forall n :: n in g.adj ==> n in cliques
    ensures r.Err? <==> allAttr != map[] && !AllInGraph(g, empty)
    ensures r.Err? ==> exists k :: MissingAt(g, empty, k) && r.error == NodeNotInGraph(empty[k])
    ensures r.Ok? ==> r.value.Keys == allAttr.Keys
    ensures r.Ok? ==> forall t :: t in r.value ==> r.value[t].Keys == Members(empty)
    ensures r.Ok? ==> forall t, n :: t in r.value && n in r.value[t] ==>
                        n in g.adj && r.value[t][n] == CoeffPrediction(g, cliques[n], allAttr[t], n)
  {
    var scored: map<AttrType, map<Node, seq<Scored>>> := map[];
    var todo := allAttr.Keys;
    while todo != {}
      invariant todo <= allAttr.Keys
      invariant scored.Keys == allAttr.Keys - todo
      invariant todo != allAttr.Keys ==> AllInGraph(g, empty)
      invariant forall t :: t in scored ==> scored[t].Keys == Members(empty)
      invariant forall t, n :: t in scored && n in scored[t] ==>
                  n in g.adj && scored[t][n] == CoeffPrediction(g, cliques[n], allAttr[t], n)
    {
      var t :| t in todo;
      var p := CoeffMethod(g, empty, allAttr[t], cliques);
      if p.Err? {
        return Err(p.error);
      }
      scored := scored[t := p.value];
      todo := todo - {t};
    }
    return Ok(scored);
  }

  /** Every type's results hold the same nodes. */
  predicate Rectangular(scored: map<AttrType, map<Node, seq<Scored>>>) {
    forall u, v, m :: u in scored && v in scored && m in scored[u] ==> m in scored[v]
  }

  /** Type `t`'s entries once the nodes of `done` are arbitrated: the
      arbitrated entry for those, `[]` for the others. */
  ghost function Arbitrated(scored: map<AttrType, map<Node, seq<Scored>>>, t: AttrType, done: set<Node>)
    : map<Node, seq<Value>>
    requires Rectangular(scored) && t in scored
  {
    map m | m in scored[t] :: if m in done then Kept(Column(scored, m), t) else []
  }

  /** Arbitrating one more node changes that node's entry only. */
  lemma ArbitratedStep(scored: map<AttrType, map<Node, seq<Scored>>>, t: AttrType, done: set<Node>, n: Node)
    requires Rectangular(scored) && t in scored && n in scored[t]
    ensures Arbitrated(scored, t, done + {n}) == Arbitrated(scored, t, done)[n := Kept(Column(scored, n), t)]
  {
  }

  /** The second loop of `attribut_exhaustive_method`: every empty node's
      entry of every type is replaced by its arbitrated entry, starting from
      the all-`[]` entries. */
  method ArbitrateAll(scored: map<AttrType, map<Node, seq<Scored>>>, empty: seq<Node>)
    returns (res: map<AttrType, map<Node, seq<Value>>>)
    requires Rectangular(scored)
    requires forall t, j :: t in scored && 0 <= j < |empty| ==> empty[j] in scored[t]
    ensures res.Keys == scored.Keys
    ensures forall t :: t in res ==> res[t] == Arbitrated(scored, t, Members(empty))
  {
    ghost var done: set<Node> := {};
    res := map t | t in scored :: map n | n in scored[t] :: [];
    for i := 0 to |empty|
      invariant done == Members(empty[..i])
      invariant res.Keys == scored.Keys
      invariant forall t :: t in res ==> res[t] == Arbitrated(scored, t, done)
    {
      var n := empty[i];
      var kept := ArbitrateNode(scored, n);
      var prev := res;
      res := map t | t in prev :: prev[t][n := kept[t]];
      forall t | t in res
        ensures res[t] == Arbitrated(scored, t, done + {n})
      {
        ArbitratedStep(scored, t, done, n);
      }
      done := done + {n};
      PrefixMembers(empty, i);
    }
    PrefixMembers(empty, |empty|);
  }

  /** The column of the per-type results at an empty node is the node's
      scored predictions. */
  lemma ColumnIsNodeScores(g: Graph, allAttr: map<AttrType, AttrTable>, cs: seq<seq<Node>>,
                           scored: map<AttrType, map<Node, seq<Scored>>>, n: Node)
    requires n in g.adj
    requires scored.Keys == allAttr.Keys
    requires forall u :: u in scored ==> n in scored[u] && scored[u][n] == CoeffPrediction(g, cs, allAttr[u], n)
    ensures Column(scored, n) == NodeScores(g, allAttr, cs, n)
  {
  }

  /** `attribut_exhaustive_method(graph, empty, all_attr)`, with `cliques[n]`
      standing for the clique list networkx enumerates for node `n`'s
      subgraph. It fails as
      `coeff_method` does as soon as there is an attribute type to run it
      on; otherwise every type maps every empty node, and only those, to its
      arbitrated entry. */
  method AttributeExhaustiveMethod(g: Graph, empty: seq<Node>, allAttr: map<AttrType, AttrTable>,
                                   cliques: map<Node, seq<seq<Node>>>)
    returns (r: Result<map<AttrType, map<Node, seq<Value>>>>)
    requires forall n :: n in g.adj ==> n in cliques
    requires NoDuplicates(empty)
    ensures r.Err? <==> allAttr != map[] && !AllInGraph(g, empty)
    ensures r.Err? ==> exists k :: MissingAt(g, empty, k) && r.error == NodeNotInGraph(empty[k])
    ensures r.Ok? ==> r.value.Keys == allAttr.Keys
    ensures r.Ok? ==> forall t :: t in r.value ==> r.value[t].Keys == Members(empty)
    ensures r.Ok? ==> forall t, n :: t in r.value && n in r.value[t] ==>
                        n in g.adj && r.value[t][n] == Kept(NodeScores(g, allAttr, cliques[n], n), t)
  {
    var all := ScoreAllTypes(g, empty, allAttr, cliques);
    if all.Err? {
      return Err(all.error);
    }
    var scored := all.value;
    assert Rectangular(scored);
    var res := ArbitrateAll(scored, empty);
    forall t, n | t in res && n in res[t]
      ensures n in g.adj && res[t][n] == Kept(NodeScores(g, allAttr, cliques[n], n), t)
    {
      ColumnIsNodeScores(g, allAttr, cliques[n], scored, n);
    }
    return Ok(res);
  }

  /** If some type predicts a value for the node, some type keeps one. */
  lemma SomeTypeSurvives(scores: map<AttrType, seq<Scored>>)
    requires exists t :: t in scores && scores[t] != []
    ensures exists t :: t in scores && Kept(scores, t) != []
  {
    var t := Heaviest(scores, scores.Keys);
    assert Kept(scores, t) != [];
  }

  /** A type of `ts` whose prediction weighs at least as much as every other
      prediction of `ts`. */
  lemma {:induction false} Heaviest(scores: map<AttrType, seq<Scored>>, ts: set<AttrType>) returns (t: AttrType)
    requires ts <= scores.Keys
    requires exists u :: u in ts && scores[u] != []
    ensures t in ts && scores[t] != []
    ensures forall u :: u in ts && scores[u] != [] ==> scores[u][0].weight <= scores[t][0].weight
    decreases ts
  {
    var u :| u in ts && scores[u] != [];
    var rest := ts - {u};
    if exists v :: v in rest && scores[v] != [] {
      var m := Heaviest(scores, rest);
      t := if scores[u][0].weight > scores[m][0].weight then u else m;
    } else {
      t := u;
    }
  }

  /** Every entry is `[]` or the type's own predicted value; it is kept
      exactly when the type's weight equals the largest weight of the node's
      predictions; so all kept types share that weight. */
  lemma KeptIsMaximal(scores: map<AttrType, seq<Scored>>, t: AttrType)
    requires t in scores
    ensures Kept(scores, t) == [] || (scores[t] != [] && Kept(scores, t) == [scores[t][0].value])
    ensures Kept(scores, t) != [] <==>
              && scores[t] != []
              && forall u :: u in scores && scores[u] != [] ==> scores[u][0].weight <= scores[t][0].weight
    ensures forall u :: u in scores && Kept(scores, t) != [] && Kept(scores, u) != [] ==>
              scores[u][0].weight == scores[t][0].weight
  {
  }

  /** When a single type predicts anything for the node, that type keeps its
      value and every other type is cleared. */
  lemma OnlyPredictingTypeKept(scores: map<AttrType, seq<Scored>>, t: AttrType)
    requires t in scores && scores[t] != []
    requires forall u :: u in scores && u != t ==> scores[u] == []
    ensures Kept(scores, t) == [scores[t][0].value]
    ensures forall u :: u in scores && u != t ==> Kept(scores, u) == []
  {
  }
}
