/** The clique-weighted predictor `coeff_method`. The candidate pool of an
    empty node is the largest clique of its closed neighbourhood when that
    clique has more than 4 nodes, its neighbours otherwise; each candidate
    value is weighted by its count times one plus the number of ordered
    pairs of distinct neighbourhood nodes that both hold it. */
module CoeffPredictor {
  import opened Graphs
  import opened Tally
  import opened NeighbourValues
  import opened Cliques

  /** The table knows `p` holds `v`. */
  predicate Holds(attr: AttrTable, p: Node, v: Value) {
    p in attr && v in attr[p]
  }

  /** What the inner loop over `nbr2` adds for `nbr1 == p`: the nodes `q` of
      `qs` other than `p` such that both hold `v`. */
  function Row(p: Node, qs: seq<Node>, attr: AttrTable, v: Value): nat {
    if qs == [] then 0
    else
      var q := qs[|qs| - 1];
      Row(p, qs[..|qs| - 1], attr, v)
      + (if q != p && p in attr && q in attr && v in attr[p] && v in attr[q] then 1 else 0)
  }

  /** What the two nested loops add for the first nodes `ps` of the subgraph. */
  function Pairs(ps: seq<Node>, qs: seq<Node>, attr: AttrTable, v: Value): nat {
    if ps == [] then 0
    else Pairs(ps[..|ps| - 1], qs, attr, v) + Row(ps[|ps| - 1], qs, attr, v)
  }

  /** The ordered pairs `(p, q)`, `p != q`, of subgraph nodes both holding `v`. */
  function SharedPairs(sg: seq<Node>, attr: AttrTable, v: Value): nat {
    Pairs(sg, sg, attr, v)
  }

  /** How many nodes of `ps` hold `v`. */
  function Holders(ps: seq<Node>, attr: AttrTable, v: Value): (h: nat)
    ensures h <= |ps|
  {
    if ps == [] then 0
    else Holders(ps[..|ps| - 1], attr, v) + (if Holds(attr, ps[|ps| - 1], v) then 1 else 0)
  }

  /** The weight `cpt[v] * number_of_share` of value `v`. */
  function Score(vals: seq<Value>, sg: seq<Node>, attr: AttrTable, v: Value): nat {
    Count(vals, v) * (1 + SharedPairs(sg, attr, v))
  }

  /** `coeff_dict` after the weighting loop: each Counter item reweighted. */
  function Weighted(items: seq<Scored>, sg: seq<Node>, attr: AttrTable): seq<Scored> {
    seq(|items|, j requires 0 <= j < |items| =>
      Scored(items[j].value, items[j].weight * (1 + SharedPairs(sg, attr, items[j].value))))
  }

  /** `iterListe`: the largest listed clique when it has more than 4 nodes,
      the neighbours of `n` otherwise. */
  function Pool(g: Graph, cs: seq<seq<Node>>, n: Node): seq<Node>
    requires n in g.adj
  {
    var clique := Longest(cs);
    if |clique| > 4 then clique else g.adj[n]
  }

  /** The prediction for one empty node: `[]` when the pool holds no value,
      otherwise the first `(value, weight)` item of maximal weight.
      `cs` stands for `list(nx.find_cliques(SG))`, the maximal cliques
      networkx lists for the subgraph `SG` of `n` and its neighbours. */
  function CoeffPrediction(g: Graph, cs: seq<seq<Node>>, attr: AttrTable, n: Node): seq<Scored>
    requires n in g.adj
  {
    var vals := PoolValues(Pool(g, cs, n), attr);
    if vals == [] then []
    else
      var w := Weighted(Counter(vals), SubgraphNodes(g, n), attr);
      [w[FirstMaxIndex(w)]]
  }

  /** The share loop: `number_of_share` starts at 1 and gains one for each
      ordered pair of distinct subgraph nodes that both hold `v`. */
  method ShareCount(sg: seq<Node>, attr: AttrTable, v: Value) returns (numberOfShare: nat)
    ensures numberOfShare == 1 + SharedPairs(sg, attr, v)
  {
    numberOfShare := 1;
    for a := 0 to |sg|
      invariant numberOfShare == 1 + Pairs(sg[..a], sg, attr, v)
    {
      var nbr1 := sg[a];
      assert sg[..a + 1][..a] == sg[..a];
      for b := 0 to |sg|
        invariant numberOfShare == 1 + Pairs(sg[..a], sg, attr, v) + Row(nbr1, sg[..b], attr, v)
      {
        var nbr2 := sg[b];
        assert sg[..b + 1][..b] == sg[..b];
        if nbr2 != nbr1 && nbr1 in attr && nbr2 in attr {
          numberOfShare := numberOfShare + (if v in attr[nbr1] && v in attr[nbr2] then 1 else 0);
        }
      }
      assert sg[..|sg|] == sg;
    }
    assert sg[..|sg|] == sg;
  }

  /** The weighting loop: each Counter item `(v, c)` of `coeff_dict` is
      overwritten by `(v, c * number_of_share)`. */
  method WeighCounter(cpt: seq<Scored>, sg: seq<Node>, attr: AttrTable) returns (coeffDict: seq<Scored>)
    ensures coeffDict == Weighted(cpt, sg, attr)
  {
    coeffDict := cpt;
    for k := 0 to |coeffDict|
      invariant |coeffDict| == |cpt|
      invariant forall j :: k <= j < |cpt| ==> coeffDict[j] == cpt[j]
      invariant forall j :: 0 <= j < k ==> coeffDict[j] == Weighted(cpt, sg, attr)[j]
    {
      var valAttr := coeffDict[k].value;
      var numberOfShare := ShareCount(sg, attr, valAttr);
      coeffDict := coeffDict[k := Scored(valAttr, cpt[k].weight * numberOfShare)];
    }
  }

  /** The body of `coeff_method`'s loop for one empty node `n`, with
      `listeCliques` the cliques networkx lists for its closed
      neighbourhood. */
  method PredictNode(g: Graph, attr: AttrTable, n: Node, listeCliques: seq<seq<Node>>) returns (prediction: seq<Scored>)
    requires n in g.adj
    ensures prediction == CoeffPrediction(g, listeCliques, attr, n)
  {
    var sg := SubgraphNodes(g, n);
    var clique := MaxClique(listeCliques);
    var iterListe := if |clique| > 4 then clique else g.adj[n];
    var nbrsAttrValues := CollectValues(iterListe, attr);
    prediction := [];
    if nbrsAttrValues != [] {
      var cpt := Counter(nbrsAttrValues);
      var coeffDict := WeighCounter(cpt, sg, attr);
      prediction := [coeffDict[FirstMaxIndex(coeffDict)]];
    }
  }

  /** `coeff_method(graph, empty, attr)`, with `cliques[n]` standing for the
      clique list networkx enumerates for node `n`'s subgraph (networkx
      answers for every node of the graph). It fails on the first empty node the
      graph does not hold; otherwise it maps every empty node, and only
      those, to its scored prediction. */
  method CoeffMethod(g: Graph, empty: seq<Node>, attr: AttrTable, cliques: map<Node, seq<seq<Node>>>)
    returns (r: Result<map<Node, seq<Scored>>>)
    requires forall n :: n in g.adj ==> n in cliques
    ensures r.Err? <==> !AllInGraph(g, empty)
    ensures r.Err? ==> exists k :: MissingAt(g, empty, k) && r.error == NodeNotInGraph(empty[k])
    ensures r.Ok? ==> r.value.Keys == Members(empty)
    ensures r.Ok? ==> forall n :: n in r.value ==> n in g.adj && r.value[n] == CoeffPrediction(g, cliques[n], attr, n)
  {
    var predicted: map<Node, seq<Scored>> := map[];
    for i := 0 to |empty|
      invariant forall j :: 0 <= j < i ==> empty[j] in g.adj
      invariant predicted.Keys == Members(empty[..i])
      invariant forall n :: n in predicted ==> n in g.adj && predicted[n] == CoeffPrediction(g, cliques[n], attr, n)
    {
      var n := empty[i];
      if n !in g.adj {
        assert MissingAt(g, empty, i);
        return Err(NodeNotInGraph(n));
      }
      var prediction := PredictNode(g, attr, n, cliques[n]);
      predicted := predicted[n := prediction];
      PrefixMembers(empty, i);
    }
    PrefixMembers(empty, |empty|);
    return Ok(predicted);
  }

  /** A node of a non-empty pool is `n` or one of its neighbours, given the
      clique enumeration's contract. */
  lemma PoolInNeighbourhood(g: Graph, cs: seq<seq<Node>>, n: Node)
    requires n in g.adj
    requires CliquesOf(g, n, cs)
    ensures forall m :: m in Pool(g, cs, n) ==> m == n || m in g.adj[n]
  {
    LongestIsFirstLongest(cs);
    var c := Longest(cs);
    if |c| > 4 {
      var k :| 0 <= k < |cs| && cs[k] == c && forall i :: 0 <= i < k ==> |cs[i]| < |c|;
      assert IsClique(g, SubgraphNodes(g, n), cs[k]);
    }
  }

  /** A prediction holds at most one pair; none exactly when no pool node
      found in the table has a value; otherwise its value is held by a pool
      node. */
  lemma CoeffShape(g: Graph, cs: seq<seq<Node>>, attr: AttrTable, n: Node)
    requires n in g.adj
    ensures |CoeffPrediction(g, cs, attr, n)| <= 1
    ensures CoeffPrediction(g, cs, attr, n) == []
            <==> forall m :: m in Pool(g, cs, n) && m in attr ==> attr[m] == []
    ensures CoeffPrediction(g, cs, attr, n) != []
            ==> HeldBy(Pool(g, cs, n), attr, CoeffPrediction(g, cs, attr, n)[0].value)
  {
    var pool := Pool(g, cs, n);
    var vals := PoolValues(pool, attr);
    PoolValuesEmpty(pool, attr);
    if vals != [] {
      var w := Weighted(Counter(vals), SubgraphNodes(g, n), attr);
      TallyFirstMax(vals, w);
      PoolValuesMembers(pool, attr, w[FirstMaxIndex(w)].value);
    }
  }

  /** The weighted Counter lists the Counter's keys, each with its score. */
  lemma WeightedScores(vals: seq<Value>, sg: seq<Node>, attr: AttrTable)
    ensures |Weighted(Counter(vals), sg, attr)| == |Distinct(vals)|
    ensures forall j :: 0 <= j < |Distinct(vals)| ==>
              && Weighted(Counter(vals), sg, attr)[j].value == Distinct(vals)[j]
              && Weighted(Counter(vals), sg, attr)[j].weight == Score(vals, sg, attr, Distinct(vals)[j])
  {
    var c := Counter(vals);
    var w := Weighted(c, sg, attr);
    forall j | 0 <= j < |Distinct(vals)|
      ensures w[j].value == Distinct(vals)[j] && w[j].weight == Score(vals, sg, attr, Distinct(vals)[j])
    {
      var v := Distinct(vals)[j];
      assert c[j] == Scored(v, Count(vals, v));
      assert w[j] == Scored(v, Count(vals, v) * (1 + SharedPairs(sg, attr, v)));
    }
  }

  /** Multiplying by a positive factor does not shrink a count; kept as a
      lemma so that the nonlinear step is proved outside `BestWeight`. */
  lemma MulAtLeast(a: nat, b: nat)
    requires b >= 1
    ensures a * b >= a
  {
  }

  /** The item `max` picks from the weighted Counter of `vals`. */
  function Best(vals: seq<Value>, sg: seq<Node>, attr: AttrTable): Scored
    requires vals != []
  {
    var w := Weighted(Counter(vals), sg, attr);
    w[FirstMaxIndex(w)]
  }

  /** The picked item carries the score of a value of `vals`, which is at
      least that value's count, itself at least 1. */
  lemma BestWeight(vals: seq<Value>, sg: seq<Node>, attr: AttrTable)
    requires vals != []
    ensures Best(vals, sg, attr).value in vals
    ensures Best(vals, sg, attr).weight == Score(vals, sg, attr, Best(vals, sg, attr).value)
    ensures Best(vals, sg, attr).weight >= Count(vals, Best(vals, sg, attr).value) >= 1
  {
    var s := Best(vals, sg, attr);
    assert s.value in vals && s.weight == Score(vals, sg, attr, s.value) by {
      var w := Weighted(Counter(vals), sg, attr);
      WeightedScores(vals, sg, attr);
      TallyFirstMax(vals, w);
      assert s == w[FirstMaxIndex(w)];
    }
    MulAtLeast(Count(vals, s.value), 1 + SharedPairs(sg, attr, s.value));
  }

  /** The `i`-th pool value scores no higher than the picked item, and if
      it scores as high, the picked value is met no later than it. */
  lemma BestBeats(vals: seq<Value>, sg: seq<Node>, attr: AttrTable, i: int)
    requires 0 <= i < |vals|
    ensures Score(vals, sg, attr, vals[i]) <= Best(vals, sg, attr).weight
    ensures Score(vals, sg, attr, vals[i]) == Best(vals, sg, attr).weight ==> Best(vals, sg, attr).value in vals[..i + 1]
  {
    var w := Weighted(Counter(vals), sg, attr);
    WeightedScores(vals, sg, attr);
    TallyFirstMax(vals, w);
    var s := Best(vals, sg, attr);
    assert s == w[FirstMaxIndex(w)];
    assert vals[i] in Distinct(vals);
    var j :| 0 <= j < |Distinct(vals)| && Distinct(vals)[j] == vals[i];
    assert w[j].weight == Score(vals, sg, attr, vals[i]);
  }

  /** No value of `vals` scores higher than the picked item, and of those
      scoring as high the picked one is met first. */
  lemma BestIsFirstMaxScore(vals: seq<Value>, sg: seq<Node>, attr: AttrTable)
    requires vals != []
    ensures forall i :: 0 <= i < |vals| ==> Score(vals, sg, attr, vals[i]) <= Best(vals, sg, attr).weight
    ensures forall i :: 0 <= i < |vals| && Score(vals, sg, attr, vals[i]) == Best(vals, sg, attr).weight
                        ==> Best(vals, sg, attr).value in vals[..i + 1]
  {
    forall i | 0 <= i < |vals|
      ensures Score(vals, sg, attr, vals[i]) <= Best(vals, sg, attr).weight
      ensures Score(vals, sg, attr, vals[i]) == Best(vals, sg, attr).weight ==> Best(vals, sg, attr).value in vals[..i + 1]
    {
      BestBeats(vals, sg, attr, i);
    }
  }

  /** The predicted pair's weight is its value's score: its count among the
      pool's values times one plus its shared pairs, hence at least its
      count, which is at least 1. No pool value scores higher, and of those
      scoring as high it is the first met in pool order. */
  lemma CoeffWeight(g: Graph, cs: seq<seq<Node>>, attr: AttrTable, n: Node)
    requires n in g.adj
    requires CoeffPrediction(g, cs, attr, n) != []
    ensures var s, vals := CoeffPrediction(g, cs, attr, n)[0], PoolValues(Pool(g, cs, n), attr);
            && s.weight == Score(vals, SubgraphNodes(g, n), attr, s.value)
            && s.weight >= Count(vals, s.value) >= 1
    ensures var s, vals := CoeffPrediction(g, cs, attr, n)[0], PoolValues(Pool(g, cs, n), attr);
            forall i :: 0 <= i < |vals| ==> Score(vals, SubgraphNodes(g, n), attr, vals[i]) <= s.weight
    ensures var s, vals := CoeffPrediction(g, cs, attr, n)[0], PoolValues(Pool(g, cs, n), attr);
            forall i :: 0 <= i < |vals| && Score(vals, SubgraphNodes(g, n), attr, vals[i]) == s.weight
                        ==> s.value in vals[..i + 1]
  {
    var vals := PoolValues(Pool(g, cs, n), attr);
    BestWeight(vals, SubgraphNodes(g, n), attr);
    BestIsFirstMaxScore(vals, SubgraphNodes(g, n), attr);
    assert CoeffPrediction(g, cs, attr, n) == [Best(vals, SubgraphNodes(g, n), attr)];
  }

  /** Closed form of one row: for `p` holding `v`, every other holder of
      `qs`. */
  lemma {:induction false} RowHolders(p: Node, qs: seq<Node>, attr: AttrTable, v: Value)
    requires NoDuplicates(qs)
    ensures Row(p, qs, attr, v) == if Holds(attr, p, v) then Holders(qs, attr, v) - (if p in qs then 1 else 0) else 0
  {
    if qs != [] {
      var init, q := qs[..|qs| - 1], qs[|qs| - 1];
      RowHolders(p, init, attr, v);
      assert qs == init + [q];
      assert q !in init;
    }
  }

  /** Closed form of the nested loops over a part `ps` of a duplicate-free `qs`. */
  lemma {:induction false} PairsHolders(ps: seq<Node>, qs: seq<Node>, attr: AttrTable, v: Value)
    requires NoDuplicates(qs)
    requires forall p :: p in ps ==> p in qs
    ensures Pairs(ps, qs, attr, v) == Holders(ps, attr, v) * (Holders(qs, attr, v) - 1)
  {
    if ps != [] {
      var init, p := ps[..|ps| - 1], ps[|ps| - 1];
      assert forall x :: x in init ==> x in ps;
      PairsHolders(init, qs, attr, v);
      RowHolders(p, qs, attr, v);
      var h, hi := Holders(qs, attr, v), Holders(init, attr, v);
      assert p in qs;
      if Holds(attr, p, v) {
        assert Row(p, qs, attr, v) == h - 1;
        assert Holders(ps, attr, v) == hi + 1;
        MulSucc(hi, h - 1);
      } else {
        assert Row(p, qs, attr, v) == 0;
        assert Holders(ps, attr, v) == hi;
      }
    }
  }

  /** One more row of `b` pairs; kept as a lemma so that the nonlinear step
      is proved outside `PairsHolders`. */
  lemma MulSucc(a: int, b: int)
    ensures (a + 1) * b == a * b + b
  {
  }

  /** In a duplicate-free subgraph where `h` nodes hold `v`, exactly
      `h * (h - 1)` ordered pairs of distinct nodes share it. */
  lemma SharedPairsClosedForm(sg: seq<Node>, attr: AttrTable, v: Value)
    requires NoDuplicates(sg)
    ensures SharedPairs(sg, attr, v) == Holders(sg, attr, v) * (Holders(sg, attr, v) - 1)
  {
    PairsHolders(sg, sg, attr, v);
  }

  /** Over a duplicate-free subgraph where `h` nodes hold `v`, the score of
      `v` is its count times `1 + h * (h - 1)`. The subgraph of a networkx
      graph is duplicate-free (`SubgraphNodes`), so with `CoeffWeight` this
      is the closed form of the predicted weight. */
  lemma ScoreClosedForm(vals: seq<Value>, sg: seq<Node>, attr: AttrTable, v: Value)
    requires NoDuplicates(sg)
    ensures Score(vals, sg, attr, v) == Count(vals, v) * (1 + Holders(sg, attr, v) * (Holders(sg, attr, v) - 1))
  {
    var h: int := Holders(sg, attr, v);
    SharedPairsClosedForm(sg, attr, v);
    assert SharedPairs(sg, attr, v) == h * (h - 1);
  }
}
