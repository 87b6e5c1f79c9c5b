/** The neighbour-majority predictor `naive_method` and its duplicate
    `naive_method2`: each empty node gets the value most often held by its
    neighbours, the first-met one on a tie. */
module NaivePredictor {
  import opened Graphs
  import opened Tally
  import opened NeighbourValues

  /** The prediction for one empty node `n`: `[]` when its neighbours hold
      no value, otherwise the neighbours' most common value. */
  function NaivePrediction(g: Graph, attr: AttrTable, n: Node): seq<Value>
    requires n in g.adj
  {
    var vals := PoolValues(g.adj[n], attr);
    if vals == [] then [] else [MostCommon(vals)]
  }

  /** The body of the loop over `empty` for one node of the graph: collect
      the neighbours' values, then take the Counter's first maximum. */
  method PredictNaive(g: Graph, attr: AttrTable, n: Node) returns (prediction: seq<Value>)
    requires n in g.adj
    ensures prediction == NaivePrediction(g, attr, n)
  {
    var nbrsAttrValues := CollectValues(g.adj[n], attr);
    prediction := [];
    if nbrsAttrValues != [] {
      var cpt := Counter(nbrsAttrValues);
      var a := cpt[FirstMaxIndex(cpt)].value;
      prediction := prediction + [a];
    }
  }

  /** `naive_method(graph, empty, attr)`. It fails on the first empty node
      the graph does not hold; otherwise it maps every empty node, and only
      those, to its prediction. */
  method NaiveMethod(g: Graph, empty: seq<Node>, attr: AttrTable) returns (r: Result<map<Node, seq<Value>>>)
    ensures r.Err? <==> !AllInGraph(g, empty)
    ensures r.Err? ==> exists k :: MissingAt(g, empty, k) && r.error == NodeNotInGraph(empty[k])
    ensures r.Ok? ==> r.value.Keys == Members(empty)
    ensures r.Ok? ==> forall n :: n in r.value ==> n in g.adj && r.value[n] == NaivePrediction(g, attr, n)
  {
    var predicted: map<Node, seq<Value>> := map[];
    for i := 0 to |empty|
      invariant forall j :: 0 <= j < i ==> empty[j] in g.adj
      invariant predicted.Keys == Members(empty[..i])
      invariant forall n :: n in predicted ==> n in g.adj && predicted[n] == NaivePrediction(g, attr, n)
    {
      var n := empty[i];
      if n !in g.adj {
        assert MissingAt(g, empty, i);
        return Err(NodeNotInGraph(n));
      }
      var prediction := PredictNaive(g, attr, n);
      predicted := predicted[n := prediction];
      PrefixMembers(empty, i);
    }
    PrefixMembers(empty, |empty|);
    return Ok(predicted);
  }

  /** `naive_method2`: the same loop as `naive_method` (only commented-out
      lines differ), so its contract pins down the same map. */
  method NaiveMethod2(g: Graph, empty: seq<Node>, attr: AttrTable) returns (r: Result<map<Node, seq<Value>>>)
    ensures r.Err? <==> !AllInGraph(g, empty)
    ensures r.Err? ==> exists k :: MissingAt(g, empty, k) && r.error == NodeNotInGraph(empty[k])
    ensures r.Ok? ==> r.value.Keys == Members(empty)
    ensures r.Ok? ==> forall n :: n in r.value ==> n in g.adj && r.value[n] == NaivePrediction(g, attr, n)
  {
    var predicted: map<Node, seq<Value>> := map[];
    for i := 0 to |empty|
      invariant forall j :: 0 <= j < i ==> empty[j] in g.adj
      invariant predicted.Keys == Members(empty[..i])
      invariant forall n :: n in predicted ==> n in g.adj && predicted[n] == NaivePrediction(g, attr, n)
    {
      var n := empty[i];
      if n !in g.adj {
        assert MissingAt(g, empty, i);
        return Err(NodeNotInGraph(n));
      }
      var prediction := PredictNaive(g, attr, n);
      predicted := predicted[n := prediction];
      PrefixMembers(empty, i);
    }
    PrefixMembers(empty, |empty|);
    return Ok(predicted);
  }

  /** `naive_method` and `naive_method2` return the same result on every
      input: the shared contract admits a single map, or a single error. */
  method NaiveMethodsAgree(g: Graph, empty: seq<Node>, attr: AttrTable)
    returns (a: Result<map<Node, seq<Value>>>, b: Result<map<Node, seq<Value>>>)
    ensures a == b
  {
    a := NaiveMethod(g, empty, attr);
    b := NaiveMethod2(g, empty, attr);
    if a.Err? {
      var k :| MissingAt(g, empty, k) && a.error == NodeNotInGraph(empty[k]);
      var l :| MissingAt(g, empty, l) && b.error == NodeNotInGraph(empty[l]);
      assert k == l;
    } else {
      assert a.value == b.value;
    }
  }

  /** A prediction holds at most one value, and none exactly when no
      neighbour found in the table has a value. */
  lemma NaiveShape(g: Graph, attr: AttrTable, n: Node)
    requires n in g.adj
    ensures |NaivePrediction(g, attr, n)| <= 1
    ensures NaivePrediction(g, attr, n) == [] <==> forall m :: m in g.adj[n] && m in attr ==> attr[m] == []
  {
    PoolValuesEmpty(g.adj[n], attr);
  }

  /** The predicted value is held by a neighbour; no value occurs more often
      among the neighbours' values; of the values occurring as often, it is
      the first met in neighbour order. */
  lemma NaiveChoice(g: Graph, attr: AttrTable, n: Node)
    requires n in g.adj
    requires NaivePrediction(g, attr, n) != []
    ensures HeldBy(g.adj[n], attr, NaivePrediction(g, attr, n)[0])
    ensures var vals, a := PoolValues(g.adj[n], attr), NaivePrediction(g, attr, n)[0];
            forall i :: 0 <= i < |vals| ==> Count(vals, vals[i]) <= Count(vals, a)
    ensures var vals, a := PoolValues(g.adj[n], attr), NaivePrediction(g, attr, n)[0];
            forall i :: 0 <= i < |vals| && Count(vals, vals[i]) == Count(vals, a) ==> a in vals[..i + 1]
  {
    var vals := PoolValues(g.adj[n], attr);
    MostCommonChoice(vals);
    PoolValuesMembers(g.adj[n], attr, MostCommon(vals));
  }

  /** The values the example's neighbours hold: A, A, B. */
  lemma ExampleValues()
    ensures PoolValues(["a", "b", "c"], map["a" := ["A"], "b" := ["A"], "c" := ["B"]]) == ["A", "A", "B"]
  {
    var attr := map["a" := ["A"], "b" := ["A"], "c" := ["B"]];
    assert ["a", "b", "c"][..2] == ["a", "b"] && ["a", "b"][..1] == ["a"] && ["a"][..0] == [];
    assert PoolValues(["a"], attr) == ["A"];
    assert PoolValues(["a", "b"], attr) == ["A", "A"];
  }

  /** In A, A, B the value A occurs twice and B once. */
  lemma ExampleCounts()
    ensures Count(["A", "A", "B"], "A") == 2 && Count(["A", "A", "B"], "B") == 1
  {
    var vals := ["A", "A", "B"];
    assert vals[..2] == ["A", "A"] && vals[..2][..1] == ["A"] && ["A"][..0] == [];
  }

  /** Neighbours holding A, A and B: the prediction is A. */
  lemma NaiveMajorityExample()
    ensures NaivePrediction(Graph(["n", "a", "b", "c"], map["n" := ["a", "b", "c"], "a" := ["n"], "b" := ["n"], "c" := ["n"]]),
                            map["a" := ["A"], "b" := ["A"], "c" := ["B"]], "n") == ["A"]
  {
    var g := Graph(["n", "a", "b", "c"], map["n" := ["a", "b", "c"], "a" := ["n"], "b" := ["n"], "c" := ["n"]]);
    var vals := ["A", "A", "B"];
    assert PoolValues(g.adj["n"], map["a" := ["A"], "b" := ["A"], "c" := ["B"]]) == vals by {
      ExampleValues();
    }
    assert MostCommon(vals) == "A" by {
      ExampleCounts();
      MostCommonChoice(vals);
      var m := MostCommon(vals);
      assert Count(vals, vals[0]) <= Count(vals, m);
      assert m == "A" || m == "B";
    }
  }
}
