/** The vocabulary builder `vect_model(graph, Vect, attr_group)`: it appends
    to the caller's list one new list holding every attribute value the
    graph's nodes hold, once each, in the order first met. */
module Vocabulary {
  import opened Graphs
  import opened Tally
  import opened NeighbourValues

  /** The caller's list `Vect`, a list of value lists updated in place. */
  class VectList {
    var rows: seq<seq<Value>>

    /** `Vect = []`. */
    constructor()
      ensures rows == []
    {
      rows := [];
    }
  }

  /** The list `vect_model` appends: the distinct values held by the graph's
      nodes, visited in graph order and each node's values in table order.
      It holds each value once, exactly the values some graph node in the
      table holds, and no more of them than the nodes hold in all. */
  function Vocabulary(g: Graph, attr: AttrTable): (voc: seq<Value>)
    ensures NoDuplicates(voc)
    ensures forall v :: v in voc <==> HeldBy(g.nodes, attr, v)
    ensures |voc| <= |PoolValues(g.nodes, attr)|
  {
    var vals := PoolValues(g.nodes, attr);
    assert forall v :: v in vals <==> HeldBy(g.nodes, attr, v) by {
      forall v
        ensures v in vals <==> HeldBy(g.nodes, attr, v)
      {
        PoolValuesMembers(g.nodes, attr, v);
      }
    }
    Distinct(vals)
  }

  /** The vocabulary is in first-met order: by the time the visit first
      meets the `j`-th value, it has met every value listed before it. */
  lemma VocabularyOrder(g: Graph, attr: AttrTable)
    ensures var vals, voc := PoolValues(g.nodes, attr), Vocabulary(g, attr);
            forall j, m, i :: 0 <= i <= j < |voc| && 0 <= m < |vals| && vals[m] == voc[j] ==> voc[i] in vals[..m + 1]
  {
    var vals, voc := PoolValues(g.nodes, attr), Vocabulary(g, attr);
    forall j, m, i | 0 <= i <= j < |voc| && 0 <= m < |vals| && vals[m] == voc[j]
      ensures voc[i] in vals[..m + 1]
    {
      DistinctOrder(vals, j, m);
    }
  }

  /** Appending one value to the visit extends the distinct list by that
      value exactly when it is new. */
  lemma DistinctSnoc(s: seq<Value>, x: Value)
    ensures Distinct(s + [x]) == if x in Distinct(s) then Distinct(s) else Distinct(s) + [x]
  {
    assert (s + [x])[..|s|] == s;
  }

  /** Taking one more element of `held` adds it at the end of the visit. */
  lemma VisitStep(seen: seq<Value>, held: seq<Value>, j: int)
    requires 0 <= j < |held|
    ensures seen + held[..j + 1] == (seen + held[..j]) + [held[j]]
  {
    assert held[..j + 1] == held[..j] + [held[j]];
  }

  /** The loop over one node's values: each value not yet in `Vect[-1]` is
      appended to it. */
  method AddValues(vect: VectList, held: seq<Value>, ghost seen: seq<Value>)
    modifies vect
    requires vect.rows != [] && vect.rows[|vect.rows| - 1] == Distinct(seen)
    ensures vect.rows == old(vect.rows)[..|old(vect.rows)| - 1] + [Distinct(seen + held)]
  {
    ghost var before := vect.rows[..|vect.rows| - 1];
    assert seen + held[..0] == seen;
    assert vect.rows == before + [Distinct(seen)];
    for j := 0 to |held|
      invariant vect.rows == before + [Distinct(seen + held[..j])]
    {
      var attrValue := held[j];
      var last := vect.rows[|vect.rows| - 1];
      assert Distinct(seen + held[..j + 1]) == if attrValue in last then last else last + [attrValue] by {
        VisitStep(seen, held, j);
        DistinctSnoc(seen + held[..j], attrValue);
      }
      if attrValue !in last {
        vect.rows := vect.rows[..|vect.rows| - 1] + [last + [attrValue]];
      }
    }
    assert held[..|held|] == held;
  }

  /** `vect_model(graph, Vect, attr_group)`: `Vect` gains one last list, the
      vocabulary of `attr_group`, and its earlier lists are unchanged. */
  method VectModel(graph: Graph, vect: VectList, attrGroup: AttrTable)
    modifies vect
    ensures vect.rows == old(vect.rows) + [Vocabulary(graph, attrGroup)]
  {
    ghost var before := vect.rows;
    vect.rows := vect.rows + [[]];
    for i := 0 to |graph.nodes|
      invariant vect.rows == before + [Distinct(PoolValues(graph.nodes[..i], attrGroup))]
    {
      var node := graph.nodes[i];
      assert graph.nodes[..i + 1][..i] == graph.nodes[..i];
      if node in attrGroup {
        AddValues(vect, attrGroup[node], PoolValues(graph.nodes[..i], attrGroup));
        assert PoolValues(graph.nodes[..i + 1], attrGroup) == PoolValues(graph.nodes[..i], attrGroup) + attrGroup[node];
      } else {
        assert PoolValues(graph.nodes[..i + 1], attrGroup) == PoolValues(graph.nodes[..i], attrGroup);
      }
    }
    assert graph.nodes[..|graph.nodes|] == graph.nodes;
  }
}
