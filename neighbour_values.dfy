/** The value list `nbrs_attr_values` both predictors build: every value
    held by the nodes of a pool, with multiplicity, in pool order. */
module NeighbourValues {
  import opened Graphs

  /** The values of the pool's nodes that appear in `attr`, node after node. */
  function PoolValues(pool: seq<Node>, attr: AttrTable): seq<Value> {
    if pool == [] then []
    else PoolValues(pool[..|pool| - 1], attr)
         + (if pool[|pool| - 1] in attr then attr[pool[|pool| - 1]] else [])
  }

  /** Some node of the pool that the table knows holds `v`. */
  predicate HeldBy(pool: seq<Node>, attr: AttrTable, v: Value) {
    exists m :: m in pool && m in attr && v in attr[m]
  }

  /** A value is collected exactly when some pool node in the table holds it. */
  lemma {:induction false} PoolValuesMembers(pool: seq<Node>, attr: AttrTable, v: Value)
    ensures v in PoolValues(pool, attr) <==> HeldBy(pool, attr, v)
  {
    if pool != [] {
      var init, last := pool[..|pool| - 1], pool[|pool| - 1];
      PoolValuesMembers(init, attr, v);
      assert pool == init + [last];
      if HeldBy(pool, attr, v) && !HeldBy(init, attr, v) {
        var m :| m in pool && m in attr && v in attr[m];
        assert m == last;
      }
    }
  }

  /** Nothing is collected exactly when no pool node in the table has a value. */
  lemma {:induction false} PoolValuesEmpty(pool: seq<Node>, attr: AttrTable)
    ensures PoolValues(pool, attr) == [] <==> forall m :: m in pool && m in attr ==> attr[m] == []
  {
    if pool != [] {
      var init, last := pool[..|pool| - 1], pool[|pool| - 1];
      PoolValuesEmpty(init, attr);
      assert pool == init + [last];
      assert forall m :: m in pool <==> m in init || m == last;
    }
  }

  /** The collecting loop of `naive_method` and `coeff_method`. */
  method CollectValues(pool: seq<Node>, attr: AttrTable) returns (vals: seq<Value>)
    ensures vals == PoolValues(pool, attr)
  {
    vals := [];
    for i := 0 to |pool|
      invariant vals == PoolValues(pool[..i], attr)
    {
      var nbr := pool[i];
      assert pool[..i + 1][..i] == pool[..i];
      if nbr in attr {
        var held := attr[nbr];
        for j := 0 to |held|
          invariant vals == PoolValues(pool[..i], attr) + held[..j]
        {
          vals := vals + [held[j]];
          assert held[..j + 1] == held[..j] + [held[j]];
        }
        assert held[..|held|] == held;
      }
    }
    assert pool[..|pool|] == pool;
  }
}
