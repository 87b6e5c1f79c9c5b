/** The accuracy evaluator `evaluation_accuracy(groundtruth, pred)`: every
    predicted node found in the ground truth earns the share of its
    ground-truth values that the prediction names; the sum is scaled to a
    percentage of the number of predicted nodes.

    As written, the evaluator also adds one unit when a node's prediction
    and ground truth are both empty, then divides by the ground truth's
    length anyway, so that unit never survives: the division by zero ends
    the evaluation. `fixed` selects the evidently intended evaluator, where
    the ratio is the `else` of the both-empty test. */
module Evaluation {
  import opened Graphs

  /** `len([c for c in pv if c in truth])`: the predicted values found in the
      ground truth, with their multiplicity in the prediction. */
  function Matches(pv: seq<Value>, truth: seq<Value>): (k: nat)
    ensures k <= |pv|
    ensures k == |pv| <==> forall c :: c in pv ==> c in truth
    ensures k == 0 <==> forall c :: c in pv ==> c !in truth
  {
    if pv == [] then 0
    else
      var init, last := pv[..|pv| - 1], pv[|pv| - 1];
      assert forall c :: c in pv <==> c in init || c == last by {
        assert pv == init + [last];
      }
      Matches(init, truth) + (if last in truth then 1 else 0)
  }

  /** Node `p`'s term divides by zero: as written, whenever its ground truth
      is empty; once fixed, only when its prediction is not empty. */
  predicate ZeroDivisor(gt: AttrTable, pred: AttrTable, p: Node, fixed: bool)
    requires p in pred
  {
    p in gt && gt[p] == [] && (!fixed || pred[p] != [])
  }

  /** `k / n`: the share of `n` ground-truth values that `k` matches make. */
  function Ratio(k: nat, n: nat): real
    requires n != 0
  {
    k as real / n as real
  }

  /** What node `p` adds to the true-positive sum. */
  function Credit(gt: AttrTable, pred: AttrTable, p: Node, fixed: bool): real
    requires p in pred && !ZeroDivisor(gt, pred, p, fixed)
  {
    if p !in gt then 0.0
    else if pred[p] == [] && gt[p] == [] then 1.0
    else Ratio(Matches(pred[p], gt[p]), |gt[p]|)
  }

  /** Some element of a non-empty set: the dictionary's next key. */
  ghost function Pick(s: set<Node>): Node
    requires s != {}
  {
    var p :| p in s; p
  }

  /** The credits of the predicted nodes in `s`, summed. */
  ghost function Total(gt: AttrTable, pred: AttrTable, s: set<Node>, fixed: bool): real
    requires s <= pred.Keys
    requires forall p :: p in s ==> !ZeroDivisor(gt, pred, p, fixed)
    decreases s
  {
    if s == {} then 0.0
    else
      var p := Pick(s);
      Credit(gt, pred, p, fixed) + Total(gt, pred, s - {p}, fixed)
  }

  /** `100 * sum / count`, the sum as a percentage of the node count. */
  function Percent(sum: real, count: nat): real
    requires count != 0
  {
    100.0 * sum / count as real
  }

  /** The evaluator's outcome: the division by zero of some node's term or
      of an empty prediction, or the percentage. */
  ghost function Accuracy(gt: AttrTable, pred: AttrTable, fixed: bool): Result<real> {
    if exists p :: p in pred && ZeroDivisor(gt, pred, p, fixed) then Err(DivisionByZero)
    else if |pred| == 0 then Err(DivisionByZero)
    else Ok(Percent(Total(gt, pred, pred.Keys, fixed), |pred|))
  }

  /** The sum does not depend on the order the keys are visited in: any
      node of `s` can be taken out first. */
  lemma {:induction false} TotalRemove(gt: AttrTable, pred: AttrTable, s: set<Node>, k: Node, fixed: bool)
    requires s <= pred.Keys && k in s
    requires forall p :: p in s ==> !ZeroDivisor(gt, pred, p, fixed)
    ensures Total(gt, pred, s, fixed) == Credit(gt, pred, k, fixed) + Total(gt, pred, s - {k}, fixed)
    decreases s
  {
    var j := Pick(s);
    if j != k {
      TotalRemove(gt, pred, s - {j}, k, fixed);
      TotalRemove(gt, pred, s - {k}, j, fixed);
      assert s - {j} - {k} == s - {k} - {j};
    }
  }

  /** Visiting one more node adds its credit to the sum. */
  lemma TotalAdd(gt: AttrTable, pred: AttrTable, done: set<Node>, p: Node, fixed: bool)
    requires done <= pred.Keys && p in pred && p !in done
    requires forall q :: q in done + {p} ==> !ZeroDivisor(gt, pred, q, fixed)
    ensures Total(gt, pred, done + {p}, fixed) == Total(gt, pred, done, fixed) + Credit(gt, pred, p, fixed)
  {
    TotalRemove(gt, pred, done + {p}, p, fixed);
    assert done + {p} - {p} == done;
  }

  /** What one loop iteration of `evaluation_accuracy` as written adds: the
      unit for a node whose prediction and ground truth are both empty, then
      the ratio, whose division fails on an empty ground truth. */
  method NodeCredit(groundtruth: AttrTable, pred: AttrTable, pKey: Node) returns (r: Result<real>)
    requires pKey in pred
    ensures r.Err? <==> ZeroDivisor(groundtruth, pred, pKey, false)
    ensures r.Err? ==> r.error == DivisionByZero
    ensures r.Ok? ==> r.value == Credit(groundtruth, pred, pKey, false)
  {
    var pValue := pred[pKey];
    var gained := 0.0;
    if pKey in groundtruth {
      if pValue == [] && groundtruth[pKey] == [] {
        gained := gained + 1.0;
      }
      if |groundtruth[pKey]| == 0 {
        return Err(DivisionByZero);
      }
      gained := gained + Ratio(Matches(pValue, groundtruth[pKey]), |groundtruth[pKey]|);
    }
    return Ok(gained);
  }

  /** One loop iteration of the corrected evaluator: the unit for a node whose
      prediction and ground truth are both empty, or else the ratio. */
  method NodeCreditFixed(groundtruth: AttrTable, pred: AttrTable, pKey: Node) returns (r: Result<real>)
    requires pKey in pred
    ensures r.Err? <==> ZeroDivisor(groundtruth, pred, pKey, true)
    ensures r.Err? ==> r.error == DivisionByZero
    ensures r.Ok? ==> r.value == Credit(groundtruth, pred, pKey, true)
  {
    var pValue := pred[pKey];
    var gained := 0.0;
    if pKey in groundtruth {
      if pValue == [] && groundtruth[pKey] == [] {
        gained := gained + 1.0;
      } else {
        if |groundtruth[pKey]| == 0 {
          return Err(DivisionByZero);
        }
        gained := gained + Ratio(Matches(pValue, groundtruth[pKey]), |groundtruth[pKey]|);
      }
    }
    return Ok(gained);
  }

  /** The loop of `evaluation_accuracy` as written: the credits of all
      predicted nodes summed, or the division by zero of the first node
      whose ground truth is empty. */
  method SumCredits(groundtruth: AttrTable, pred: AttrTable) returns (r: Result<real>)
    ensures r.Err? <==> exists p :: p in pred && ZeroDivisor(groundtruth, pred, p, false)
    ensures r.Err? ==> r.error == DivisionByZero
    ensures r.Ok? ==> (forall p :: p in pred ==> !ZeroDivisor(groundtruth, pred, p, false))
                      && r.value == Total(groundtruth, pred, pred.Keys, false)
  {
    var truePositivePrediction := 0.0;
    var todo := pred.Keys;
    ghost var done: set<Node> := {};
    while todo != {}
      invariant done + todo == pred.Keys && done !! todo
      invariant forall p :: p in done ==> !ZeroDivisor(groundtruth, pred, p, false)
      invariant truePositivePrediction == Total(groundtruth, pred, done, false)
      decreases todo
    {
      var pKey :| pKey in todo;
      var term := NodeCredit(groundtruth, pred, pKey);
      if term.Err? {
        return term;
      }
      TotalAdd(groundtruth, pred, done, pKey, false);
      truePositivePrediction := truePositivePrediction + term.value;
      done := done + {pKey};
      todo := todo - {pKey};
    }
    assert done == pred.Keys;
    return Ok(truePositivePrediction);
  }

  /** `evaluation_accuracy` as written. */
  method EvaluationAccuracy(groundtruth: AttrTable, pred: AttrTable) returns (r: Result<real>)
    ensures r == Accuracy(groundtruth, pred, false)
  {
    var truePositivePrediction := SumCredits(groundtruth, pred);
    if truePositivePrediction.Err? {
      return truePositivePrediction;
    }
    if |pred| == 0 {
      return Err(DivisionByZero);
    }
    return Ok(Percent(truePositivePrediction.value, |pred|));
  }

  /** The loop of the corrected evaluator: the credits of all predicted
      nodes summed, or the division by zero of the first node whose ground
      truth is empty while its prediction is not. */
  method SumCreditsFixed(groundtruth: AttrTable, pred: AttrTable) returns (r: Result<real>)
    ensures r.Err? <==> exists p :: p in pred && ZeroDivisor(groundtruth, pred, p, true)
    ensures r.Err? ==> r.error == DivisionByZero
    ensures r.Ok? ==> (forall p :: p in pred ==> !ZeroDivisor(groundtruth, pred, p, true))
                      && r.value == Total(groundtruth, pred, pred.Keys, true)
  {
    var truePositivePrediction := 0.0;
    var todo := pred.Keys;
    ghost var done: set<Node> := {};
    while todo != {}
      invariant done + todo == pred.Keys && done !! todo
      invariant forall p :: p in done ==> !ZeroDivisor(groundtruth, pred, p, true)
      invariant truePositivePrediction == Total(groundtruth, pred, done, true)
      decreases todo
    {
      var pKey :| pKey in todo;
      var term := NodeCreditFixed(groundtruth, pred, pKey);
      if term.Err? {
        return term;
      }
      TotalAdd(groundtruth, pred, done, pKey, true);
      truePositivePrediction := truePositivePrediction + term.value;
      done := done + {pKey};
      todo := todo - {pKey};
    }
    assert done == pred.Keys;
    return Ok(truePositivePrediction);
  }

  /** `evaluation_accuracy` with the ratio as the `else` of the both-empty
      test. */
  method EvaluationAccuracyFixed(groundtruth: AttrTable, pred: AttrTable) returns (r: Result<real>)
    ensures r == Accuracy(groundtruth, pred, true)
  {
    var truePositivePrediction := SumCreditsFixed(groundtruth, pred);
    if truePositivePrediction.Err? {
      return truePositivePrediction;
    }
    if |pred| == 0 {
      return Err(DivisionByZero);
    }
    return Ok(Percent(truePositivePrediction.value, |pred|));
  }

  /** A node's credit is at least 0, and at most 1 when it predicts at most
      one value (as every predictor here does). */
  lemma CreditBounds(gt: AttrTable, pred: AttrTable, p: Node, fixed: bool)
    requires p in pred && !ZeroDivisor(gt, pred, p, fixed)
    ensures 0.0 <= Credit(gt, pred, p, fixed)
    ensures |pred[p]| <= 1 ==> Credit(gt, pred, p, fixed) <= 1.0
  {
  }

  /** The sum lies between 0 and the number of nodes summed over, when each
      predicts at most one value. */
  lemma {:induction false} TotalBounds(gt: AttrTable, pred: AttrTable, s: set<Node>, fixed: bool)
    requires s <= pred.Keys
    requires forall p :: p in s ==> !ZeroDivisor(gt, pred, p, fixed)
    ensures 0.0 <= Total(gt, pred, s, fixed)
    ensures (forall p :: p in s ==> |pred[p]| <= 1) ==> Total(gt, pred, s, fixed) <= |s| as real
    decreases s
  {
    if s != {} {
      var p := Pick(s);
      CreditBounds(gt, pred, p, fixed);
      TotalBounds(gt, pred, s - {p}, fixed);
    }
  }

  /** A computed accuracy is a percentage: at least 0, and at most 100 when
      every node predicts at most one value. */
  lemma AccuracyBounds(gt: AttrTable, pred: AttrTable, fixed: bool)
    requires Accuracy(gt, pred, fixed).Ok?
    ensures 0.0 <= Accuracy(gt, pred, fixed).value
    ensures (forall p :: p in pred ==> |pred[p]| <= 1) ==> Accuracy(gt, pred, fixed).value <= 100.0
  {
    TotalBounds(gt, pred, pred.Keys, fixed);
  }

  /** Credits agree between the two evaluators where the one as written
      computes any. */
  lemma {:induction false} TotalFixedAgrees(gt: AttrTable, pred: AttrTable, s: set<Node>)
    requires s <= pred.Keys
    requires forall p :: p in s ==> !ZeroDivisor(gt, pred, p, false)
    ensures forall p :: p in s ==> !ZeroDivisor(gt, pred, p, true)
    ensures Total(gt, pred, s, true) == Total(gt, pred, s, false)
    decreases s
  {
    if s != {} {
      TotalFixedAgrees(gt, pred, s - {Pick(s)});
    }
  }

  /** The correction changes no outcome the code as written computes, and
      fails only where that code fails too. */
  lemma FixedExtendsAsWritten(gt: AttrTable, pred: AttrTable)
    ensures Accuracy(gt, pred, false).Ok? ==> Accuracy(gt, pred, true) == Accuracy(gt, pred, false)
    ensures Accuracy(gt, pred, true).Err? ==> Accuracy(gt, pred, false).Err?
  {
    if Accuracy(gt, pred, false).Ok? {
      TotalFixedAgrees(gt, pred, pred.Keys);
    }
  }

  /** As written, a node whose prediction and ground truth are both empty
      never earns its unit: the evaluation divides by zero. The corrected
      evaluator credits it with exactly 1. */
  lemma BothEmptyNode(gt: AttrTable, pred: AttrTable, p: Node)
    requires p in pred && p in gt && pred[p] == [] && gt[p] == []
    ensures Accuracy(gt, pred, false) == Err(DivisionByZero)
    ensures !ZeroDivisor(gt, pred, p, true) && Credit(gt, pred, p, true) == 1.0
  {
    assert ZeroDivisor(gt, pred, p, false);
  }

  /** A prediction for one node scores that node's credit as a percentage. */
  lemma AccuracyOfOne(gt: AttrTable, pred: AttrTable, a: Node, fixed: bool)
    requires pred.Keys == {a} && !ZeroDivisor(gt, pred, a, fixed)
    ensures Accuracy(gt, pred, fixed) == Ok(100.0 * Credit(gt, pred, a, fixed))
  {
    assert |pred| == |pred.Keys| == 1;
    TotalRemove(gt, pred, {a}, a, fixed);
    assert {a} - {a} == {};
  }

  /** A prediction for two nodes scores the mean of their credits. */
  lemma AccuracyOfTwo(gt: AttrTable, pred: AttrTable, a: Node, b: Node, fixed: bool)
    requires a != b && pred.Keys == {a, b}
    requires !ZeroDivisor(gt, pred, a, fixed) && !ZeroDivisor(gt, pred, b, fixed)
    ensures Accuracy(gt, pred, fixed) == Ok(100.0 * (Credit(gt, pred, a, fixed) + Credit(gt, pred, b, fixed)) / 2.0)
  {
    assert |pred| == |pred.Keys| == 2;
    TotalRemove(gt, pred, {a, b}, a, fixed);
    assert {a, b} - {a} == {b};
    TotalRemove(gt, pred, {b}, b, fixed);
    assert {b} - {b} == {};
  }

  /** The input that shows it: `{n: []}` against `{n: []}`. */
  lemma BothEmptyExample()
    ensures Accuracy(map["n" := []], map["n" := []], false) == Err(DivisionByZero)
    ensures Accuracy(map["n" := []], map["n" := []], true) == Ok(100.0)
  {
    var gt: AttrTable := map["n" := []];
    BothEmptyNode(gt, gt, "n");
    assert gt.Keys == {"n"};
    AccuracyOfOne(gt, gt, "n", true);
  }

  /** One of two ground-truth values predicted: half a unit, so 50 percent. */
  lemma PartialCreditExample()
    ensures Accuracy(map["n" := ["X", "Y"]], map["n" := ["X"]], false) == Ok(50.0)
  {
    var gt: AttrTable, pred: AttrTable := map["n" := ["X", "Y"]], map["n" := ["X"]];
    assert pred.Keys == {"n"};
    assert Credit(gt, pred, "n", false) == 0.5 by {
      assert Matches(["X"], ["X", "Y"]) == 1;
    }
    AccuracyOfOne(gt, pred, "n", false);
  }

  /** One node right and one wrong: 50 percent. */
  lemma OneOfTwoExample()
    ensures Accuracy(map["a" := ["X"], "b" := ["Y"]], map["a" := ["X"], "b" := ["Z"]], false) == Ok(50.0)
  {
    var gt: AttrTable, pred: AttrTable := map["a" := ["X"], "b" := ["Y"]], map["a" := ["X"], "b" := ["Z"]];
    assert pred.Keys == {"a", "b"};
    assert Credit(gt, pred, "a", false) == 1.0 by {
      assert Matches(["X"], ["X"]) == 1;
    }
    assert Credit(gt, pred, "b", false) == 0.0 by {
      assert Matches(["Z"], ["Y"]) == 0;
    }
    AccuracyOfTwo(gt, pred, "a", "b", false);
  }

  /** A predicted node missing from the ground truth earns nothing but still
      counts in the denominator. */
  lemma MissingNodeExample()
    ensures Accuracy(map["a" := ["X"]], map["a" := ["X"], "c" := ["Y"]], false) == Ok(50.0)
  {
    var gt: AttrTable, pred: AttrTable := map["a" := ["X"]], map["a" := ["X"], "c" := ["Y"]];
    assert pred.Keys == {"a", "c"};
    assert Credit(gt, pred, "a", false) == 1.0 by {
      assert Matches(["X"], ["X"]) == 1;
    }
    assert Credit(gt, pred, "c", false) == 0.0;
    AccuracyOfTwo(gt, pred, "a", "c", false);
  }
}
