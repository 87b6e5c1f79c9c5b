/** `collections.Counter` and the built-in `max(items, key=...)` as the
    predictors use them: a Counter lists its keys in order of first
    occurrence, and `max` keeps the first item of maximal key. */
module Tally {
  import opened Graphs

  /** An item of a Counter or of the weighted dictionary: a value and its
      count or weight. */
  datatype Scored = Scored(value: Value, weight: nat)

  /** Occurrences of `v` in `s`. */
  function Count(s: seq<Value>, v: Value): (c: nat)
    ensures c <= |s|
    ensures c > 0 <==> v in s
  {
    if s == [] then 0
    else Count(s[..|s| - 1], v) + (if s[|s| - 1] == v then 1 else 0)
  }

  /** The distinct elements of `s` in order of first occurrence: the key
      order of `Counter(s)`. */
  function Distinct(s: seq<Value>): (d: seq<Value>)
    ensures forall x :: x in d <==> x in s
    ensures NoDuplicates(d)
    ensures |d| <= |s|
    ensures s != [] ==> d != []
  {
    if s == [] then []
    else
      var d := Distinct(s[..|s| - 1]);
      assert forall x :: x in s <==> x in s[..|s| - 1] || x == s[|s| - 1];
      if s[|s| - 1] in d then d else d + [s[|s| - 1]]
  }

  /** `Counter(s).items()`: each distinct value with its count. */
  function Counter(s: seq<Value>): seq<Scored> {
    var d := Distinct(s);
    seq(|d|, j requires 0 <= j < |d| => Scored(d[j], Count(s, d[j])))
  }

  /** The index of `max(items, key=lambda t: t[1])`: an item of maximal
      weight, and the first one, since `max` replaces its candidate only on
      a strictly greater key. */
  function FirstMaxIndex(items: seq<Scored>): (k: nat)
    requires items != []
    ensures k < |items|
    ensures forall j :: 0 <= j < |items| ==> items[j].weight <= items[k].weight
    ensures forall j :: 0 <= j < k ==> items[j].weight < items[k].weight
  {
    if |items| == 1 then 0
    else
      var k := FirstMaxIndex(items[..|items| - 1]);
      if items[|items| - 1].weight > items[k].weight then |items| - 1 else k
  }

  /** The value `max(Counter(s).items(), key=...)` returns. */
  function MostCommon(s: seq<Value>): Value
    requires s != []
  {
    var c := Counter(s);
    c[FirstMaxIndex(c)].value
  }

  /** The Counter of a prefix lists a prefix of the keys of the whole. */
  lemma {:induction false} DistinctPrefix(s: seq<Value>, m: nat)
    requires m <= |s|
    ensures |Distinct(s[..m])| <= |Distinct(s)|
    ensures Distinct(s[..m]) == Distinct(s)[..|Distinct(s[..m])|]
  {
    if m < |s| {
      DistinctPrefix(s[..|s| - 1], m);
      assert s[..|s| - 1][..m] == s[..m];
    } else {
      assert s[..m] == s;
    }
  }

  /** First-occurrence order: every key listed no later than `d[j]` already
      occurs in `s` up to any occurrence of `d[j]`. */
  lemma DistinctOrder(s: seq<Value>, j: int, m: int)
    requires 0 <= j < |Distinct(s)| && 0 <= m < |s| && s[m] == Distinct(s)[j]
    ensures forall i :: 0 <= i <= j ==> Distinct(s)[i] in s[..m + 1]
  {
    var d := Distinct(s);
    DistinctPrefix(s, m + 1);
    var pre := Distinct(s[..m + 1]);
    assert s[m] in s[..m + 1];
    var jj :| 0 <= jj < |pre| && pre[jj] == s[m];
    assert d[jj] == d[j];
    forall i | 0 <= i <= j
      ensures d[i] in s[..m + 1]
    {
      assert d[i] == pre[i];
    }
  }

  /** The first maximum of a tally laid out in the Counter's key order is
      the maximal value that occurs first in `s`. */
  lemma TallyFirstMax(s: seq<Value>, items: seq<Scored>)
    requires s != []
    requires |items| == |Distinct(s)|
    requires forall j :: 0 <= j < |items| ==> items[j].value == Distinct(s)[j]
    ensures items != []
    ensures items[FirstMaxIndex(items)].value in s
    ensures forall i, j :: 0 <= i < |s| && 0 <= j < |items| && items[j].value == s[i]
                           && items[j].weight == items[FirstMaxIndex(items)].weight
                           ==> items[FirstMaxIndex(items)].value in s[..i + 1]
  {
    var d := Distinct(s);
    var k := FirstMaxIndex(items);
    assert items[k].value == d[k];
    forall i, j | 0 <= i < |s| && 0 <= j < |items| && items[j].value == s[i]
                  && items[j].weight == items[k].weight
      ensures items[k].value in s[..i + 1]
    {
      DistinctOrder(s, j, i);
    }
  }

  /** Every element of `s` is a key of its Counter, carrying its count. */
  lemma CounterKey(s: seq<Value>, i: int) returns (j: int)
    requires 0 <= i < |s|
    ensures 0 <= j < |Counter(s)| && Counter(s)[j] == Scored(s[i], Count(s, s[i]))
  {
    var d := Distinct(s);
    assert s[i] in d;
    j :| 0 <= j < |d| && d[j] == s[i];
  }

  /** `MostCommon(s)` occurs in `s`, no value occurs more often, and among
      the values that occur as often it is the one met first. */
  lemma MostCommonChoice(s: seq<Value>)
    requires s != []
    ensures MostCommon(s) in s
    ensures forall i :: 0 <= i < |s| ==> Count(s, s[i]) <= Count(s, MostCommon(s))
    ensures forall i :: 0 <= i < |s| && Count(s, s[i]) == Count(s, MostCommon(s)) ==> MostCommon(s) in s[..i + 1]
  {
    var c := Counter(s);
    TallyFirstMax(s, c);
    var k := FirstMaxIndex(c);
    forall i | 0 <= i < |s|
      ensures Count(s, s[i]) <= Count(s, MostCommon(s))
      ensures Count(s, s[i]) == Count(s, MostCommon(s)) ==> MostCommon(s) in s[..i + 1]
    {
      var j := CounterKey(s, i);
    }
  }
}
