/** `max_clique`: the first longest list of a list of cliques. */
module Cliques {
  import opened Graphs

  /** The list `max_clique` returns: it starts from `[]` and takes a list
      only when it is strictly longer than the one held. */
  function Longest(cs: seq<seq<Node>>): seq<Node> {
    if cs == [] then []
    else
      var m := Longest(cs[..|cs| - 1]);
      if |cs[|cs| - 1]| > |m| then cs[|cs| - 1] else m
  }

  /** `Longest(cs)` is `[]` for no cliques; otherwise it is an element of
      `cs` at least as long as every element, and every element before it is
      strictly shorter. */
  lemma {:induction false} LongestIsFirstLongest(cs: seq<seq<Node>>)
    ensures cs == [] ==> Longest(cs) == []
    ensures cs != [] ==> exists k :: 0 <= k < |cs| && cs[k] == Longest(cs)
                                     && forall i :: 0 <= i < k ==> |cs[i]| < |Longest(cs)|
    ensures forall i :: 0 <= i < |cs| ==> |cs[i]| <= |Longest(cs)|
  {
    if cs != [] {
      var init, last := cs[..|cs| - 1], cs[|cs| - 1];
      LongestIsFirstLongest(init);
      var m := Longest(init);
      assert forall i :: 0 <= i < |cs| - 1 ==> cs[i] == init[i];
      if |last| > |m| {
        assert Longest(cs) == last == cs[|cs| - 1];
      } else if init == [] {
        assert Longest(cs) == [] == cs[0];
      } else {
        assert Longest(cs) == m;
        var k :| 0 <= k < |init| && init[k] == m && forall i :: 0 <= i < k ==> |init[i]| < |m|;
        assert cs[k] == m;
      }
    }
  }

  /** `max_clique(C)`. */
  method MaxClique(C: seq<seq<Node>>) returns (toReturn: seq<Node>)
    ensures toReturn == Longest(C)
    ensures C == [] ==> toReturn == []
    ensures C != [] ==> exists k :: 0 <= k < |C| && C[k] == toReturn
                                    && forall i :: 0 <= i < k ==> |C[i]| < |toReturn|
    ensures forall i :: 0 <= i < |C| ==> |C[i]| <= |toReturn|
  {
    toReturn := [];
    if C != [] {
      for i := 0 to |C|
        invariant toReturn == Longest(C[..i])
      {
        assert C[..i + 1][..i] == C[..i];
        if |C[i]| > |toReturn| {
          toReturn := C[i];
        }
      }
      assert C[..|C|] == C;
    }
    LongestIsFirstLongest(C);
  }
}
