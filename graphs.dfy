/** The data every predictor works on: the social graph as networkx hands it
    over, the per-type attribute tables, and the outcome of an operation that
    may fail. */
module Graphs {

  /** Node identifiers of the graph file are strings. */
  type Node = string

  /** An attribute value: one location, one employer or one college. */
  type Value = string

  /** The name of an attribute type: "location", "employer" or "college". */
  type AttrType = string

  /** One attribute table: node -> its values for that type, in order. A node
      absent from the table has no known value of that type. */
  type AttrTable = map<Node, seq<Value>>

  /** An undirected networkx graph: `nodes` in insertion order (the order of
      `for node in graph`), `adj[n]` the neighbours of `n` in insertion order
      (the order of `graph.neighbors(n)`). */
  datatype Graph = Graph(nodes: seq<Node>, adj: map<Node, seq<Node>>)

  predicate NoDuplicates<T(==)>(s: seq<T>) {
    forall i, j :: 0 <= i < j < |s| ==> s[i] != s[j]
  }

  /** What a networkx graph always satisfies: every node once, an adjacency
      entry per node, neighbour lists without repetition, and a symmetric
      adjacency relation (self-loops are allowed, as in networkx). */
  predicate WellFormed(g: Graph) {
    && NoDuplicates(g.nodes)
    && (forall n :: n in g.nodes ==> n in g.adj)
    && (forall n :: n in g.adj ==> n in g.nodes)
    && (forall n :: n in g.adj ==> NoDuplicates(g.adj[n]))
    && (forall n, m :: n in g.adj && m in g.adj[n] ==> m in g.adj && n in g.adj[m])
  }

  /** The exceptions the core can raise: networkx's "node not in the graph"
      from `graph.neighbors`, and Python's division by zero. */
  datatype Failure = NodeNotInGraph(node: Node) | DivisionByZero

  datatype Result<T> = Ok(value: T) | Err(error: Failure)

  predicate AllInGraph(g: Graph, empty: seq<Node>) {
    forall i :: 0 <= i < |empty| ==> empty[i] in g.adj
  }

  /** `empty[k]` is the first node of `empty` that the graph does not hold:
      the one a loop over `empty` calling `graph.neighbors` fails on. */
  predicate MissingAt(g: Graph, empty: seq<Node>, k: int) {
    && 0 <= k < |empty|
    && empty[k] !in g.adj
    && forall j :: 0 <= j < k ==> empty[j] in g.adj
  }

  /** The node set of `nx.subgraph(graph, list(graph.neighbors(n)) + [n])`:
      the closed neighbourhood of `n`. */
  function SubgraphNodes(g: Graph, n: Node): (sg: seq<Node>)
    requires n in g.adj
    ensures forall m :: m in sg <==> m == n || m in g.adj[n]
    ensures WellFormed(g) ==> NoDuplicates(sg)
  {
    if n in g.adj[n] then g.adj[n] else g.adj[n] + [n]
  }

  /** `c` is a clique of the subgraph over `sg`: distinct members of `sg`,
      pairwise adjacent. */
  predicate IsClique(g: Graph, sg: seq<Node>, c: seq<Node>) {
    && NoDuplicates(c)
    && (forall m :: m in c ==> m in sg)
    && (forall i, j :: 0 <= i < |c| && 0 <= j < |c| && i != j ==> c[i] in g.adj && c[j] in g.adj[c[i]])
  }

  /** The contract of `list(nx.find_cliques(SG))` for the closed neighbourhood
      of `n`, as far as the predictors rely on it: every listed clique is a
      clique of that subgraph. */
  predicate CliquesOf(g: Graph, n: Node, cs: seq<seq<Node>>)
    requires n in g.adj
  {
    forall i :: 0 <= i < |cs| ==> IsClique(g, SubgraphNodes(g, n), cs[i])
  }

  /** The nodes of a list, as a set. */
  function Members(s: seq<Node>): set<Node> {
    set m | m in s
  }

  /** The nodes of a prefix one longer: one more node. */
  lemma PrefixMembers(s: seq<Node>, i: nat)
    requires i <= |s|
    ensures i < |s| ==> Members(s[..i + 1]) == Members(s[..i]) + {s[i]}
    ensures i == |s| ==> Members(s[..i]) == Members(s)
  {
    if i < |s| {
      assert s[..i + 1] == s[..i] + [s[i]];
    } else {
      assert s[..i] == s;
    }
  }
}
