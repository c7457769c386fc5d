/** The static graph definition the application is loaded with, and the
    node and link records it derives from it for the force-directed view.

    The definition is a JavaScript object mapping each source node to an
    object mapping target nodes to edge weights; `for ... in` walks its keys
    in a fixed order. It is modelled as an ordered sequence of
    (source, edges) entries, each edge a (target, weight) pair, so that the
    iteration order is kept. */
module PathGraph {

  /** Node identifiers are the graph's object keys. */
  type Node = string

  datatype Option<T> = None | Some(value: T)

  type Edge = (Node, nat)
  type Graph = seq<(Node, seq<Edge>)>

  predicate Distinct(s: seq<Node>) {
    forall a, b :: 0 <= a < b < |s| ==> s[a] != s[b]
  }

  /** The declared source nodes, in iteration order. */
  function Keys(g: Graph): (ks: seq<Node>)
    ensures |ks| == |g|
  {
    seq(|g|, i requires 0 <= i < |g| => g[i].0)
  }

  function Targets(edges: seq<Edge>): seq<Node> {
    seq(|edges|, k requires 0 <= k < |edges| => edges[k].0)
  }

  /** Object keys are unique: no source is declared twice and no source
      lists the same target twice. */
  predicate WellFormed(g: Graph) {
    Distinct(Keys(g)) && forall i :: 0 <= i < |g| ==> Distinct(Targets(g[i].1))
  }

  /** A node record of the view: `{id: srcNode}`. */
  datatype UiNode = UiNode(id: Node)

  /** A link record of the view: source, target, the edge weight as label,
      and the arrow length, always 1. */
  datatype Link = Link(source: Node, target: Node, linkLabel: nat, linkDirectionalArrowLength: nat)

  function EdgeLink(src: Node, e: Edge): Link {
    Link(src, e.0, e.1, 1)
  }

  /** The node records pushed by the construction loop, one per source. */
  function UiNodes(g: Graph): seq<UiNode>
    decreases |g|
  {
    if g == [] then [] else UiNodes(g[..|g| - 1]) + [UiNode(g[|g| - 1].0)]
  }

  /** The link records pushed for the outgoing edges of one source. */
  function EdgeLinks(src: Node, edges: seq<Edge>): seq<Link>
    decreases |edges|
  {
    if edges == [] then [] else EdgeLinks(src, edges[..|edges| - 1]) + [EdgeLink(src, edges[|edges| - 1])]
  }

  /** The link records pushed by the construction loop, source by source. */
  function Links(g: Graph): seq<Link>
    decreases |g|
  {
    if g == [] then [] else Links(g[..|g| - 1]) + EdgeLinks(g[|g| - 1].0, g[|g| - 1].1)
  }

  /** Total number of declared edges. */
  function EdgeCount(g: Graph): nat
    decreases |g|
  {
    if g == [] then 0 else EdgeCount(g[..|g| - 1]) + |g[|g| - 1].1|
  }

  /** One more source adds its node record and its link records at the end. */
  lemma GraphPrefixStep(g: Graph, i: nat)
    requires i < |g|
    ensures UiNodes(g[..i + 1]) == UiNodes(g[..i]) + [UiNode(g[i].0)]
    ensures Links(g[..i + 1]) == Links(g[..i]) + EdgeLinks(g[i].0, g[i].1)
  {
    assert g[..i + 1][..i] == g[..i];
  }

  /** One more edge adds its link record at the end. */
  lemma EdgeLinksStep(src: Node, edges: seq<Edge>, e: nat)
    requires e < |edges|
    ensures EdgeLinks(src, edges[..e + 1]) == EdgeLinks(src, edges[..e]) + [Link(src, edges[e].0, edges[e].1, 1)]
  {
    assert edges[..e + 1][..e] == edges[..e];
  }

  /** One node record per declared source, in key (iteration) order. */
  lemma {:induction false} UiNodesInOrder(g: Graph)
    ensures |UiNodes(g)| == |g|
    ensures forall i :: 0 <= i < |g| ==> UiNodes(g)[i].id == g[i].0
  {
    if g != [] {
      var init := g[..|g| - 1];
      UiNodesInOrder(init);
      forall i | 0 <= i < |g|
        ensures UiNodes(g)[i].id == g[i].0
      {
        if i < |init| {
          assert UiNodes(g)[i] == UiNodes(init)[i];
        }
      }
    }
  }

  /** The links of one source are exactly its edges, in order. */
  lemma {:induction false} EdgeLinksAt(src: Node, edges: seq<Edge>)
    ensures |EdgeLinks(src, edges)| == |edges|
    ensures forall k :: 0 <= k < |edges| ==> EdgeLinks(src, edges)[k] == EdgeLink(src, edges[k])
  {
    if edges != [] {
      var init := edges[..|edges| - 1];
      EdgeLinksAt(src, init);
      forall k | 0 <= k < |edges|
        ensures EdgeLinks(src, edges)[k] == EdgeLink(src, edges[k])
      {
        if k < |init| {
          assert EdgeLinks(src, edges)[k] == EdgeLinks(src, init)[k];
        }
      }
    }
  }

  /** There is one link record per declared edge. */
  lemma {:induction false} LinksCount(g: Graph)
    ensures |Links(g)| == EdgeCount(g)
  {
    if g != [] {
      LinksCount(g[..|g| - 1]);
      EdgeLinksAt(g[|g| - 1].0, g[|g| - 1].1);
    }
  }

  /** A link record exists exactly when it is some declared edge
      (source, target) labelled with that edge's weight. */
  lemma {:induction false} LinksAreEdges(g: Graph, l: Link)
    ensures l in Links(g) <==>
      exists i, k :: 0 <= i < |g| && 0 <= k < |g[i].1| && l == EdgeLink(g[i].0, g[i].1[k])
  {
    if g != [] {
      var init, last := g[..|g| - 1], g[|g| - 1];
      LinksAreEdges(init, l);
      EdgeLinksAt(last.0, last.1);
      assert Links(g) == Links(init) + EdgeLinks(last.0, last.1);
      if l in Links(g) {
        if l in Links(init) {
          var i, k :| 0 <= i < |init| && 0 <= k < |init[i].1| && l == EdgeLink(init[i].0, init[i].1[k]);
          assert g[i] == init[i];
        } else {
          var k :| 0 <= k < |last.1| && EdgeLinks(last.0, last.1)[k] == l;
          assert l == EdgeLink(g[|g| - 1].0, g[|g| - 1].1[k]);
        }
      }
      if exists i, k :: 0 <= i < |g| && 0 <= k < |g[i].1| && l == EdgeLink(g[i].0, g[i].1[k]) {
        var i, k :| 0 <= i < |g| && 0 <= k < |g[i].1| && l == EdgeLink(g[i].0, g[i].1[k]);
        if i < |init| {
          assert init[i] == g[i];
          assert l in Links(init);
        } else {
          assert EdgeLinks(last.0, last.1)[k] == l;
        }
      }
    }
  }
}
