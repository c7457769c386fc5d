/** The application component: it builds the distance table and the view's
    node and link records once, holds the user's origin/destination
    selection, resolves it to a table row, and answers, per link, how wide
    its highlight is. */
module ShortestPathApp {
  import opened PathGraph
  import opened DistanceTable
  import opened Lookup

  /** Highlight width of a link on the current path, and of any other link. */
  const HIGHLIGHT_WIDTH: nat := 4
  const PLAIN_WIDTH: nat := 0

  class App {
    var currentPath: Option<Row>
    var origin: Option<Node>
    var destination: Option<Node>
    var distanceTable: seq<Row>
    var nodes: seq<UiNode>
    var links: seq<Link>

    /** The graph definition and the shortest-path oracle the table was built from. */
    ghost var graph: Graph
    ghost var oracle: Oracle

    ghost predicate Valid()
      reads this
    {
      WellFormed(graph) &&
      distanceTable == Build(graph, oracle) &&
      nodes == UiNodes(graph) &&
      links == Links(graph) &&
      ((origin.None? || destination.None?) ==> currentPath.None?) &&
      (currentPath.Some? ==> currentPath.value in distanceTable)
    }

    /** Walks the declared sources in order; for each it records a node,
        one link per outgoing edge, and one table row per declared
        destination, asking the oracle for every pair. */
    constructor (graphData: Graph, dijkstra: Oracle)
      requires WellFormed(graphData)
      ensures Valid() && graph == graphData && oracle == dijkstra
      ensures currentPath == None && origin == None && destination == None
    {
      var table: seq<Row> := [];
      var uiNodes: seq<UiNode> := [];
      var uiLinks: seq<Link> := [];
      ghost var keys := Keys(graphData);
      var i := 0;
      while i < |graphData|
        invariant 0 <= i <= |graphData|
        invariant table == Table(dijkstra, keys, i)
        invariant uiNodes == UiNodes(graphData[..i])
        invariant uiLinks == Links(graphData[..i])
      {
        var srcNode := graphData[i].0;
        var edges := graphData[i].1;
        GraphPrefixStep(graphData, i);
        uiNodes := uiNodes + [UiNode(srcNode)];
        uiLinks := PushLinks(uiLinks, srcNode, edges);
        table := PushRows(table, dijkstra, srcNode, graphData);
        i := i + 1;
      }
      assert graphData[..i] == graphData;
      currentPath := None;
      origin := None;
      destination := None;
      distanceTable := table;
      nodes := uiNodes;
      links := uiLinks;
      graph := graphData;
      oracle := dijkstra;
    }

    /** The loop over one source's edges: one link record per edge, in order. */
    static method PushLinks(links: seq<Link>, srcNode: Node, edges: seq<Edge>) returns (result: seq<Link>)
      ensures result == links + EdgeLinks(srcNode, edges)
    {
      result := links;
      var e := 0;
      while e < |edges|
        invariant 0 <= e <= |edges|
        invariant result == links + EdgeLinks(srcNode, edges[..e])
      {
        EdgeLinksStep(srcNode, edges, e);
        result := result + [Link(srcNode, edges[e].0, edges[e].1, 1)];
        e := e + 1;
      }
      assert edges[..e] == edges;
    }

    /** The loop over every declared destination of one source: one row per
        destination, the oracle's answer with the self pair's path replaced. */
    static method PushRows(table: seq<Row>, dijkstra: Oracle, srcNode: Node, graphData: Graph) returns (result: seq<Row>)
      ensures result == table + RowsFor(dijkstra, srcNode, Keys(graphData))
    {
      ghost var keys := Keys(graphData);
      result := table;
      var j := 0;
      while j < |graphData|
        invariant 0 <= j <= |graphData|
        invariant result == table + RowsFor(dijkstra, srcNode, keys[..j])
      {
        var otherNode := graphData[j].0;
        RowsForStep(dijkstra, srcNode, keys, j);
        var shortestPath := dijkstra(srcNode, otherNode);
        if srcNode == otherNode {
          shortestPath := shortestPath.(path := Some([srcNode, srcNode]));
        }
        result := result + [Row(srcNode, otherNode, shortestPath.cost, shortestPath.path)];
        j := j + 1;
      }
      assert keys[..j] == keys;
    }

    /** Scans the table when both fields are set; every matching row
        replaces the current path. For two declared nodes that is exactly
        their row; otherwise the current path is kept. */
    method FindShortestPath()
      requires Valid()
      modifies this`currentPath
      ensures Valid()
      ensures currentPath == Resolve(distanceTable, origin, destination, old(currentPath))
      ensures !(Truthy(origin) && Truthy(destination)) ==> currentPath == old(currentPath)
      ensures Truthy(origin) && Truthy(destination) &&
              origin.value in Keys(graph) && destination.value in Keys(graph) ==>
              currentPath == Some(Entry(oracle, origin.value, destination.value))
    {
      if Truthy(origin) && Truthy(destination) {
        var k := 0;
        while k < |distanceTable|
          invariant 0 <= k <= |distanceTable|
          invariant currentPath == Scan(distanceTable[..k], origin.value, destination.value, old(currentPath))
        {
          assert distanceTable[..k + 1][..k] == distanceTable[..k];
          var row := distanceTable[k];
          if row.src == origin.value && row.dest == destination.value {
            currentPath := Some(row);
          }
          k := k + 1;
        }
        assert distanceTable[..k] == distanceTable;
        if origin.value in Keys(graph) && destination.value in Keys(graph) {
          LookupBuiltTable(graph, oracle, origin.value, destination.value, old(currentPath));
        }
      }
    }

    /** The origin dropdown changed: set the origin, then look up. */
    method ChangeOrigin(value: Node)
      requires Valid()
      modifies this`origin, this`currentPath
      ensures Valid()
      ensures origin == Some(value)
      ensures destination == old(destination) && distanceTable == old(distanceTable)
      ensures currentPath == Resolve(distanceTable, origin, destination, old(currentPath))
      ensures Truthy(origin) && Truthy(destination) &&
              origin.value in Keys(graph) && destination.value in Keys(graph) ==>
              currentPath == Some(Entry(oracle, origin.value, destination.value))
    {
      origin := Some(value);
      FindShortestPath();
    }

    /** The destination dropdown changed: set the destination, then look up. */
    method ChangeDestination(value: Node)
      requires Valid()
      modifies this`destination, this`currentPath
      ensures Valid()
      ensures destination == Some(value)
      ensures origin == old(origin) && distanceTable == old(distanceTable)
      ensures currentPath == Resolve(distanceTable, origin, destination, old(currentPath))
      ensures Truthy(origin) && Truthy(destination) &&
              origin.value in Keys(graph) && destination.value in Keys(graph) ==>
              currentPath == Some(Entry(oracle, origin.value, destination.value))
    {
      destination := Some(value);
      FindShortestPath();
    }

    /** The width of a link's highlight: HIGHLIGHT_WIDTH when the link is a
        step of the current path, PLAIN_WIDTH otherwise, including when there
        is no current path, its path is null, or it has fewer than two nodes. */
    method SetLinkHighlighting(link: Link) returns (width: nat)
      ensures width == HIGHLIGHT_WIDTH || width == PLAIN_WIDTH
      ensures width == HIGHLIGHT_WIDTH <==> Highlighted(currentPath, link.source, link.target)
      ensures (currentPath.None? || currentPath.value.path.None? ||
               |currentPath.value.path.value| < 2) ==> width == PLAIN_WIDTH
    {
      if currentPath.None? || currentPath.value.path.None? {
        return PLAIN_WIDTH;
      }
      var path := currentPath.value.path.value;
      var i := 0;
      while i <= |path| - 2
        invariant 0 <= i
        invariant i <= |path| - 1 || i == 0
        invariant forall k :: 0 <= k < i ==> !(path[k] == link.source && path[k + 1] == link.target)
      {
        if link.source == path[i] && link.target == path[i + 1] {
          return HIGHLIGHT_WIDTH;
        }
        i := i + 1;
      }
      return PLAIN_WIDTH;
    }
  }
}
