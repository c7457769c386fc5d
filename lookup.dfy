/** Reading the precomputed table: the linear scan that resolves the current
    selection to a row, and the rule that decides whether a link of the view
    lies on the resolved path. */
module Lookup {
  import opened PathGraph
  import opened DistanceTable

  /** JavaScript truthiness of a selection field: null and the empty string
      are both falsy. */
  predicate Truthy(selection: Option<Node>) {
    selection.Some? && selection.value != ""
  }

  predicate Matches(row: Row, origin: Node, destination: Node) {
    row.src == origin && row.dest == destination
  }

  /** The index of the last row of t that matches (origin, destination), or
      -1 when no row does. */
  function LastMatch(t: seq<Row>, origin: Node, destination: Node): (r: int)
    ensures -1 <= r < |t|
    ensures r >= 0 ==> Matches(t[r], origin, destination)
    ensures forall k :: r < k < |t| ==> !Matches(t[k], origin, destination)
    decreases |t|
  {
    if t == [] then -1
    else if Matches(t[|t| - 1], origin, destination) then |t| - 1
    else LastMatch(t[..|t| - 1], origin, destination)
  }

  /** What `currentPath` becomes after a scan of t that starts from current:
      each matching row replaces it, so the last one wins. */
  function Scan(t: seq<Row>, origin: Node, destination: Node, current: Option<Row>): Option<Row> {
    var r := LastMatch(t, origin, destination);
    if r < 0 then current else Some(t[r])
  }

  /** The lookup as a whole: it only scans when both fields are truthy. */
  function Resolve(t: seq<Row>, origin: Option<Node>, destination: Option<Node>, current: Option<Row>): Option<Row> {
    if Truthy(origin) && Truthy(destination) then Scan(t, origin.value, destination.value, current)
    else current
  }

  /** In the table built for a graph, the scan for two declared nodes finds
      their row, whatever was current before. */
  lemma LookupBuiltTable(g: Graph, sp: Oracle, origin: Node, destination: Node, current: Option<Row>)
    requires WellFormed(g)
    requires origin in Keys(g) && destination in Keys(g)
    ensures Scan(Build(g, sp), origin, destination, current) == Some(Entry(sp, origin, destination))
  {
    var keys := Keys(g);
    var t := Build(g, sp);
    var i :| 0 <= i < |keys| && keys[i] == origin;
    var j :| 0 <= j < |keys| && keys[j] == destination;
    MatchesOnce(g, sp, i, j);
    TableAt(sp, keys, |g|, i, j);
    var at := i * |g| + j;
    assert Matches(t[at], origin, destination);
    var r := LastMatch(t, origin, destination);
    assert r >= at;
  }

  /** The link (source, target) is a step path[i] -> path[i+1] of the path. */
  ghost predicate OnPath(path: seq<Node>, source: Node, target: Node) {
    exists i :: 0 <= i < |path| - 1 && path[i] == source && path[i + 1] == target
  }

  /** The link is highlighted: there is a current row, its path is not null,
      and the link is a step of it. */
  ghost predicate Highlighted(current: Option<Row>, source: Node, target: Node) {
    current.Some? && current.value.path.Some? && OnPath(current.value.path.value, source, target)
  }

  /** The normalised self path [s, s] makes exactly the self-loop s -> s a step:
      selecting the same node twice highlights that loop, if it is drawn, and
      nothing else. */
  lemma SelfPathSteps(s: Node, source: Node, target: Node)
    ensures OnPath([s, s], source, target) <==> source == s && target == s
  {
    if source == s && target == s {
      assert [s, s][0] == source && [s, s][1] == target;
    }
  }
}
