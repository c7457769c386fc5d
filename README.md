# Transport network shortest paths: table, lookup and highlighting

This project models the logic core of a React application. The application
draws a fixed, weighted, directed transport network and shows the shortest
route between an origin and a destination that the user picks. All of that
logic lives in the `App` component:

- **Construction** (`PathGraph`, `DistanceTable`, `ShortestPathApp.App.constructor`).
  It walks the declared source nodes in key order. For each source it emits
  one node record and one link record per outgoing edge. It then emits one
  table row `{src, dest, cost, path}` per declared destination, the source
  itself included.
  - Each row holds what the shortest-path library answers for that pair,
    except that a self pair is given the path `[src, src]`.
  - The library is modelled as an oracle: any total function from a pair
    of nodes to a cost and either a path or null (`DistanceTable.Oracle`).
    Every property here holds for any oracle.
- **Lookup** (`Lookup`, `App.FindShortestPath`). When both origin and
  destination are truthy, the table is scanned in order and every matching
  row replaces `currentPath`, so the last match wins. `LastMatch` states
  that rule. `LookupBuiltTable` shows that for two declared nodes the scan
  lands on exactly their row.
- **Selection** (`App.ChangeOrigin`, `App.ChangeDestination`). Each handler
  sets one field and then runs the lookup.
- **Highlighting** (`App.SetLinkHighlighting`). A link gets width 4 when
  `(source, target)` is a consecutive step `path[i], path[i+1]` of the
  current path, and 0 otherwise. `Lookup.OnPath` is the reference
  definition of "is a step".

The graph definition is a JavaScript object. It is modelled as an ordered
sequence of `(source, [(target, weight)])` entries that keeps the `for ... in`
order. `WellFormed` states that object keys are unique: no source is declared
twice, and no source lists a target twice. Weights are natural numbers, and
costs are integers.

Behaviour of the code worth noting:

- A self row gets the path `[src, src]`, and its cost is whatever the
  library returned for that pair.
- The lookup is a linear scan over the table.
- Selecting a node that has no row leaves `currentPath` as it was.
- App.js does not check edge weights itself.
- Selection fields are tested with JavaScript truthiness (`Lookup.Truthy`).
  A node named by the empty string therefore never triggers a lookup.
- A lookup that does not run (a falsy field) or finds no row keeps the
  previous `currentPath`. Nothing ever clears it.
- While origin or destination is still null, `currentPath` is null, and
  any current path is a row of the table (an invariant of `App.Valid`,
  kept by the constructor and all three handlers).

## Model

| member | source | states |
|---|---|---|
| `PathGraph.UiNodesInOrder` | src/App.js:25-27 | one node record per declared source, in key (iteration) order, with that source as its id |
| `PathGraph.EdgeLinksAt` | src/App.js:34-42 | a source's link records are its edges in order, each labelled with the edge's weight and arrow length 1 |
| `PathGraph.LinksCount` | src/App.js:25-42 | there are exactly as many link records as declared edges |
| `PathGraph.LinksAreEdges` | src/App.js:25-42 | a link record exists iff it is some declared edge (source, target) labelled with that edge's weight |
| `DistanceTable.RowsFor` | src/App.js:44-59 | a source's block has one row per declared destination |
| `DistanceTable.Table` | src/App.js:25-60 | after m sources the table has m·N rows |
| `DistanceTable.RowsForAt` | src/App.js:44-59 | row j of a source's block is that source's entry for the j-th destination |
| `DistanceTable.TableAt` | src/App.js:25-60 | row i·N + j exists and is the entry for (keys[i], keys[j]) |
| `DistanceTable.TableRowsAreEntries` | src/App.js:44-58 | every row is the oracle-derived entry for its own (src, dest) pair, and both ends are declared nodes |
| `DistanceTable.TableMatchAt` | src/App.js:25-60 | with distinct keys, within the first m blocks a row is for (keys[i], keys[j]) iff i < m and it is row i·N + j |
| `DistanceTable.BuildSize` | src/App.js:25-60 | the built table has N·N rows for any graph, the empty one included |
| `DistanceTable.TableShape` | src/App.js:25-60 | the built table has N·N rows; row i·N + j has src = keys[i] and dest = keys[j] |
| `DistanceTable.SelfPairsNormalized` | src/App.js:47-51 | every row with src = dest has path [src, src], whatever the oracle returned |
| `DistanceTable.OtherPairsFromOracle` | src/App.js:46-58 | every row's cost is the oracle's cost for its pair; for src ≠ dest its path is the oracle's path (possibly null) |
| `DistanceTable.RowsAreDeclaredPairs` | src/App.js:25-58 | every row's src and dest are declared nodes |
| `DistanceTable.MatchesOnce` | src/App.js:53-58 | with distinct keys, each ordered pair of declared nodes has exactly one row, at i·N + j |
| `Lookup.LastMatch` | src/App.js:80-86 | the index of the last matching row or -1; the row there matches and no later row does |
| `Lookup.LookupBuiltTable` | src/App.js:78-88 | scanning the built table for two declared nodes yields their entry, whatever was current before |
| `Lookup.SelfPathSteps` | src/App.js:47-51 | the normalised self path [s, s] has exactly one step, the self-loop s → s |
| `ShortestPathApp.App.constructor` | src/App.js:11-75 | the table, node and link records are those built from the graph and the oracle; origin, destination and currentPath start null; the selection invariant (no current path while a field is null, any current path is a table row) holds |
| `ShortestPathApp.App.PushLinks` | src/App.js:34-42 | the edge loop appends exactly the source's link records, one per edge in order |
| `ShortestPathApp.App.PushRows` | src/App.js:44-59 | the destination loop appends exactly the source's block of rows: the oracle's answer per declared destination, with the self pair's path replaced |
| `ShortestPathApp.App.FindShortestPath` | src/App.js:78-88 | currentPath is unchanged unless both fields are truthy; otherwise it is the last matching row; for two declared nodes it is their entry |
| `ShortestPathApp.App.ChangeOrigin` | src/App.js:91-96 | only origin is set, to the chosen node; destination and table are untouched; then the lookup runs |
| `ShortestPathApp.App.ChangeDestination` | src/App.js:99-104 | only destination is set, to the chosen node; origin and table are untouched; then the lookup runs |
| `ShortestPathApp.App.SetLinkHighlighting` | src/App.js:107-116 | width 4 iff there is a current row with a non-null path that has the link as a consecutive step; else 0, in particular with no row, a null path or fewer than two nodes |

## Left out

- The shortest-path algorithm itself (the node-dijkstra library) is not part of this model. It is an arbitrary oracle, so nothing is claimed about optimality, tie-breaking, or costs being sums of edge weights.
- React mechanics: `setState` batching and its completion callbacks are modelled as "assign the field, then run the lookup", one step after the other.
- The dropdown options (`uiOptions`), with their upper-cased labels, are left out because they are display text.
- Rendering is left out: `render`, the path card and breadcrumbs, and the canvas drawing in `paintNode`.
- Window handling (`componentDidMount`, `resizeCanvas`: resize listener, user-agent test, zoom, centring) is browser I/O and is left out.
- The `console.log` calls are I/O and are left out.
- Edge weights and costs are natural numbers and integers, not JavaScript floating-point numbers.
- The shortest-path library's constructor (src/App.js:15) may reject a graph, for example one with a non-positive or non-numeric weight. The model's constructor accepts every well-formed graph and does not capture that failure.
- The graph data file (`./data.js`) is not part of this model. The graph is a parameter of the constructor.
- In the view library, link records later have node objects in place of ids. The model keeps the ids that `setLinkHighlighting` compares.
