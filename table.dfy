/** The all-pairs distance table the application precomputes once, at
    construction, by asking the shortest-path library for every ordered pair
    of declared nodes.

    The library (node-dijkstra) is not part of this model: it is an oracle,
    any total function from a (source, destination) pair to a cost and
    either a path or null. Nothing here depends on the oracle being right. */
module DistanceTable {
  import opened PathGraph

  /** What the oracle answers for one pair: a cost and a path, or no path
      (null) when the destination is unreachable. */
  datatype Route = Route(cost: int, path: Option<seq<Node>>)

  type Oracle = (Node, Node) -> Route

  /** One row of the table: `{src, dest, cost, path}`. */
  datatype Row = Row(src: Node, dest: Node, cost: int, path: Option<seq<Node>>)

  /** The row stored for one pair: the oracle's answer, except that a
      self pair gets the path [src, src] whatever the oracle said. */
  function Entry(sp: Oracle, src: Node, dest: Node): Row {
    var r := sp(src, dest);
    Row(src, dest, r.cost, if src == dest then Some([src, src]) else r.path)
  }

  /** The rows pushed for one source, one per destination in order. */
  function RowsFor(sp: Oracle, src: Node, dests: seq<Node>): (rows: seq<Row>)
    ensures |rows| == |dests|
    decreases |dests|
  {
    if dests == [] then []
    else RowsFor(sp, src, dests[..|dests| - 1]) + [Entry(sp, src, dests[|dests| - 1])]
  }

  /** The rows pushed for the first m sources, each against every key. */
  function Table(sp: Oracle, keys: seq<Node>, m: nat): (t: seq<Row>)
    requires m <= |keys|
    ensures |t| == m * |keys|
  {
    if m == 0 then [] else Table(sp, keys, m - 1) + RowsFor(sp, keys[m - 1], keys)
  }

  /** The complete table for a graph. */
  function Build(g: Graph, sp: Oracle): seq<Row> {
    Table(sp, Keys(g), |g|)
  }

  /** One more destination adds its row at the end of the block. */
  lemma RowsForStep(sp: Oracle, src: Node, keys: seq<Node>, j: nat)
    requires j < |keys|
    ensures RowsFor(sp, src, keys[..j + 1]) == RowsFor(sp, src, keys[..j]) + [Entry(sp, src, keys[j])]
  {
    assert keys[..j + 1][..j] == keys[..j];
  }

  lemma {:induction false} MulMonotone(a: nat, b: nat, n: nat)
    requires a <= b
    ensures a * n <= b * n
  {
  }

  /** The j-th row of a source's block is its entry for the j-th destination. */
  lemma {:induction false} RowsForAt(sp: Oracle, src: Node, dests: seq<Node>, j: nat)
    requires j < |dests|
    ensures RowsFor(sp, src, dests)[j] == Entry(sp, src, dests[j])
  {
    var init := dests[..|dests| - 1];
    if j < |init| {
      RowsForAt(sp, src, init, j);
    }
  }

  /** Row i*N + j of the table holds the entry for (keys[i], keys[j]). */
  lemma {:induction false} TableAt(sp: Oracle, keys: seq<Node>, m: nat, i: nat, j: nat)
    requires m <= |keys| && i < m && j < |keys|
    ensures i * |keys| + j < |Table(sp, keys, m)|
    ensures Table(sp, keys, m)[i * |keys| + j] == Entry(sp, keys[i], keys[j])
  {
    var n := |keys|;
    var prev := Table(sp, keys, m - 1);
    assert |prev| == (m - 1) * n;
    if i < m - 1 {
      TableAt(sp, keys, m - 1, i, j);
    } else {
      RowsForAt(sp, src := keys[m - 1], dests := keys, j := j);
    }
  }

  /** Every row of the table is the entry for its own (src, dest) pair, and
      both ends are declared nodes. */
  lemma {:induction false} TableRowsAreEntries(sp: Oracle, keys: seq<Node>, m: nat, k: nat)
    requires m <= |keys| && k < |Table(sp, keys, m)|
    ensures var row := Table(sp, keys, m)[k];
      row == Entry(sp, row.src, row.dest) && row.src in keys[..m] && row.dest in keys
  {
    var n := |keys|;
    var prev := Table(sp, keys, m - 1);
    if k < |prev| {
      TableRowsAreEntries(sp, keys, m - 1, k);
    } else {
      RowsForAt(sp, keys[m - 1], keys, k - |prev|);
    }
  }

  lemma DistinctAt(s: seq<Node>, a: nat, b: nat)
    requires Distinct(s) && a < |s| && b < |s| && s[a] == s[b]
    ensures a == b
  {
  }

  /** Within the block of keys[m], only the row for keys[j] is for (keys[i], keys[j]),
      and only when i == m. */
  lemma BlockMatchAt(sp: Oracle, keys: seq<Node>, m: nat, i: nat, j: nat, d: nat)
    requires Distinct(keys)
    requires m < |keys| && i < |keys| && j < |keys| && d < |keys|
    ensures var row := RowsFor(sp, keys[m], keys)[d];
      (row.src == keys[i] && row.dest == keys[j]) <==> (i == m && d == j)
  {
    RowsForAt(sp, keys[m], keys, d);
    var row := RowsFor(sp, keys[m], keys)[d];
    if row.src == keys[i] && row.dest == keys[j] {
      DistinctAt(keys, m, i);
      DistinctAt(keys, d, j);
    }
  }

  /** Under distinct keys, the only row for (keys[i], keys[j]) among the
      first m blocks is row i*N + j, and it exists only when i < m. */
  lemma {:induction false} TableMatchAt(sp: Oracle, keys: seq<Node>, m: nat, i: nat, j: nat, k: nat)
    requires Distinct(keys)
    requires m <= |keys| && i < |keys| && j < |keys| && k < |Table(sp, keys, m)|
    ensures var row := Table(sp, keys, m)[k];
      (row.src == keys[i] && row.dest == keys[j]) <==> (i < m && k == i * |keys| + j)
  {
    var n := |keys|;
    var prev := Table(sp, keys, m - 1);
    var block := RowsFor(sp, keys[m - 1], keys);
    var row := Table(sp, keys, m)[k];
    var base := (m - 1) * n;
    assert Table(sp, keys, m) == prev + block;
    assert |prev| == base;
    var at := i * n + j;
    if i < m - 1 {
      MulMonotone(i + 1, m - 1, n);
      assert at < base;
    } else if i == m - 1 {
      assert at == base + j;
    } else {
      MulMonotone(m, i, n);
      assert at >= m * n;
    }
    if k < base {
      assert row == prev[k];
      TableMatchAt(sp, keys, m - 1, i, j, k);
    } else {
      assert row == block[k - base];
      BlockMatchAt(sp, keys, m - 1, i, j, k - base);
    }
  }

  /** The table built for N declared nodes has N*N rows, the empty graph included. */
  lemma BuildSize(g: Graph, sp: Oracle)
    ensures |Build(g, sp)| == |g| * |g|
  {
  }

  /** The table has N*N rows; row i*N + j is the pair (keys[i], keys[j]). */
  lemma TableShape(g: Graph, sp: Oracle, i: nat, j: nat)
    requires i < |g| && j < |g|
    ensures |Build(g, sp)| == |g| * |g|
    ensures i * |g| + j < |Build(g, sp)|
    ensures Build(g, sp)[i * |g| + j].src == g[i].0
    ensures Build(g, sp)[i * |g| + j].dest == g[j].0
  {
    TableAt(sp, Keys(g), |g|, i, j);
  }

  /** Every self row carries the path [src, src], whatever the oracle said. */
  lemma SelfPairsNormalized(g: Graph, sp: Oracle)
    ensures forall k :: 0 <= k < |Build(g, sp)| && Build(g, sp)[k].src == Build(g, sp)[k].dest ==>
      Build(g, sp)[k].path == Some([Build(g, sp)[k].src, Build(g, sp)[k].src])
  {
    forall k | 0 <= k < |Build(g, sp)| {
      TableRowsAreEntries(sp, Keys(g), |g|, k);
    }
  }

  /** Every row for two different nodes stores exactly the oracle's cost and
      path for that pair; a self row keeps the oracle's cost. */
  lemma OtherPairsFromOracle(g: Graph, sp: Oracle)
    ensures forall k :: 0 <= k < |Build(g, sp)| ==>
      var row := Build(g, sp)[k];
      row.cost == sp(row.src, row.dest).cost &&
      (row.src != row.dest ==> row.path == sp(row.src, row.dest).path)
  {
    forall k | 0 <= k < |Build(g, sp)| {
      TableRowsAreEntries(sp, Keys(g), |g|, k);
    }
  }

  /** Every row is for a pair of declared nodes. */
  lemma RowsAreDeclaredPairs(g: Graph, sp: Oracle)
    ensures forall k :: 0 <= k < |Build(g, sp)| ==>
      Build(g, sp)[k].src in Keys(g) && Build(g, sp)[k].dest in Keys(g)
  {
    assert Keys(g)[..|g|] == Keys(g);
    forall k | 0 <= k < |Build(g, sp)|
      ensures Build(g, sp)[k].src in Keys(g) && Build(g, sp)[k].dest in Keys(g)
    {
      TableRowsAreEntries(sp, Keys(g), |g|, k);
    }
  }

  /** With distinct keys, each ordered pair of declared nodes has exactly one
      row, at index i*N + j. */
  lemma MatchesOnce(g: Graph, sp: Oracle, i: nat, j: nat)
    requires WellFormed(g)
    requires i < |g| && j < |g|
    ensures forall k :: 0 <= k < |Build(g, sp)| ==>
      (Build(g, sp)[k].src == g[i].0 && Build(g, sp)[k].dest == g[j].0 <==> k == i * |g| + j)
  {
    forall k | 0 <= k < |Build(g, sp)|
      ensures Build(g, sp)[k].src == g[i].0 && Build(g, sp)[k].dest == g[j].0 <==> k == i * |g| + j
    {
      TableMatchAt(sp, Keys(g), |g|, i, j, k);
    }
  }
}
