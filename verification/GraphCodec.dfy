/**
 Adjacency-list codec for graphs (Python wrapper).

 Vertex `v` of an adjacency list is row `v - 1`.  The builder makes one heap node
 per row and resolves every neighbour number to a node; the serializer walks the
 nodes breadth first from the returned one, so it only sees what is reachable.
 */
module GraphCodec {

  class GraphNode {
    const val: int  // neither builder nor serializer reassigns it
    var neighbors: seq<GraphNode>

    constructor (val: int)
      ensures this.val == val && neighbors == []
    {
      this.val := val;
      neighbors := [];
    }
  }

  /** Vertex number to the numbers of its neighbours, in order. */
  type Graph = map<int, seq<int>>

  ghost predicate Closed(g: Graph) {
    forall v, w :: v in g && w in g[v] ==> w in g
  }

  /** `ns` holds the heap nodes of graph `g`, one per vertex.  The values of the nodes need not be the vertices:
      a submission may have changed them. */
  ghost predicate Arena(ns: map<int, GraphNode>, g: Graph)
    reads ns.Values
  {
    && ns.Keys == g.Keys && Closed(g)
    && (forall v, w :: v in ns && w in ns && ns[v] == ns[w] ==> v == w)
    && forall v <- ns :: Resolved(ns, g[v]) && ns[v].neighbors == Nodes(ns, g[v])
  }

  /** Every node still has its own number, as built. */
  ghost predicate Numbered(ns: map<int, GraphNode>) { forall v <- ns :: ns[v].val == v }

  ghost predicate Resolved(ns: map<int, GraphNode>, row: seq<int>) {
    forall j :: 0 <= j < |row| ==> row[j] in ns
  }

  ghost function Nodes(ns: map<int, GraphNode>, row: seq<int>): (s: seq<GraphNode>)
    requires Resolved(ns, row)
    ensures |s| == |row| && forall j :: 0 <= j < |row| ==> s[j] == ns[row[j]]
  {
    seq(|row|, j requires 0 <= j < |row| => ns[row[j]])
  }

  // ------------------------------------------------------------------
  // Reachability
  // ------------------------------------------------------------------

  ghost predicate Path(g: Graph, p: seq<int>) {
    && |p| > 0 && p[0] in g
    && forall i :: 0 <= i < |p| - 1 ==> p[i] in g && p[i + 1] in g[p[i]]
  }

  ghost predicate Reachable(g: Graph, s: int, v: int) {
    exists p :: Path(g, p) && p[0] == s && p[|p| - 1] == v
  }

  lemma ReachStart(g: Graph, s: int)
    requires s in g
    ensures Reachable(g, s, s)
  {
    assert Path(g, [s]);
  }

  lemma ReachStep(g: Graph, s: int, v: int, w: int)
    requires Reachable(g, s, v) && v in g && w in g[v]
    ensures Reachable(g, s, w)
  {
    var p :| Path(g, p) && p[0] == s && p[|p| - 1] == v;
    assert Path(g, p + [w]);
  }

  /** A set that holds the start and is closed under edges holds everything reachable. */
  lemma {:induction false} ReachInside(g: Graph, seen: set<int>, p: seq<int>)
    requires Path(g, p) && p[0] in seen
    requires forall v, w :: v in seen && v in g && w in g[v] ==> w in seen
    ensures p[|p| - 1] in seen
    decreases |p|
  {
    if |p| > 1 {
      var q := p[..|p| - 1];
      assert Path(g, q);
      ReachInside(g, seen, q);
      assert p[|p| - 2] in seen;
    }
  }

  // ------------------------------------------------------------------
  // What serializing from vertex `s` must give
  // ------------------------------------------------------------------

  ghost predicate IsAdjacencyFrom(g: Graph, s: int, rows: seq<seq<int>>) {
    && Reachable(g, s, |rows|)
    && (forall v :: Reachable(g, s, v) ==> 1 <= v <= |rows| && v in g && rows[v - 1] == g[v])
    && (forall v :: 1 <= v <= |rows| && !Reachable(g, s, v) ==> rows[v - 1] == [])
  }

  /** The specification pins the result down. */
  lemma AdjacencyIsUnique(g: Graph, s: int, a: seq<seq<int>>, b: seq<seq<int>>)
    requires IsAdjacencyFrom(g, s, a) && IsAdjacencyFrom(g, s, b)
    ensures a == b
  {
    assert |a| == |b|;
    forall i | 0 <= i < |a| ensures a[i] == b[i] {
      assert Reachable(g, s, i + 1) || !Reachable(g, s, i + 1);
      assert a[i + 1 - 1] == b[i + 1 - 1];
    }
  }

  // ------------------------------------------------------------------
  // Builder
  // ------------------------------------------------------------------

  predicate Vertex(adj: seq<seq<int>>, v: int) { 1 <= v <= |adj| }

  predicate InRange(adj: seq<seq<int>>) {
    forall i, j :: 0 <= i < |adj| && 0 <= j < |adj[i]| ==> Vertex(adj, adj[i][j])
  }

  function ToGraph(adj: seq<seq<int>>): Graph {
    map v | 1 <= v <= |adj| && Vertex(adj, v) :: adj[v - 1]
  }

  method MakeNodes(n: nat) returns (nodes: map<int, GraphNode>)
    ensures forall v :: v in nodes <==> 1 <= v <= n
    ensures forall v <- nodes :: fresh(nodes[v]) && nodes[v].val == v && nodes[v].neighbors == []
  {
    nodes := map[];
    for i := 0 to n
      invariant forall v :: v in nodes <==> 1 <= v <= i
      invariant forall v <- nodes :: fresh(nodes[v]) && nodes[v].val == v && nodes[v].neighbors == []
    {
      var node := new GraphNode(i + 1);
      nodes := nodes[i + 1 := node];
    }
  }

  /** Appends the nodes of one row; stops at the first number that names no node. */
  method FillRow(node: GraphNode, row: seq<int>, nodes: map<int, GraphNode>) returns (ok: bool)
    requires node.neighbors == []
    modifies node
    ensures ok <==> Resolved(nodes, row)
    ensures ok ==> node.neighbors == Nodes(nodes, row)
  {
    for j := 0 to |row|
      invariant Resolved(nodes, row[..j]) && node.neighbors == Nodes(nodes, row[..j])
    {
      if row[j] !in nodes { return false; }
      node.neighbors := node.neighbors + [nodes[row[j]]];
      assert row[..j + 1] == row[..j] + [row[j]];
    }
    assert row[..|row|] == row;
    ok := true;
  }

  lemma BuiltArena(nodes: map<int, GraphNode>, adj: seq<seq<int>>)
    requires forall v :: v in nodes <==> 1 <= v <= |adj|
    requires forall v <- nodes :: nodes[v].val == v
    requires forall v <- nodes :: Resolved(nodes, adj[v - 1]) && nodes[v].neighbors == Nodes(nodes, adj[v - 1])
    ensures InRange(adj) && Arena(nodes, ToGraph(adj)) && Numbered(nodes)
  {
    var g := ToGraph(adj);
    forall v, w | v in g && w in g[v] ensures w in g {
      assert v in nodes && Resolved(nodes, adj[v - 1]);
    }
    forall i, j | 0 <= i < |adj| && 0 <= j < |adj[i]| ensures Vertex(adj, adj[i][j]) {
      assert i + 1 in nodes && Resolved(nodes, adj[i + 1 - 1]);
    }
  }

  /** A neighbour number outside 1..n is a KeyError: `ok` is false. */
  method Build(adj: seq<seq<int>>) returns (ok: bool, root: GraphNode?, ghost ns: map<int, GraphNode>)
    ensures ok <==> InRange(adj)
    ensures ok ==> Arena(ns, ToGraph(adj)) && Numbered(ns) && fresh(ns.Values)
    ensures ok ==> (root == null <==> adj == []) && (root != null ==> 1 in ns && ns[1] == root)
  {
    if |adj| == 0 {
      return true, null, map[];
    }
    var nodes := MakeNodes(|adj|);
    for i := 0 to |adj|
      invariant forall v <- nodes :: v <= i ==> Resolved(nodes, adj[v - 1]) && nodes[v].neighbors == Nodes(nodes, adj[v - 1])
      invariant forall v <- nodes :: v > i ==> nodes[v].neighbors == []
    {
      var filled := FillRow(nodes[i + 1], adj[i], nodes);
      if !filled {
        return false, null, map[];
      }
    }
    BuiltArena(nodes, adj);
    return true, nodes[1], nodes;
  }

  // ------------------------------------------------------------------
  // Breadth-first search
  // ------------------------------------------------------------------

  /** `keys` are the vertices of `nodes`. */
  ghost predicate Keyed(ns: map<int, GraphNode>, keys: seq<int>, nodes: seq<GraphNode>) {
    |keys| == |nodes| && forall i :: 0 <= i < |keys| ==> keys[i] in ns && ns[keys[i]] == nodes[i]
  }

  ghost predicate Visited(ns: map<int, GraphNode>, visited: set<GraphNode>, seen: set<int>) {
    forall v :: v in ns ==> (ns[v] in visited <==> v in seen)
  }

  lemma VisitedKey(ns: map<int, GraphNode>, visited: set<GraphNode>, seen: set<int>, v: int)
    requires Visited(ns, visited, seen) && v in ns
    ensures ns[v] in visited <==> v in seen
  {
  }

  /** Everything met so far is reachable, and no edge leads out of what was met. */
  ghost predicate Searching(g: Graph, s: int, seen: set<int>, queue: seq<int>) {
    && (s in seen || s in queue)
    && (forall v <- seen :: Reachable(g, s, v)) && (forall v <- queue :: Reachable(g, s, v))
    && (forall v, w :: v in seen && v in g && w in g[v] ==> w in seen || w in queue)
  }

  /** Inner loop: queue the neighbours that were not visited yet. */
  method QueueUnvisited(neighbors: seq<GraphNode>, visited: set<GraphNode>, queue: seq<GraphNode>,
                        ghost ns: map<int, GraphNode>, ghost row: seq<int>, ghost seen: set<int>, ghost keys: seq<int>)
    returns (q: seq<GraphNode>, ghost ks: seq<int>)
    requires Keyed(ns, row, neighbors) && Keyed(ns, keys, queue) && Visited(ns, visited, seen)
    ensures Keyed(ns, ks, q) && keys <= ks
    ensures (forall v <- ks :: v in keys || v in row) && (forall v <- row :: v in seen || v in ks)
  {
    q, ks := queue, keys;
    for j := 0 to |neighbors|
      invariant Keyed(ns, ks, q) && keys <= ks
      invariant forall v <- ks :: v in keys || v in row
      invariant forall i :: 0 <= i < j ==> row[i] in seen || row[i] in ks
    {
      assert row[j] in ns && ns[row[j]] == neighbors[j];
      ghost var before := ks;
      if neighbors[j] !in visited {
        q, ks := q + [neighbors[j]], ks + [row[j]];
        assert ks[|before|] == row[j];
        forall i | 0 <= i <= j ensures row[i] in seen || row[i] in ks {
          if i < j && row[i] in before { assert row[i] in before + [row[j]]; }
        }
      } else {
        VisitedKey(ns, visited, seen, row[j]);
      }
    }
  }

  lemma VisitOne(g: Graph, s: int, seen: set<int>, queue: seq<int>, ks: seq<int>)
    requires queue != [] && queue[0] in g && Searching(g, s, seen, queue) && queue[1..] <= ks
    requires (forall v <- ks :: v in queue[1..] || v in g[queue[0]])
    requires forall v <- g[queue[0]] :: v in seen + {queue[0]} || v in ks
    ensures Searching(g, s, seen + {queue[0]}, ks)
  {
    assert forall v <- queue :: v == queue[0] || v in queue[1..];
    forall v | v in ks ensures Reachable(g, s, v) {
      if v in g[queue[0]] { ReachStep(g, s, queue[0], v); }
    }
  }

  lemma SkipOneMore(g: Graph, s: int, seen: set<int>, queue: seq<int>)
    requires queue != [] && queue[0] in seen && Searching(g, s, seen, queue)
    ensures Searching(g, s, seen, queue[1..])
  {
    assert forall v <- queue :: v == queue[0] || v in queue[1..];
  }

  /** When the queue is empty, exactly the reachable vertices were visited. */
  lemma SearchDone(g: Graph, s: int, seen: set<int>, v: int)
    requires Searching(g, s, seen, []) && Reachable(g, s, v)
    ensures v in seen
  {
    var p :| Path(g, p) && p[0] == s && p[|p| - 1] == v;
    ReachInside(g, seen, p);
  }

  ghost predicate Distinct(keys: seq<int>) {
    forall i, j :: 0 <= i < j < |keys| ==> keys[i] != keys[j]
  }

  method Traverse(root: GraphNode, ghost ns: map<int, GraphNode>, ghost g: Graph, ghost s: int)
    returns (nodes: seq<GraphNode>, ghost keys: seq<int>)
    requires Arena(ns, g) && s in ns && ns[s] == root
    ensures Keyed(ns, keys, nodes) && Distinct(keys) && forall v :: v in keys <==> Reachable(g, s, v)
  {
    var visited: set<GraphNode>, queue := {}, [root];
    ghost var seen: set<int>, waiting := {}, [s];
    nodes, keys := [], [];
    ReachStart(g, s);
    while |queue| > 0
      invariant Keyed(ns, waiting, queue) && Visited(ns, visited, seen) && Searching(g, s, seen, waiting)
      invariant Keyed(ns, keys, nodes) && Distinct(keys) && forall v :: v in keys <==> v in seen
      decreases g.Keys - seen, |queue|
    {
      var curr := queue[0];
      ghost var v := waiting[0];
      queue := queue[1..];
      if curr in visited {
        SkipOneMore(g, s, seen, waiting);
        waiting := waiting[1..];
        continue;
      }
      var q, ks := QueueUnvisited(curr.neighbors, visited + {curr}, queue, ns, g[v], seen + {v}, waiting[1..]);
      VisitOne(g, s, seen, waiting, ks);
      visited, queue, nodes := visited + {curr}, q, nodes + [curr];
      seen, waiting, keys := seen + {v}, ks, keys + [v];
    }
    assert waiting == [];
    forall v ensures v in keys <==> Reachable(g, s, v) {
      if Reachable(g, s, v) { SearchDone(g, s, seen, v); }
    }
  }

  // ------------------------------------------------------------------
  // Sorting by value
  // ------------------------------------------------------------------

  function Inserted<T>(s: seq<T>, at: nat, x: T): (r: seq<T>)
    requires at <= |s|
    ensures (forall n <- r :: n in s || n == x) && (forall n <- s :: n in r) && x in r
    ensures |r| == |s| + 1 && r[at] == x
    ensures forall i :: 0 <= i < at ==> r[i] == s[i]
    ensures forall i :: at < i < |r| ==> r[i] == s[i - 1]
  {
    var r := s[..at] + [x] + s[at..];
    assert s == s[..at] + s[at..];
    r
  }

  ghost predicate Sorted(nodes: seq<GraphNode>) {
    forall i, j :: 0 <= i < j < |nodes| ==> nodes[i].val <= nodes[j].val
  }

  lemma InsertKeyed(ns: map<int, GraphNode>, keys: seq<int>, nodes: seq<GraphNode>, at: nat, v: int)
    requires Keyed(ns, keys, nodes) && Distinct(keys) && at <= |keys| && v in ns && v !in keys
    ensures Keyed(ns, Inserted(keys, at, v), Inserted(nodes, at, ns[v])) && Distinct(Inserted(keys, at, v))
  {
  }

  /** The stable sort by value. */
  method SortByVal(nodes: seq<GraphNode>, ghost ns: map<int, GraphNode>, ghost keys: seq<int>)
    returns (sorted: seq<GraphNode>, ghost order: seq<int>)
    requires Keyed(ns, keys, nodes) && Distinct(keys)
    ensures Keyed(ns, order, sorted) && Distinct(order) && Sorted(sorted) && forall v :: v in order <==> v in keys
  {
    sorted, order := [], [];
    for k := 0 to |nodes|
      invariant Keyed(ns, order, sorted) && Distinct(order) && Sorted(sorted)
      invariant forall v :: v in order <==> v in keys[..k]
    {
      var at := |sorted|;
      while at > 0 && sorted[at - 1].val > nodes[k].val
        invariant 0 <= at <= |sorted|
        invariant forall i :: at <= i < |sorted| ==> nodes[k].val < sorted[i].val
      {
        at := at - 1;
      }
      assert keys[k] !in keys[..k];
      InsertKeyed(ns, order, sorted, at, keys[k]);
      sorted, order := Inserted(sorted, at, nodes[k]), Inserted(order, at, keys[k]);
    }
    assert keys[..|keys|] == keys;
  }

  // ------------------------------------------------------------------
  // Writing the rows
  // ------------------------------------------------------------------

  method MaxVal(nodes: seq<GraphNode>) returns (m: int)
    requires nodes != []
    ensures (exists n <- nodes :: n.val == m) && forall n <- nodes :: n.val <= m
  {
    m := nodes[0].val;
    for i := 0 to |nodes|
      invariant (exists n <- nodes :: n.val == m) && forall k :: 0 <= k < i ==> nodes[k].val <= m
    {
      if nodes[i].val > m { m := nodes[i].val; }
    }
  }

  /** The row that index `val - 1` addresses among `max` rows, where negative indices count from the end; -1 for none. */
  function Landing(val: int, max: nat): (r: int)
    ensures -1 <= r < max
  {
    if 1 <= val <= max then val - 1
    else if 1 - max <= val <= 0 then val - 1 + max
    else -1
  }

  /** Python's indexing: a value addresses row `r` exactly when its predecessor is `r` counted from the front, or `r`
      counted from the end; it addresses none exactly when its predecessor is out of range. */
  lemma LandingIsPythonIndex(val: int, max: nat, r: int)
    requires 0 <= r < max
    ensures Landing(val, max) == r <==> val - 1 == r || val - 1 == r - max
    ensures Landing(val, max) == -1 <==> val - 1 >= max || val - 1 < 0 - max
  {
  }

  function ValOf(vals: map<int, int>, v: int): int { if v in vals then vals[v] else 0 }

  function ValsOf(vals: map<int, int>, row: seq<int>): seq<int> { seq(|row|, j requires 0 <= j < |row| => ValOf(vals, row[j])) }

  function RowOf(g: Graph, v: int): seq<int> { if v in g then g[v] else [] }

  /** Row `r` once the first `k` vertices of `order` are written: the neighbours' values of those that land there. */
  function Landed(vals: map<int, int>, g: Graph, order: seq<int>, k: nat, max: nat, r: int): seq<int>
    requires k <= |order|
  {
    if k == 0 then [] else
      var v := order[k - 1];
      Landed(vals, g, order, k - 1, max, r) + if Landing(ValOf(vals, v), max) == r then ValsOf(vals, RowOf(g, v)) else []
  }

  /** A vertex with neighbours lands nowhere: writing them out is an IndexError. */
  predicate Misses(vals: map<int, int>, g: Graph, v: int, max: nat) {
    Landing(ValOf(vals, v), max) == -1 && RowOf(g, v) != []
  }

  ghost predicate Labelled(ns: map<int, GraphNode>, vals: map<int, int>) {
    vals.Keys == ns.Keys && forall v <- ns :: ns[v].val == vals[v]
  }

  /** Appends the neighbours' values of `curr`. */
  method FillFrom(rows: seq<seq<int>>, curr: GraphNode, ghost ns: map<int, GraphNode>, ghost vals: map<int, int>, ghost row: seq<int>)
    returns (ok: bool, rows': seq<seq<int>>)
    requires Keyed(ns, row, curr.neighbors) && Labelled(ns, vals)
    ensures var at := Landing(curr.val, |rows|);
      && (ok <==> at != -1 || row == [])
      && (ok ==> rows' == if at == -1 then rows else rows[at := rows[at] + ValsOf(vals, row)])
  {
    rows' := rows;
    var at := if curr.val >= 1 then curr.val - 1 else curr.val - 1 + |rows|;
    ghost var all := ValsOf(vals, row);
    for j := 0 to |curr.neighbors|
      invariant j == 0 ==> rows' == rows
      invariant j > 0 ==> 0 <= at < |rows| && at == Landing(curr.val, |rows|) && rows' == rows[at := rows[at] + all[..j]]
    {
      if !(0 <= at < |rows|) { return false, rows; }
      assert all[..j + 1] == all[..j] + [all[j]] && all[j] == curr.neighbors[j].val;
      assert rows[at] + all[..0] == rows[at];
      assert rows'[at] == rows[at] + all[..j];
      assert rows[at] + all[..j] + [all[j]] == rows[at] + all[..j + 1];
      rows' := rows'[at := rows'[at] + [curr.neighbors[j].val]];
    }
    assert all[..|row|] == all;
    assert row == [] ==> forall k: int :: 0 <= k < |rows| ==> rows[k] + all == rows[k];
    ok := true;
  }

  /** The rows for the vertices in `order`, or an IndexError. */
  ghost predicate Written(vals: map<int, int>, g: Graph, order: seq<int>, k: nat, rows: seq<seq<int>>)
    requires k <= |order|
  {
    && (forall i :: 0 <= i < k ==> !Misses(vals, g, order[i], |rows|))
    && forall r :: 0 <= r < |rows| ==> rows[r] == Landed(vals, g, order, k, |rows|, r)
  }

  method FillRows(nodes: seq<GraphNode>, max: nat, ghost ns: map<int, GraphNode>, ghost g: Graph,
                  ghost vals: map<int, int>, ghost order: seq<int>)
    returns (ok: bool, rows: seq<seq<int>>)
    requires Arena(ns, g) && Keyed(ns, order, nodes) && Labelled(ns, vals)
    ensures ok <==> forall v <- order :: !Misses(vals, g, v, max)
    ensures ok ==> |rows| == max && Written(vals, g, order, |order|, rows)
  {
    rows := seq(max, _ => []);
    for k := 0 to |nodes|
      invariant |rows| == max && Written(vals, g, order, k, rows)
    {
      ghost var v := order[k];
      assert RowOf(g, v) == g[v] && Keyed(ns, g[v], nodes[k].neighbors) && ValOf(vals, v) == nodes[k].val;
      var filled, rows' := FillFrom(rows, nodes[k], ns, vals, g[v]);
      if !filled {
        assert Misses(vals, g, v, max) && v in order;
        return false, rows;
      }
      WrittenStep(vals, g, order, k, rows, rows');
      rows := rows';
    }
    ok := true;
  }

  lemma WrittenStep(vals: map<int, int>, g: Graph, order: seq<int>, k: nat, rows: seq<seq<int>>, rows': seq<seq<int>>)
    requires k < |order| && Written(vals, g, order, k, rows) && !Misses(vals, g, order[k], |rows|)
    requires var at := Landing(ValOf(vals, order[k]), |rows|);
      rows' == if at == -1 then rows else rows[at := rows[at] + ValsOf(vals, RowOf(g, order[k]))]
    ensures Written(vals, g, order, k + 1, rows')
  {
    var v := order[k];
    var at := Landing(ValOf(vals, v), |rows|);
    forall r | 0 <= r < |rows'| ensures rows'[r] == Landed(vals, g, order, k + 1, |rows'|, r) {
      assert rows[r] == Landed(vals, g, order, k, |rows|, r);
      if at != r { assert rows[r] + [] == rows[r]; }
    }
  }

  /** `order` lists the vertices reachable from `s`, each once, by increasing value. */
  ghost predicate IsOrder(vals: map<int, int>, g: Graph, s: int, order: seq<int>) {
    && Distinct(order) && (forall v :: v in order <==> Reachable(g, s, v))
    && forall i, j :: 0 <= i < j < |order| ==> ValOf(vals, order[i]) <= ValOf(vals, order[j])
  }

  /** The largest value on a reachable vertex, at least zero. */
  ghost predicate IsTop(vals: map<int, int>, order: seq<int>, max: nat) {
    && (forall v <- order :: ValOf(vals, v) <= max)
    && (max > 0 ==> exists v <- order :: ValOf(vals, v) == max)
  }

  /** Serializes any graph, whatever values its nodes have.  There are as many rows as the largest value; each reachable
      vertex appends its neighbours' values to the row its value addresses, and an IndexError is raised exactly
      when a vertex that has neighbours addresses none. */
  method Serialize(root: GraphNode?, ghost ns: map<int, GraphNode>, ghost g: Graph, ghost vals: map<int, int>, ghost s: int)
    returns (ok: bool, rows: seq<seq<int>>, ghost order: seq<int>, ghost max: nat)
    requires Arena(ns, g) && Labelled(ns, vals)
    requires root != null ==> s in ns && ns[s] == root
    ensures root == null ==> ok && rows == []
    ensures root != null ==>
      && IsOrder(vals, g, s, order) && IsTop(vals, order, max)
      && (ok <==> forall v <- order :: !Misses(vals, g, v, max))
      && (ok ==> |rows| == max && forall r :: 0 <= r < max ==> rows[r] == Landed(vals, g, order, |order|, max, r))
  {
    if root == null { return true, [], [], 0; }
    ghost var keys;
    var found;
    found, keys := Traverse(root, ns, g, s);
    var nodes;
    nodes, order := SortByVal(found, ns, keys);
    ReachStart(g, s);
    assert s in order;
    var top := MaxVal(nodes);
    var count: nat := if top < 0 then 0 else top;
    max := count;
    forall i | 0 <= i < |order| ensures ValOf(vals, order[i]) == nodes[i].val { }
    assert forall v <- order :: ValOf(vals, v) <= max;
    if max > 0 {
      var i :| 0 <= i < |nodes| && nodes[i].val == top;
      assert order[i] in order && ValOf(vals, order[i]) == max;
    }
    ok, rows := FillRows(nodes, count, ns, g, vals, order);
  }

  // ------------------------------------------------------------------
  // Graphs whose nodes still have their own numbers
  // ------------------------------------------------------------------

  lemma OwnNumbers(vals: map<int, int>, g: Graph, u: int)
    requires Closed(g) && forall v <- g :: v in vals && vals[v] == v
    ensures ValsOf(vals, RowOf(g, u)) == RowOf(g, u)
  {
    var row := RowOf(g, u);
    forall j | 0 <= j < |row| ensures ValOf(vals, row[j]) == row[j] {
      assert row[j] in g[u];
    }
  }

  lemma {:induction false} LandedOnce(vals: map<int, int>, g: Graph, order: seq<int>, k: nat, max: nat, v: int)
    requires k <= |order| && Distinct(order) && 1 <= v <= max && Closed(g)
    requires forall u <- order :: u in g && u in vals && vals[u] == u && 1 <= u <= max
    requires forall u <- g :: u in vals && vals[u] == u
    ensures Landed(vals, g, order, k, max, v - 1) == if v in order[..k] then RowOf(g, v) else []
  {
    if k > 0 {
      LandedOnce(vals, g, order, k - 1, max, v);
      var u := order[k - 1];
      assert u in order;
      assert order[..k] == order[..k - 1] + [u] && u !in order[..k - 1];
      assert Landing(ValOf(vals, u), max) == v - 1 <==> u == v;
      OwnNumbers(vals, g, u);
      var before := Landed(vals, g, order, k - 1, max, v - 1);
      assert Landed(vals, g, order, k, max, v - 1) == before + if u == v then RowOf(g, u) else [];
      hide Landed, Landing, ValsOf, RowOf;
      assert Landed(vals, g, order, k, max, v - 1) == if v in order[..k] then RowOf(g, v) else [];
    }
  }

  /** Then the rows are the adjacency list of what is reachable, and there is no error. */
  lemma NumberedRows(vals: map<int, int>, g: Graph, s: int, order: seq<int>, max: nat, rows: seq<seq<int>>)
    requires Closed(g) && s in g && (forall v <- g :: 1 <= v && v in vals && vals[v] == v)
    requires IsOrder(vals, g, s, order) && IsTop(vals, order, max)
    ensures forall v <- order :: !Misses(vals, g, v, max)
    ensures |rows| == max && (forall r :: 0 <= r < max ==> rows[r] == Landed(vals, g, order, |order|, max, r)) ==>
      IsAdjacencyFrom(g, s, rows)
  {
    ReachStart(g, s);
    forall v | v in order ensures v in g && vals[v] == v && 1 <= v <= max {
      ReachVertex(g, s, v);
    }
    assert s in order && max > 0;
    var top :| top in order && ValOf(vals, top) == max;
    assert order[..|order|] == order;
    if |rows| == max && forall r :: 0 <= r < max ==> rows[r] == Landed(vals, g, order, |order|, max, r) {
      forall v | 1 <= v <= max ensures rows[v - 1] == if Reachable(g, s, v) then RowOf(g, v) else [] {
        LandedOnce(vals, g, order, |order|, max, v);
      }
    }
  }

  lemma ClosedStep(g: Graph, v: int, w: int)
    requires Closed(g) && v in g && w in g[v]
    ensures w in g
  {
  }

  lemma ReachVertex(g: Graph, s: int, v: int)
    requires Closed(g) && Reachable(g, s, v)
    ensures v in g
  {
    var p :| Path(g, p) && p[0] == s && p[|p| - 1] == v;
    if |p| > 1 {
      var i := |p| - 2;
      assert p[i] in g && p[i + 1] in g[p[i]];
      ClosedStep(g, p[i], v);
    }
  }

  // ------------------------------------------------------------------
  // Round trip
  // ------------------------------------------------------------------

  /** The list comes back unchanged iff the last vertex is reachable and unreachable vertices have no row. */
  lemma RoundTrip(adj: seq<seq<int>>, rows: seq<seq<int>>)
    requires adj != [] && InRange(adj) && IsAdjacencyFrom(ToGraph(adj), 1, rows)
    ensures rows == adj <==>
      Reachable(ToGraph(adj), 1, |adj|) &&
      forall v :: 1 <= v <= |adj| && !Reachable(ToGraph(adj), 1, v) ==> adj[v - 1] == []
    ensures (forall v :: 1 <= v <= |adj| ==> Reachable(ToGraph(adj), 1, v)) ==> rows == adj
  {
    var g := ToGraph(adj);
    assert |rows| <= |adj|;
    if Reachable(g, 1, |adj|) && forall v :: 1 <= v <= |adj| && !Reachable(g, 1, v) ==> adj[v - 1] == [] {
      forall i | 0 <= i < |adj| ensures rows[i] == adj[i] {
        assert Reachable(g, 1, i + 1) || !Reachable(g, 1, i + 1);
        assert rows[i + 1 - 1] == adj[i + 1 - 1];
      }
    }
  }

  /** Build, then serialize from the returned node. */
  method BuildAndSerialize(adj: seq<seq<int>>) returns (ok: bool, rows: seq<seq<int>>)
    ensures ok <==> InRange(adj)
    ensures ok && adj == [] ==> rows == []
    ensures ok && adj != [] ==> IsAdjacencyFrom(ToGraph(adj), 1, rows)
  {
    var built, root, ns := Build(adj);
    ok, rows := built, [];
    if ok {
      ghost var g := ToGraph(adj);
      ghost var vals := map v | v in ns :: v;
      ghost var order, max;
      var written;
      written, rows, order, max := Serialize(root, ns, g, vals, 1);
      if root != null {
        NumberedRows(vals, g, 1, order, max, rows);
      }
    }
  }
}
