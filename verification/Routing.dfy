/**
 Routing along shortest paths (getBestOutgoingEdgeForEachNode in src/util/permutation.cpp, and its use in
 src/comm/randomized_routing_tree.hpp): every process computes, on its own, the neighbour which is next on
 the way to each other process.
 */
module Routing {
  import opened Pigeonhole
  import opened ExpanderGraphs
  import Feistel

  const UNREACHED: int := 0x7fff_ffff

  ghost predicate IsGraph(rows: seq<seq<int>>, n: int)
  {
    n >= 1 && forall i {:trigger rows[i]} :: 0 <= i < |rows| ==> |rows[i]| == n && Within(rows[i], n)
  }

  ghost predicate Edge(rows: seq<seq<int>>, n: int, x: int, y: int)
    requires IsGraph(rows, n)
  {
    0 <= x < n && exists i {:trigger rows[i]} :: 0 <= i < |rows| && rows[i][x] == y
  }

  /** There is a walk of length k from x to y. */
  ghost predicate Connects(rows: seq<seq<int>>, n: int, x: int, y: int, k: nat)
    requires IsGraph(rows, n)
    decreases k
  {
    if k == 0 then x == y else exists z {:trigger Edge(rows, n, x, z)} ::
      Edge(rows, n, x, z) && Connects(rows, n, z, y, k - 1)
  }

  ghost predicate Distance(rows: seq<seq<int>>, n: int, x: int, y: int, d: nat)
    requires IsGraph(rows, n)
  {
    Connects(rows, n, x, y, d) && forall k: nat :: k < d ==> !Connects(rows, n, x, y, k)
  }

  ghost predicate StronglyConnected(rows: seq<seq<int>>, n: int)
    requires IsGraph(rows, n)
  {
    forall x, y {:trigger Linked(rows, n, x, y)} :: 0 <= x < n && 0 <= y < n ==> Linked(rows, n, x, y)
  }

  ghost predicate Linked(rows: seq<seq<int>>, n: int, x: int, y: int)
    requires IsGraph(rows, n)
  {
    exists k: nat :: Connects(rows, n, x, y, k)
  }

  lemma {:induction false} WalkOneMore(rows: seq<seq<int>>, n: int, x: int, y: int, z: int, k: nat)
    requires IsGraph(rows, n) && Connects(rows, n, x, y, k) && Edge(rows, n, y, z)
    ensures Connects(rows, n, x, z, k + 1)
    decreases k
  {
    if k == 0 {
      assert Connects(rows, n, z, z, 0);
    } else {
      var u :| Edge(rows, n, x, u) && Connects(rows, n, u, y, k - 1);
      WalkOneMore(rows, n, u, y, z, k - 1);
    }
  }

  /** The first cyclic row connects everything. */
  lemma {:induction false} CycleConnects(rows: seq<seq<int>>, n: int)
    requires IsGraph(rows, n) && rows != [] && SingleCycle(rows[0])
    ensures StronglyConnected(rows, n)
  {
    forall x, y | 0 <= x < n && 0 <= y < n ensures Linked(rows, n, x, y) {
      assert Reached(rows[0], x, y);
      var k: nat :| k < n && Hops(rows[0], x, k) == y;
      HopsConnect(rows, n, x, k);
    }
  }

  lemma {:induction false} HopsConnect(rows: seq<seq<int>>, n: int, x: int, k: nat)
    requires IsGraph(rows, n) && rows != [] && 0 <= x < n
    ensures Connects(rows, n, x, Hops(rows[0], x, k), k)
  {
    if k > 0 {
      HopsConnect(rows, n, x, k - 1);
      var y := Hops(rows[0], x, k - 1);
      assert Edge(rows, n, y, rows[0][y]);
      WalkOneMore(rows, n, x, y, rows[0][y], k - 1);
    }
  }

  // ---------------------------------------------------------------------
  // The invariant of the search
  // ---------------------------------------------------------------------

  /** The distance of x is that of some walk which starts with the best outgoing edge. */
  ghost predicate Known(rows: seq<seq<int>>, n: int, me: int, dist: seq<int>, best: seq<int>, x: int)
    requires IsGraph(rows, n) && |dist| == n && |best| == n && 0 <= x < n
  {
    dist[x] == UNREACHED
    || (0 <= dist[x] < UNREACHED
        && Connects(rows, n, me, x, dist[x])
        && (x != me ==> dist[x] >= 1 && Edge(rows, n, me, best[x]) && Connects(rows, n, best[x], x, dist[x] - 1)))
  }

  /** All edges of x have been considered. */
  ghost predicate Relaxed(rows: seq<seq<int>>, n: int, dist: seq<int>, x: int)
    requires IsGraph(rows, n) && |dist| == n && 0 <= x < n
  {
    dist[x] < UNREACHED && forall i {:trigger rows[i]} :: 0 <= i < |rows| ==> dist[rows[i][x]] <= dist[x] + 1
  }

  ghost predicate Inv(rows: seq<seq<int>>, n: int, me: int, dist: seq<int>, best: seq<int>, unvisited: set<int>)
    requires IsGraph(rows, n)
  {
    && |dist| == n && |best| == n && 0 <= me < n && dist[me] == 0
    && (forall x {:trigger x in unvisited} :: x in unvisited ==> 0 <= x < n)
    && (forall x {:trigger Known(rows, n, me, dist, best, x)} :: 0 <= x < n ==> Known(rows, n, me, dist, best, x))
    && (forall x {:trigger Relaxed(rows, n, dist, x)} :: 0 <= x < n && x !in unvisited ==> Relaxed(rows, n, dist, x))
    && (forall v, u {:trigger dist[v], dist[u]} :: 0 <= v < n && v !in unvisited && u in unvisited ==>
      dist[v] <= dist[u])
  }

  /** From a visited node, unvisited nodes cannot be reached if all of them are at infinite distance. */
  lemma {:induction false} StaysVisited(rows: seq<seq<int>>, n: int, me: int, dist: seq<int>, best: seq<int>,
      unvisited: set<int>, x: int, y: int, k: nat)
    requires IsGraph(rows, n) && Inv(rows, n, me, dist, best, unvisited) && Connects(rows, n, x, y, k)
    requires 0 <= x < n && x !in unvisited && forall u :: u in unvisited ==> dist[u] == UNREACHED
    requires forall u :: 0 <= u < n && dist[u] < UNREACHED ==> dist[u] + 1 < UNREACHED
    ensures 0 <= y < n && y !in unvisited
    decreases k
  {
    if k > 0 {
      var z :| Edge(rows, n, x, z) && Connects(rows, n, z, y, k - 1);
      var i :| 0 <= i < |rows| && rows[i][x] == z;
      assert Relaxed(rows, n, dist, x);
      StaysVisited(rows, n, me, dist, best, unvisited, z, y, k - 1);
    }
  }

  /** In a strongly connected graph, the next node has been reached. */
  lemma {:induction false} NextIsReached(rows: seq<seq<int>>, n: int, me: int, dist: seq<int>, best: seq<int>,
      unvisited: set<int>, current: int)
    requires IsGraph(rows, n) && Inv(rows, n, me, dist, best, unvisited) && StronglyConnected(rows, n)
    requires current in unvisited && forall u :: u in unvisited ==> dist[current] <= dist[u]
    requires forall u :: 0 <= u < n && dist[u] < UNREACHED ==> dist[u] + 1 < UNREACHED
    ensures 0 <= dist[current] < UNREACHED && (current != me ==> best[current] >= 0)
  {
    assert Known(rows, n, me, dist, best, current);
    if dist[current] == UNREACHED {
      forall u | u in unvisited ensures dist[u] == UNREACHED {
        assert Known(rows, n, me, dist, best, u);
      }
      assert Linked(rows, n, me, current);
      var k: nat :| Connects(rows, n, me, current, k);
      StaysVisited(rows, n, me, dist, best, unvisited, me, current, k);
    }
    if current != me { EdgeEnds(rows, n, me, best[current]); }
  }

  lemma {:induction false} EdgeEnds(rows: seq<seq<int>>, n: int, x: int, y: int)
    requires IsGraph(rows, n) && Edge(rows, n, x, y)
    ensures 0 <= y < n
  {
    var i :| 0 <= i < |rows| && rows[i][x] == y;
    assert 0 <= rows[i][x] < n;
  }

  /** If all edges have been considered, no walk is shorter than the distance. */
  lemma {:induction false} NoShorterWalk(rows: seq<seq<int>>, n: int, dist: seq<int>, x: int, y: int, k: nat)
    requires IsGraph(rows, n) && |dist| == n && 0 <= x < n && Connects(rows, n, x, y, k)
    requires forall v {:trigger Relaxed(rows, n, dist, v)} :: 0 <= v < n ==> Relaxed(rows, n, dist, v)
    ensures 0 <= y < n && dist[y] <= dist[x] + k
    decreases k
  {
    if k > 0 {
      var z :| Edge(rows, n, x, z) && Connects(rows, n, z, y, k - 1);
      var i :| 0 <= i < |rows| && rows[i][x] == z;
      assert Relaxed(rows, n, dist, x);
      NoShorterWalk(rows, n, dist, z, y, k - 1);
    }
  }

  // ---------------------------------------------------------------------
  // Visiting a node
  // ---------------------------------------------------------------------

  /** All finite distances are at most b. */
  ghost predicate Bounded(dist: seq<int>, b: int)
  {
    forall x {:trigger dist[x]} :: 0 <= x < |dist| && dist[x] < UNREACHED ==> dist[x] <= b
  }

  /** The first i edges of the current node have been considered. */
  ghost predicate Visiting(rows: seq<seq<int>>, n: int, me: int, dist: seq<int>, best: seq<int>, unvisited: set<int>,
      current: int, i: nat)
    requires IsGraph(rows, n)
  {
    && Inv(rows, n, me, dist, best, unvisited) && i <= |rows|
    && current in unvisited && 0 <= dist[current] < UNREACHED - 1
    && (forall u {:trigger dist[u]} :: u in unvisited ==> dist[current] <= dist[u])
    && (forall k {:trigger rows[k]} :: 0 <= k < i ==> dist[rows[k][current]] <= dist[current] + 1)
  }

  /** A shorter way to a node has been found. */
  lemma {:induction false} RelaxKeeps(
    rows: seq<seq<int>>, n: int, me: int, dist: seq<int>, best: seq<int>, unvisited: set<int>, current: int, i: nat,
      e: int)
    requires IsGraph(rows, n) && Visiting(rows, n, me, dist, best, unvisited, current, i) && i < |rows|
    requires rows[i][current] in unvisited && dist[current] + 1 < dist[rows[i][current]]
    requires if current == me then e == rows[i][current] else e == best[current]
    ensures var s := rows[i][current];
      Visiting(rows, n, me, dist[s := dist[current] + 1], best[s := e], unvisited, current, i + 1)
  {
    RelaxKeepsInv(rows, n, me, dist, best, unvisited, current, i, e);
    var s, d := rows[i][current], dist[current] + 1;
    var dist' := dist[s := d];
    assert forall u {:trigger dist'[u]} :: u in unvisited ==> dist[current] <= dist'[u];
    forall k | 0 <= k < i + 1 ensures dist'[rows[k][current]] <= dist[current] + 1 {
      assert dist'[rows[k][current]] <= dist[rows[k][current]];
    }
  }

  lemma {:induction false} RelaxKeepsInv(
    rows: seq<seq<int>>, n: int, me: int, dist: seq<int>, best: seq<int>, unvisited: set<int>, current: int, i: nat,
      e: int)
    requires IsGraph(rows, n) && Visiting(rows, n, me, dist, best, unvisited, current, i) && i < |rows|
    requires rows[i][current] in unvisited && dist[current] + 1 < dist[rows[i][current]]
    requires if current == me then e == rows[i][current] else e == best[current]
    ensures var s := rows[i][current]; Inv(rows, n, me, dist[s := dist[current] + 1], best[s := e], unvisited)
  {
    var s, d := rows[i][current], dist[current] + 1;
    var dist', best' := dist[s := d], best[s := e];
    forall x | 0 <= x < n ensures Known(rows, n, me, dist', best', x) {
      assert Known(rows, n, me, dist, best, x);
      if x == s { FoundIsKnown(rows, n, me, dist, best, unvisited, current, i, e); }
    }
    forall x | 0 <= x < n && x !in unvisited ensures Relaxed(rows, n, dist', x) {
      StaysRelaxed(rows, n, dist, x, s, d);
    }
  }

  lemma {:induction false} FoundIsKnown(
    rows: seq<seq<int>>, n: int, me: int, dist: seq<int>, best: seq<int>, unvisited: set<int>, current: int, i: nat,
      e: int)
    requires IsGraph(rows, n) && Visiting(rows, n, me, dist, best, unvisited, current, i) && i < |rows|
    requires if current == me then e == rows[i][current] else e == best[current]
    requires rows[i][current] in unvisited && dist[current] + 1 < dist[rows[i][current]]
    ensures var s := rows[i][current]; Known(rows, n, me, dist[s := dist[current] + 1], best[s := e], s)
  {
    var s := rows[i][current];
    assert Known(rows, n, me, dist, best, current) && Edge(rows, n, current, s);
    WalkOneMore(rows, n, me, current, s, dist[current]);
    if current == me {
      assert Connects(rows, n, s, s, 0) && dist[current] == 0;
    } else {
      WalkOneMore(rows, n, best[current], current, s, dist[current] - 1);
    }
  }

  lemma {:induction false} StaysRelaxed(rows: seq<seq<int>>, n: int, dist: seq<int>, x: int, s: int, d: int)
    requires IsGraph(rows, n) && |dist| == n && 0 <= x < n && x != s && 0 <= s < n && d < dist[s] &&
      Relaxed(rows, n, dist, x)
    ensures Relaxed(rows, n, dist[s := d], x)
  {
  }

  /** The current node has been visited completely. */
  lemma {:induction false} VisitedKeeps(
    rows: seq<seq<int>>, n: int, me: int, dist: seq<int>, best: seq<int>, unvisited: set<int>, current: int)
    requires IsGraph(rows, n) && Visiting(rows, n, me, dist, best, unvisited, current, |rows|)
    ensures Inv(rows, n, me, dist, best, unvisited - {current})
  {
    assert Relaxed(rows, n, dist, current);
  }

  /** The value of best at the own rank does not matter. */
  lemma {:induction false} OwnEntryIsFree(
    rows: seq<seq<int>>, n: int, me: int, dist: seq<int>, best: seq<int>, unvisited: set<int>, current: int, i: nat,
      e: int)
    requires IsGraph(rows, n) && Visiting(rows, n, me, dist, best, unvisited, current, i)
    ensures Visiting(rows, n, me, dist, best[me := e], unvisited, current, i)
  {
    var best' := best[me := e];
    forall x | 0 <= x < n ensures Known(rows, n, me, dist, best', x) {
      assert Known(rows, n, me, dist, best, x);
    }
  }

  /** The order in which nodes are visited: by distance, and then by a hash which differs among processes. */
  predicate Earlier(hash: int -> int, me: int, dist: seq<int>, x: int, y: int)
    requires 0 <= x < |dist| && 0 <= y < |dist|
  {
    if dist[x] != dist[y] then dist[x] < dist[y] else hash(x + me) < hash(y + me)
  }

  /** The first element of the ordered set. */
  method First(hash: int -> int, me: int, dist: seq<int>, unvisited: set<int>) returns (current: int)
    requires unvisited != {} && forall x {:trigger x in unvisited} :: x in unvisited ==> 0 <= x < |dist|
    ensures current in unvisited && forall u :: u in unvisited ==> !Earlier(hash, me, dist, u, current)
  {
    current := -1;
    var i := 0;
    while i < |dist|
      invariant 0 <= i <= |dist| && -1 <= current < i
      invariant if current == -1 then forall u :: 0 <= u < i ==> u !in unvisited
                else current in unvisited && forall u :: u in unvisited && u < i ==>
                  !Earlier(hash, me, dist, u, current)
    {
      if i in unvisited && (current == -1 || Earlier(hash, me, dist, i, current)) {
        current := i;
      }
      i := i + 1;
    }
    assert (forall u :: 0 <= u < |dist| ==> u !in unvisited) ==> unvisited == {};
  }

  /** The loop over the successors of the current node. */
  method Visit(rows: seq<seq<int>>, n: int, me: int, dist: seq<int>, best: seq<int>, unvisited: set<int>, current: int)
    returns (dist': seq<int>, best': seq<int>)
    requires IsGraph(rows, n) && Visiting(rows, n, me, dist, best, unvisited, current, 0)
    requires current != me ==> best[current] >= 0
    ensures Visiting(rows, n, me, dist', best', unvisited, current, |rows|)
    ensures forall b :: b >= dist[current] + 1 && Bounded(dist, b) ==> Bounded(dist', b)
  {
    dist', best' := dist, best;
    var i := 0;
    while i < |rows|
      invariant 0 <= i <= |rows| && Visiting(rows, n, me, dist', best', unvisited, current, i)
      invariant dist'[current] == dist[current] && (current != me ==> best'[current] >= 0)
      invariant forall b :: b >= dist[current] + 1 && Bounded(dist, b) ==> Bounded(dist', b)
    {
      var succ := rows[i][current];
      assert 0 <= succ < n;
      if succ in unvisited {
        if current == me {
          OwnEntryIsFree(rows, n, me, dist', best', unvisited, current, i, succ);
          best' := best'[current := succ];
        }
        assert best'[current] >= 0;
        var newDistance := dist'[current] + 1;
        if newDistance < dist'[succ] {
          RelaxKeeps(rows, n, me, dist', best', unvisited, current, i, best'[current]);
          dist' := dist'[succ := newDistance];
          best' := best'[succ := best'[current]];
        }
      }
      i := i + 1;
    }
  }

  // ---------------------------------------------------------------------
  // The result
  // ---------------------------------------------------------------------

  /** The table leads one step closer to every target. */
  ghost predicate LeadsCloser(rows: seq<seq<int>>, n: int, me: int, target: int, hop: int)
    requires IsGraph(rows, n)
  {
    Edge(rows, n, me, hop) && exists d: nat :: Distance(rows, n, me, target, d + 1) && Distance(rows, n, hop, target, d)
  }

  ghost predicate IsTable(rows: seq<seq<int>>, n: int, me: int, table: seq<int>)
    requires IsGraph(rows, n)
  {
    && |table| == n && 0 <= me < n && table[me] == me
    && forall t {:trigger table[t]} :: 0 <= t < n && t != me ==> LeadsCloser(rows, n, me, t, table[t])
  }

  lemma {:induction false} ShortestWalk(rows: seq<seq<int>>, n: int, me: int, dist: seq<int>, best: seq<int>, t: int)
    requires IsGraph(rows, n) && Inv(rows, n, me, dist, best, {}) && 0 <= t < n && t != me
    ensures LeadsCloser(rows, n, me, t, best[t])
  {
    assert Known(rows, n, me, dist, best, t) && Relaxed(rows, n, dist, t);
    var d: nat := dist[t] - 1;
    forall k: nat | k < d + 1 ensures !Connects(rows, n, me, t, k) {
      if Connects(rows, n, me, t, k) { NoShorterWalk(rows, n, dist, me, t, k); }
    }
    forall k: nat | k < d ensures !Connects(rows, n, best[t], t, k) {
      if Connects(rows, n, best[t], t, k) { assert Connects(rows, n, me, t, k + 1); }
    }
    assert Distance(rows, n, me, t, d + 1) && Distance(rows, n, best[t], t, d);
  }

  /** getBestOutgoingEdgeForEachNode */
  method BestOutgoingEdges(hash: int -> int, rows: seq<seq<int>>, n: int, me: int) returns (table: seq<int>)
    requires IsGraph(rows, n) && n < UNREACHED - 1 && StronglyConnected(rows, n) && 0 <= me < n
    ensures IsTable(rows, n, me, table)
  {
    var dist := seq(n, i => UNREACHED)[me := 0];
    var best := seq(n, i => -1);
    var unvisited: set<int> := {};
    var i := 0;
    while i < n
      invariant 0 <= i <= n && |unvisited| == i && forall x {:trigger x in unvisited} :: x in unvisited <==> 0 <= x < i
    {
      unvisited := unvisited + {i};
      i := i + 1;
    }
    assert Connects(rows, n, me, me, 0);
    while unvisited != {}
      invariant Inv(rows, n, me, dist, best, unvisited)
      invariant |unvisited| <= n && Bounded(dist, n - |unvisited|)
      decreases |unvisited|
    {
      var current := First(hash, me, dist, unvisited);
      NextIsReached(rows, n, me, dist, best, unvisited, current);
      dist, best := Visit(rows, n, me, dist, best, unvisited, current);
      VisitedKeeps(rows, n, me, dist, best, unvisited, current);
      unvisited := unvisited - {current};
    }
    forall t | 0 <= t < n && t != me ensures LeadsCloser(rows, n, me, t, best[t]) {
      ShortestWalk(rows, n, me, dist, best, t);
    }
    table := best[me := me];
  }

  /** The rows which getPermutations returns are such a graph. */
  lemma {:induction false} RowsAreConnected(rows: seq<seq<int>>, n: int)
    requires n >= 1 && rows != [] && DisjointRows(rows, n) && SingleCycle(rows[0])
    ensures IsGraph(rows, n) && StronglyConnected(rows, n)
  {
    CycleConnects(rows, n);
  }

  // ---------------------------------------------------------------------
  // Following the tables
  // ---------------------------------------------------------------------

  ghost predicate AllTables(rows: seq<seq<int>>, n: int, tables: seq<seq<int>>)
    requires IsGraph(rows, n)
  {
    |tables| == n && forall x {:trigger tables[x]} :: 0 <= x < n ==> IsTable(rows, n, x, tables[x])
  }

  /** getCurrentRoot: a hash of the epoch picks the root. */
  function CurrentRoot(n: int, epochHash: nat): (root: int)
    requires n >= 1
    ensures 0 <= root < n
  {
    epochHash % n
  }

  /** Each rank is the root for its own hash value, and the roots go round after n values. */
  lemma {:induction false} RootsGoRound(n: int, epochHash: nat)
    requires n >= 1
    ensures CurrentRoot(n, epochHash + n) == CurrentRoot(n, epochHash)
    ensures epochHash < n ==> CurrentRoot(n, epochHash) == epochHash
  {
    Feistel.Parts(n, epochHash);
    Feistel.Parts(n, epochHash + n);
    var q, p := epochHash / n, (epochHash + n) / n;
    assert n * (q + 1) == n * q + n;
    Feistel.UniqueParts(n, epochHash % n, q + 1, (epochHash + n) % n, p);
    if epochHash < n {
      Feistel.UniqueParts(n, epochHash, 0, epochHash % n, q);
    }
  }

  /** Where a message from x is after k hops if every process sends it to its own current parent. */
  ghost function Followed(tables: seq<seq<int>>, root: int, x: int, k: nat): int
    decreases k
  {
    if k == 0 then x
    else if 0 <= x < |tables| && 0 <= root < |tables[x]| then Followed(tables, root, tables[x][root], k - 1)
    else -1
  }

  /**
   Following each process's own entry towards the root reaches the root from every process, after exactly as
   many hops as the length of a shortest path; so the tables together form a tree.
   */
  lemma {:induction false} TablesFormTree(rows: seq<seq<int>>, n: int, tables: seq<seq<int>>, root: int, x: int, d: nat)
    requires IsGraph(rows, n) && AllTables(rows, n, tables) && 0 <= root < n && 0 <= x < n &&
      Distance(rows, n, x, root, d)
    ensures Followed(tables, root, x, d) == root
    ensures forall k: nat :: k < d ==> Followed(tables, root, x, k) != root
    decreases d
  {
    if d == 0 {
    } else {
      assert !Connects(rows, n, x, root, 0);
      var hop := tables[x][root];
      assert IsTable(rows, n, x, tables[x]);
      var e: nat :| Distance(rows, n, x, root, e + 1) && Distance(rows, n, hop, root, e);
      DistanceIsUnique(rows, n, x, root, d, e + 1);
      EdgeEnds(rows, n, x, hop);
      TablesFormTree(rows, n, tables, root, hop, e);
      forall k: nat | k < d ensures Followed(tables, root, x, k) != root {
        if k > 0 { assert Followed(tables, root, x, k) == Followed(tables, root, hop, k - 1); }
      }
    }
  }

  lemma {:induction false} DistanceIsUnique(rows: seq<seq<int>>, n: int, x: int, y: int, d: nat, e: nat)
    requires IsGraph(rows, n) && Distance(rows, n, x, y, d) && Distance(rows, n, x, y, e)
    ensures d == e
  {
  }

  /** In a strongly connected graph every process has such a distance. */
  lemma {:induction false} HasDistance(rows: seq<seq<int>>, n: int, x: int, y: int, k: nat) returns (d: nat)
    requires IsGraph(rows, n) && Connects(rows, n, x, y, k)
    ensures d <= k && Distance(rows, n, x, y, d)
  {
    if j: nat :| j < k && Connects(rows, n, x, y, j) {
      d := HasDistance(rows, n, x, y, j);
    } else {
      d := k;
    }
  }

  /** On the graph of getPermutations, everyone's current parents lead to the current root on a shortest path. */
  lemma {:induction false} EveryoneReachesRoot(rows: seq<seq<int>>, n: int, tables: seq<seq<int>>, epochHash: nat,
      x: int) returns (d: nat)
    requires n >= 1 && rows != [] && DisjointRows(rows, n) && SingleCycle(rows[0]) && IsGraph(rows, n)
    requires AllTables(rows, n, tables) && 0 <= x < n
    ensures var root := CurrentRoot(n, epochHash);
      && Distance(rows, n, x, root, d) && Followed(tables, root, x, d) == root
      && forall k: nat :: k < d ==> Followed(tables, root, x, k) != root
  {
    var root := CurrentRoot(n, epochHash);
    RowsAreConnected(rows, n);
    assert Linked(rows, n, x, root);
    var k: nat :| Connects(rows, n, x, root, k);
    d := HasDistance(rows, n, x, root, k);
    TablesFormTree(rows, n, tables, root, x, d);
  }
}
