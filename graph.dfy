/** The dense-indexed road graph and its breadth-first search (core/src/graph.rs). */
module RouteGraph {
  import opened Model

  /** `nodes[i]` is the node with dense index `i`; `adj[i]` lists its neighbours. */
  datatype Graph = Graph(nodes: seq<Node>, adj: seq<seq<Neighbor>>) {

    /** `Graph::new` stores both arguments unchanged. */
    static function New(nodes: seq<Node>, adj: seq<seq<Neighbor>>): (g: Graph)
      ensures g.Nodes() == nodes && g.Adj() == adj
    {
      Graph(nodes, adj)
    }

    function Nodes(): seq<Node> { nodes }

    function Adj(): seq<seq<Neighbor>> { adj }

    /** The invariant every graph of the system keeps: the two arrays are aligned and
        every neighbour index names a node. */
    predicate WellFormed() {
      && |adj| == |nodes|
      && forall u, k :: 0 <= u < |adj| && 0 <= k < |adj[u]| ==> adj[u][k].nodeIndex < |nodes|
    }

    /** Some entry of `adj[u]` points at `v`. */
    ghost predicate HasEdge(u: nat, v: nat)
      requires u < |adj|
    {
      exists k :: 0 <= k < |adj[u]| && adj[u][k].nodeIndex == v
    }

    /** `p` is a non-empty walk that follows adjacency entries from one index to the next. */
    ghost predicate IsWalk(p: seq<nat>) {
      && |p| >= 1
      && (forall i :: 0 <= i < |p| ==> p[i] < |adj|)
      && (forall i :: 0 <= i < |p| - 1 ==> HasEdge(p[i], p[i + 1]))
    }

    /** `p` is a walk from `s` to `t`. */
    ghost predicate IsWalkBetween(p: seq<nat>, s: nat, t: nat) {
      IsWalk(p) && p[0] == s && p[|p| - 1] == t
    }

    /** `t` can be reached from `s` by following adjacency entries. */
    ghost predicate Reachable(s: nat, t: nat) {
      exists p :: IsWalkBetween(p, s, t)
    }

    /** Every walk from `s` to `t` takes at least `d` steps. */
    ghost predicate NoShorter(s: nat, t: nat, d: nat) {
      forall p :: IsWalkBetween(p, s, t) ==> |p| - 1 >= d
    }
  }

  /** No index occurs twice in `p`. */
  predicate Distinct(p: seq<nat>) {
    forall i, j :: 0 <= i < j < |p| ==> p[i] != p[j]
  }

  /** `Vec::reverse`: the first element goes last, the rest is reversed in front of it. The
      result holds the same elements in the opposite order, position by position. */
  function Reverse(s: seq<nat>): (r: seq<nat>)
    ensures |r| == |s| && forall i :: 0 <= i < |s| ==> r[i] == s[|s| - 1 - i]
  {
    if s == [] then [] else Reverse(s[1..]) + [s[0]]
  }

  /** Every neighbour of `u` is marked in `visited`. */
  ghost predicate AllNeighborsVisited(g: Graph, visited: seq<bool>, u: nat)
    requires g.WellFormed() && |visited| == |g.nodes| && u < |g.adj|
  {
    forall k :: 0 <= k < |g.adj[u]| ==> visited[g.adj[u][k].nodeIndex]
  }

  /** The nodes of `done` have been expanded: all their neighbours are visited. */
  ghost predicate Expanded(g: Graph, visited: seq<bool>, done: set<nat>)
    requires g.WellFormed() && |visited| == |g.nodes|
  {
    forall x :: x in done ==> x < |g.nodes| && visited[x] && AllNeighborsVisited(g, visited, x)
  }

  /** The predecessor tree recorded in `prev`: the start is its root at distance 0, and every other
      visited node hangs below a visited node one step closer that has it as a neighbour. */
  ghost predicate PrevTree(g: Graph, start: nat, visited: seq<bool>, prev: seq<Option<nat>>, dist: seq<nat>)
    requires g.WellFormed() && |visited| == |prev| == |dist| == |g.nodes|
  {
    && start < |g.nodes| && visited[start] && dist[start] == 0 && prev[start] == None
    && forall v :: 0 <= v < |g.nodes| && visited[v] && v != start ==>
         && prev[v].Some? && prev[v].value < |g.nodes| && visited[prev[v].value]
         && g.HasEdge(prev[v].value, v) && dist[v] == dist[prev[v].value] + 1
  }

  /** No visited node can be reached in fewer steps than its recorded distance. */
  ghost predicate Settled(g: Graph, start: nat, visited: seq<bool>, dist: seq<nat>)
    requires |visited| == |dist|
  {
    forall v :: 0 <= v < |visited| && visited[v] ==> g.NoShorter(start, v, dist[v])
  }

  /** Dropping the last step of a walk leaves a walk. */
  lemma WalkPrefix(g: Graph, p: seq<nat>, s: nat, w: nat)
    requires g.IsWalkBetween(p, s, w) && |p| > 1
    ensures g.IsWalkBetween(p[..|p| - 1], s, p[|p| - 2]) && g.HasEdge(p[|p| - 2], w)
  {
    var q := p[..|p| - 1];
    forall i | 0 <= i < |q| - 1 ensures g.HasEdge(q[i], q[i + 1]) {
      assert g.HasEdge(p[i], p[i + 1]);
    }
  }

  /** A walk from the start to a node that is not visited is longer than `far`, provided every
      visited node is either expanded or at least `far` away and no visited node has a shorter
      walk than its recorded distance. */
  lemma {:induction false} UnvisitedIsFar(g: Graph, start: nat, visited: seq<bool>, dist: seq<nat>,
                                          done: set<nat>, far: nat, p: seq<nat>, w: nat)
    requires g.WellFormed() && |visited| == |g.nodes| && |dist| == |g.nodes|
    requires start < |g.nodes| && visited[start]
    requires Expanded(g, visited, done) && Settled(g, start, visited, dist)
    requires forall x :: 0 <= x < |g.nodes| && visited[x] && x !in done ==> dist[x] >= far
    requires g.IsWalkBetween(p, start, w)
    ensures visited[w] || |p| - 1 >= far + 1
  {
    if |p| > 1 {
      var q := p[..|p| - 1];
      var x := p[|p| - 2];
      WalkPrefix(g, p, start, w);
      if !visited[x] {
        UnvisitedIsFar(g, start, visited, dist, done, far, q, x);
      } else if x in done {
        var k :| 0 <= k < |g.adj[x]| && g.adj[x][k].nodeIndex == w;
        assert visited[g.adj[x][k].nodeIndex];
      } else {
        assert g.NoShorter(start, x, dist[x]);
      }
    }
  }

  /** A set of visited nodes that contains the start and is closed under adjacency contains
      the end of every walk from the start. */
  lemma {:induction false} ClosedContainsWalks(g: Graph, start: nat, visited: seq<bool>, p: seq<nat>, w: nat)
    requires g.WellFormed() && |visited| == |g.nodes|
    requires start < |g.nodes| && visited[start]
    requires forall x :: 0 <= x < |g.nodes| && visited[x] ==> AllNeighborsVisited(g, visited, x)
    requires g.IsWalkBetween(p, start, w)
    ensures w < |g.nodes| && visited[w]
  {
    if |p| > 1 {
      var x := p[|p| - 2];
      WalkPrefix(g, p, start, w);
      ClosedContainsWalks(g, start, visited, p[..|p| - 1], x);
      var k :| 0 <= k < |g.adj[x]| && g.adj[x][k].nodeIndex == w;
      assert visited[g.adj[x][k].nodeIndex];
    }
  }

  /** Read backwards, a chain of predecessors from the goal is a walk from the start to the goal,
      with one step fewer than nodes and no index twice (the recorded distance drops by one per step). */
  lemma {:induction false} ChainIsWalk(g: Graph, start: nat, goal: nat, visited: seq<bool>, prev: seq<Option<nat>>,
                                       dist: seq<nat>, rev: seq<nat>)
    requires g.WellFormed() && |visited| == |prev| == |dist| == |g.nodes|
    requires PrevTree(g, start, visited, prev, dist)
    requires goal < |g.nodes| && |rev| > 0 && rev[0] == goal && rev[|rev| - 1] == start
    requires forall i :: 0 <= i < |rev| ==> rev[i] < |g.nodes| && visited[rev[i]] && dist[rev[i]] + i == dist[goal]
    requires forall i :: 0 <= i < |rev| - 1 ==> prev[rev[i]] == Some(rev[i + 1])
    ensures g.IsWalkBetween(Reverse(rev), start, goal) && |rev| == dist[goal] + 1 && Distinct(Reverse(rev))
  {
    var path := Reverse(rev);
    forall i | 0 <= i < |path| - 1 ensures g.HasEdge(path[i], path[i + 1]) {
      var j := |rev| - 2 - i;
      assert path[i] == rev[j + 1] && path[i + 1] == rev[j];
      assert rev[j] != start by { assert dist[rev[j]] > dist[rev[j + 1]]; }
    }
    forall i, j | 0 <= i < j < |path| ensures path[i] != path[j] {
      assert dist[path[i]] < dist[path[j]];
    }
  }

  /** The reconstruction at the end of `bfs`: follow `prev` back from the goal, then reverse. */
  method RebuildPath(g: Graph, prev: array<Option<nat>>, start: nat, goal: nat,
                     ghost visited: seq<bool>, ghost dist: seq<nat>) returns (path: seq<nat>)
    requires g.WellFormed() && prev.Length == |visited| == |dist| == |g.nodes|
    requires PrevTree(g, start, visited, prev[..], dist)
    requires goal < |g.nodes| && visited[goal]
    ensures g.IsWalkBetween(path, start, goal) && |path| == dist[goal] + 1 && Distinct(path)
  {
    var rev := PredecessorChain(g, prev, start, goal, visited, dist);
    ChainIsWalk(g, start, goal, visited, prev[..], dist, rev);
    path := Reverse(rev);
  }

  /** The loop of the reconstruction: the chain of predecessors from the goal back to the start,
      each one step closer to the start than the one before. */
  method PredecessorChain(g: Graph, prev: array<Option<nat>>, start: nat, goal: nat,
                          ghost visited: seq<bool>, ghost dist: seq<nat>) returns (rev: seq<nat>)
    requires g.WellFormed() && prev.Length == |visited| == |dist| == |g.nodes|
    requires PrevTree(g, start, visited, prev[..], dist)
    requires goal < |g.nodes| && visited[goal]
    ensures |rev| > 0 && rev[0] == goal && rev[|rev| - 1] == start
    ensures forall i :: 0 <= i < |rev| ==> rev[i] < |g.nodes| && visited[rev[i]] && dist[rev[i]] + i == dist[goal]
    ensures forall i :: 0 <= i < |rev| - 1 ==> prev[rev[i]] == Some(rev[i + 1])
  {
    var n := |g.nodes|;
    rev := [];
    var cur: Option<nat> := Some(goal);
    while cur.Some?
      invariant forall i :: 0 <= i < |rev| ==> rev[i] < n && visited[rev[i]] && dist[rev[i]] + i == dist[goal]
      invariant forall i :: 0 <= i < |rev| - 1 ==> prev[rev[i]] == Some(rev[i + 1])
      invariant |rev| == 0 ==> cur == Some(goal)
      invariant |rev| > 0 ==> rev[0] == goal && cur == prev[rev[|rev| - 1]]
      invariant cur.Some? ==> cur.value < n && visited[cur.value] && dist[cur.value] + |rev| == dist[goal]
      invariant cur.None? ==> |rev| > 0 && rev[|rev| - 1] == start
      decreases if cur.Some? then dist[cur.value] + 1 else 0
    {
      var idx := cur.value;
      ghost var before := rev;
      rev := rev + [idx];
      forall i | 0 <= i < |rev| - 1 ensures prev[rev[i]] == Some(rev[i + 1]) {
        assert rev[i] == before[i];
      }
      cur := prev[idx];
    }
  }

  /** The number of unvisited indices: the outer loop's termination measure, together with
      the queue length. */
  function CountUnvisited(visited: seq<bool>): nat {
    if visited == [] then 0 else (if visited[0] then 0 else 1) + CountUnvisited(visited[1..])
  }

  /** Marking an unvisited index lowers the count by one. */
  lemma {:induction false} MarkLowersCount(visited: seq<bool>, v: nat)
    requires v < |visited| && !visited[v]
    ensures CountUnvisited(visited[v := true]) == CountUnvisited(visited) - 1
  {
    if v > 0 {
      assert visited[v := true][1..] == visited[1..][v - 1 := true];
      MarkLowersCount(visited[1..], v - 1);
    } else {
      assert visited[v := true][1..] == visited[1..];
    }
  }

  /** The FIFO queue holds visited indices in two layers: the first `cut` entries at distance
      `d`, the rest at distance `d + 1`. */
  ghost predicate Layered(n: nat, visited: seq<bool>, dist: seq<nat>, queue: seq<nat>, d: nat, cut: nat)
    requires |visited| == |dist| == n
  {
    && cut <= |queue|
    && forall i :: 0 <= i < |queue| ==>
         queue[i] < n && visited[queue[i]] && dist[queue[i]] == (if i < cut then d else d + 1)
  }

  /** What holds each time the outer loop of `bfs` tests its queue. */
  ghost predicate QueueInv(g: Graph, start: nat, goal: nat, visited: seq<bool>, prev: seq<Option<nat>>,
                           dist: seq<nat>, queue: seq<nat>, done: set<nat>, d: nat, cut: nat)
    requires g.WellFormed()
  {
    && |visited| == |prev| == |dist| == |g.nodes|
    && Layered(|g.nodes|, visited, dist, queue, d, cut)
    && Expanded(g, visited, done)
    && (forall x :: 0 <= x < |g.nodes| && visited[x] ==> x in done || x in queue)
    && goal !in done
    && PrevTree(g, start, visited, prev, dist)
    && Settled(g, start, visited, dist)
  }

  /** The queue-side facts while the neighbours of the dequeued node `current` (at distance `d`)
      are scanned, with the first `k` of them already handled. */
  ghost predicate ScanQueue(g: Graph, goal: nat, visited: seq<bool>, dist: seq<nat>, queue: seq<nat>,
                            done: set<nat>, d: nat, cut: nat, current: nat, k: nat)
    requires g.WellFormed()
  {
    && |visited| == |dist| == |g.nodes|
    && current < |g.nodes| && visited[current] && current != goal && dist[current] == d
    && k <= |g.adj[current]|
    && Layered(|g.nodes|, visited, dist, queue, d, cut)
    && Expanded(g, visited, done)
    && (forall x :: 0 <= x < |g.nodes| && visited[x] ==> x in done || x in queue || x == current)
    && (forall j :: 0 <= j < k ==> visited[g.adj[current][j].nodeIndex])
    && goal !in done
  }

  /** What holds during the scan of `current`'s neighbours: the queue-side facts and the tree. */
  ghost predicate ScanInv(g: Graph, start: nat, goal: nat, visited: seq<bool>, prev: seq<Option<nat>>,
                          dist: seq<nat>, queue: seq<nat>, done: set<nat>, d: nat, cut: nat, current: nat, k: nat)
    requires g.WellFormed()
  {
    && |visited| == |prev| == |dist| == |g.nodes|
    && ScanQueue(g, goal, visited, dist, queue, done, d, cut, current, k)
    && PrevTree(g, start, visited, prev, dist)
    && Settled(g, start, visited, dist)
  }

  /** The state right after `visited[start] = true; queue.push_back(start)`. */
  lemma InitialState(g: Graph, start: nat, goal: nat)
    requires g.WellFormed() && start < |g.nodes|
    ensures var n := |g.nodes|;
            QueueInv(g, start, goal, seq(n, i => false)[start := true], seq(n, i => None), seq(n, i => 0), [start], {}, 0, 1)
  {
    assert g.NoShorter(start, start, 0);
  }

  /** Dequeuing a node other than the goal starts a scan of its neighbours; when the first
      layer is used up, the second becomes the first. */
  lemma PopStep(g: Graph, start: nat, goal: nat, visited: seq<bool>, prev: seq<Option<nat>>,
                dist: seq<nat>, queue: seq<nat>, done: set<nat>, d: nat, cut: nat)
    requires g.WellFormed() && QueueInv(g, start, goal, visited, prev, dist, queue, done, d, cut)
    requires queue != [] && queue[0] != goal
    ensures var (d', cut') := if cut > 0 then (d, cut - 1) else (d + 1, |queue| - 1);
            ScanInv(g, start, goal, visited, prev, dist, queue[1..], done, d', cut', queue[0], 0)
  {
    var q := queue[1..];
    forall x | 0 <= x < |g.nodes| && visited[x] ensures x in done || x in q || x == queue[0] {
      if x in queue && x != queue[0] {
        var i :| 0 <= i < |queue| && queue[i] == x;
        assert q[i - 1] == x;
      }
    }
    var (d', cut') := if cut > 0 then (d, cut - 1) else (d + 1, |queue| - 1);
    forall i | 0 <= i < |q| ensures dist[q[i]] == (if i < cut' then d' else d' + 1) {
      assert q[i] == queue[i + 1];
    }
  }

  /** A neighbour that is already visited changes nothing. */
  lemma ScanSkip(g: Graph, start: nat, goal: nat, visited: seq<bool>, prev: seq<Option<nat>>,
                 dist: seq<nat>, queue: seq<nat>, done: set<nat>, d: nat, cut: nat, current: nat, k: nat)
    requires g.WellFormed() && ScanInv(g, start, goal, visited, prev, dist, queue, done, d, cut, current, k)
    requires k < |g.adj[current]| && visited[g.adj[current][k].nodeIndex]
    ensures ScanInv(g, start, goal, visited, prev, dist, queue, done, d, cut, current, k + 1)
  {
  }

  /** Marking keeps the queue layered, the expanded nodes expanded, every visited node accounted
      for and the neighbours scanned so far visited. */
  lemma MarkKeepsQueue(g: Graph, goal: nat, visited: seq<bool>, dist: seq<nat>, queue: seq<nat>,
                       done: set<nat>, d: nat, cut: nat, current: nat, k: nat,
                       visited': seq<bool>, dist': seq<nat>, queue': seq<nat>)
    requires g.WellFormed() && ScanQueue(g, goal, visited, dist, queue, done, d, cut, current, k)
    requires k < |g.adj[current]| && !visited[g.adj[current][k].nodeIndex]
    requires var v := g.adj[current][k].nodeIndex;
             visited' == visited[v := true] && dist' == dist[v := d + 1] && queue' == queue + [v]
    ensures ScanQueue(g, goal, visited', dist', queue', done, d, cut, current, k + 1)
  {
    var v := g.adj[current][k].nodeIndex;
    assert v != current;
    forall x | x in done ensures x < |g.nodes| && visited'[x] && AllNeighborsVisited(g, visited', x) {
      assert AllNeighborsVisited(g, visited, x);
    }
    forall i | 0 <= i < |queue'| ensures queue'[i] < |g.nodes| && visited'[queue'[i]] &&
                                       dist'[queue'[i]] == (if i < cut then d else d + 1) {
      if i < |queue| { assert queue'[i] == queue[i] && queue[i] != v; }
    }
    forall x | 0 <= x < |g.nodes| && visited'[x] ensures x in done || x in queue' || x == current {
      if x == v { assert queue'[|queue|] == v; }
    }
  }

  /** Every visited node that is not yet expanded is queued or being scanned, so it is at
      least as far as the node being scanned. */
  lemma UnexpandedAtLeast(n: nat, visited: seq<bool>, dist: seq<nat>, queue: seq<nat>, done: set<nat>,
                          d: nat, cut: nat, current: nat)
    requires |visited| == |dist| == n && current < n && dist[current] == d
    requires Layered(n, visited, dist, queue, d, cut)
    requires forall x :: 0 <= x < n && visited[x] ==> x in done || x in queue || x == current
    ensures forall x :: 0 <= x < n && visited[x] && x !in done ==> dist[x] >= d
  {
    forall x | 0 <= x < n && visited[x] && x !in done ensures dist[x] >= d {
      if x != current {
        var i :| 0 <= i < |queue| && queue[i] == x;
      }
    }
  }

  /** One discovery step of `bfs` keeps the predecessor tree and the shortest-distance facts:
      the unvisited neighbour `v` of `current` is marked with `prev = current` and a distance one
      more than `current`'s. Every walk to `v` is that long, since `v` was not reached from any
      expanded node and all other visited nodes are at least as far as `current`. */
  lemma Discover(g: Graph, start: nat, goal: nat, visited: seq<bool>, prev: seq<Option<nat>>,
                 dist: seq<nat>, queue: seq<nat>, done: set<nat>, d: nat, cut: nat, current: nat, k: nat,
                 v: nat, visited': seq<bool>, prev': seq<Option<nat>>, dist': seq<nat>)
    requires g.WellFormed() && ScanInv(g, start, goal, visited, prev, dist, queue, done, d, cut, current, k)
    requires k < |g.adj[current]| && v == g.adj[current][k].nodeIndex && !visited[v]
    requires visited' == visited[v := true] && prev' == prev[v := Some(current)] && dist' == dist[v := d + 1]
    ensures PrevTree(g, start, visited', prev', dist') && Settled(g, start, visited', dist')
  {
    UnexpandedAtLeast(|g.nodes|, visited, dist, queue, done, d, cut, current);
    forall p | g.IsWalkBetween(p, start, v) ensures |p| - 1 >= d + 1 {
      UnvisitedIsFar(g, start, visited, dist, done, d, p, v);
    }
    assert g.HasEdge(current, v);
    forall u | 0 <= u < |visited'| && visited'[u] ensures g.NoShorter(start, u, dist'[u]) {
      if u != v { assert visited[u]; }
    }
  }

  /** An unvisited neighbour is marked, gets `current` as predecessor and joins the back of the queue. */
  lemma ScanMark(g: Graph, start: nat, goal: nat, visited: seq<bool>, prev: seq<Option<nat>>,
                 dist: seq<nat>, queue: seq<nat>, done: set<nat>, d: nat, cut: nat, current: nat, k: nat,
                 visited': seq<bool>, prev': seq<Option<nat>>, dist': seq<nat>, queue': seq<nat>)
    requires g.WellFormed() && ScanInv(g, start, goal, visited, prev, dist, queue, done, d, cut, current, k)
    requires k < |g.adj[current]| && !visited[g.adj[current][k].nodeIndex]
    requires var v := g.adj[current][k].nodeIndex;
             && visited' == visited[v := true] && prev' == prev[v := Some(current)]
             && dist' == dist[v := d + 1] && queue' == queue + [v]
    ensures ScanInv(g, start, goal, visited', prev', dist', queue', done, d, cut, current, k + 1)
  {
    Discover(g, start, goal, visited, prev, dist, queue, done, d, cut, current, k,
             g.adj[current][k].nodeIndex, visited', prev', dist');
    MarkKeepsQueue(g, goal, visited, dist, queue, done, d, cut, current, k, visited', dist', queue');
  }

  /** After the last neighbour, `current` counts as expanded and the scan ends. */
  lemma FinishScan(g: Graph, start: nat, goal: nat, visited: seq<bool>, prev: seq<Option<nat>>,
                   dist: seq<nat>, queue: seq<nat>, done: set<nat>, d: nat, cut: nat, current: nat)
    requires g.WellFormed() && current < |g.adj|
    requires ScanInv(g, start, goal, visited, prev, dist, queue, done, d, cut, current, |g.adj[current]|)
    ensures QueueInv(g, start, goal, visited, prev, dist, queue, done + {current}, d, cut)
  {
    assert AllNeighborsVisited(g, visited, current);
  }

  /** An empty queue means the goal cannot be reached: the visited set holds the start and is
      closed under adjacency, and the goal was never dequeued. */
  lemma ExhaustedUnreachable(g: Graph, start: nat, goal: nat, visited: seq<bool>, prev: seq<Option<nat>>,
                             dist: seq<nat>, done: set<nat>, d: nat, cut: nat)
    requires g.WellFormed() && QueueInv(g, start, goal, visited, prev, dist, [], done, d, cut)
    ensures !g.Reachable(start, goal)
  {
    forall x | 0 <= x < |g.nodes| && visited[x] ensures AllNeighborsVisited(g, visited, x) {
      assert x in done;
    }
    forall p | g.IsWalkBetween(p, start, goal) ensures goal < |g.nodes| && visited[goal] {
      ClosedContainsWalks(g, start, visited, p, goal);
    }
  }

  /** The `for nbr in &self.adj[current]` loop of `bfs`: every unvisited neighbour is marked,
      gets `current` as its predecessor and is pushed onto the back of the queue. */
  method ScanNeighbors(g: Graph, ghost start: nat, ghost goal: nat, current: nat,
                       visited: array<bool>, prev: array<Option<nat>>, queue0: seq<nat>,
                       ghost dist0: seq<nat>, ghost done: set<nat>, ghost d: nat, ghost cut: nat)
    returns (queue: seq<nat>, ghost dist: seq<nat>)
    requires g.WellFormed() && visited.Length == prev.Length == |g.nodes|
    requires ScanInv(g, start, goal, visited[..], prev[..], dist0, queue0, done, d, cut, current, 0)
    modifies visited, prev
    ensures ScanInv(g, start, goal, visited[..], prev[..], dist, queue, done, d, cut, current, |g.adj[current]|)
    ensures CountUnvisited(visited[..]) <= CountUnvisited(old(visited[..]))
    ensures CountUnvisited(visited[..]) == CountUnvisited(old(visited[..])) ==> queue == queue0
  {
    queue, dist := queue0, dist0;
    var k := 0;
    while k < |g.adj[current]|
      invariant ScanInv(g, start, goal, visited[..], prev[..], dist, queue, done, d, cut, current, k)
      invariant CountUnvisited(visited[..]) <= CountUnvisited(old(visited[..]))
      invariant CountUnvisited(visited[..]) == CountUnvisited(old(visited[..])) ==> queue == queue0
    {
      var nbrIndex := g.adj[current][k].nodeIndex;
      if !visited[nbrIndex] {
        ghost var visited0, prev0, dist0, queue0 := visited[..], prev[..], dist, queue;
        MarkLowersCount(visited[..], nbrIndex);
        visited[nbrIndex] := true;
        prev[nbrIndex] := Some(current);
        queue := queue + [nbrIndex];
        dist := dist[nbrIndex := d + 1];
        ScanMark(g, start, goal, visited0, prev0, dist0, queue0, done, d, cut, current, k,
                 visited[..], prev[..], dist, queue);
      } else {
        ScanSkip(g, start, goal, visited[..], prev[..], dist, queue, done, d, cut, current, k);
      }
      k := k + 1;
    }
  }

  /** When the goal is dequeued, the rebuilt path is a shortest walk, and the trivial one when
      the goal is the start. */
  lemma GoalDequeued(g: Graph, start: nat, goal: nat, visited: seq<bool>, prev: seq<Option<nat>>,
                     dist: seq<nat>, queue: seq<nat>, done: set<nat>, d: nat, cut: nat, path: seq<nat>)
    requires g.WellFormed() && QueueInv(g, start, goal, visited, prev, dist, queue, done, d, cut)
    requires queue != [] && queue[0] == goal
    requires g.IsWalkBetween(path, start, goal) && |path| == dist[goal] + 1
    ensures forall p :: g.IsWalkBetween(p, start, goal) ==> |path| <= |p|
    ensures start == goal ==> path == [start]
  {
    assert g.NoShorter(start, goal, dist[goal]);
  }

  /** `Graph::bfs`: breadth-first search from `start` with a `visited` array, a `prev` array and a
      FIFO queue; on dequeuing `goal` the path is rebuilt from `prev`. The source indexes
      `visited`, `prev` and `adj` with `start` and with every neighbour index, so those must be
      in range; `goal` is never used as an index unless it is dequeued. */
  method Bfs(g: Graph, start: nat, goal: nat) returns (r: Option<seq<nat>>)
    requires g.WellFormed() && start < |g.nodes|
    ensures r.Some? ==> g.IsWalkBetween(r.value, start, goal)
    ensures r.Some? ==> Distinct(r.value)
    ensures r.Some? ==> forall p :: g.IsWalkBetween(p, start, goal) ==> |r.value| <= |p|
    ensures r.None? <==> !g.Reachable(start, goal)
    ensures start == goal ==> r == Some([start])
  {
    var n := |g.nodes|;
    var visited := new bool[n](_ => false);
    var prev := new Option<nat>[n](_ => None);
    var queue: seq<nat> := [];
    ghost var dist: seq<nat> := seq(n, _ => 0);
    ghost var done: set<nat> := {};
    ghost var d: nat, cut: nat := 0, 1;

    visited[start] := true;
    queue := queue + [start];
    InitialState(g, start, goal);
    assert visited[..] == seq(n, i => false)[start := true];
    assert prev[..] == seq(n, i => None);

    while queue != []
      invariant visited.Length == prev.Length == n
      invariant QueueInv(g, start, goal, visited[..], prev[..], dist, queue, done, d, cut)
      decreases CountUnvisited(visited[..]), |queue|
    {
      var current := queue[0];
      if current == goal {
        var path := RebuildPath(g, prev, start, goal, visited[..], dist);
        GoalDequeued(g, start, goal, visited[..], prev[..], dist, queue, done, d, cut, path);
        return Some(path);
      }
      PopStep(g, start, goal, visited[..], prev[..], dist, queue, done, d, cut);
      d, cut := if cut > 0 then d else d + 1, if cut > 0 then cut - 1 else |queue| - 1;
      queue := queue[1..];

      queue, dist := ScanNeighbors(g, start, goal, current, visited, prev, queue, dist, done, d, cut);
      FinishScan(g, start, goal, visited[..], prev[..], dist, queue, done, d, cut, current);
      done := done + {current};
    }

    ExhaustedUnreachable(g, start, goal, visited[..], prev[..], dist, done, d, cut);
    return None;
  }

  // ---------------------------------------------------------------------------------------------
  // The searches of the source's tests.

  /** A walk between two different nodes leaves the first along one of its edges. */
  lemma WalkLeaves(g: Graph, p: seq<nat>, s: nat, t: nat)
    requires g.IsWalkBetween(p, s, t) && s != t
    ensures |p| >= 2 && g.HasEdge(s, p[1])
  {
    assert g.HasEdge(p[0], p[1]);
  }

  /** The directed cycle `0 → 1 → 2 → 0`, every edge of way 2 and length 1. */
  function CycleGraph(): (g: Graph)
    ensures g.WellFormed() && |g.nodes| == 3
  {
    var e := EdgeData(2, 1.0);
    Graph([Node.New(0, 0.0, 0.0), Node.New(1, 0.0, 0.0), Node.New(2, 0.0, 0.0)],
          [[Neighbor(1, 1, e)], [Neighbor(2, 2, e)], [Neighbor(0, 0, e)]])
  }

  /** Around the cycle from 0 to 2 the search goes through 1: it is the only shortest walk. */
  method CycleSearch() returns (r: Option<seq<nat>>)
    ensures r == Some([0, 1, 2])
  {
    var g := CycleGraph();
    assert g.HasEdge(0, 1) && g.HasEdge(1, 2) by {
      assert g.adj[0][0].nodeIndex == 1 && g.adj[1][0].nodeIndex == 2;
    }
    assert g.IsWalkBetween([0, 1, 2], 0, 2);
    r := Bfs(g, 0, 2);
    var p := r.value;
    assert |p| <= 3;
    assert !g.HasEdge(0, 2);
    assert |p| == 3;
    assert g.HasEdge(0, p[1]);
    assert p == [0, 1, 2];
  }

  /** The diamond `0 - {1, 2} - 3`, every edge of way 1 and length 1. */
  function DiamondGraph(): (g: Graph)
    ensures g.WellFormed() && |g.nodes| == 4
  {
    var e := EdgeData(1, 1.0);
    Graph([Node.New(0, 0.0, 0.0), Node.New(1, 0.0, 0.0), Node.New(2, 0.0, 0.0), Node.New(3, 0.0, 0.0)],
          [[Neighbor(1, 1, e), Neighbor(2, 2, e)], [Neighbor(0, 0, e), Neighbor(3, 3, e)],
           [Neighbor(0, 0, e), Neighbor(3, 3, e)], [Neighbor(1, 1, e), Neighbor(2, 2, e)]])
  }

  /** Across the diamond from 0 to 3 the search takes two steps, through 1 or through 2. */
  method DiamondSearch() returns (r: Option<seq<nat>>)
    ensures r == Some([0, 1, 3]) || r == Some([0, 2, 3])
  {
    var g := DiamondGraph();
    assert g.HasEdge(0, 1) && g.HasEdge(1, 3) by {
      assert g.adj[0][0].nodeIndex == 1 && g.adj[1][1].nodeIndex == 3;
    }
    assert g.IsWalkBetween([0, 1, 3], 0, 3);
    r := Bfs(g, 0, 3);
    var p := r.value;
    assert |p| <= 3;
    assert !g.HasEdge(0, 3);
    assert |p| == 3;
    assert g.HasEdge(0, p[1]);
    assert p[1] == 1 || p[1] == 2;
    assert p == [0, p[1], 3];
  }

  /** Two nodes and no edges. */
  function IsolatedGraph(): (g: Graph)
    ensures g.WellFormed() && |g.nodes| == 2
  {
    Graph([Node.New(0, 0.0, 0.0), Node.New(1, 0.0, 0.0)], [[], []])
  }

  /** Between two isolated nodes there is no path. */
  method IsolatedSearch() returns (r: Option<seq<nat>>)
    ensures r == None
  {
    var g := IsolatedGraph();
    forall p | g.IsWalkBetween(p, 0, 1) ensures false {
      WalkLeaves(g, p, 0, 1);
    }
    r := Bfs(g, 0, 1);
  }

  /** From the only node of a one-node graph to itself the path is that node. */
  method TrivialSearch() returns (r: Option<seq<nat>>)
    ensures r == Some([0])
  {
    var g := Graph([Node.New(0, 0.0, 0.0)], [[]]);
    r := Bfs(g, 0, 0);
  }
}
