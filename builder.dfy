/** The graph builder of core/src/builder.rs: OSM ids are mapped to dense indices, every node gets
    an adjacency slot, and each consecutive pair of a way becomes a pair of mirrored neighbour
    entries. The value-level `State` and its operations specify the mutable `GraphBuilder`. */
module Builder {
  import opened Model
  import opened RouteGraph

  /** Edge lengths in metres, as the abstracted great-circle distance returns them. */
  type Meters = r: real | r >= 0.0

  /** The great-circle distance between two (latitude, longitude) points; the source's
      floating-point haversine formula is a parameter of the model. */
  type Distance = (real, real, real, real) -> Meters

  /** A way whose node references have already been resolved to nodes: the builder's view of a way. */
  datatype ResolvedWay = ResolvedWay(wayId: u64, refs: seq<u64>, nodes: seq<Node>)

  /** How often `v`, with edge data `e`, occurs in a neighbour list. */
  function CountTo(s: seq<Neighbor>, v: nat, e: EdgeData): (c: nat)
    ensures c <= |s|
  {
    if s == [] then 0
    else
      var last := s[|s| - 1];
      CountTo(s[..|s| - 1], v, e) + (if last.nodeIndex == v && last.edgeData == e then 1 else 0)
  }

  /** The number of neighbour entries over all adjacency lists. */
  function TotalEntries(adj: seq<seq<Neighbor>>): nat {
    if adj == [] then 0 else TotalEntries(adj[..|adj| - 1]) + |adj[|adj| - 1]|
  }

  /** Every entry `(u → v, e)` is matched by as many entries `(v → u, e)`. */
  ghost predicate Symmetric(adj: seq<seq<Neighbor>>) {
    forall u, v, e :: 0 <= u < |adj| && 0 <= v < |adj| ==> CountTo(adj[u], v, e) == CountTo(adj[v], u, e)
  }

  /** Every entry points at a node in range and records that node's OSM id. */
  ghost predicate EntriesResolve(nodes: seq<Node>, adj: seq<seq<Neighbor>>) {
    forall u, k :: 0 <= u < |adj| && 0 <= k < |adj[u]| ==>
      adj[u][k].nodeIndex < |nodes| && adj[u][k].osmId == nodes[adj[u][k].nodeIndex].Id()
  }

  /** The map and the node list are mutually inverse. */
  ghost predicate MapMatches(idToIdx: map<u64, nat>, nodes: seq<Node>) {
    && (forall id :: id in idToIdx ==> idToIdx[id] < |nodes| && nodes[idToIdx[id]].Id() == id)
    && (forall i :: 0 <= i < |nodes| ==> nodes[i].Id() in idToIdx && idToIdx[nodes[i].Id()] == i)
  }

  /** `adj[from].push(to)` followed by `adj[to].push(from)`, on dense indices. */
  function Link(adj: seq<seq<Neighbor>>, fi: nat, ti: nat, from: u64, to: u64, e: EdgeData): (r: seq<seq<Neighbor>>)
    requires fi < |adj| && ti < |adj|
    ensures |r| == |adj|
  {
    var a1 := adj[fi := adj[fi] + [Neighbor(to, ti, e)]];
    a1[ti := a1[ti] + [Neighbor(from, fi, e)]]
  }

  /** The lengths `add_way` computes for the consecutive pairs of a way's nodes: the first
      pair's distance, then those of the pairs after it. Pair `i` gets the distance between nodes
      `i` and `i + 1`. */
  function PairLengths(nodes: seq<Node>, distance: Distance): (r: seq<Meters>)
    requires |nodes| > 0
    ensures |r| == |nodes| - 1
    ensures forall i :: 0 <= i < |r| ==>
              r[i] == distance(nodes[i].Lat(), nodes[i].Lon(), nodes[i + 1].Lat(), nodes[i + 1].Lon())
    decreases |nodes|
  {
    if |nodes| == 1 then []
    else [distance(nodes[0].Lat(), nodes[0].Lon(), nodes[1].Lat(), nodes[1].Lon())] + PairLengths(nodes[1..], distance)
  }

  /** The list at index `u` before an operation, or the empty list if `u` is a slot it added. */
  function Prior(adj: seq<seq<Neighbor>>, u: nat): seq<Neighbor> {
    if u < |adj| then adj[u] else []
  }

  /** What linking `a` with `b` under the indices of `m` appends to the list at index `u`: the
      entry towards `b` when `u` is the index of `a`, then the entry towards `a` when `u` is the
      index of `b` (both, in that order, when `a` and `b` share their index). */
  function PairGain(m: map<u64, nat>, u: nat, a: Node, b: Node, e: EdgeData): seq<Neighbor>
    requires a.Id() in m && b.Id() in m
  {
    (if m[a.Id()] == u then [Neighbor(b.Id(), m[b.Id()], e)] else [])
    + (if m[b.Id()] == u then [Neighbor(a.Id(), m[a.Id()], e)] else [])
  }

  /** The ids of the first `i + 1` nodes of the way are keys of `m`. */
  predicate WayMapped(way: ResolvedWay, m: map<u64, nat>, i: nat)
    requires i < |way.nodes|
  {
    forall j :: 0 <= j <= i ==> way.nodes[j].Id() in m
  }

  /** What the first `i` pairs of a way append to the list at index `u`, pair by pair in the
      order of the way; pair `j` carries the way's id and the length `lengths[j]`. */
  function WayGain(way: ResolvedWay, lengths: seq<Meters>, m: map<u64, nat>, u: nat, i: nat): seq<Neighbor>
    requires i < |way.nodes| && |lengths| == |way.nodes| - 1
    requires i == 0 || WayMapped(way, m, i)
    decreases i
  {
    if i == 0 then []
    else
      WayGain(way, lengths, m, u, i - 1)
      + PairGain(m, u, way.nodes[i - 1], way.nodes[i], EdgeData(way.wayId, lengths[i - 1]))
  }

  /** The three fields of a `GraphBuilder` as one value. */
  datatype State = State(idToIdx: map<u64, nat>, nodes: seq<Node>, adj: seq<seq<Neighbor>>) {

    /** What the builder's indexing needs: one adjacency list per node, and every mapped index in range. */
    predicate Indexed() {
      |nodes| == |adj| && forall id :: id in idToIdx ==> idToIdx[id] < |nodes|
    }

    /** What the builder's operations keep: the map and the node list are mutually inverse,
        every entry points at a node with the OSM id it records, and entries are mirrored. */
    ghost predicate Inv() {
      Indexed() && MapMatches(idToIdx, nodes) && EntriesResolve(nodes, adj) && Symmetric(adj)
    }

    /** `GraphBuilder::new`. */
    static function Empty(): (s: State)
      ensures s.Inv() && s.nodes == [] && s.adj == [] && s.idToIdx == map[]
    {
      State(map[], [], [])
    }

    /** `add_node`. A new id is appended with an empty adjacency list, at the index returned, and
        mapped to it; an id already mapped leaves the builder as it was and gives back the OSM id
        itself rather than the stored index (`usize` is taken as 64 bits, so the cast keeps the id).
        Nothing already there moves, no entry is added, and the invariant is kept. */
    function AddNode(node: Node): (r: (State, nat))
      ensures node.Id() in r.0.idToIdx && r.0.idToIdx.Keys == idToIdx.Keys + {node.Id()}
      ensures nodes <= r.0.nodes && adj <= r.0.adj && TotalEntries(r.0.adj) == TotalEntries(adj)
      ensures node.Id() in idToIdx ==> r.0 == this && r.1 == node.Id() as nat
      ensures node.Id() !in idToIdx ==>
                && r.1 == |nodes| && r.0.nodes == nodes + [node] && r.0.adj == adj + [[]]
                && r.0.idToIdx == idToIdx[node.Id() := r.1]
      ensures Indexed() ==> r.0.Indexed()
      ensures Inv() ==> r.0.Inv()
    {
      if node.Id() in idToIdx then (this, node.Id() as nat)
      else
        TotalAppend(adj, []);
        FreshNodeKeeps(idToIdx, nodes, adj, node);
        (State(idToIdx[node.Id() := |nodes|], nodes + [node], adj + [[]]), |nodes|)
    }

    /** `add_node` as its callers evidently expect it: the index at which the node's id is stored,
        whether it was just added or was already there. The builder changes exactly as with
        `AddNode`. */
    function AddNodeIndexed(node: Node): (r: (State, nat))
      requires Indexed()
      ensures r.0 == AddNode(node).0
      ensures r.1 < |r.0.nodes| && r.0.idToIdx[node.Id()] == r.1
      ensures Inv() ==> r.0.nodes[r.1].Id() == node.Id()
      ensures node.Id() !in idToIdx ==> r.1 == |nodes|
    {
      var s := AddNode(node).0;
      (s, s.idToIdx[node.Id()])
    }

    /** `add_edge_bidirectional` on OSM ids; `None` is the panic on an id that was never added.
        Exactly the entry `from → to` is appended to the list of `from` and the mirror entry to
        the list of `to`; no other list, no node and no mapping changes, and the invariant is kept. */
    function AddEdge(from: u64, to: u64, e: EdgeData): (r: Option<State>)
      requires Indexed()
      ensures r.Some? <==> from in idToIdx && to in idToIdx
      ensures r.Some? ==> r.value.Indexed() && r.value.idToIdx == idToIdx && r.value.nodes == nodes
      ensures r.Some? ==>
                var (fi, ti) := (idToIdx[from], idToIdx[to]);
                && (fi != ti ==> r.value.adj[fi] == adj[fi] + [Neighbor(to, ti, e)]
                                 && r.value.adj[ti] == adj[ti] + [Neighbor(from, fi, e)])
                && (fi == ti ==> r.value.adj[fi] == adj[fi] + [Neighbor(to, ti, e), Neighbor(from, fi, e)])
                && (forall u :: 0 <= u < |adj| && u != fi && u != ti ==> r.value.adj[u] == adj[u])
                && TotalEntries(r.value.adj) == TotalEntries(adj) + 2
      ensures r.Some? && Inv() ==> r.value.Inv()
    {
      if from in idToIdx && to in idToIdx then
        var (fi, ti) := (idToIdx[from], idToIdx[to]);
        LinkLists(adj, fi, ti, from, to, e);
        LinkTotal(adj, fi, ti, from, to, e);
        LinkKeeps(idToIdx, nodes, adj, from, to, e);
        Some(State(idToIdx, nodes, Link(adj, fi, ti, from, to, e)))
      else None
    }

    /** One iteration of the loop of `add_way`: register both nodes, then link them with the
        edge data `e`. Both ids end up mapped, every earlier id and node stays, two entries are
        added, and the invariant is kept. */
    function WayStep(a: Node, b: Node, e: EdgeData): (r: State)
      requires Indexed()
      ensures r.Indexed() && a.Id() in r.idToIdx && b.Id() in r.idToIdx
      ensures idToIdx.Keys <= r.idToIdx.Keys && nodes <= r.nodes
      ensures TotalEntries(r.adj) == TotalEntries(adj) + 2
      ensures Inv() ==> r.Inv()
    {
      var s1 := AddNodeIndexed(a).0;
      var s2 := s1.AddNodeIndexed(b).0;
      s2.AddEdge(a.Id(), b.Id(), e).value
    }

    /** The state after the first `i` iterations of the loop of `add_way`; pair `j` gets the
        way's id and the length `lengths[j]`. The first `i + 1` nodes of the way are then
        registered, earlier ids and nodes stay, `2 * i` entries (`i` edges) have been added, and
        the invariant is kept. */
    function WayPrefix(way: ResolvedWay, lengths: seq<Meters>, i: nat): (r: State)
      requires Indexed() && i < |way.nodes| && |lengths| == |way.nodes| - 1
      ensures r.Indexed()
      ensures i > 0 ==> forall j :: 0 <= j <= i ==> way.nodes[j].Id() in r.idToIdx
      ensures idToIdx.Keys <= r.idToIdx.Keys && nodes <= r.nodes
      ensures TotalEntries(r.adj) == TotalEntries(adj) + 2 * i
      ensures Inv() ==> r.Inv()
      decreases i
    {
      if i == 0 then this
      else
        var p := WayPrefix(way, lengths, i - 1);
        var t := p.WayStep(way.nodes[i - 1], way.nodes[i], EdgeData(way.wayId, lengths[i - 1]));
        RegisteredUpTo(way.nodes, i, p.idToIdx, t.idToIdx);
        assert idToIdx.Keys <= t.idToIdx.Keys && nodes <= t.nodes;
        t
    }

    /** `add_way`, with the length of each consecutive pair given (see `PairLengths`). The source
        computes `len() - 1`, which underflows on an empty way, so a way has at least one node.
        On a way of `k >= 2` nodes every node of the way is registered, earlier ids and nodes stay,
        `k - 1` edges (`2 * (k - 1)` entries) are added and the invariant is kept; a one-node way
        changes nothing. */
    function AddWay(way: ResolvedWay, lengths: seq<Meters>): (r: State)
      requires Indexed() && |way.nodes| > 0 && |lengths| == |way.nodes| - 1
      ensures r.Indexed()
      ensures |way.nodes| >= 2 ==> forall j :: 0 <= j < |way.nodes| ==> way.nodes[j].Id() in r.idToIdx
      ensures idToIdx.Keys <= r.idToIdx.Keys && nodes <= r.nodes
      ensures TotalEntries(r.adj) == TotalEntries(adj) + 2 * (|way.nodes| - 1)
      ensures |way.nodes| == 1 ==> r == this
      ensures Inv() ==> r.Inv()
    {
      WayPrefix(way, lengths, |way.nodes| - 1)
    }

    /** `build`: the graph holds exactly the accumulated node and adjacency lists. */
    function Build(): (g: Graph)
      ensures g.Nodes() == nodes && g.Adj() == adj
    {
      Graph.New(nodes, adj)
    }
  }

  lemma CountAppend(s: seq<Neighbor>, x: Neighbor, v: nat, e: EdgeData)
    ensures CountTo(s + [x], v, e) == CountTo(s, v, e) + (if x.nodeIndex == v && x.edgeData == e then 1 else 0)
  {
    assert (s + [x])[..|s|] == s;
  }

  /** No entry of a list points at `v`, so `v` is counted zero times. */
  lemma {:induction false} CountAbsent(s: seq<Neighbor>, v: nat, e: EdgeData)
    requires forall k :: 0 <= k < |s| ==> s[k].nodeIndex != v
    ensures CountTo(s, v, e) == 0
  {
    if s != [] {
      CountAbsent(s[..|s| - 1], v, e);
    }
  }

  /** An entry `v` with data `e` is counted. */
  lemma {:induction false} CountPositive(s: seq<Neighbor>, k: nat, v: nat, e: EdgeData)
    requires k < |s| && s[k].nodeIndex == v && s[k].edgeData == e
    ensures CountTo(s, v, e) > 0
  {
    if k < |s| - 1 {
      CountPositive(s[..|s| - 1], k, v, e);
    }
  }

  /** A positive count has a witness entry. */
  lemma {:induction false} CountWitness(s: seq<Neighbor>, v: nat, e: EdgeData)
    requires CountTo(s, v, e) > 0
    ensures exists k :: 0 <= k < |s| && s[k].nodeIndex == v && s[k].edgeData == e
  {
    var last := s[|s| - 1];
    if !(last.nodeIndex == v && last.edgeData == e) {
      CountWitness(s[..|s| - 1], v, e);
      var k :| 0 <= k < |s| - 1 && s[..|s| - 1][k].nodeIndex == v && s[..|s| - 1][k].edgeData == e;
      assert s[k] == s[..|s| - 1][k];
    }
  }

  lemma {:induction false} TotalAppend(adj: seq<seq<Neighbor>>, x: seq<Neighbor>)
    ensures TotalEntries(adj + [x]) == TotalEntries(adj) + |x|
  {
    assert (adj + [x])[..|adj|] == adj;
  }

  /** Replacing one list changes the total by the difference in length. */
  lemma {:induction false} TotalUpdate(adj: seq<seq<Neighbor>>, i: nat, x: seq<Neighbor>)
    requires i < |adj|
    ensures TotalEntries(adj[i := x]) + |adj[i]| == TotalEntries(adj) + |x|
    decreases |adj|
  {
    var m := |adj| - 1;
    assert adj[i := x][..m] == if i == m then adj[..m] else adj[..m][i := x];
    if i < m {
      TotalUpdate(adj[..m], i, x);
    }
  }

  /** `Link` adds the entry `fi → ti` at the end of list `fi` and the entry `ti → fi` at the end
      of list `ti`; every other list stays. */
  lemma LinkLists(adj: seq<seq<Neighbor>>, fi: nat, ti: nat, from: u64, to: u64, e: EdgeData)
    requires fi < |adj| && ti < |adj|
    ensures var r := Link(adj, fi, ti, from, to, e);
            && (fi != ti ==> r[fi] == adj[fi] + [Neighbor(to, ti, e)] && r[ti] == adj[ti] + [Neighbor(from, fi, e)])
            && (fi == ti ==> r[fi] == adj[fi] + [Neighbor(to, ti, e), Neighbor(from, fi, e)])
            && (forall u :: 0 <= u < |adj| && u != fi && u != ti ==> r[u] == adj[u])
  {
    if fi == ti {
      assert Link(adj, fi, ti, from, to, e)[fi] == adj[fi] + [Neighbor(to, ti, e)] + [Neighbor(from, fi, e)];
    }
  }

  /** `Link` adds two entries in all. */
  lemma LinkTotal(adj: seq<seq<Neighbor>>, fi: nat, ti: nat, from: u64, to: u64, e: EdgeData)
    requires fi < |adj| && ti < |adj|
    ensures TotalEntries(Link(adj, fi, ti, from, to, e)) == TotalEntries(adj) + 2
  {
    var a1 := adj[fi := adj[fi] + [Neighbor(to, ti, e)]];
    TotalUpdate(adj, fi, adj[fi] + [Neighbor(to, ti, e)]);
    TotalUpdate(a1, ti, a1[ti] + [Neighbor(from, fi, e)]);
  }

  /** `Link` raises the count of `(fi → ti, e)` by one and that of `(ti → fi, e)` by one, so it
      keeps the lists mirrored. */
  lemma LinkSymmetric(adj: seq<seq<Neighbor>>, fi: nat, ti: nat, from: u64, to: u64, e: EdgeData)
    requires fi < |adj| && ti < |adj| && Symmetric(adj)
    ensures Symmetric(Link(adj, fi, ti, from, to, e))
  {
    var a1 := adj[fi := adj[fi] + [Neighbor(to, ti, e)]];
    var r := Link(adj, fi, ti, from, to, e);
    forall u, v, e' | 0 <= u < |adj|
      ensures CountTo(r[u], v, e') == CountTo(adj[u], v, e')
                + (if u == fi && v == ti && e' == e then 1 else 0)
                + (if u == ti && v == fi && e' == e then 1 else 0)
    {
      if u == fi {
        CountAppend(adj[fi], Neighbor(to, ti, e), v, e');
      }
      if u == ti {
        CountAppend(a1[ti], Neighbor(from, fi, e), v, e');
      }
    }
  }

  /** Linking two mapped ids keeps every entry resolved and the lists mirrored. */
  lemma LinkKeeps(idToIdx: map<u64, nat>, nodes: seq<Node>, adj: seq<seq<Neighbor>>, from: u64, to: u64, e: EdgeData)
    requires from in idToIdx && to in idToIdx && |nodes| == |adj|
    requires forall id :: id in idToIdx ==> idToIdx[id] < |nodes|
    ensures State(idToIdx, nodes, adj).Inv() ==>
              State(idToIdx, nodes, Link(adj, idToIdx[from], idToIdx[to], from, to, e)).Inv()
  {
    if State(idToIdx, nodes, adj).Inv() {
      var (fi, ti) := (idToIdx[from], idToIdx[to]);
      var r: seq<seq<Neighbor>> := Link(adj, fi, ti, from, to, e);
      LinkLists(adj, fi, ti, from, to, e);
      LinkSymmetric(adj, fi, ti, from, to, e);
      forall u, k | 0 <= u < |r| && 0 <= k < |r[u]|
        ensures r[u][k].nodeIndex < |nodes| && r[u][k].osmId == nodes[r[u][k].nodeIndex].Id()
      {
        if k < |adj[u]| {
          assert r[u][k] == adj[u][k];
        }
      }
    }
  }

  /** Appending a node with a new id, an empty list and its mapping keeps the invariant. */
  lemma FreshNodeKeeps(idToIdx: map<u64, nat>, nodes: seq<Node>, adj: seq<seq<Neighbor>>, node: Node)
    requires node.Id() !in idToIdx
    ensures State(idToIdx, nodes, adj).Inv() ==>
              State(idToIdx[node.Id() := |nodes|], nodes + [node], adj + [[]]).Inv()
  {
    if State(idToIdx, nodes, adj).Inv() {
      var n := |nodes|;
      var adj' := adj + [[]];
      forall u, v, e | 0 <= u < |adj'| && 0 <= v < |adj'| ensures CountTo(adj'[u], v, e) == CountTo(adj'[v], u, e) {
        if u == n && v < n {
          CountAbsent(adj[v], n, e);
        } else if v == n && u < n {
          CountAbsent(adj[u], n, e);
        } else if u < n && v < n {
          assert adj'[u] == adj[u] && adj'[v] == adj[v];
        }
      }
      var m := idToIdx[node.Id() := n];
      assert forall id :: id in m && id != node.Id() ==> id in idToIdx;
    }
  }

  /** The ids of `nodes[..i + 1]` are keys of `t` once those of `nodes[..i]` are keys of `p`,
      `p`'s keys are kept in `t` and the last two ids are keys of `t`. */
  lemma RegisteredUpTo(nodes: seq<Node>, i: nat, p: map<u64, nat>, t: map<u64, nat>)
    requires 0 < i < |nodes|
    requires i - 1 > 0 ==> forall j :: 0 <= j <= i - 1 ==> nodes[j].Id() in p
    requires p.Keys <= t.Keys && nodes[i - 1].Id() in t && nodes[i].Id() in t
    ensures forall j :: 0 <= j <= i ==> nodes[j].Id() in t
  {
  }

  /** Every id of `m` is a key of `m'` with the same index. */
  ghost predicate KeepsIndices(m: map<u64, nat>, m': map<u64, nat>) {
    forall k :: k in m ==> k in m' && m'[k] == m[k]
  }

  /** `r` keeps the indices of `s`, and each list of `r` is the list of `s` (or the empty list
      of a slot added since) followed by what linking `a` with `b` appends to it. */
  ghost predicate StepExtends(s: State, r: State, a: Node, b: Node, e: EdgeData)
    requires a.Id() in r.idToIdx && b.Id() in r.idToIdx
  {
    && KeepsIndices(s.idToIdx, r.idToIdx)
    && |s.adj| <= |r.adj|
    && forall u :: 0 <= u < |r.adj| ==> r.adj[u] == Prior(s.adj, u) + PairGain(r.idToIdx, u, a, b, e)
  }

  /** `r` keeps the indices of `s`, and each list of `r` is the list of `s` (or the empty list
      of a slot added since) followed by the entries of the first `i` pairs of the way. */
  ghost predicate PrefixExtends(s: State, r: State, way: ResolvedWay, lengths: seq<Meters>, i: nat)
    requires i < |way.nodes| && |lengths| == |way.nodes| - 1
    requires i == 0 || WayMapped(way, r.idToIdx, i)
  {
    && KeepsIndices(s.idToIdx, r.idToIdx)
    && |s.adj| <= |r.adj|
    && forall u :: 0 <= u < |r.adj| ==> r.adj[u] == Prior(s.adj, u) + WayGain(way, lengths, r.idToIdx, u, i)
  }

  /** `add_node` keeps every index and every list, and any slot it adds is empty. */
  lemma AddNodeLists(s: State, n: Node)
    requires s.Indexed()
    ensures var r := s.AddNode(n).0;
            && KeepsIndices(s.idToIdx, r.idToIdx)
            && |s.adj| <= |r.adj|
            && forall u :: 0 <= u < |r.adj| ==> r.adj[u] == Prior(s.adj, u)
  {
  }

  /** `add_edge_bidirectional` on two registered ids appends to each list exactly what
      `PairGain` says, whether the two ids share their index or not. */
  lemma AddEdgeLists(s: State, a: Node, b: Node, e: EdgeData)
    requires s.Indexed() && a.Id() in s.idToIdx && b.Id() in s.idToIdx
    ensures var r := s.AddEdge(a.Id(), b.Id(), e).value;
            && r.idToIdx == s.idToIdx && |r.adj| == |s.adj|
            && forall u :: 0 <= u < |r.adj| ==> r.adj[u] == s.adj[u] + PairGain(s.idToIdx, u, a, b, e)
  {
  }

  /** One step of `add_way`, for any builder and any two nodes (new or already registered, with
      the same id or not): ids keep their indices, and each list is the list before, or the empty
      list of a slot just added, followed by exactly what linking the pair appends to it. */
  lemma WayStepLists(s: State, a: Node, b: Node, e: EdgeData)
    requires s.Indexed()
    ensures StepExtends(s, s.WayStep(a, b, e), a, b, e)
  {
    var s1 := s.AddNodeIndexed(a).0;
    AddNodeLists(s, a);
    var s2 := s1.AddNodeIndexed(b).0;
    AddNodeLists(s1, b);
    AddEdgeLists(s2, a, b, e);
    assert s2.AddEdge(a.Id(), b.Id(), e).value == s.WayStep(a, b, e);
  }

  /** `WayGain` depends only on the indices of the way's nodes, so a map that keeps them gives
      the same entries. */
  lemma {:induction false} WayGainKept(way: ResolvedWay, lengths: seq<Meters>, m: map<u64, nat>, m': map<u64, nat>, u: nat, i: nat)
    requires i < |way.nodes| && |lengths| == |way.nodes| - 1
    requires i == 0 || WayMapped(way, m, i)
    requires KeepsIndices(m, m')
    ensures i == 0 || WayMapped(way, m', i)
    ensures WayGain(way, lengths, m', u, i) == WayGain(way, lengths, m, u, i)
    decreases i
  {
    if i > 0 {
      WayGainKept(way, lengths, m, m', u, i - 1);
    }
  }

  /** A list whose index is that of none of the first `i + 1` nodes of the way gains nothing. */
  lemma {:induction false} WayGainElsewhere(way: ResolvedWay, lengths: seq<Meters>, m: map<u64, nat>, u: nat, i: nat)
    requires i < |way.nodes| && |lengths| == |way.nodes| - 1
    requires i == 0 || WayMapped(way, m, i)
    requires i > 0 ==> forall j :: 0 <= j <= i ==> m[way.nodes[j].Id()] != u
    ensures WayGain(way, lengths, m, u, i) == []
    decreases i
  {
    if i > 0 {
      WayGainElsewhere(way, lengths, m, u, i - 1);
    }
  }

  /** Every entry a way adds carries the way's id and the length of one of its pairs. */
  lemma {:induction false} WayGainTagged(way: ResolvedWay, lengths: seq<Meters>, m: map<u64, nat>, u: nat, i: nat)
    requires i < |way.nodes| && |lengths| == |way.nodes| - 1
    requires i == 0 || WayMapped(way, m, i)
    ensures forall x :: x in WayGain(way, lengths, m, u, i) ==>
              x.edgeData.wayId == way.wayId && exists j :: 0 <= j < i && x.edgeData.lengthM == lengths[j]
    decreases i
  {
    if i > 0 {
      WayGainTagged(way, lengths, m, u, i - 1);
      var e := EdgeData(way.wayId, lengths[i - 1]);
      var pair := PairGain(m, u, way.nodes[i - 1], way.nodes[i], e);
      assert WayGain(way, lengths, m, u, i) == WayGain(way, lengths, m, u, i - 1) + pair;
      forall x | x in WayGain(way, lengths, m, u, i)
        ensures x.edgeData.wayId == way.wayId && exists j :: 0 <= j < i && x.edgeData.lengthM == lengths[j]
      {
        if x !in WayGain(way, lengths, m, u, i - 1) {
          assert x in pair && x.edgeData == e;
        }
      }
    }
  }

  /** The first `i` iterations of `add_way`, for any builder: ids keep their indices, and each
      list is the list before (or the empty list of a slot just added) followed by the entries of
      the pairs whose ends have its index, in the order of the way. */
  lemma {:induction false} WayPrefixLists(s: State, way: ResolvedWay, lengths: seq<Meters>, i: nat)
    requires s.Indexed() && i < |way.nodes| && |lengths| == |way.nodes| - 1
    ensures PrefixExtends(s, s.WayPrefix(way, lengths, i), way, lengths, i)
    decreases i
  {
    if i > 0 {
      var p := s.WayPrefix(way, lengths, i - 1);
      WayPrefixLists(s, way, lengths, i - 1);
      var a, b := way.nodes[i - 1], way.nodes[i];
      var e := EdgeData(way.wayId, lengths[i - 1]);
      var t := p.WayStep(a, b, e);
      assert t == s.WayPrefix(way, lengths, i);
      WayStepLists(p, a, b, e);
      PrefixStepLists(s, p, t, way, lengths, i);
    } else {
      assert s.WayPrefix(way, lengths, 0) == s;
      forall u | 0 <= u < |s.adj| ensures s.adj[u] == Prior(s.adj, u) + WayGain(way, lengths, s.idToIdx, u, 0) {
        assert s.adj[u] + [] == s.adj[u];
      }
    }
  }

  /** The inductive step of `WayPrefixLists`, on the values before and after pair `i - 1`. */
  lemma PrefixStepLists(s: State, p: State, t: State, way: ResolvedWay, lengths: seq<Meters>, i: nat)
    requires 0 < i < |way.nodes| && |lengths| == |way.nodes| - 1 && p.Indexed()
    requires i - 1 == 0 || WayMapped(way, p.idToIdx, i - 1)
    requires WayMapped(way, t.idToIdx, i)
    requires PrefixExtends(s, p, way, lengths, i - 1)
    requires StepExtends(p, t, way.nodes[i - 1], way.nodes[i], EdgeData(way.wayId, lengths[i - 1]))
    ensures PrefixExtends(s, t, way, lengths, i)
  {
    forall k | k in s.idToIdx ensures k in t.idToIdx && t.idToIdx[k] == s.idToIdx[k] {
      assert k in p.idToIdx && p.idToIdx[k] == s.idToIdx[k];
    }
    forall u | 0 <= u < |t.adj|
      ensures t.adj[u] == Prior(s.adj, u) + WayGain(way, lengths, t.idToIdx, u, i)
    {
      PrefixListStep(s, p, t, way, lengths, i, u);
    }
  }

  /** The inductive step of `WayPrefixLists` for one list: the entries of the first `i - 1`
      pairs, then those of pair `i - 1`. */
  lemma PrefixListStep(s: State, p: State, t: State, way: ResolvedWay, lengths: seq<Meters>, i: nat, u: nat)
    requires 0 < i < |way.nodes| && |lengths| == |way.nodes| - 1 && p.Indexed()
    requires i - 1 == 0 || WayMapped(way, p.idToIdx, i - 1)
    requires WayMapped(way, t.idToIdx, i)
    requires PrefixExtends(s, p, way, lengths, i - 1)
    requires StepExtends(p, t, way.nodes[i - 1], way.nodes[i], EdgeData(way.wayId, lengths[i - 1]))
    requires u < |t.adj|
    ensures t.adj[u] == Prior(s.adj, u) + WayGain(way, lengths, t.idToIdx, u, i)
  {
    var before := WayGain(way, lengths, p.idToIdx, u, i - 1);
    var step := PairGain(t.idToIdx, u, way.nodes[i - 1], way.nodes[i], EdgeData(way.wayId, lengths[i - 1]));
    assert t.adj[u] == Prior(p.adj, u) + step;
    WayGainKept(way, lengths, p.idToIdx, t.idToIdx, u, i - 1);
    if u >= |p.adj| {
      WayGainElsewhere(way, lengths, p.idToIdx, u, i - 1);
    }
    assert Prior(p.adj, u) == Prior(s.adj, u) + before;
    assert Prior(s.adj, u) + before + step == Prior(s.adj, u) + (before + step);
  }

  /** The whole of `add_way`, for any builder: each list ends with the entries the way's pairs
      give it, in order, and every id keeps its index. */
  lemma AddWayLists(s: State, way: ResolvedWay, lengths: seq<Meters>)
    requires s.Indexed() && |way.nodes| > 0 && |lengths| == |way.nodes| - 1
    ensures PrefixExtends(s, s.AddWay(way, lengths), way, lengths, |way.nodes| - 1)
  {
    WayPrefixLists(s, way, lengths, |way.nodes| - 1);
  }

  /** Under the invariant, the list of a registered node that is not on the way is unchanged. */
  lemma AddWayLeavesOthers(s: State, way: ResolvedWay, lengths: seq<Meters>, id: u64)
    requires s.Inv() && |way.nodes| > 0 && |lengths| == |way.nodes| - 1
    requires id in s.idToIdx && forall j :: 0 <= j < |way.nodes| ==> way.nodes[j].Id() != id
    ensures s.AddWay(way, lengths).adj[s.idToIdx[id]] == s.adj[s.idToIdx[id]]
  {
    var r := s.AddWay(way, lengths);
    AddWayLists(s, way, lengths);
    assert MapMatches(r.idToIdx, r.nodes);
    OthersKept(s, r, way, lengths, id);
  }

  /** `AddWayLeavesOthers` on plain values: with ids and indices in one-to-one correspondence, a
      list whose index belongs to no node of the way gains nothing. */
  lemma OthersKept(s: State, r: State, way: ResolvedWay, lengths: seq<Meters>, id: u64)
    requires |way.nodes| > 0 && |lengths| == |way.nodes| - 1
    requires |way.nodes| - 1 == 0 || WayMapped(way, r.idToIdx, |way.nodes| - 1)
    requires PrefixExtends(s, r, way, lengths, |way.nodes| - 1) && MapMatches(r.idToIdx, r.nodes)
    requires id in s.idToIdx && s.idToIdx[id] < |s.adj|
    requires forall j :: 0 <= j < |way.nodes| ==> way.nodes[j].Id() != id
    ensures s.idToIdx[id] < |r.adj| && r.adj[s.idToIdx[id]] == s.adj[s.idToIdx[id]]
  {
    var u := s.idToIdx[id];
    assert r.idToIdx[id] == u;
    forall j | 0 <= j <= |way.nodes| - 1 && |way.nodes| - 1 > 0
      ensures r.idToIdx[way.nodes[j].Id()] != u
    {
      var x := way.nodes[j].Id();
      assert r.nodes[r.idToIdx[x]].Id() == x;
    }
    WayGainElsewhere(way, lengths, r.idToIdx, u, |way.nodes| - 1);
    assert r.adj[u] == s.adj[u] + [];
  }

  /** `build` on a builder that kept its invariant gives a well-formed graph whose edges are
      symmetric: `v` is a neighbour of `u` exactly when `u` is a neighbour of `v`. */
  lemma BuildSpec(s: State)
    requires s.Inv()
    ensures s.Build().WellFormed()
    ensures forall u, v :: 0 <= u < |s.nodes| && 0 <= v < |s.nodes| ==>
              (s.Build().HasEdge(u, v) <==> s.Build().HasEdge(v, u))
  {
    var g := s.Build();
    forall u, v | 0 <= u < |s.nodes| && 0 <= v < |s.nodes| && g.HasEdge(u, v) ensures g.HasEdge(v, u) {
      var k :| 0 <= k < |g.adj[u]| && g.adj[u][k].nodeIndex == v;
      var e := g.adj[u][k].edgeData;
      CountPositive(s.adj[u], k, v, e);
      CountWitness(s.adj[v], u, e);
    }
  }

  /** The builder of core/src/builder.rs, whose three fields are reassigned by its methods.
      The source makes `nodes` and `adj` public; the model assumes they change only through
      these methods, which is what `Valid` records. */
  class GraphBuilder {
    var idToIdx: map<u64, nat>
    var nodes: seq<Node>
    var adj: seq<seq<Neighbor>>

    ghost function Snapshot(): State
      reads this
    {
      State(idToIdx, nodes, adj)
    }

    ghost predicate Valid()
      reads this
    {
      Snapshot().Inv()
    }

    /** `GraphBuilder::new`: no nodes, no lists, an empty map. */
    constructor ()
      ensures Valid() && Snapshot() == State.Empty()
    {
      idToIdx, nodes, adj := map[], [], [];
    }

    /** `add_node`. */
    method AddNode(node: Node) returns (idx: nat)
      requires Valid()
      modifies this
      ensures Valid() && (Snapshot(), idx) == old(Snapshot()).AddNode(node)
    {
      ghost var r := Snapshot().AddNode(node);
      if node.Id() in idToIdx {
        return node.Id() as nat;
      }
      idx := |nodes|;
      idToIdx := idToIdx[node.Id() := idx];
      nodes := nodes + [node];
      adj := adj + [[]];
      assert Snapshot() == r.0;
    }

    /** `add_edge_bidirectional`. A missing id panics in the source; here it is reported as
      `ok == false` with the builder unchanged. */
    method AddEdgeBidirectional(from: u64, to: u64, e: EdgeData) returns (ok: bool)
      requires Valid()
      modifies this
      ensures Valid()
      ensures ok <==> from in old(idToIdx) && to in old(idToIdx)
      ensures ok ==> Snapshot() == old(Snapshot()).AddEdge(from, to, e).value
      ensures !ok ==> Snapshot() == old(Snapshot())
    {
      ghost var r := Snapshot().AddEdge(from, to, e);
      if from !in idToIdx || to !in idToIdx {
        return false;
      }
      var fromIdx := idToIdx[from];
      var toIdx := idToIdx[to];
      adj := adj[fromIdx := adj[fromIdx] + [Neighbor(to, toIdx, e)]];
      adj := adj[toIdx := adj[toIdx] + [Neighbor(from, fromIdx, e)]];
      assert Snapshot() == r.value;
      ok := true;
    }

    /** `add_way`: the `for i in 0..len - 1` loop over consecutive pairs, each edge tagged with
        the way's id and the distance between the pair. */
    method AddWay(way: ResolvedWay, distance: Distance)
      requires Valid() && |way.nodes| > 0
      modifies this
      ensures Valid() && Snapshot() == old(Snapshot()).AddWay(way, PairLengths(way.nodes, distance))
      ensures PrefixExtends(old(Snapshot()), Snapshot(), way, PairLengths(way.nodes, distance), |way.nodes| - 1)
    {
      ghost var lengths := PairLengths(way.nodes, distance);
      var i := 0;
      while i < |way.nodes| - 1
        invariant 0 <= i <= |way.nodes| - 1
        invariant Valid() && Snapshot() == old(Snapshot()).WayPrefix(way, lengths, i)
      {
        var from := way.nodes[i];
        var to := way.nodes[i + 1];
        var _ := AddNode(from);
        var _ := AddNode(to);
        var edgeData := EdgeData(way.wayId, distance(from.Lat(), from.Lon(), to.Lat(), to.Lon()));
        var ok := AddEdgeBidirectional(from.Id(), to.Id(), edgeData);
        i := i + 1;
      }
      AddWayLists(old(Snapshot()), way, lengths);
    }

    /** `build`. */
    method Build() returns (g: Graph)
      requires Valid()
      ensures g == Snapshot().Build() && g.WellFormed()
    {
      BuildSpec(Snapshot());
      g := Graph.New(nodes, adj);
    }
  }

  /** The duplicate branch of `add_node` returns the OSM id, not an index: adding a node with a
      non-zero id twice to an empty builder gives back that id the second time, although the node
      is stored at index 0, the only index there is. */
  lemma DuplicateReturnsOsmId(n: Node)
    requires n.Id() != 0
    ensures var s := State.Empty().AddNode(n).0;
            && s.AddNode(n).1 == n.Id() as nat && s.AddNode(n).1 != s.idToIdx[n.Id()]
            && |s.nodes| == 1 && s.AddNode(n).1 >= |s.nodes|
            && s.AddNodeIndexed(n).1 == 0
  {
  }

  /** Two nodes with distinct ids added to an empty builder sit at indices 0 and 1 with empty lists. */
  lemma TwoNodesState(n1: Node, n2: Node)
    requires n1.Id() != n2.Id()
    ensures State.Empty().AddNode(n1).0.AddNode(n2).0
         == State(map[n1.Id() := 0, n2.Id() := 1], [n1, n2], [[], []])
  {
    var s1 := State.Empty().AddNode(n1).0;
    assert s1 == State(map[n1.Id() := 0], [n1], [[]]);
  }

  /** The `add_node` test: three nodes with distinct ids give three nodes, three lists, and an
      empty list for the first. */
  lemma ThreeNodesExample(n1: Node, n2: Node, n3: Node)
    requires n1.Id() == 1 && n2.Id() == 2 && n3.Id() == 3
    ensures var s := State.Empty().AddNode(n1).0.AddNode(n2).0.AddNode(n3).0;
            && |s.Build().Nodes()| == 3 && |s.Build().Adj()| == 3 && s.Build().Adj()[0] == []
  {
    TwoNodesState(n1, n2);
    var s2 := State.Empty().AddNode(n1).0.AddNode(n2).0;
    assert 3 !in s2.idToIdx;
  }

  /** The `add_edge_bidirectional` test: linking two added nodes puts one entry in each list. */
  lemma OneEdgeExample(n1: Node, n2: Node, e: EdgeData)
    requires n1.Id() != n2.Id()
    ensures var s := State.Empty().AddNode(n1).0.AddNode(n2).0;
            && s.AddEdge(n1.Id(), n2.Id(), e).Some?
            && |s.AddEdge(n1.Id(), n2.Id(), e).value.adj[0]| == 1
            && |s.AddEdge(n1.Id(), n2.Id(), e).value.adj[1]| == 1
  {
    TwoNodesState(n1, n2);
  }

  /** Nodes with the distinct ids of the builder tests, at any coordinates. */
  predicate DistinctIds(ns: seq<Node>) {
    forall i, j :: 0 <= i < j < |ns| ==> ns[i].Id() != ns[j].Id()
  }

  /** `r` is `s` extended by a step from the registered node `a` to the new node `b`: `b` is
      appended with the single entry back to `a`, the entry to `b` is added at the end of `a`'s
      list, and every other list is left alone. */
  predicate ExtendedBy(s: State, r: State, a: Node, b: Node, e: EdgeData) {
    && a.Id() in s.idToIdx && s.idToIdx[a.Id()] < |s.adj|
    && var (ia, ib) := (s.idToIdx[a.Id()], |s.nodes|);
       && r.nodes == s.nodes + [b] && r.idToIdx == s.idToIdx[b.Id() := ib] && |r.adj| == |s.adj| + 1
       && ib < |r.adj| && r.adj[ia] == s.adj[ia] + [Neighbor(b.Id(), ib, e)] && r.adj[ib] == [Neighbor(a.Id(), ia, e)]
       && forall u :: 0 <= u < |s.adj| && u != ia ==> r.adj[u] == s.adj[u]
  }

  /** A step of `add_way` from a registered node to a new one extends the builder as `ExtendedBy` says. */
  lemma WayStepExtends(s: State, a: Node, b: Node, e: EdgeData)
    requires s.Indexed()
    ensures a.Id() in s.idToIdx && b.Id() !in s.idToIdx ==> ExtendedBy(s, s.WayStep(a, b, e), a, b, e)
  {
    if a.Id() in s.idToIdx && b.Id() !in s.idToIdx {
      var s2 := s.AddNodeIndexed(a).0.AddNodeIndexed(b).0;
      assert s2 == State(s.idToIdx[b.Id() := |s.nodes|], s.nodes + [b], s.adj + [[]]);
    }
  }

  /** A step of `add_way` between two new nodes appends both, each with the single entry to the other. */
  lemma WayStepFresh(s: State, a: Node, b: Node, e: EdgeData)
    requires s.Indexed() && a.Id() !in s.idToIdx && b.Id() !in s.idToIdx && a.Id() != b.Id()
    ensures var r := s.WayStep(a, b, e);
            var n := |s.nodes|;
            && r.nodes == s.nodes + [a, b] && r.idToIdx == s.idToIdx[a.Id() := n][b.Id() := n + 1]
            && r.adj == s.adj + [[Neighbor(b.Id(), n + 1, e)], [Neighbor(a.Id(), n, e)]]
  {
    var n := |s.nodes|;
    var s1 := s.AddNodeIndexed(a).0;
    assert s1 == State(s.idToIdx[a.Id() := n], s.nodes + [a], s.adj + [[]]);
    var s2 := s1.AddNodeIndexed(b).0;
    assert s2 == State(s1.idToIdx[b.Id() := n + 1], s1.nodes + [b], s1.adj + [[]]);
    var r := s.WayStep(a, b, e);
    assert r.adj[n] == [Neighbor(b.Id(), n + 1, e)] && r.adj[n + 1] == [Neighbor(a.Id(), n, e)];
    assert r.nodes == s.nodes + [a] + [b];
  }

  /** Adding a way of two nodes is one step. */
  lemma TwoNodeWay(s: State, w: ResolvedWay, l: seq<Meters>)
    requires s.Indexed() && |w.nodes| == 2 && |l| == 1
    ensures s.AddWay(w, l) == s.WayStep(w.nodes[0], w.nodes[1], EdgeData(w.wayId, l[0]))
  {
  }

  /** Adding a way of three nodes is two steps. */
  lemma ThreeNodeWay(s: State, w: ResolvedWay, l: seq<Meters>)
    requires s.Indexed() && |w.nodes| == 3 && |l| == 2
    ensures s.AddWay(w, l) == s.WayStep(w.nodes[0], w.nodes[1], EdgeData(w.wayId, l[0]))
                               .WayStep(w.nodes[1], w.nodes[2], EdgeData(w.wayId, l[1]))
  {
    assert s.WayPrefix(w, l, 1) == s.WayStep(w.nodes[0], w.nodes[1], EdgeData(w.wayId, l[0]));
  }

  /** `FirstWayState` on plain values: two nodes linked, then a third linked to the second. */
  lemma FirstWayLists(p1: State, t: State, n1: Node, n2: Node, n3: Node, e0: EdgeData, e1: EdgeData)
    requires p1.nodes == [n1, n2] && p1.idToIdx == map[n1.Id() := 0, n2.Id() := 1]
    requires p1.adj == [[Neighbor(n2.Id(), 1, e0)], [Neighbor(n1.Id(), 0, e0)]]
    requires n3.Id() != n1.Id() && n3.Id() != n2.Id()
    requires n2.Id() in p1.idToIdx && n3.Id() !in p1.idToIdx ==> ExtendedBy(p1, t, n2, n3, e1)
    ensures t.nodes == [n1, n2, n3] && t.idToIdx == map[n1.Id() := 0, n2.Id() := 1, n3.Id() := 2]
    ensures t.adj == [[Neighbor(n2.Id(), 1, e0)],
                      [Neighbor(n1.Id(), 0, e0), Neighbor(n3.Id(), 2, e1)],
                      [Neighbor(n2.Id(), 1, e1)]]
  {
    assert n2.Id() in p1.idToIdx && n3.Id() !in p1.idToIdx;
    assert t.adj[0] == p1.adj[0];
    assert t.adj[1] == [Neighbor(n1.Id(), 0, e0), Neighbor(n3.Id(), 2, e1)];
  }

  /** A way of three distinct nodes added to an empty builder. */
  lemma FirstWayState(wid: u64, n1: Node, n2: Node, n3: Node, l: seq<Meters>)
    requires DistinctIds([n1, n2, n3]) && |l| == 2
    ensures var s := State.Empty().AddWay(ResolvedWay(wid, [n1.Id(), n2.Id(), n3.Id()], [n1, n2, n3]), l);
            && s.nodes == [n1, n2, n3]
            && s.idToIdx == map[n1.Id() := 0, n2.Id() := 1, n3.Id() := 2]
            && s.adj == [[Neighbor(n2.Id(), 1, EdgeData(wid, l[0]))],
                         [Neighbor(n1.Id(), 0, EdgeData(wid, l[0])), Neighbor(n3.Id(), 2, EdgeData(wid, l[1]))],
                         [Neighbor(n2.Id(), 1, EdgeData(wid, l[1]))]]
  {
    assert [n1, n2, n3][0] == n1 && [n1, n2, n3][1] == n2 && [n1, n2, n3][2] == n3;
    var w := ResolvedWay(wid, [n1.Id(), n2.Id(), n3.Id()], [n1, n2, n3]);
    var (e0, e1) := (EdgeData(wid, l[0]), EdgeData(wid, l[1]));
    var (i1, i2, i3) := (n1.Id(), n2.Id(), n3.Id());
    assert i1 != i2 && i1 != i3 && i2 != i3;
    var s0 := State.Empty();
    ThreeNodeWay(s0, w, l);
    WayStepFresh(s0, n1, n2, e0);
    var p1 := s0.WayStep(n1, n2, e0);
    assert p1.nodes == [n1, n2];
    assert p1.adj == [[Neighbor(i2, 1, e0)], [Neighbor(i1, 0, e0)]];
    assert p1.idToIdx == map[i1 := 0, i2 := 1];
    var t := p1.WayStep(n2, n3, e1);
    WayStepExtends(p1, n2, n3, e1);
    FirstWayLists(p1, t, n1, n2, n3, e0, e1);
  }

  /** The `add_way` test: a way of three nodes gives the end nodes one neighbour and the middle
      node two, listed in the order the way visits them; this holds whatever the lengths. */
  lemma OneWayExample(n1: Node, n2: Node, n3: Node, l: seq<Meters>)
    requires DistinctIds([n1, n2, n3]) && |l| == 2
    ensures var g := State.Empty().AddWay(ResolvedWay(1, [n1.Id(), n2.Id(), n3.Id()], [n1, n2, n3]), l).Build();
            && |g.Nodes()| == 3 && |g.Adj()[0]| == 1 && |g.Adj()[1]| == 2 && |g.Adj()[2]| == 1
            && g.Adj()[0][0].osmId == n2.Id() && g.Adj()[1][0].osmId == n1.Id() && g.Adj()[1][1].osmId == n3.Id()
  {
    FirstWayState(1, n1, n2, n3, l);
  }

  /** `MultipleWaysExample` on plain values: the second and third ways extend the first one's
      builder at the shared node. */
  lemma SharedNodeLists(s1: State, s2: State, p1: State, s3: State, n3: Node, n4: Node,
                        n5: Node, n6: Node, e2: EdgeData, e3: EdgeData, e4: EdgeData)
    requires n3.Id() == 3 && n4.Id() == 4 && n5.Id() == 5 && n6.Id() == 6
    requires |s1.nodes| == 3 && |s1.adj| == 3 && |s1.adj[0]| == 1 && |s1.adj[2]| == 1
    requires s1.idToIdx == map[1 := 0, 2 := 1, 3 := 2] && s1.adj[2][0].osmId == 2
    requires 3 in s1.idToIdx && 4 !in s1.idToIdx ==> ExtendedBy(s1, s2, n3, n4, e2)
    requires 3 in s2.idToIdx && 5 !in s2.idToIdx ==> ExtendedBy(s2, p1, n3, n5, e3)
    requires 5 in p1.idToIdx && 6 !in p1.idToIdx ==> ExtendedBy(p1, s3, n5, n6, e4)
    ensures |s2.nodes| == 4 && |s2.adj[0]| == 1 && |s2.adj[2]| == 2
    ensures s2.adj[2][0].osmId == 2 && s2.adj[2][1].osmId == 4
    ensures |s3.nodes| == 6 && |s3.adj[2]| == 3
    ensures s3.adj[2][0].osmId == 2 && s3.adj[2][1].osmId == 4 && s3.adj[2][2].osmId == 5
  {
    assert ExtendedBy(s1, s2, n3, n4, e2);
    assert s2.idToIdx == map[1 := 0, 2 := 1, 3 := 2, 4 := 3];
    assert s2.adj[2] == s1.adj[2] + [Neighbor(4, 3, e2)];
    assert ExtendedBy(s2, p1, n3, n5, e3);
    assert p1.idToIdx == map[1 := 0, 2 := 1, 3 := 2, 4 := 3, 5 := 4];
    assert p1.adj[2] == s2.adj[2] + [Neighbor(5, 4, e3)];
    assert ExtendedBy(p1, s3, n5, n6, e4);
  }

  /** The ways `3, 4` and `3, 5, 6` added to the builder that holds the way `1, 2, 3`. */
  lemma LaterWays(s1: State, n3: Node, n4: Node, n5: Node, n6: Node, l2: seq<Meters>, l3: seq<Meters>)
    requires n3.Id() == 3 && n4.Id() == 4 && n5.Id() == 5 && n6.Id() == 6 && |l2| == 1 && |l3| == 2
    requires s1.Indexed() && |s1.nodes| == 3 && s1.idToIdx == map[1 := 0, 2 := 1, 3 := 2]
    requires |s1.adj[0]| == 1 && |s1.adj[2]| == 1 && s1.adj[2][0].osmId == 2
    ensures var s2 := s1.AddWay(ResolvedWay(2, [3, 4], [n3, n4]), l2);
            && |s2.nodes| == 4 && |s2.adj[0]| == 1 && |s2.adj[2]| == 2
            && s2.adj[2][0].osmId == 2 && s2.adj[2][1].osmId == 4
            && var s3 := s2.AddWay(ResolvedWay(3, [3, 5, 6], [n3, n5, n6]), l3);
               && |s3.nodes| == 6 && |s3.adj[2]| == 3
               && s3.adj[2][0].osmId == 2 && s3.adj[2][1].osmId == 4 && s3.adj[2][2].osmId == 5
  {
    var (e2, e3, e4) := (EdgeData(2, l2[0]), EdgeData(3, l3[0]), EdgeData(3, l3[1]));
    TwoNodeWay(s1, ResolvedWay(2, [3, 4], [n3, n4]), l2);
    WayStepExtends(s1, n3, n4, e2);
    var s2 := s1.WayStep(n3, n4, e2);
    ThreeNodeWay(s2, ResolvedWay(3, [3, 5, 6], [n3, n5, n6]), l3);
    WayStepExtends(s2, n3, n5, e3);
    var p1 := s2.WayStep(n3, n5, e3);
    WayStepExtends(p1, n5, n6, e4);
    SharedNodeLists(s1, s2, p1, p1.WayStep(n5, n6, e4), n3, n4, n5, n6, e2, e3, e4);
  }

  /** The `add_two_ways` and `add_multiple_ways` tests: after the ways `1, 2, 3`, `3, 4` and
      `3, 5, 6` the shared node 3 (index 2) has the neighbours 2, 4 and 5 in that order, and the
      builder holds six nodes; this holds whatever the coordinates and the lengths. */
  lemma MultipleWaysExample(n1: Node, n2: Node, n3: Node, n4: Node, n5: Node, n6: Node,
                            l1: seq<Meters>, l2: seq<Meters>, l3: seq<Meters>)
    requires n1.Id() == 1 && n2.Id() == 2 && n3.Id() == 3 && n4.Id() == 4 && n5.Id() == 5 && n6.Id() == 6
    requires |l1| == 2 && |l2| == 1 && |l3| == 2
    ensures var s2 := State.Empty().AddWay(ResolvedWay(1, [1, 2, 3], [n1, n2, n3]), l1)
                                   .AddWay(ResolvedWay(2, [3, 4], [n3, n4]), l2);
            && |s2.nodes| == 4 && |s2.adj[0]| == 1 && |s2.adj[2]| == 2
            && s2.adj[2][0].osmId == 2 && s2.adj[2][1].osmId == 4
            && var s3 := s2.AddWay(ResolvedWay(3, [3, 5, 6], [n3, n5, n6]), l3);
               && |s3.nodes| == 6 && |s3.adj[2]| == 3
               && s3.adj[2][0].osmId == 2 && s3.adj[2][1].osmId == 4 && s3.adj[2][2].osmId == 5
  {
    assert DistinctIds([n1, n2, n3]);
    FirstWayState(1, n1, n2, n3, l1);
    LaterWays(State.Empty().AddWay(ResolvedWay(1, [1, 2, 3], [n1, n2, n3]), l1), n3, n4, n5, n6, l2, l3);
  }

  /** A way that repeats a node, `[n, n]`, on an empty builder: the single pair is a self-loop,
      and the one list gets both entries of the pair, the entry towards `n` and its mirror. */
  lemma RepeatedNodeWay(wid: u64, n: Node, len: Meters)
    ensures var r := State.Empty().AddWay(ResolvedWay(wid, [n.Id(), n.Id()], [n, n]), [len]);
            && r.nodes == [n] && r.idToIdx == map[n.Id() := 0]
            && r.adj == [[Neighbor(n.Id(), 0, EdgeData(wid, len)), Neighbor(n.Id(), 0, EdgeData(wid, len))]]
  {
    var s := State.Empty();
    var way := ResolvedWay(wid, [n.Id(), n.Id()], [n, n]);
    var r := s.AddWay(way, [len]);
    var s1 := s.AddNode(n).0;
    assert s1 == State(map[n.Id() := 0], [n], [[]]);
    assert s1.AddNode(n).0 == s1;
    AddWayLists(s, way, [len]);
    assert r.idToIdx == map[n.Id() := 0] && |r.adj| == 1;
    RepeatedNodeList(r, way, len);
  }

  /** The list of `RepeatedNodeWay`, from `PrefixExtends`: one pair, both of whose ends have index 0. */
  lemma RepeatedNodeList(r: State, way: ResolvedWay, len: Meters)
    requires |way.nodes| == 2 && way.nodes[0] == way.nodes[1]
    requires r.idToIdx == map[way.nodes[0].Id() := 0] && |r.adj| == 1
    requires PrefixExtends(State.Empty(), r, way, [len], 1)
    ensures r.adj == [[Neighbor(way.nodes[0].Id(), 0, EdgeData(way.wayId, len)), Neighbor(way.nodes[0].Id(), 0, EdgeData(way.wayId, len))]]
  {
    var e := EdgeData(way.wayId, len);
    var x := Neighbor(way.nodes[0].Id(), 0, e);
    assert WayGain(way, [len], r.idToIdx, 0, 1) == [] + PairGain(r.idToIdx, 0, way.nodes[0], way.nodes[1], e);
    assert PairGain(r.idToIdx, 0, way.nodes[0], way.nodes[1], e) == [x] + [x];
    assert r.adj[0] == [] + ([] + ([x] + [x]));
    assert [] + ([] + ([x] + [x])) == [x, x];
    assert r.adj == [r.adj[0]];
  }
}
