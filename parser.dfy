/** The record assembly of core/src/parser.rs: the loops that turn the XML event stream of an OSM
    file into ways and nodes, and the filter that keeps the nodes some way refers to. The XML
    reader is replaced by a sequence of events whose attribute values are already decoded; the
    end of the sequence is the reader's end-of-file event. */
module Parser {
  import opened Model

  // ---------------------------------------------------------------------------------------------
  // The event stream.

  /** A decoded attribute. `id`, `ref`, `lat`, `lon` and `k` are the only keys the parser looks
      at; every other attribute is `Unrecognised`. */
  datatype Attr = Id(id: u64) | Ref(ref: u64) | Lat(lat: real) | Lon(lon: real) | Key(k: string) | Unrecognised

  /** An XML event: a start tag, a self-closing tag, an end tag, or anything else (text,
      comments, declarations). */
  datatype Event =
    | Start(name: string, attrs: seq<Attr>)
    | Empty(name: string, attrs: seq<Attr>)
    | End(name: string)
    | Other

  predicate IsWayStart(e: Event) { e.Start? && e.name == "way" }

  predicate IsWayEnd(e: Event) { e.End? && e.name == "way" }

  predicate IsNd(e: Event) { e.Empty? && e.name == "nd" }

  predicate IsTag(e: Event) { e.Empty? && e.name == "tag" }

  /** `parse_nodes` accepts both `<node ...>` and `<node .../>`. */
  predicate IsNodeElement(e: Event) { (e.Start? || e.Empty?) && e.name == "node" }

  // ---------------------------------------------------------------------------------------------
  // Attribute loops.

  /** The id a way start carries: the value of its last `id` attribute, 0 without one. */
  function WayId(attrs: seq<Attr>): u64 {
    if attrs == [] then 0
    else if attrs[|attrs| - 1].Id? then attrs[|attrs| - 1].id
    else WayId(attrs[..|attrs| - 1])
  }

  /** The refs an `nd` element pushes: the value of every `ref` attribute, in order. */
  function NdRefs(attrs: seq<Attr>): seq<u64> {
    if attrs == [] then []
    else NdRefs(attrs[..|attrs| - 1]) + (if attrs[|attrs| - 1].Ref? then [attrs[|attrs| - 1].ref] else [])
  }

  /** The key of a `tag` element: the value of its last `k` attribute, if any. */
  function TagKey(attrs: seq<Attr>): Option<string> {
    if attrs == [] then None
    else if attrs[|attrs| - 1].Key? then Some(attrs[|attrs| - 1].k)
    else TagKey(attrs[..|attrs| - 1])
  }

  /** The loop over a way start's attributes. */
  method ReadWayId(attrs: seq<Attr>) returns (wayId: u64)
    ensures wayId == WayId(attrs)
  {
    wayId := 0;
    var i := 0;
    while i < |attrs|
      invariant 0 <= i <= |attrs| && wayId == WayId(attrs[..i])
    {
      assert attrs[..i + 1][..i] == attrs[..i];
      if attrs[i].Id? {
        wayId := attrs[i].id;
      }
      i := i + 1;
    }
    assert attrs[..|attrs|] == attrs;
  }

  /** The loop over an `nd` element's attributes, pushing onto `nodeRefs`. */
  method PushRefs(nodeRefs: seq<u64>, attrs: seq<Attr>) returns (r: seq<u64>)
    ensures r == nodeRefs + NdRefs(attrs)
  {
    r := nodeRefs;
    var i := 0;
    while i < |attrs|
      invariant 0 <= i <= |attrs| && r == nodeRefs + NdRefs(attrs[..i])
    {
      assert attrs[..i + 1][..i] == attrs[..i];
      if attrs[i].Ref? {
        r := r + [attrs[i].ref];
      }
      i := i + 1;
    }
    assert attrs[..|attrs|] == attrs;
  }

  /** The loop over a `tag` element's attributes. */
  method ReadTagKey(attrs: seq<Attr>) returns (key: Option<string>)
    ensures key == TagKey(attrs)
  {
    key := None;
    var i := 0;
    while i < |attrs|
      invariant 0 <= i <= |attrs| && key == TagKey(attrs[..i])
    {
      assert attrs[..i + 1][..i] == attrs[..i];
      if attrs[i].Key? {
        key := Some(attrs[i].k);
      }
      i := i + 1;
    }
    assert attrs[..|attrs|] == attrs;
  }

  /** A way start without an `id` attribute gets id 0, and with one its last value wins. */
  lemma {:induction false} WayIdDefault(attrs: seq<Attr>)
    ensures (forall k :: 0 <= k < |attrs| ==> !attrs[k].Id?) ==> WayId(attrs) == 0
    ensures forall x: u64 :: WayId(attrs + [Id(x)]) == x
  {
    if attrs != [] {
      WayIdDefault(attrs[..|attrs| - 1]);
      if forall k :: 0 <= k < |attrs| ==> !attrs[k].Id? {
        assert forall k :: 0 <= k < |attrs| - 1 ==> attrs[..|attrs| - 1][k] == attrs[k];
      }
    }
    forall x: u64 ensures WayId(attrs + [Id(x)]) == x {
      assert (attrs + [Id(x)])[|attrs|] == Id(x);
    }
  }

  /** `NdRefs` lists exactly the `ref` values, in order. */
  lemma {:induction false} NdRefsAppend(a: seq<Attr>, b: seq<Attr>)
    ensures NdRefs(a + b) == NdRefs(a) + NdRefs(b)
    decreases |b|
  {
    if b == [] {
      assert a + b == a;
    } else {
      var b' := b[..|b| - 1];
      assert (a + b)[..|a + b| - 1] == a + b';
      NdRefsAppend(a, b');
    }
  }

  // ---------------------------------------------------------------------------------------------
  // filter_nodes_on_ways.

  /** The ids listed in `s`, as a set. */
  function Elements(s: seq<u64>): (e: set<u64>)
    ensures forall r :: r in e <==> r in s
  {
    if s == [] then {} else Elements(s[..|s| - 1]) + {s[|s| - 1]}
  }

  /** Every id some way refers to. */
  function RoadIds(ways: seq<Way>): set<u64> {
    if ways == [] then {}
    else RoadIds(ways[..|ways| - 1]) + Elements(ways[|ways| - 1].NodeRefs())
  }

  /** An id is a road id exactly when some way refers to it. */
  lemma {:induction false} RoadIdsMembers(ways: seq<Way>, r: u64)
    ensures r in RoadIds(ways) <==> exists w :: w in ways && r in w.NodeRefs()
  {
    if ways != [] {
      var init := ways[..|ways| - 1];
      RoadIdsMembers(init, r);
      assert forall w :: w in ways <==> w in init || w == ways[|ways| - 1];
    }
  }

  /** The nodes of `nodes` whose id is in `ids`, in their original order. */
  function KeepReferenced(nodes: seq<Node>, ids: set<u64>): seq<Node> {
    if nodes == [] then []
    else (if nodes[0].Id() in ids then [nodes[0]] else []) + KeepReferenced(nodes[1..], ids)
  }

  /** The inner loop of `filter_nodes_on_ways`: every ref of one way inserted into the set. */
  method InsertRefs(roadIds: set<u64>, refs: seq<u64>) returns (r: set<u64>)
    ensures r == roadIds + Elements(refs)
  {
    r := roadIds;
    var j := 0;
    while j < |refs|
      invariant 0 <= j <= |refs| && r == roadIds + Elements(refs[..j])
    {
      assert refs[..j + 1][..j] == refs[..j];
      assert Elements(refs[..j + 1]) == Elements(refs[..j]) + {refs[j]};
      r := r + {refs[j]};
      j := j + 1;
    }
    assert refs[..|refs|] == refs;
  }

  /** `filter_nodes_on_ways`: collect the ids of every way's refs into a set in two nested loops,
      then keep the nodes whose id is in it. */
  method FilterNodesOnWays(nodes: seq<Node>, ways: seq<Way>) returns (kept: seq<Node>)
    ensures kept == KeepReferenced(nodes, RoadIds(ways))
  {
    var roadIds: set<u64> := {};
    var i := 0;
    while i < |ways|
      invariant 0 <= i <= |ways| && roadIds == RoadIds(ways[..i])
    {
      assert ways[..i + 1][..i] == ways[..i];
      roadIds := InsertRefs(roadIds, ways[i].NodeRefs());
      i := i + 1;
    }
    assert ways[..|ways|] == ways;
    kept := KeepReferenced(nodes, roadIds);
  }

  /** The filter keeps a node exactly when it is in the input and its id is referenced. */
  lemma {:induction false} KeepReferencedMembers(nodes: seq<Node>, ids: set<u64>)
    ensures forall x :: x in KeepReferenced(nodes, ids) <==> x in nodes && x.Id() in ids
    ensures |KeepReferenced(nodes, ids)| <= |nodes|
  {
    if nodes != [] {
      KeepReferencedMembers(nodes[1..], ids);
      assert forall x :: x in nodes <==> x == nodes[0] || x in nodes[1..];
    }
  }

  /** The filter preserves order: it distributes over concatenation. */
  lemma {:induction false} KeepReferencedAppend(a: seq<Node>, b: seq<Node>, ids: set<u64>)
    ensures KeepReferenced(a + b, ids) == KeepReferenced(a, ids) + KeepReferenced(b, ids)
  {
    if a == [] {
      assert a + b == b;
    } else {
      assert (a + b)[1..] == a[1..] + b;
      KeepReferencedAppend(a[1..], b, ids);
    }
  }

  /** The filter keeps every node whose id is referenced, duplicates included: the result has
      as many copies of each node as the input has, or none. */
  lemma {:induction false} KeepReferencedCounts(nodes: seq<Node>, ids: set<u64>, x: Node)
    ensures multiset(KeepReferenced(nodes, ids))[x] == if x.Id() in ids then multiset(nodes)[x] else 0
  {
    if nodes != [] {
      KeepReferencedCounts(nodes[1..], ids, x);
      assert nodes == [nodes[0]] + nodes[1..];
    }
  }

  /** `test_filter_nodes_on_ways`: four nodes, ways referring to 1, 2 and 3, three nodes kept. */
  lemma FilterExample(n1: Node, n2: Node, n3: Node, n4: Node, w1: Way, w2: Way)
    requires n1.Id() == 1 && n2.Id() == 2 && n3.Id() == 3 && n4.Id() == 4
    requires w1.NodeRefs() == [1, 2] && w2.NodeRefs() == [3]
    ensures KeepReferenced([n1, n2, n3, n4], RoadIds([w1, w2])) == [n1, n2, n3]
  {
    var ids := RoadIds([w1, w2]);
    assert [w1, w2][..1] == [w1];
    assert [w1][..0] == [];
    assert ids == RoadIds([w1]) + Elements(w2.NodeRefs());
    assert RoadIds([w1]) == Elements(w1.NodeRefs());
    assert 1 in w1.NodeRefs() && 2 in w1.NodeRefs() && 3 in w2.NodeRefs();
    assert 4 !in w1.NodeRefs() && 4 !in w2.NodeRefs();
    assert 1 in ids && 2 in ids && 3 in ids && 4 !in ids;
    assert [n1, n2, n3, n4][1..] == [n2, n3, n4];
    assert [n2, n3, n4][1..] == [n3, n4];
    assert [n3, n4][1..] == [n4];
    assert KeepReferenced([n4], ids) == [];
    assert KeepReferenced([n3, n4], ids) == [n3];
    assert KeepReferenced([n2, n3, n4], ids) == [n2, n3];
  }

  // ---------------------------------------------------------------------------------------------
  // parse_ways.

  /** The inner loop of `parse_ways` over the events after a way start, with `refs` pushed so
      far: the refs of the way, and the events after the end tag that stops the loop (none when
      the loop stops at end of file). */
  function WayBody(es: seq<Event>, refs: seq<u64>): (r: (seq<u64>, seq<Event>))
    ensures |r.1| <= |es|
  {
    if es == [] then (refs, [])
    else if IsWayEnd(es[0]) then (refs, es[1..])
    else if IsNd(es[0]) then WayBody(es[1..], refs + NdRefs(es[0].attrs))
    else WayBody(es[1..], refs)
  }

  /** The outer loop of `parse_ways` with `acc` pushed so far: one way per way start it meets,
      with the id of that start and the refs of its body, in document order. */
  function Ways(es: seq<Event>, acc: seq<Way>): seq<Way>
    decreases |es|
  {
    if es == [] then acc
    else if IsWayStart(es[0]) then
      var body := WayBody(es[1..], []);
      Ways(body.1, acc + [Way.New(WayId(es[0].attrs), body.0)])
    else Ways(es[1..], acc)
  }

  /** `parse_ways`, after the XML reader has turned the input into `events`. */
  method ParseWays(events: seq<Event>) returns (ways: seq<Way>)
    ensures ways == Ways(events, [])
  {
    ways := [];
    var i := 0;
    while i < |events|
      invariant 0 <= i <= |events| && Ways(events[i..], ways) == Ways(events, [])
      decreases |events| - i
    {
      var e := events[i];
      assert events[i..][1..] == events[i + 1..];
      if IsWayStart(e) {
        var wayId := ReadWayId(e.attrs);
        var nodeRefs: seq<u64> := [];
        var j := i + 1;
        while j < |events| && !IsWayEnd(events[j])
          invariant i + 1 <= j <= |events|
          invariant WayBody(events[j..], nodeRefs) == WayBody(events[i + 1..], [])
        {
          assert events[j..][1..] == events[j + 1..];
          if IsNd(events[j]) {
            nodeRefs := PushRefs(nodeRefs, events[j].attrs);
          }
          j := j + 1;
        }
        if j < |events| {
          assert events[j..][1..] == events[j + 1..];
        }
        ways := ways + [Way.New(wayId, nodeRefs)];
        i := if j < |events| then j + 1 else j;
      } else {
        i := i + 1;
      }
    }
  }

  // ---------------------------------------------------------------------------------------------
  // parse_ways_with_tags.

  /** A `tag` element whose key is one of `filters`. */
  predicate Matches(e: Event, filters: seq<string>) {
    IsTag(e) && TagKey(e.attrs).Some? && TagKey(e.attrs).value in filters
  }

  /** The inner loop of `parse_ways_with_tags` with `refs` pushed so far: the refs to emit when a
      matching tag stops the loop (none when the end tag or end of file does), and the events
      after the event that stopped it. */
  function TaggedBody(es: seq<Event>, filters: seq<string>, refs: seq<u64>): (r: (Option<seq<u64>>, seq<Event>))
    ensures |r.1| <= |es|
  {
    if es == [] then (None, [])
    else if IsNd(es[0]) then TaggedBody(es[1..], filters, refs + NdRefs(es[0].attrs))
    else if Matches(es[0], filters) then (Some(refs), es[1..])
    else if IsWayEnd(es[0]) then (None, es[1..])
    else TaggedBody(es[1..], filters, refs)
  }

  /** The outer loop of `parse_ways_with_tags` with `acc` pushed so far. */
  function TaggedWays(es: seq<Event>, filters: seq<string>, acc: seq<Way>): seq<Way>
    decreases |es|
  {
    if es == [] then acc
    else if IsWayStart(es[0]) then
      var body := TaggedBody(es[1..], filters, []);
      TaggedWays(body.1, filters, if body.0.Some? then acc + [Way.New(WayId(es[0].attrs), body.0.value)] else acc)
    else TaggedWays(es[1..], filters, acc)
  }

  /** `parse_ways_with_tags`, after the XML reader has turned the input into `events`. */
  method ParseWaysWithTags(filters: seq<string>, events: seq<Event>) returns (ways: seq<Way>)
    ensures ways == TaggedWays(events, filters, [])
  {
    ways := [];
    var i := 0;
    while i < |events|
      invariant 0 <= i <= |events| && TaggedWays(events[i..], filters, ways) == TaggedWays(events, filters, [])
      decreases |events| - i
    {
      var e := events[i];
      assert events[i..][1..] == events[i + 1..];
      if IsWayStart(e) {
        var wayId := ReadWayId(e.attrs);
        var nodeRefs: seq<u64> := [];
        ghost var before := ways;
        ghost var body := TaggedBody(events[i + 1..], filters, []);
        var j := i + 1;
        while j < |events|
          invariant i + 1 <= j <= |events| && ways == before
          invariant TaggedBody(events[j..], filters, nodeRefs) == body
        {
          var ev := events[j];
          assert events[j..][1..] == events[j + 1..];
          if IsNd(ev) {
            nodeRefs := PushRefs(nodeRefs, ev.attrs);
          } else if IsTag(ev) {
            var key := ReadTagKey(ev.attrs);
            if key.Some? && key.value in filters {
              ways := ways + [Way.New(wayId, nodeRefs)];
              break;
            }
          } else if IsWayEnd(ev) {
            break;
          }
          j := j + 1;
        }
        assert body.1 == events[if j < |events| then j + 1 else j..];
        assert ways == if body.0.Some? then before + [Way.New(wayId, body.0.value)] else before;
        i := if j < |events| then j + 1 else j;
      } else {
        i := i + 1;
      }
    }
  }

  // ---------------------------------------------------------------------------------------------
  // parse_nodes.

  /** The attributes of a `node` element seen so far. */
  datatype Pending = Pending(id: Option<u64>, lat: Option<real>, lon: Option<real>)

  /** One attribute of a `node` element recorded. */
  function Note(p: Pending, a: Attr): Pending {
    match a
    case Id(x) => p.(id := Some(x))
    case Lat(x) => p.(lat := Some(x))
    case Lon(x) => p.(lon := Some(x))
    case _ => p
  }

  predicate Complete(p: Pending) { p.id.Some? && p.lat.Some? && p.lon.Some? }

  /** The loop over a `node` element's attributes: after each attribute, once the id, the
      latitude and the longitude have all been seen, the node is (re)inserted under its id. */
  function NodeAttrs(table: map<u64, Node>, attrs: seq<Attr>, p: Pending): map<u64, Node>
    decreases |attrs|
  {
    if attrs == [] then table
    else
      var q := Note(p, attrs[0]);
      NodeAttrs(if Complete(q) then table[q.id.value := Node.New(q.id.value, q.lat.value, q.lon.value)] else table, attrs[1..], q)
  }

  /** The outer loop of `parse_nodes`: every `node` element, start or self-closing, in order. */
  function NodesTable(es: seq<Event>, table: map<u64, Node>): map<u64, Node>
    decreases |es|
  {
    if es == [] then table
    else NodesTable(es[1..], if IsNodeElement(es[0]) then NodeAttrs(table, es[0].attrs, Pending(None, None, None)) else table)
  }

  /** Every node is stored under its own id. */
  ghost predicate KeyedById(table: map<u64, Node>) {
    forall k :: k in table ==> table[k].Id() == k
  }

  /** The attribute loop of `parse_nodes` for one element. */
  method InsertNode(table: map<u64, Node>, attrs: seq<Attr>) returns (t: map<u64, Node>)
    ensures t == NodeAttrs(table, attrs, Pending(None, None, None))
  {
    t := table;
    var idOpt: Option<u64> := None;
    var latOpt: Option<real> := None;
    var lonOpt: Option<real> := None;
    var i := 0;
    while i < |attrs|
      invariant 0 <= i <= |attrs|
      invariant NodeAttrs(t, attrs[i..], Pending(idOpt, latOpt, lonOpt)) == NodeAttrs(table, attrs, Pending(None, None, None))
    {
      assert attrs[i..][1..] == attrs[i + 1..];
      match attrs[i] {
        case Id(x) => idOpt := Some(x);
        case Lat(x) => latOpt := Some(x);
        case Lon(x) => lonOpt := Some(x);
        case _ =>
      }
      if idOpt.Some? && latOpt.Some? && lonOpt.Some? {
        t := t[idOpt.value := Node.New(idOpt.value, latOpt.value, lonOpt.value)];
      }
      i := i + 1;
    }
  }

  /** `into_values().collect()`: the nodes of the table, each once, in an order the model leaves
      open (the source's hash map does not fix one). */
  method CollectValues(table: map<u64, Node>) returns (nodes: seq<Node>)
    requires KeyedById(table)
    ensures |nodes| == |table|
    ensures forall x :: x in nodes <==> x in table.Values
    ensures forall i, j :: 0 <= i < j < |nodes| ==> nodes[i].Id() != nodes[j].Id()
  {
    nodes := [];
    var rest := table.Keys;
    while rest != {}
      invariant rest <= table.Keys
      invariant |nodes| + |rest| == |table|
      invariant forall x :: x in nodes <==> exists k :: k in table.Keys - rest && table[k] == x
      invariant forall i :: 0 <= i < |nodes| ==> nodes[i].Id() in table.Keys - rest
      invariant forall i, j :: 0 <= i < j < |nodes| ==> nodes[i].Id() != nodes[j].Id()
      decreases |rest|
    {
      var k :| k in rest;
      assert table[k].Id() == k;
      nodes := nodes + [table[k]];
      rest := rest - {k};
    }
    forall x | x in table.Values ensures x in nodes {
      var k :| k in table && table[k] == x;
    }
  }

  /** `parse_nodes`, after the XML reader has turned the input into `events`: one node per
      distinct id, the last complete element with that id winning. */
  method ParseNodes(events: seq<Event>) returns (nodes: seq<Node>)
    ensures |nodes| == |NodesTable(events, map[])|
    ensures forall x :: x in nodes <==> x in NodesTable(events, map[]).Values
    ensures forall i, j :: 0 <= i < j < |nodes| ==> nodes[i].Id() != nodes[j].Id()
  {
    var table: map<u64, Node> := map[];
    var i := 0;
    while i < |events|
      invariant 0 <= i <= |events| && NodesTable(events[i..], table) == NodesTable(events, map[])
    {
      assert events[i..][1..] == events[i + 1..];
      var e := events[i];
      if IsNodeElement(e) {
        table := InsertNode(table, e.attrs);
      }
      i := i + 1;
    }
    NodesTableKeyed(events, map[]);
    nodes := CollectValues(table);
  }

  /** The attribute loop stores a node under its own id. */
  lemma {:induction false} NodeAttrsKeyed(table: map<u64, Node>, attrs: seq<Attr>, p: Pending)
    requires KeyedById(table)
    ensures KeyedById(NodeAttrs(table, attrs, p))
    decreases |attrs|
  {
    if attrs != [] {
      var q := Note(p, attrs[0]);
      var t := if Complete(q) then table[q.id.value := Node.New(q.id.value, q.lat.value, q.lon.value)] else table;
      assert KeyedById(t);
      NodeAttrsKeyed(t, attrs[1..], q);
    }
  }

  /** `parse_nodes` stores every node under its own id. */
  lemma {:induction false} NodesTableKeyed(es: seq<Event>, table: map<u64, Node>)
    requires KeyedById(table)
    ensures KeyedById(NodesTable(es, table))
    decreases |es|
  {
    if es != [] {
      var t := if IsNodeElement(es[0]) then NodeAttrs(table, es[0].attrs, Pending(None, None, None)) else table;
      if IsNodeElement(es[0]) {
        NodeAttrsKeyed(table, es[0].attrs, Pending(None, None, None));
      }
      NodesTableKeyed(es[1..], t);
    }
  }

  /** The attributes of a `node` element as the attribute loop has seen them after `attrs`. */
  function Seen(p: Pending, attrs: seq<Attr>): Pending
    decreases |attrs|
  {
    if attrs == [] then p else Seen(Note(p, attrs[0]), attrs[1..])
  }

  /** An attribute once seen stays seen. */
  lemma {:induction false} SeenKeepsComplete(p: Pending, attrs: seq<Attr>)
    requires Complete(p)
    ensures Complete(Seen(p, attrs))
    decreases |attrs|
  {
    if attrs != [] {
      SeenKeepsComplete(Note(p, attrs[0]), attrs[1..]);
    }
  }

  /** The loop has seen an id, a latitude and a longitude exactly when the element carries each
      of them (or they were seen before). */
  lemma {:induction false} SeenComplete(p: Pending, attrs: seq<Attr>)
    ensures Seen(p, attrs).id.Some? <==> p.id.Some? || exists i :: 0 <= i < |attrs| && attrs[i].Id?
    ensures Seen(p, attrs).lat.Some? <==> p.lat.Some? || exists i :: 0 <= i < |attrs| && attrs[i].Lat?
    ensures Seen(p, attrs).lon.Some? <==> p.lon.Some? || exists i :: 0 <= i < |attrs| && attrs[i].Lon?
    decreases |attrs|
  {
    if attrs != [] {
      var q := Note(p, attrs[0]);
      SeenComplete(q, attrs[1..]);
      assert forall i :: 1 <= i < |attrs| ==> attrs[i] == attrs[1..][i - 1];
      if exists i :: 0 <= i < |attrs[1..]| && attrs[1..][i].Id? {
        var i :| 0 <= i < |attrs[1..]| && attrs[1..][i].Id?;
        assert attrs[i + 1].Id?;
      }
      if exists i :: 0 <= i < |attrs[1..]| && attrs[1..][i].Lat? {
        var i :| 0 <= i < |attrs[1..]| && attrs[1..][i].Lat?;
        assert attrs[i + 1].Lat?;
      }
      if exists i :: 0 <= i < |attrs[1..]| && attrs[1..][i].Lon? {
        var i :| 0 <= i < |attrs[1..]| && attrs[1..][i].Lon?;
        assert attrs[i + 1].Lon?;
      }
    }
  }

  /** A `node` element that leaves the id, the latitude or the longitude unseen records nothing. */
  lemma {:induction false} IncompleteUnchanged(table: map<u64, Node>, attrs: seq<Attr>, p: Pending)
    requires !Complete(Seen(p, attrs))
    ensures NodeAttrs(table, attrs, p) == table
    decreases |attrs|
  {
    if attrs != [] {
      var q := Note(p, attrs[0]);
      if Complete(q) {
        SeenKeepsComplete(q, attrs[1..]);
        assert false;
      }
      IncompleteUnchanged(table, attrs[1..], q);
    }
  }

  /** The `node` element `<node id=".." lat=".." lon=".."/>` for `n`. */
  function NodeEvent(n: Node): Event {
    Empty("node", [Id(n.Id()), Lat(n.Lat()), Lon(n.Lon())])
  }

  /** Such an element records `n` under its id, replacing any node stored there before. */
  lemma NodeEventRecords(table: map<u64, Node>, n: Node)
    ensures NodeAttrs(table, NodeEvent(n).attrs, Pending(None, None, None)) == table[n.Id() := n]
  {
    var attrs := NodeEvent(n).attrs;
    assert attrs[1..] == [Lat(n.Lat()), Lon(n.Lon())] && attrs[1..][1..] == [Lon(n.Lon())] && attrs[1..][1..][1..] == [];
    var q1 := Pending(Some(n.Id()), None, None);
    var q2 := Pending(Some(n.Id()), Some(n.Lat()), None);
    var q3 := Pending(Some(n.Id()), Some(n.Lat()), Some(n.Lon()));
    assert NodeAttrs(table, attrs, Pending(None, None, None)) == NodeAttrs(table, attrs[1..], q1);
    assert NodeAttrs(table, attrs[1..], q1) == NodeAttrs(table, attrs[1..][1..], q2);
    NodeFromGetters(n);
    assert NodeAttrs(table, attrs[1..][1..], q2) == NodeAttrs(table[n.Id() := n], [], q3);
  }

  /** `parse_nodes` over events that follow one another. */
  lemma {:induction false} NodesTableAppend(a: seq<Event>, b: seq<Event>, table: map<u64, Node>)
    ensures NodesTable(a + b, table) == NodesTable(b, NodesTable(a, table))
    decreases |a|
  {
    if a == [] {
      assert a + b == b;
    } else {
      assert (a + b)[0] == a[0] && (a + b)[1..] == a[1..] + b;
      NodesTableAppend(a[1..], b, if IsNodeElement(a[0]) then NodeAttrs(table, a[0].attrs, Pending(None, None, None)) else table);
    }
  }

  /** The elements for a sequence of nodes, in order. */
  function NodeEvents(ns: seq<Node>): seq<Event> {
    if ns == [] then [] else [NodeEvent(ns[0])] + NodeEvents(ns[1..])
  }

  /** The ids of a sequence of nodes. */
  function IdsOf(ns: seq<Node>): (ids: set<u64>)
    ensures forall k :: k in ids <==> exists i :: 0 <= i < |ns| && ns[i].Id() == k
  {
    if ns == [] then {}
    else
      var rest := IdsOf(ns[1..]);
      assert forall i :: 1 <= i < |ns| ==> ns[i] == ns[1..][i - 1];
      {ns[0].Id()} + rest
  }

  /** `parse_nodes` over a sequence of `node` elements: the table gains exactly their ids, the last
      node with each id is the one kept, and ids no element mentions keep their old node. */
  lemma {:induction false} NodesOfElements(ns: seq<Node>, table: map<u64, Node>)
    ensures NodesTable(NodeEvents(ns), table).Keys == table.Keys + IdsOf(ns)
    ensures forall i :: (0 <= i < |ns| && (forall j :: i < j < |ns| ==> ns[j].Id() != ns[i].Id())
                         ==> NodesTable(NodeEvents(ns), table)[ns[i].Id()] == ns[i])
    ensures forall k :: k in table && k !in IdsOf(ns) ==> NodesTable(NodeEvents(ns), table)[k] == table[k]
  {
    if ns != [] {
      var es := NodeEvents(ns);
      var t := table[ns[0].Id() := ns[0]];
      assert es[0] == NodeEvent(ns[0]) && es[1..] == NodeEvents(ns[1..]);
      NodeEventRecords(table, ns[0]);
      assert NodesTable(es, table) == NodesTable(NodeEvents(ns[1..]), t);
      NodesOfElements(ns[1..], t);
      assert forall i :: 1 <= i < |ns| ==> ns[i] == ns[1..][i - 1];
      forall i | 0 <= i < |ns| && (forall j :: i < j < |ns| ==> ns[j].Id() != ns[i].Id())
        ensures NodesTable(es, table)[ns[i].Id()] == ns[i]
      {
        LastOfItsId(ns, i);
      }
    }
  }

  /** Seen from the tail, a node that no later node shares its id with is still the last of its
      id; the first node then does not occur in the tail at all. */
  lemma LastOfItsId(ns: seq<Node>, i: nat)
    requires i < |ns| && forall j :: i < j < |ns| ==> ns[j].Id() != ns[i].Id()
    ensures i == 0 ==> ns[0].Id() !in IdsOf(ns[1..])
    ensures i > 0 ==> forall j :: i - 1 < j < |ns[1..]| ==> ns[1..][j].Id() != ns[1..][i - 1].Id()
  {
    if i == 0 {
      assert forall j :: 0 <= j < |ns[1..]| ==> ns[1..][j] == ns[j + 1];
    }
  }

  /** The `<osm>` wrapper around `node` elements records nothing of its own. */
  lemma NodesOfOsm(es: seq<Event>)
    ensures NodesTable([Start("osm", [])] + es + [End("osm")], map[]) == NodesTable(es, map[])
  {
    NodesTableAppend([Start("osm", [])], es, map[]);
    NodesTableAppend([Start("osm", [])] + es, [End("osm")], map[]);
    assert NodesTable([Start("osm", [])], map[]) == map[];
    var t := NodesTable(es, map[]);
    assert NodesTable([End("osm")], t) == t;
  }

  lemma IdsOfThree(n1: Node, n2: Node, n3: Node)
    ensures IdsOf([n1, n2, n3]) == {n1.Id(), n2.Id(), n3.Id()}
  {
    var ids := IdsOf([n1, n2, n3]);
    assert [n1, n2, n3][0] == n1 && [n1, n2, n3][1] == n2 && [n1, n2, n3][2] == n3;
    forall k | k in ids ensures k in {n1.Id(), n2.Id(), n3.Id()} {
      var i :| 0 <= i < 3 && [n1, n2, n3][i].Id() == k;
    }
  }

  /** `test_parse_nodes`: three node elements with distinct ids give three nodes. */
  lemma ParseNodesExample(n1: Node, n2: Node, n3: Node)
    requires n1.Id() != n2.Id() && n1.Id() != n3.Id() && n2.Id() != n3.Id()
    ensures |NodesTable([Start("osm", [])] + NodeEvents([n1, n2, n3]) + [End("osm")], map[])| == 3
  {
    NodesOfOsm(NodeEvents([n1, n2, n3]));
    NodesOfElements([n1, n2, n3], map[]);
    IdsOfThree(n1, n2, n3);
    var t := NodesTable(NodeEvents([n1, n2, n3]), map[]);
    assert t.Keys == {n1.Id(), n2.Id(), n3.Id()};
  }

  // ---------------------------------------------------------------------------------------------
  // Well-formed documents of ways.

  /** What a way element contains: `<nd ref=".."/>` and `<tag k=".." v=".."/>` children. */
  datatype Item = NdItem(ref: u64) | TagItem(key: string)

  /** A way element: an optional `id` attribute and its children in order. */
  datatype WayBlock = WayBlock(id: Option<u64>, items: seq<Item>)

  function ItemEvent(it: Item): Event {
    match it
    case NdItem(r) => Empty("nd", [Ref(r)])
    case TagItem(k) => Empty("tag", [Key(k), Unrecognised])
  }

  function ItemEvents(items: seq<Item>): seq<Event> {
    if items == [] then [] else [ItemEvent(items[0])] + ItemEvents(items[1..])
  }

  function StartAttrs(id: Option<u64>): seq<Attr> {
    if id.Some? then [Id(id.value)] else []
  }

  /** The events of one way element. */
  function BlockEvents(b: WayBlock): seq<Event> {
    [Start("way", StartAttrs(b.id))] + ItemEvents(b.items) + [End("way")]
  }

  /** The events of a sequence of way elements. */
  function Document(bs: seq<WayBlock>): seq<Event> {
    if bs == [] then [] else BlockEvents(bs[0]) + Document(bs[1..])
  }

  /** The events of an `<osm>` file holding the given ways. */
  function OsmDocument(bs: seq<WayBlock>): seq<Event> {
    [Start("osm", [])] + Document(bs) + [End("osm")]
  }

  /** The refs of a way element's `nd` children, in order. */
  function ItemRefs(items: seq<Item>): seq<u64> {
    if items == [] then [] else (if items[0].NdItem? then [items[0].ref] else []) + ItemRefs(items[1..])
  }

  /** The id a way element is given: its `id` attribute, or 0. */
  function BlockId(b: WayBlock): u64 {
    if b.id.Some? then b.id.value else 0
  }

  /** The ways a document of way elements describes: one per element, in order. */
  function BlockWays(bs: seq<WayBlock>): seq<Way> {
    if bs == [] then [] else [Way.New(BlockId(bs[0]), ItemRefs(bs[0].items))] + BlockWays(bs[1..])
  }

  /** The position of the first tag child whose key is one of `filters`, `|items|` without one. */
  function MatchIndex(items: seq<Item>, filters: seq<string>): (k: nat)
    ensures k <= |items|
  {
    if items == [] then 0
    else if items[0].TagItem? && items[0].key in filters then 0
    else MatchIndex(items[1..], filters) + 1
  }

  /** What one way element contributes once only ways with a tag key in `filters` are kept: the
      way with the refs of the children before its first such tag, or nothing. */
  function KeptWay(b: WayBlock, filters: seq<string>): seq<Way> {
    var k := MatchIndex(b.items, filters);
    if k < |b.items| then [Way.New(BlockId(b), ItemRefs(b.items[..k]))] else []
  }

  /** The ways a document describes once only those with a tag key in `filters` are kept. */
  function MatchingWays(bs: seq<WayBlock>, filters: seq<string>): seq<Way> {
    if bs == [] then [] else KeptWay(bs[0], filters) + MatchingWays(bs[1..], filters)
  }

  lemma StartAttrsId(id: Option<u64>)
    ensures WayId(StartAttrs(id)) == if id.Some? then id.value else 0
  {
    if id.Some? {
      assert StartAttrs(id)[..0] == [];
    }
  }

  /** An `nd` child contributes its ref, a `tag` child nothing. */
  lemma ItemEventRefs(it: Item)
    ensures !IsWayEnd(ItemEvent(it)) && !IsWayStart(ItemEvent(it))
    ensures IsNd(ItemEvent(it)) <==> it.NdItem?
    ensures it.NdItem? ==> NdRefs(ItemEvent(it).attrs) == [it.ref]
  {
    if it.NdItem? {
      assert [Ref(it.ref)][..0] == [];
    }
  }

  /** The inner loops stop at a way's end tag, and the outer loop of `parse_ways_with_tags`
      passes over it. */
  lemma EndStep(tail: seq<Event>, filters: seq<string>, refs: seq<u64>, acc: seq<Way>)
    ensures var es := [End("way")] + tail;
      WayBody(es, refs) == (refs, tail) && TaggedBody(es, filters, refs) == (None, tail)
      && TaggedWays(es, filters, acc) == TaggedWays(tail, filters, acc)
  {
    assert ([End("way")] + tail)[1..] == tail;
  }

  /** The inner loop of `parse_ways` pushes the ref of every `nd` child it reads, in order. */
  lemma {:induction false} WayBodyItems(items: seq<Item>, refs: seq<u64>, rest: seq<Event>)
    ensures WayBody(ItemEvents(items) + rest, refs) == WayBody(rest, refs + ItemRefs(items))
  {
    var es := ItemEvents(items) + rest;
    if items == [] {
      assert es == rest;
      assert refs + ItemRefs(items) == refs;
    } else {
      var it := items[0];
      var tail := ItemEvents(items[1..]) + rest;
      assert es == [ItemEvent(it)] + tail;
      assert es[0] == ItemEvent(it) && es[1..] == tail;
      ItemEventRefs(it);
      var own := if it.NdItem? then [it.ref] else [];
      if it.NdItem? {
        assert WayBody(es, refs) == WayBody(tail, refs + NdRefs(es[0].attrs));
      } else {
        assert WayBody(es, refs) == WayBody(tail, refs);
        assert refs + own == refs;
      }
      WayBodyItems(items[1..], refs + own, rest);
      assert ItemRefs(items) == own + ItemRefs(items[1..]);
      assert refs + own + ItemRefs(items[1..]) == refs + (own + ItemRefs(items[1..]));
    }
  }

  /** `parse_ways` reads one way element into one way and goes on after its end tag. */
  lemma WaysOfBlock(b: WayBlock, tail: seq<Event>, acc: seq<Way>)
    ensures Ways(BlockEvents(b) + tail, acc) == Ways(tail, acc + [Way.New(BlockId(b), ItemRefs(b.items))])
  {
    BlockSplit(b, tail);
    WayBodyItems(b.items, [], [End("way")] + tail);
    EndStep(tail, [], [] + ItemRefs(b.items), acc);
    assert [] + ItemRefs(b.items) == ItemRefs(b.items);
    StartAttrsId(b.id);
  }

  /** A way left open at the end of the input is still emitted, with every ref read before the
      end: the reader reports the end of file, which stops the inner loop like an end tag. */
  lemma UnclosedWay(b: WayBlock, acc: seq<Way>)
    ensures Ways([Start("way", StartAttrs(b.id))] + ItemEvents(b.items), acc)
         == acc + [Way.New(BlockId(b), ItemRefs(b.items))]
  {
    var es := [Start("way", StartAttrs(b.id))] + ItemEvents(b.items);
    assert es[0] == Start("way", StartAttrs(b.id)) && es[1..] == ItemEvents(b.items) + [];
    WayBodyItems(b.items, [], []);
    assert [] + ItemRefs(b.items) == ItemRefs(b.items);
    StartAttrsId(b.id);
  }

  /** `parse_ways` on a document of way elements yields exactly the ways it describes, in order,
      each with every ref of its element. */
  lemma {:induction false} WaysOfDocument(bs: seq<WayBlock>, rest: seq<Event>, acc: seq<Way>)
    ensures Ways(Document(bs) + rest, acc) == Ways(rest, acc + BlockWays(bs))
  {
    if bs == [] {
      assert Document(bs) + rest == rest;
      assert acc + BlockWays(bs) == acc;
    } else {
      var b := bs[0];
      var tail := Document(bs[1..]) + rest;
      assert Document(bs) + rest == BlockEvents(b) + tail;
      var w := Way.New(BlockId(b), ItemRefs(b.items));
      WaysOfBlock(b, tail, acc);
      WaysOfDocument(bs[1..], rest, acc + [w]);
      assert BlockWays(bs) == [w] + BlockWays(bs[1..]);
      assert acc + [w] + BlockWays(bs[1..]) == acc + ([w] + BlockWays(bs[1..]));
    }
  }

  /** A `tag` child matches exactly when its key is one of `filters`; an `nd` child never does. */
  lemma ItemEventMatches(it: Item, filters: seq<string>)
    ensures Matches(ItemEvent(it), filters) <==> it.TagItem? && it.key in filters
  {
    if it.TagItem? {
      var attrs := [Key(it.key), Unrecognised];
      assert attrs[..1] == [Key(it.key)];
      assert TagKey(attrs) == Some(it.key);
    }
  }

  /** The inner loop of `parse_ways_with_tags` on a way element's children: it stops at the first
      matching tag with the refs read before it, and otherwise reads on past all of them. */
  lemma {:induction false} TaggedBodyItems(items: seq<Item>, filters: seq<string>, refs: seq<u64>, rest: seq<Event>)
    ensures var k := MatchIndex(items, filters);
      TaggedBody(ItemEvents(items) + rest, filters, refs)
      == if k < |items| then (Some(refs + ItemRefs(items[..k])), ItemEvents(items[k + 1..]) + rest)
         else TaggedBody(rest, filters, refs + ItemRefs(items))
  {
    var es := ItemEvents(items) + rest;
    if items == [] {
      assert es == rest;
      assert refs + ItemRefs(items) == refs;
    } else {
      var it := items[0];
      var k := MatchIndex(items, filters);
      var tail := ItemEvents(items[1..]) + rest;
      assert es == [ItemEvent(it)] + tail;
      assert es[0] == ItemEvent(it) && es[1..] == tail;
      ItemEventRefs(it);
      ItemEventMatches(it, filters);
      if it.TagItem? && it.key in filters {
        assert k == 0;
        assert TaggedBody(es, filters, refs) == (Some(refs), tail);
        assert refs + ItemRefs(items[..0]) == refs;
      } else {
        var own := if it.NdItem? then [it.ref] else [];
        if it.NdItem? {
          assert TaggedBody(es, filters, refs) == TaggedBody(tail, filters, refs + NdRefs(es[0].attrs));
        } else {
          assert TaggedBody(es, filters, refs) == TaggedBody(tail, filters, refs);
          assert refs + own == refs;
        }
        TaggedBodyItems(items[1..], filters, refs + own, rest);
        if k < |items| {
          RefsPastFirst(items, k, refs);
        } else {
          RefsPastFirst(items, |items|, refs);
          assert items[..|items|] == items && items[1..][..|items| - 1] == items[1..];
        }
      }
    }
  }

  /** The references of the first `k` items are those of the first item followed by those of the
      next `k - 1`. */
  lemma RefsPastFirst(items: seq<Item>, k: nat, refs: seq<u64>)
    requires 0 < k <= |items|
    ensures var own := if items[0].NdItem? then [items[0].ref] else [];
            && refs + ItemRefs(items[..k]) == refs + own + ItemRefs(items[1..][..k - 1])
            && (k < |items| ==> items[1..][k - 1 + 1..] == items[k + 1..])
  {
    var own := if items[0].NdItem? then [items[0].ref] else [];
    assert items[..k][0] == items[0] && items[..k][1..] == items[1..][..k - 1];
    assert ItemRefs(items[..k]) == own + ItemRefs(items[1..][..k - 1]);
    assert refs + own + ItemRefs(items[1..][..k - 1]) == refs + (own + ItemRefs(items[1..][..k - 1]));
  }

  /** The outer loop of `parse_ways_with_tags` passes over what is left of a way element after a
      matching tag. */
  lemma {:induction false} TaggedSkipsItems(items: seq<Item>, filters: seq<string>, rest: seq<Event>, acc: seq<Way>)
    ensures TaggedWays(ItemEvents(items) + rest, filters, acc) == TaggedWays(rest, filters, acc)
  {
    var es := ItemEvents(items) + rest;
    if items == [] {
      assert es == rest;
    } else {
      var more := ItemEvents(items[1..]) + rest;
      assert es == [ItemEvent(items[0])] + more;
      assert es[0] == ItemEvent(items[0]) && es[1..] == more;
      ItemEventRefs(items[0]);
      TaggedSkipsItems(items[1..], filters, rest, acc);
    }
  }

  /** The events of a way element, split after its start tag. */
  lemma BlockSplit(b: WayBlock, tail: seq<Event>)
    ensures var es := BlockEvents(b) + tail;
      |es| > 0 && es[0] == Start("way", StartAttrs(b.id)) && es[1..] == ItemEvents(b.items) + ([End("way")] + tail)
  {
    var es := BlockEvents(b) + tail;
    assert es == [Start("way", StartAttrs(b.id))] + (ItemEvents(b.items) + ([End("way")] + tail));
  }

  /** A way element with a matching tag yields one way. */
  lemma TaggedOfMatchingBlock(b: WayBlock, filters: seq<string>, tail: seq<Event>, acc: seq<Way>)
    requires MatchIndex(b.items, filters) < |b.items|
    ensures TaggedWays(BlockEvents(b) + tail, filters, acc)
         == TaggedWays(tail, filters, acc + [Way.New(BlockId(b), ItemRefs(b.items[..MatchIndex(b.items, filters)]))])
  {
    var k := MatchIndex(b.items, filters);
    BlockSplit(b, tail);
    TaggedBodyItems(b.items, filters, [], [End("way")] + tail);
    StartAttrsId(b.id);
    assert [] + ItemRefs(b.items[..k]) == ItemRefs(b.items[..k]);
    var acc' := acc + [Way.New(BlockId(b), ItemRefs(b.items[..k]))];
    TaggedSkipsItems(b.items[k + 1..], filters, [End("way")] + tail, acc');
    EndStep(tail, filters, [], acc');
  }

  /** A way element without a matching tag yields nothing. */
  lemma TaggedOfPlainBlock(b: WayBlock, filters: seq<string>, tail: seq<Event>, acc: seq<Way>)
    requires MatchIndex(b.items, filters) == |b.items|
    ensures TaggedWays(BlockEvents(b) + tail, filters, acc) == TaggedWays(tail, filters, acc)
  {
    BlockSplit(b, tail);
    TaggedBodyItems(b.items, filters, [], [End("way")] + tail);
    EndStep(tail, filters, [] + ItemRefs(b.items), acc);
  }

  /** `parse_ways_with_tags` reads one way element into at most one way and goes on after it. */
  lemma TaggedOfBlock(b: WayBlock, filters: seq<string>, tail: seq<Event>, acc: seq<Way>)
    ensures TaggedWays(BlockEvents(b) + tail, filters, acc) == TaggedWays(tail, filters, acc + KeptWay(b, filters))
  {
    if MatchIndex(b.items, filters) < |b.items| {
      TaggedOfMatchingBlock(b, filters, tail, acc);
    } else {
      TaggedOfPlainBlock(b, filters, tail, acc);
      assert acc + [] == acc;
    }
  }

  /** `parse_ways_with_tags` on a document of way elements keeps exactly the ways with a tag key
      in `filters`, in order, each with the refs of the children before its first such tag. */
  lemma {:induction false} TaggedOfDocument(bs: seq<WayBlock>, filters: seq<string>, rest: seq<Event>, acc: seq<Way>)
    ensures TaggedWays(Document(bs) + rest, filters, acc) == TaggedWays(rest, filters, acc + MatchingWays(bs, filters))
  {
    if bs == [] {
      assert Document(bs) + rest == rest;
      assert acc + MatchingWays(bs, filters) == acc;
    } else {
      var b := bs[0];
      var tail := Document(bs[1..]) + rest;
      assert Document(bs) + rest == BlockEvents(b) + tail;
      var own := KeptWay(b, filters);
      TaggedOfBlock(b, filters, tail, acc);
      TaggedOfDocument(bs[1..], filters, rest, acc + own);
      assert MatchingWays(bs, filters) == own + MatchingWays(bs[1..], filters);
      assert acc + own + MatchingWays(bs[1..], filters) == acc + (own + MatchingWays(bs[1..], filters));
    }
  }

  /** A way left open at the end of the input is emitted exactly when it has a matching tag. */
  lemma UnclosedTaggedWay(b: WayBlock, filters: seq<string>, acc: seq<Way>)
    ensures TaggedWays([Start("way", StartAttrs(b.id))] + ItemEvents(b.items), filters, acc) == acc + KeptWay(b, filters)
  {
    var k := MatchIndex(b.items, filters);
    var es := [Start("way", StartAttrs(b.id))] + ItemEvents(b.items);
    assert es[0] == Start("way", StartAttrs(b.id)) && es[1..] == ItemEvents(b.items) + [];
    TaggedBodyItems(b.items, filters, [], []);
    StartAttrsId(b.id);
    if k < |b.items| {
      assert [] + ItemRefs(b.items[..k]) == ItemRefs(b.items[..k]);
      TaggedSkipsItems(b.items[k + 1..], filters, [], acc + [Way.New(BlockId(b), ItemRefs(b.items[..k]))]);
    } else {
      assert acc + [] == acc;
    }
  }

  /** The children of a way element holding `nd` children for `rs`. */
  function Nds(rs: seq<u64>): (items: seq<Item>)
    ensures |items| == |rs| && forall i :: 0 <= i < |rs| ==> items[i] == NdItem(rs[i])
  {
    if rs == [] then [] else [NdItem(rs[0])] + Nds(rs[1..])
  }

  /** A way with only `nd` children carries all their refs. */
  lemma {:induction false} NdsRefs(rs: seq<u64>)
    ensures ItemRefs(Nds(rs)) == rs
  {
    if rs != [] {
      NdsRefs(rs[1..]);
      assert Nds(rs)[1..] == Nds(rs[1..]);
    }
  }

  /** `nd` children never stop the search for a matching tag. */
  lemma {:induction false} MatchIndexNds(rs: seq<u64>, tail: seq<Item>, filters: seq<string>)
    ensures MatchIndex(Nds(rs) + tail, filters) == |rs| + MatchIndex(tail, filters)
  {
    if rs == [] {
      assert Nds(rs) + tail == tail;
    } else {
      var items := Nds(rs) + tail;
      assert items[0] == NdItem(rs[0]);
      assert items[1..] == Nds(rs[1..]) + tail;
      MatchIndexNds(rs[1..], tail, filters);
    }
  }

  /** A way whose `nd` children come before one `tag` child: it matches at that tag exactly when
      the tag's key is a filter, and then carries every ref. */
  lemma NdsThenTag(rs: seq<u64>, key: string, filters: seq<string>)
    ensures var items := Nds(rs) + [TagItem(key)];
      MatchIndex(items, filters) == (if key in filters then |rs| else |rs| + 1)
      && ItemRefs(items[..|rs|]) == rs
  {
    var items := Nds(rs) + [TagItem(key)];
    MatchIndexNds(rs, [TagItem(key)], filters);
    assert [TagItem(key)][1..] == [];
    assert items[..|rs|] == Nds(rs);
    NdsRefs(rs);
  }

  /** Such a way without an `id` is kept, as way 0 with all its refs, exactly when its tag's key is
      a filter. */
  lemma NdsBlockKept(rs: seq<u64>, key: string, filters: seq<string>)
    ensures KeptWay(WayBlock(None, Nds(rs) + [TagItem(key)]), filters) == if key in filters then [Way.New(0, rs)] else []
  {
    NdsThenTag(rs, key, filters);
  }

  /** `parse_ways` on an `<osm>` file of way elements gives the ways it describes. */
  lemma WaysOfOsm(bs: seq<WayBlock>)
    ensures Ways(OsmDocument(bs), []) == BlockWays(bs)
  {
    var es := OsmDocument(bs);
    assert es[0] == Start("osm", []) && es[1..] == Document(bs) + [End("osm")];
    WaysOfDocument(bs, [End("osm")], []);
    assert Ways([End("osm")], [] + BlockWays(bs)) == BlockWays(bs);
  }

  /** `parse_ways_with_tags` on an `<osm>` file of way elements keeps the ways with a matching tag. */
  lemma TaggedOfOsm(bs: seq<WayBlock>, filters: seq<string>)
    ensures TaggedWays(OsmDocument(bs), filters, []) == MatchingWays(bs, filters)
  {
    var es := OsmDocument(bs);
    assert es[0] == Start("osm", []) && es[1..] == Document(bs) + [End("osm")];
    TaggedOfDocument(bs, filters, [End("osm")], []);
    assert TaggedWays([End("osm")], filters, [] + MatchingWays(bs, filters)) == MatchingWays(bs, filters);
  }

  /** `test_parse_ways`: two ways without ids, with refs `[1, 2]` and `[3]` (stated for any three
      refs). */
  lemma ParseWaysExample(x: u64, y: u64, z: u64)
    ensures Ways(OsmDocument([WayBlock(None, Nds([x, y])), WayBlock(None, Nds([z]))]), []) == [Way.New(0, [x, y]), Way.New(0, [z])]
  {
    var bs := [WayBlock(None, Nds([x, y])), WayBlock(None, Nds([z]))];
    WaysOfOsm(bs);
    assert bs[1..] == [WayBlock(None, Nds([z]))] && bs[1..][1..] == [];
    NdsRefs([x, y]);
    NdsRefs([z]);
    assert BlockWays(bs[1..]) == [Way.New(0, [z])];
  }

  /** `test_parse_ways_with_tags`: of four ways, each with `nd` children and then one `tag`, the
      three whose tag key is a filter are kept with all their refs; the one tagged with a key that
      is not a filter is dropped (stated for any refs, keys and filters of that shape). */
  lemma TaggedExample(x: u64, y: u64, z: u64, u: u64, v: u64, k1: string, k2: string, k3: string, k4: string,
                      filters: seq<string>)
    requires k1 in filters && k2 in filters && k3 !in filters && k4 in filters
    ensures TaggedWays(OsmDocument([WayBlock(None, Nds([x, y]) + [TagItem(k1)]), WayBlock(None, Nds([z]) + [TagItem(k2)]),
                                    WayBlock(None, Nds([u]) + [TagItem(k3)]), WayBlock(None, Nds([v]) + [TagItem(k4)])]),
                       filters, [])
         == [Way.New(0, [x, y]), Way.New(0, [z]), Way.New(0, [v])]
  {
    var b1, b2, b3, b4 := WayBlock(None, Nds([x, y]) + [TagItem(k1)]), WayBlock(None, Nds([z]) + [TagItem(k2)]),
                          WayBlock(None, Nds([u]) + [TagItem(k3)]), WayBlock(None, Nds([v]) + [TagItem(k4)]);
    var bs := [b1, b2, b3, b4];
    TaggedOfOsm(bs, filters);
    NdsBlockKept([x, y], k1, filters);
    NdsBlockKept([z], k2, filters);
    NdsBlockKept([u], k3, filters);
    NdsBlockKept([v], k4, filters);
    MatchingFour(b1, b2, b3, b4, filters);
    assert [Way.New(0, [x, y])] + ([Way.New(0, [z])] + ([] + [Way.New(0, [v])])) == [Way.New(0, [x, y]), Way.New(0, [z]), Way.New(0, [v])];
  }

  /** What four way elements contribute, one after the other. */
  lemma MatchingFour(b1: WayBlock, b2: WayBlock, b3: WayBlock, b4: WayBlock, filters: seq<string>)
    ensures MatchingWays([b1, b2, b3, b4], filters)
         == KeptWay(b1, filters) + (KeptWay(b2, filters) + (KeptWay(b3, filters) + KeptWay(b4, filters)))
  {
    assert [b4][1..] == [];
    assert MatchingWays([b4], filters) == KeptWay(b4, filters) + [];
    assert KeptWay(b4, filters) + [] == KeptWay(b4, filters);
    assert [b3, b4][1..] == [b4];
    assert MatchingWays([b3, b4], filters) == KeptWay(b3, filters) + MatchingWays([b4], filters);
    assert [b2, b3, b4][1..] == [b3, b4];
    assert MatchingWays([b2, b3, b4], filters) == KeptWay(b2, filters) + MatchingWays([b3, b4], filters);
    assert [b1, b2, b3, b4][1..] == [b2, b3, b4];
  }

  // ---------------------------------------------------------------------------------------------
  // Counting and order.

  /** The number of way start tags among `es`. */
  function WayStarts(es: seq<Event>): nat {
    if es == [] then 0 else (if IsWayStart(es[0]) then 1 else 0) + WayStarts(es[1..])
  }

  lemma {:induction false} WayBodyStarts(es: seq<Event>, refs: seq<u64>)
    ensures WayStarts(WayBody(es, refs).1) <= WayStarts(es)
    decreases |es|
  {
    if es != [] && !IsWayEnd(es[0]) {
      WayBodyStarts(es[1..], if IsNd(es[0]) then refs + NdRefs(es[0].attrs) else refs);
    }
  }

  lemma {:induction false} TaggedBodyStarts(es: seq<Event>, filters: seq<string>, refs: seq<u64>)
    ensures WayStarts(TaggedBody(es, filters, refs).1) <= WayStarts(es)
    decreases |es|
  {
    if es != [] {
      if IsNd(es[0]) {
        TaggedBodyStarts(es[1..], filters, refs + NdRefs(es[0].attrs));
      } else if !Matches(es[0], filters) && !IsWayEnd(es[0]) {
        TaggedBodyStarts(es[1..], filters, refs);
      }
    }
  }

  /** `parse_ways` emits at most one way per way start tag. */
  lemma {:induction false} WaysAtMostStarts(es: seq<Event>, acc: seq<Way>)
    ensures |Ways(es, acc)| <= |acc| + WayStarts(es)
    decreases |es|
  {
    if es != [] {
      if IsWayStart(es[0]) {
        var body := WayBody(es[1..], []);
        WayBodyStarts(es[1..], []);
        WaysAtMostStarts(body.1, acc + [Way.New(WayId(es[0].attrs), body.0)]);
      } else {
        WaysAtMostStarts(es[1..], acc);
      }
    }
  }

  /** `parse_ways_with_tags` emits at most one way per way start tag. */
  lemma {:induction false} TaggedAtMostStarts(es: seq<Event>, filters: seq<string>, acc: seq<Way>)
    ensures |TaggedWays(es, filters, acc)| <= |acc| + WayStarts(es)
    decreases |es|
  {
    if es != [] {
      if IsWayStart(es[0]) {
        var body := TaggedBody(es[1..], filters, []);
        TaggedBodyStarts(es[1..], filters, []);
        TaggedAtMostStarts(body.1, filters, if body.0.Some? then acc + [Way.New(WayId(es[0].attrs), body.0.value)] else acc);
      } else {
        TaggedAtMostStarts(es[1..], filters, acc);
      }
    }
  }

  /** On a document of way elements, `parse_ways` emits exactly one way per element, the i-th
      carrying the i-th element's id (0 without one) and all its refs. */
  lemma {:induction false} BlockWaysExact(bs: seq<WayBlock>)
    ensures |BlockWays(bs)| == |bs|
    ensures forall i :: 0 <= i < |bs| ==> BlockWays(bs)[i] == Way.New(BlockId(bs[i]), ItemRefs(bs[i].items))
  {
    if bs != [] {
      BlockWaysExact(bs[1..]);
      assert forall i :: 1 <= i < |bs| ==> BlockWays(bs)[i] == BlockWays(bs[1..])[i - 1];
    }
  }

  /** `parse_ways_with_tags` keeps no more ways than the document has. */
  lemma {:induction false} MatchingWaysFewer(bs: seq<WayBlock>, filters: seq<string>)
    ensures |MatchingWays(bs, filters)| <= |bs|
  {
    if bs != [] {
      MatchingWaysFewer(bs[1..], filters);
    }
  }

  /** Ways are pushed in document order after those already collected. */
  lemma {:induction false} WaysAppend(es: seq<Event>, acc: seq<Way>, more: seq<Way>)
    ensures Ways(es, acc + more) == acc + Ways(es, more)
    decreases |es|
  {
    if es != [] {
      if IsWayStart(es[0]) {
        var body := WayBody(es[1..], []);
        var w := Way.New(WayId(es[0].attrs), body.0);
        assert acc + more + [w] == acc + (more + [w]);
        WaysAppend(body.1, acc, more + [w]);
      } else {
        WaysAppend(es[1..], acc, more);
      }
    }
  }

  /** Kept ways are pushed in document order after those already collected. */
  lemma {:induction false} TaggedAppend(es: seq<Event>, filters: seq<string>, acc: seq<Way>, more: seq<Way>)
    ensures TaggedWays(es, filters, acc + more) == acc + TaggedWays(es, filters, more)
    decreases |es|
  {
    if es != [] {
      if IsWayStart(es[0]) {
        var body := TaggedBody(es[1..], filters, []);
        if body.0.Some? {
          var w := Way.New(WayId(es[0].attrs), body.0.value);
          assert acc + more + [w] == acc + (more + [w]);
          TaggedAppend(body.1, filters, acc, more + [w]);
        } else {
          TaggedAppend(body.1, filters, acc, more);
        }
      } else {
        TaggedAppend(es[1..], filters, acc, more);
      }
    }
  }
}
