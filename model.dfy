/** Value types shared by the graph, the builder and the parser (core/src/model.rs). */
module Model {

  /** Rust's `u64`: OSM node and way identifiers. */
  newtype u64 = x: int | 0 <= x < 0x1_0000_0000_0000_0000

  /** Rust's `Option`. */
  datatype Option<T> = None | Some(value: T)

  /** An OSM node. The source keeps the fields private and exposes them through getters;
      latitude and longitude are `f64` degrees, which the model only ever copies. */
  datatype Node = Node(nodeId: u64, latitude: real, longitude: real) {

    /** `Node::new`: the getters give back exactly what was passed in. */
    static function New(id: u64, lat: real, lon: real): (n: Node)
      ensures n.Id() == id && n.Lat() == lat && n.Lon() == lon
    {
      Node(id, lat, lon)
    }

    function Id(): u64 { nodeId }

    function Lat(): real { latitude }

    function Lon(): real { longitude }
  }

  /** A node is determined by its three getters. */
  lemma NodeFromGetters(n: Node)
    ensures Node.New(n.Id(), n.Lat(), n.Lon()) == n
  {
  }

  /** An OSM way as the parser produces it: its identifier and the ordered references to its nodes. */
  datatype Way = Way(wayId: u64, refs: seq<u64>) {

    /** `Way::new`: the getters give back exactly what was passed in. */
    static function New(id: u64, nodeRefs: seq<u64>): (w: Way)
      ensures w.Id() == id && w.NodeRefs() == nodeRefs
    {
      Way(id, nodeRefs)
    }

    /** The source returns a clone: an equal sequence, the way itself untouched. */
    function NodeRefs(): seq<u64> { refs }

    function Id(): u64 { wayId }
  }

  /** A way is determined by its two getters. */
  lemma WayFromGetters(w: Way)
    ensures Way.New(w.Id(), w.NodeRefs()) == w
  {
  }

  /** What every directed adjacency entry carries: the way it came from and its length in metres. */
  datatype EdgeData = EdgeData(wayId: u64, lengthM: real)

  /** An adjacency entry: the neighbour's OSM id, its dense index and the edge's data. */
  datatype Neighbor = Neighbor(osmId: u64, nodeIndex: nat, edgeData: EdgeData)
}
