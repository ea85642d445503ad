/** The synthetic N×N grid of core/src/benchmarking.rs, laid out row-major (cell `(row, col)` has
    node index `row * n + col`), every edge of unit length. */
module Benchmarking {
  import opened Model
  import opened RouteGraph

  /** One more than the largest `usize`: `n * n` must not overflow. */
  const USIZE_LIMIT: int := 0x1_0000_0000_0000_0000

  /** The entry that `link` pushes for a neighbour: OSM id 0, way 0, length 1. */
  function Unit(idx: nat): Neighbor {
    Neighbor(0, idx, EdgeData(0, 1.0))
  }

  /** The row-major index of cell `(r, c)`, `r * n + c`, written as `r` whole rows of `n` cells
      followed by `c` cells so that the proofs stay linear (see `IdxIsProduct`). */
  function Idx(n: nat, r: nat, c: nat): nat {
    if r == 0 then c else Idx(n, r - 1, c) + n
  }

  /** Cell `(r, c)` comes before the cell `(pr, pc)` in the row-major order of the loops. */
  predicate Before(r: nat, c: nat, pr: nat, pc: nat) {
    r < pr || (r == pr && c < pc)
  }

  /** The list of cell `(r, c)` holding the entry to the cell above when `up`, to the left cell
      when `left`, and those to the right and below (where they exist) when `own`, in that order. */
  function Listed(n: nat, r: nat, c: nat, up: bool, left: bool, own: bool): seq<Neighbor>
    requires up ==> r > 0
    requires left ==> c > 0
  {
    (if up then [Unit(Idx(n, r - 1, c))] else [])
    + (if left then [Unit(Idx(n, r, c - 1))] else [])
    + (if own && c + 1 < n then [Unit(Idx(n, r, c + 1))] else [])
    + (if own && r + 1 < n then [Unit(Idx(n, r + 1, c))] else [])
  }

  /** The entries of cell `(r, c)` once every cell before `(pr, pc)` has been processed. The
      link to the cell above is made while processing that cell, the link to the left cell
      while processing it, and the links to the right and below while processing `(r, c)`
      itself, in that order. */
  function GridPartial(n: nat, r: nat, c: nat, pr: nat, pc: nat): seq<Neighbor> {
    Listed(n, r, c, r > 0 && Before(r - 1, c, pr, pc), c > 0 && Before(r, c - 1, pr, pc), Before(r, c, pr, pc))
  }

  /** The complete neighbour list of cell `(r, c)`: up, left, right, down, as far as they exist. */
  function GridAdj(n: nat, r: nat, c: nat): seq<Neighbor> {
    Listed(n, r, c, r > 0, c > 0, true)
  }

  /** Two cells are neighbours in the grid: Manhattan distance one. */
  predicate GridAdjacent(r: nat, c: nat, r': nat, c': nat) {
    || (r == r' && (c == c' + 1 || c' == c + 1))
    || (c == c' && (r == r' + 1 || r' == r + 1))
  }

  /** `link(u, v)` on plain lists. */
  function LinkSeq(a: seq<seq<Neighbor>>, u: nat, v: nat): (r: seq<seq<Neighbor>>)
    requires u < |a| && v < |a|
    ensures |r| == |a|
  {
    a[u := a[u] + [Unit(v)]][v := a[v] + [Unit(u)]]
  }

  // ---------------------------------------------------------------------------------------------
  // Arithmetic on row-major indices.

  /** `Idx` is the source's `row * n + col`. */
  lemma {:induction false} IdxIsProduct(n: nat, r: nat, c: nat)
    ensures Idx(n, r, c) == r * n + c
  {
    if r > 0 {
      IdxIsProduct(n, r - 1, c);
      assert (r - 1) * n + n == r * n;
    }
  }

  /** An index below `n * n` lies in one of the `n` rows. */
  lemma DivBelow(v: nat, n: nat)
    requires v < n * n
    ensures n > 0 && v / n < n
  {
    var q := v / n;
    assert q * n <= v;
    assert (q - n) * n == q * n - n * n < 0;
  }

  /** The number of cells, `n * n`. */
  lemma GridSize(n: nat)
    ensures Idx(n, n, 0) == n * n
  {
    IdxIsProduct(n, n, 0);
  }

  /** The right neighbour has the next index. */
  lemma {:induction false} IdxRight(n: nat, r: nat, c: nat)
    ensures Idx(n, r, c + 1) == Idx(n, r, c) + 1
  {
    if r > 0 {
      IdxRight(n, r - 1, c);
    }
  }

  /** One past the last cell of a row is the first cell of the next row. */
  lemma {:induction false} IdxWrap(n: nat, r: nat)
    ensures Idx(n, r, n) == Idx(n, r + 1, 0)
  {
    if r > 0 {
      IdxWrap(n, r - 1);
    }
  }

  /** A cell of row `r` comes before the first cell of every later row. */
  lemma {:induction false} IdxBelowRow(n: nat, r: nat, c: nat, r': nat)
    requires c < n && r < r'
    ensures Idx(n, r, c) < Idx(n, r', 0)
    decreases r'
  {
    if r' > r + 1 {
      IdxBelowRow(n, r, c, r' - 1);
    } else if r > 0 {
      IdxBelowRow(n, r - 1, c, r);
    }
  }

  /** A cell in the grid has an index below `n * n`. */
  lemma IdxBound(n: nat, r: nat, c: nat)
    requires r < n && c < n
    ensures Idx(n, r, c) < n * n
  {
    IdxBelowRow(n, r, c, n);
    GridSize(n);
  }

  /** The first cell of a row is at or after every cell of the earlier rows. */
  lemma {:induction false} IdxRowStart(n: nat, r: nat, c: nat)
    ensures Idx(n, r, 0) <= Idx(n, r, c)
  {
    if r > 0 {
      IdxRowStart(n, r - 1, c);
    }
  }

  /** Distinct cells of the grid have distinct indices. */
  lemma {:induction false} IdxInjective(n: nat, r: nat, c: nat, r': nat, c': nat)
    requires c < n && c' < n && Idx(n, r, c) == Idx(n, r', c')
    ensures r == r' && c == c'
  {
    if r < r' {
      IdxBelowRow(n, r, c, r');
      IdxRowStart(n, r', c');
    } else if r' < r {
      IdxBelowRow(n, r', c', r);
      IdxRowStart(n, r, c);
    } else if r > 0 {
      IdxInjective(n, r - 1, c, r - 1, c');
    }
  }

  /** Every index below `n * n` is the index of a cell. */
  lemma IdxCovers(n: nat, v: nat)
    requires v < n * n
    ensures n > 0 && v / n < n && v % n < n && v == Idx(n, v / n, v % n)
  {
    IdxIsProduct(n, v / n, v % n);
    DivBelow(v, n);
  }

  /** The cells a step links lie in the grid. */
  lemma StepBounds(n: nat, row: nat, col: nat)
    requires row < n && col < n
    ensures Idx(n, row, col) < n * n
    ensures col + 1 < n ==> Idx(n, row, col) + 1 < n * n
    ensures row + 1 < n ==> Idx(n, row, col) + n < n * n
  {
    IdxRight(n, row, col);
    IdxBound(n, row, col);
    if col + 1 < n {
      IdxBound(n, row, col + 1);
    }
    if row + 1 < n {
      IdxBound(n, row + 1, col);
    }
  }

  // ---------------------------------------------------------------------------------------------
  // The loop step.

  /** The lists of all cells, as the loop invariant states them. */
  ghost predicate AllPartial(n: nat, a: seq<seq<Neighbor>>, pr: nat, pc: nat) {
    forall r, c {:trigger GridPartial(n, r, c, pr, pc)} ::
      0 <= r < n && 0 <= c < n ==> Idx(n, r, c) < |a| && a[Idx(n, r, c)] == GridPartial(n, r, c, pr, pc)
  }

  /** What processing cell `(row, col)` appends to the list of cell `v`: the cell itself gains
      its right neighbour and then the one below, where they exist; each of those gains the
      cell; every other list is left alone. */
  function Gain(n: nat, row: nat, col: nat, v: nat): seq<Neighbor> {
    var idx := Idx(n, row, col);
    if v == idx then
      (if col + 1 < n then [Unit(idx + 1)] else []) + (if row + 1 < n then [Unit(idx + n)] else [])
    else if col + 1 < n && v == idx + 1 then [Unit(idx)]
    else if row + 1 < n && v == idx + n then [Unit(idx)]
    else []
  }

  /** `t` is `a` after processing cell `(row, col)`. */
  ghost predicate Stepped(n: nat, a: seq<seq<Neighbor>>, t: seq<seq<Neighbor>>, row: nat, col: nat) {
    |t| == |a| && forall v :: 0 <= v < |a| ==> t[v] == a[v] + Gain(n, row, col, v)
  }

  /** What `link(u, v)` does to the list of cell `w`. */
  lemma LinkAt(a: seq<seq<Neighbor>>, u: nat, v: nat, w: nat)
    requires u < |a| && v < |a| && w < |a| && u != v
    ensures w == u ==> LinkSeq(a, u, v)[w] == a[w] + [Unit(v)]
    ensures w == v ==> LinkSeq(a, u, v)[w] == a[w] + [Unit(u)]
    ensures w != u && w != v ==> LinkSeq(a, u, v)[w] == a[w]
  {
  }

  /** The two `link` calls of one step append `Gain` to the list of cell `v`. */
  lemma StepLinksAt(n: nat, a: seq<seq<Neighbor>>, mid: seq<seq<Neighbor>>, t: seq<seq<Neighbor>>, row: nat, col: nat, v: nat)
    requires row < n && col < n && |a| == |mid| == |t| && v < |a|
    requires Idx(n, row, col) + 1 < |a| || col + 1 == n
    requires Idx(n, row, col) + n < |a| || row + 1 == n
    requires mid == if col + 1 < n then LinkSeq(a, Idx(n, row, col), Idx(n, row, col) + 1) else a
    requires t == if row + 1 < n then LinkSeq(mid, Idx(n, row, col), Idx(n, row, col) + n) else mid
    ensures t[v] == a[v] + Gain(n, row, col, v)
  {
    var idx := Idx(n, row, col);
    if col + 1 < n {
      LinkAt(a, idx, idx + 1, v);
    }
    if row + 1 < n {
      LinkAt(mid, idx, idx + n, v);
    }
    var right := if col + 1 < n then [Unit(idx + 1)] else [];
    var down := if row + 1 < n then [Unit(idx + n)] else [];
    if v == idx {
      assert t[v] == a[v] + right + down;
      assert a[v] + right + down == a[v] + (right + down);
    }
  }

  /** The two `link` calls of one step, on plain lists, append exactly `Gain`. */
  lemma StepLinks(n: nat, a: seq<seq<Neighbor>>, mid: seq<seq<Neighbor>>, t: seq<seq<Neighbor>>, row: nat, col: nat)
    requires row < n && col < n && |a| == |mid| == |t|
    requires Idx(n, row, col) + 1 < |a| || col + 1 == n
    requires Idx(n, row, col) + n < |a| || row + 1 == n
    requires mid == if col + 1 < n then LinkSeq(a, Idx(n, row, col), Idx(n, row, col) + 1) else a
    requires t == if row + 1 < n then LinkSeq(mid, Idx(n, row, col), Idx(n, row, col) + n) else mid
    ensures Stepped(n, a, t, row, col)
  {
    forall v | 0 <= v < |a| ensures t[v] == a[v] + Gain(n, row, col, v) {
      StepLinksAt(n, a, mid, t, row, col, v);
    }
  }

  /** Processing a cell appends its right and down neighbours to its list. */
  lemma {:induction false} ListedOwn(n: nat, r: nat, c: nat, up: bool, left: bool)
    requires up ==> r > 0
    requires left ==> c > 0
    ensures Listed(n, r, c, up, left, true)
         == Listed(n, r, c, up, left, false) + ((if c + 1 < n then [Unit(Idx(n, r, c) + 1)] else [])
                                              + (if r + 1 < n then [Unit(Idx(n, r, c) + n)] else []))
  {
    IdxRight(n, r, c);
    var early := (if up then [Unit(Idx(n, r - 1, c))] else []) + (if left then [Unit(Idx(n, r, c - 1))] else []);
    assert Listed(n, r, c, up, left, false) == early;
  }

  /** No other cell has the index of a cell that a step links. */
  lemma OtherIndex(n: nat, row: nat, col: nat, r: nat, c: nat)
    requires row < n && col < n && r < n && c < n
    requires !(r == row && c == col) && !(r == row && c == col + 1) && !(r == row + 1 && c == col)
    ensures Idx(n, r, c) != Idx(n, row, col)
    ensures col + 1 < n ==> Idx(n, r, c) != Idx(n, row, col) + 1
    ensures row + 1 < n ==> Idx(n, r, c) != Idx(n, row, col) + n
  {
    IdxRight(n, row, col);
    IdxDistinct(n, r, c, row, col);
    IdxDistinct(n, r, c, row, col + 1);
    IdxDistinct(n, r, c, row + 1, col);
  }

  /** `IdxInjective` as an implication, for callers that have not yet split cases. */
  lemma IdxDistinct(n: nat, r: nat, c: nat, r': nat, c': nat)
    requires c < n
    ensures c' < n && Idx(n, r, c) == Idx(n, r', c') ==> r == r' && c == c'
  {
    if c' < n && Idx(n, r, c) == Idx(n, r', c') {
      IdxInjective(n, r, c, r', c');
    }
  }

  /** Whether cell `(r, c)` lies before the processed cell does not change across it, unless it
      is the processed cell. */
  lemma BeforeStep(r: nat, c: nat, row: nat, col: nat)
    requires !(r == row && c == col)
    ensures Before(r, c, row, col) == Before(r, c, row, col + 1)
  {
  }

  /** `GridPartial` in terms of which of the three kinds of links cell `(r, c)` has seen. */
  lemma PartialIs(n: nat, r: nat, c: nat, pr: nat, pc: nat, up: bool, left: bool, own: bool)
    requires up == (r > 0 && Before(r - 1, c, pr, pc))
    requires left == (c > 0 && Before(r, c - 1, pr, pc))
    requires own == Before(r, c, pr, pc)
    ensures GridPartial(n, r, c, pr, pc) == Listed(n, r, c, up, left, own)
  {
  }

  /** The processed cell gains its right and down neighbours. */
  lemma GainSelf(n: nat, row: nat, col: nat)
    requires row < n && col < n
    ensures GridPartial(n, row, col, row, col) + Gain(n, row, col, Idx(n, row, col)) == GridPartial(n, row, col, row, col + 1)
  {
    PartialIs(n, row, col, row, col, row > 0, col > 0, false);
    PartialIs(n, row, col, row, col + 1, row > 0, col > 0, true);
    ListedOwn(n, row, col, row > 0, col > 0);
    GainAtSelf(n, row, col);
  }

  /** What the processed cell gains. */
  lemma GainAtSelf(n: nat, row: nat, col: nat)
    ensures Gain(n, row, col, Idx(n, row, col))
         == (if col + 1 < n then [Unit(Idx(n, row, col) + 1)] else []) + (if row + 1 < n then [Unit(Idx(n, row, col) + n)] else [])
  {
  }

  /** The cell to the right of the processed one gains it as its left neighbour. */
  lemma GainRight(n: nat, row: nat, col: nat)
    requires row < n && col + 1 < n
    ensures GridPartial(n, row, col + 1, row, col) + Gain(n, row, col, Idx(n, row, col + 1)) == GridPartial(n, row, col + 1, row, col + 1)
  {
    IdxRight(n, row, col);
    PartialIs(n, row, col + 1, row, col, row > 0, false, false);
    PartialIs(n, row, col + 1, row, col + 1, row > 0, true, false);
  }

  /** The cell below the processed one gains it as its upper neighbour. */
  lemma GainDown(n: nat, row: nat, col: nat)
    requires row + 1 < n && col < n
    ensures GridPartial(n, row + 1, col, row, col) + Gain(n, row, col, Idx(n, row + 1, col)) == GridPartial(n, row + 1, col, row, col + 1)
  {
    PartialIs(n, row + 1, col, row, col, false, false, false);
    PartialIs(n, row + 1, col, row, col + 1, true, false, false);
    IdxRight(n, row, col);
  }

  /** Every other cell gains nothing. */
  lemma GainOther(n: nat, row: nat, col: nat, r: nat, c: nat)
    requires row < n && col < n && r < n && c < n
    requires !(r == row && c == col) && !(r == row && c == col + 1) && !(r == row + 1 && c == col)
    ensures GridPartial(n, r, c, row, col) + Gain(n, row, col, Idx(n, r, c)) == GridPartial(n, r, c, row, col + 1)
  {
    OtherIndex(n, row, col, r, c);
    BeforeStep(r, c, row, col);
    if r > 0 {
      BeforeStep(r - 1, c, row, col);
    }
    if c > 0 {
      BeforeStep(r, c - 1, row, col);
    }
  }

  /** Processing cell `(row, col)` takes the list of cell `(r, c)` from its state before that
      cell to its state after it. */
  lemma GainCell(n: nat, row: nat, col: nat, r: nat, c: nat)
    requires row < n && col < n && r < n && c < n
    ensures GridPartial(n, r, c, row, col) + Gain(n, row, col, Idx(n, r, c)) == GridPartial(n, r, c, row, col + 1)
  {
    if r == row && c == col {
      GainSelf(n, row, col);
    } else if r == row && c == col + 1 {
      GainRight(n, row, col);
    } else if r == row + 1 && c == col {
      GainDown(n, row, col);
    } else {
      GainOther(n, row, col, r, c);
    }
  }

  /** Processing cell `(row, col)` advances the invariant by one cell. */
  lemma StepAdvances(n: nat, a: seq<seq<Neighbor>>, t: seq<seq<Neighbor>>, row: nat, col: nat)
    requires row < n && col < n
    requires AllPartial(n, a, row, col) && Stepped(n, a, t, row, col)
    ensures AllPartial(n, t, row, col + 1)
  {
    forall r, c | 0 <= r < n && 0 <= c < n
      ensures Idx(n, r, c) < |t| && t[Idx(n, r, c)] == GridPartial(n, r, c, row, col + 1)
    {
      GainCell(n, row, col, r, c);
    }
  }

  /** At the end of a row, every cell has seen the same links as at the start of the next. */
  lemma RowEndCell(n: nat, r: nat, c: nat, row: nat)
    requires c < n
    ensures GridPartial(n, r, c, row, n) == GridPartial(n, r, c, row + 1, 0)
  {
    assert (r > 0 && Before(r - 1, c, row, n)) == (r > 0 && Before(r - 1, c, row + 1, 0));
    assert (c > 0 && Before(r, c - 1, row, n)) == (c > 0 && Before(r, c - 1, row + 1, 0));
    assert Before(r, c, row, n) == Before(r, c, row + 1, 0);
  }

  /** The end of a row is the start of the next. */
  lemma RowEnd(n: nat, a: seq<seq<Neighbor>>, row: nat)
    requires AllPartial(n, a, row, n)
    ensures AllPartial(n, a, row + 1, 0)
  {
    forall r, c | 0 <= r < n && 0 <= c < n
      ensures Idx(n, r, c) < |a| && a[Idx(n, r, c)] == GridPartial(n, r, c, row + 1, 0)
    {
      RowEndCell(n, r, c, row);
    }
  }

  /** Before the first cell, every list is empty. */
  lemma FirstCell(n: nat, a: seq<seq<Neighbor>>)
    requires |a| == n * n && forall v :: 0 <= v < |a| ==> a[v] == []
    ensures AllPartial(n, a, 0, 0)
  {
    forall r, c | 0 <= r < n && 0 <= c < n ensures Idx(n, r, c) < |a| && a[Idx(n, r, c)] == GridPartial(n, r, c, 0, 0) {
      IdxBound(n, r, c);
    }
  }

  /** After the last row, every list is complete. */
  lemma LastRow(n: nat, a: seq<seq<Neighbor>>)
    requires AllPartial(n, a, n, 0)
    ensures forall r, c {:trigger GridAdj(n, r, c)} :: 0 <= r < n && 0 <= c < n ==> Idx(n, r, c) < |a| && a[Idx(n, r, c)] == GridAdj(n, r, c)
  {
    forall r, c | 0 <= r < n && 0 <= c < n ensures Idx(n, r, c) < |a| && a[Idx(n, r, c)] == GridAdj(n, r, c) {
      assert GridPartial(n, r, c, n, 0) == GridAdj(n, r, c);
    }
  }

  /** `link(u, v)` as the closure in the source does it, on the array of lists. */
  method Link(adj: array<seq<Neighbor>>, u: nat, v: nat)
    requires u < adj.Length && v < adj.Length && u != v
    modifies adj
    ensures adj[..] == LinkSeq(old(adj[..]), u, v)
  {
    adj[u] := adj[u] + [Unit(v)];
    adj[v] := adj[v] + [Unit(u)];
  }

  /** The body of the inner loop of `make_grid_graph`: link cell `(row, col)` to its right
      neighbour, then to the one below, where those exist. */
  method LinkCell(adj: array<seq<Neighbor>>, n: nat, row: nat, col: nat)
    requires row < n && col < n && adj.Length == n * n
    modifies adj
    ensures Stepped(n, old(adj[..]), adj[..], row, col)
  {
    var idx := row * n + col;
    IdxIsProduct(n, row, col);
    StepBounds(n, row, col);
    ghost var before := adj[..];
    if col + 1 < n {
      Link(adj, idx, idx + 1);
    }
    ghost var mid := adj[..];
    if row + 1 < n {
      Link(adj, idx, idx + n);
    }
    StepLinks(n, before, mid, adj[..], row, col);
  }

  /** Step 1 of `make_grid_graph`: node `i` has id `i` and dummy coordinates (0, 0). */
  method GridNodes(n: nat) returns (nodes: seq<Node>)
    requires n * n < USIZE_LIMIT
    ensures |nodes| == n * n
    ensures forall i :: 0 <= i < n * n ==> nodes[i] == Node.New(i as u64, 0.0, 0.0)
  {
    nodes := [];
    var i := 0;
    while i < n * n
      invariant 0 <= i <= n * n && |nodes| == i
      invariant forall k :: 0 <= k < i ==> nodes[k] == Node.New(k as u64, 0.0, 0.0)
    {
      nodes := nodes + [Node.New(i as u64, 0.0, 0.0)];
      i := i + 1;
    }
  }

  /** Steps 2 to 4 of `make_grid_graph`: the list of every cell is `GridAdj`. */
  method GridLinks(n: nat) returns (adj: array<seq<Neighbor>>)
    ensures fresh(adj) && adj.Length == n * n
    ensures forall r, c {:trigger GridAdj(n, r, c)} :: 0 <= r < n && 0 <= c < n ==> Idx(n, r, c) < adj.Length && adj[Idx(n, r, c)] == GridAdj(n, r, c)
  {
    adj := new seq<Neighbor>[n * n](_ => []);
    FirstCell(n, adj[..]);
    var row := 0;
    while row < n
      invariant 0 <= row <= n && adj.Length == n * n
      invariant AllPartial(n, adj[..], row, 0)
    {
      var col := 0;
      while col < n
        invariant 0 <= col <= n
        invariant AllPartial(n, adj[..], row, col)
      {
        ghost var before := adj[..];
        LinkCell(adj, n, row, col);
        StepAdvances(n, before, adj[..], row, col);
        col := col + 1;
      }
      RowEnd(n, adj[..], row);
      row := row + 1;
    }
    LastRow(n, adj[..]);
    forall r, c | 0 <= r < n && 0 <= c < n ensures Idx(n, r, c) < adj.Length && adj[Idx(n, r, c)] == GridAdj(n, r, c) {
      IdxBound(n, r, c);
      assert adj[..][Idx(n, r, c)] == GridAdj(n, r, c);
    }
  }

  /** `make_grid_graph`: `n * n` nodes whose ids are their indices, at (0, 0), and the list of
      every cell is `GridAdj`, its up, left, right and down neighbours in that order; the lists
      hold `4 * n * (n - 1)` entries in all. */
  method MakeGridGraph(n: nat) returns (g: Graph)
    requires n * n < USIZE_LIMIT
    ensures |g.Nodes()| == n * n && |g.Adj()| == n * n
    ensures forall i :: 0 <= i < n * n ==> g.Nodes()[i] == Node.New(i as u64, 0.0, 0.0)
    ensures forall r, c {:trigger GridAdj(n, r, c)} :: 0 <= r < n && 0 <= c < n ==> Idx(n, r, c) < |g.Adj()| && g.Adj()[Idx(n, r, c)] == GridAdj(n, r, c)
    ensures g.WellFormed()
    ensures EntryCount(g.Adj()) == 4 * n * (n - 1)
  {
    var nodes := GridNodes(n);
    var adj := GridLinks(n);
    g := Graph.New(nodes, adj[..]);
    forall r, c | 0 <= r < n && 0 <= c < n ensures Idx(n, r, c) < |g.Adj()| && g.Adj()[Idx(n, r, c)] == GridAdj(n, r, c) {
      assert adj[Idx(n, r, c)] == GridAdj(n, r, c);
    }
    GridGraph(n, g);
    GridTotal(n, g.Adj());
  }

  // ---------------------------------------------------------------------------------------------
  // What the grid is.

  /** The neighbour indices `make_grid_graph` gives cell `(r, c)`. */
  predicate IsGridNeighbor(n: nat, r: nat, c: nat, v: nat) {
    || (r > 0 && v == Idx(n, r - 1, c))
    || (c > 0 && v == Idx(n, r, c - 1))
    || (c + 1 < n && v == Idx(n, r, c + 1))
    || (r + 1 < n && v == Idx(n, r + 1, c))
  }

  /** Every entry of the grid is a unit entry to a neighbouring cell. */
  lemma GridEntries(n: nat, r: nat, c: nat, k: nat)
    requires k < |GridAdj(n, r, c)|
    ensures GridAdj(n, r, c)[k] == Unit(GridAdj(n, r, c)[k].nodeIndex)
    ensures IsGridNeighbor(n, r, c, GridAdj(n, r, c)[k].nodeIndex)
  {
    var s := GridAdj(n, r, c);
    assert s[k] in s;
  }

  /** An entry points at `v` exactly when `v` is one of the four neighbouring cells. */
  lemma GridMember(n: nat, r: nat, c: nat, v: nat)
    ensures (exists k :: 0 <= k < |GridAdj(n, r, c)| && GridAdj(n, r, c)[k].nodeIndex == v) <==> IsGridNeighbor(n, r, c, v)
  {
    var s := GridAdj(n, r, c);
    if IsGridNeighbor(n, r, c, v) {
      assert Unit(v) in s;
    }
    forall k | 0 <= k < |s| && s[k].nodeIndex == v ensures IsGridNeighbor(n, r, c, v) {
      GridEntries(n, r, c, k);
    }
  }

  /** Every entry of the grid points inside the grid, with OSM id 0, way 0 and length 1; the
      source does not record the neighbour's id, which is its index. */
  lemma GridEntryFields(n: nat, r: nat, c: nat, k: nat)
    requires r < n && c < n && k < |GridAdj(n, r, c)|
    ensures GridAdj(n, r, c)[k].nodeIndex < n * n
    ensures GridAdj(n, r, c)[k].osmId == 0 && GridAdj(n, r, c)[k].edgeData == EdgeData(0, 1.0)
  {
    GridEntries(n, r, c, k);
    if r > 0 {
      IdxBound(n, r - 1, c);
    }
    if c > 0 {
      IdxBound(n, r, c - 1);
    }
    if c + 1 < n {
      IdxBound(n, r, c + 1);
    }
    if r + 1 < n {
      IdxBound(n, r + 1, c);
    }
  }

  /** A cell has at most four neighbours, and at least two once the grid is 2×2 or larger. */
  lemma GridDegree(n: nat, r: nat, c: nat)
    requires r < n && c < n
    ensures |GridAdj(n, r, c)| <= 4
    ensures n >= 2 ==> |GridAdj(n, r, c)| >= 2
  {
  }

  /** Cell `(r', c')` is listed among the neighbours of `(r, c)` exactly when the two cells are
      adjacent in the grid. */
  lemma GridEdgeIff(n: nat, r: nat, c: nat, r': nat, c': nat)
    requires r < n && c < n && r' < n && c' < n
    ensures (exists k :: 0 <= k < |GridAdj(n, r, c)| && GridAdj(n, r, c)[k].nodeIndex == Idx(n, r', c'))
        <==> GridAdjacent(r, c, r', c')
  {
    var v := Idx(n, r', c');
    GridMember(n, r, c, v);
    if r > 0 && v == Idx(n, r - 1, c) {
      IdxInjective(n, r', c', r - 1, c);
    }
    if c > 0 && v == Idx(n, r, c - 1) {
      IdxInjective(n, r', c', r, c - 1);
    }
    if c + 1 < n && v == Idx(n, r, c + 1) {
      IdxInjective(n, r', c', r, c + 1);
    }
    if r + 1 < n && v == Idx(n, r + 1, c) {
      IdxInjective(n, r', c', r + 1, c);
    }
  }

  /** Grid adjacency is symmetric, so every entry of the grid has its mirror. */
  lemma GridSymmetric(n: nat, r: nat, c: nat, r': nat, c': nat)
    requires r < n && c < n && r' < n && c' < n
    ensures (exists k :: 0 <= k < |GridAdj(n, r, c)| && GridAdj(n, r, c)[k].nodeIndex == Idx(n, r', c'))
        <==> (exists k :: 0 <= k < |GridAdj(n, r', c')| && GridAdj(n, r', c')[k].nodeIndex == Idx(n, r, c))
  {
    GridEdgeIff(n, r, c, r', c');
    GridEdgeIff(n, r', c', r, c);
  }

  /** The graph `make_grid_graph` returns is well formed, and its edges are exactly the grid
      adjacencies. */
  lemma GridGraph(n: nat, g: Graph)
    requires |g.Nodes()| == n * n && |g.Adj()| == n * n
    requires forall r, c {:trigger GridAdj(n, r, c)} :: 0 <= r < n && 0 <= c < n ==> Idx(n, r, c) < |g.Adj()| && g.Adj()[Idx(n, r, c)] == GridAdj(n, r, c)
    ensures g.WellFormed()
    ensures forall r, c, r', c' :: 0 <= r < n && 0 <= c < n && 0 <= r' < n && 0 <= c' < n ==>
              Idx(n, r, c) < |g.Adj()| && (g.HasEdge(Idx(n, r, c), Idx(n, r', c')) <==> GridAdjacent(r, c, r', c'))
  {
    forall v, k | 0 <= v < |g.adj| && 0 <= k < |g.adj[v]| ensures g.adj[v][k].nodeIndex < |g.nodes| {
      IdxCovers(n, v);
      GridEntryFields(n, v / n, v % n, k);
    }
    forall r, c, r', c' | 0 <= r < n && 0 <= c < n && 0 <= r' < n && 0 <= c' < n
      ensures Idx(n, r, c) < |g.Adj()| && (g.HasEdge(Idx(n, r, c), Idx(n, r', c')) <==> GridAdjacent(r, c, r', c'))
    {
      IdxBound(n, r, c);
      assert g.Adj()[Idx(n, r, c)] == GridAdj(n, r, c);
      GridEdgeIff(n, r, c, r', c');
    }
  }

  // ---------------------------------------------------------------------------------------------
  // The number of entries.

  /** The number of entries in all the lists. */
  function EntryCount(adj: seq<seq<Neighbor>>): nat {
    if adj == [] then 0 else EntryCount(adj[..|adj| - 1]) + |adj[|adj| - 1]|
  }

  /** How many neighbours a cell has along one axis at coordinate `k`: one on each side that is
      not a border. */
  function Sides(n: nat, k: nat): nat {
    (if k > 0 then 1 else 0) + (if k + 1 < n then 1 else 0)
  }

  /** The sum of `Sides(n, k')` over `k' < k`, for `k <= n`, in closed form. */
  function SidesBelow(n: nat, k: nat): nat {
    (if k > 0 then k - 1 else 0) + (if k < n then k else if n > 0 then n - 1 else 0)
  }

  lemma SidesStep(n: nat, k: nat)
    requires k < n
    ensures SidesBelow(n, k + 1) == SidesBelow(n, k) + Sides(n, k)
  {
  }

  /** A cell has one neighbour per side that is not a border. */
  lemma GridDegreeExact(n: nat, r: nat, c: nat)
    requires r < n && c < n
    ensures |GridAdj(n, r, c)| == Sides(n, r) + Sides(n, c)
  {
  }

  /** The number of entries of the cells before `(r, c)` in row-major order, in closed form. */
  function BeforeCount(n: nat, r: nat, c: nat): int {
    r * (2 * (n - 1)) + n * SidesBelow(n, r) + SidesBelow(n, c) + c * Sides(n, r)
  }

  lemma BeforeCountStep(n: nat, r: nat, c: nat)
    requires r < n && c < n
    ensures BeforeCount(n, r, c + 1) == BeforeCount(n, r, c) + Sides(n, r) + Sides(n, c)
  {
    SidesStep(n, c);
    assert (c + 1) * Sides(n, r) == c * Sides(n, r) + Sides(n, r);
  }

  lemma BeforeCountWrap(n: nat, r: nat)
    requires r < n
    ensures BeforeCount(n, r, n) == BeforeCount(n, r + 1, 0)
  {
    SidesStep(n, r);
    assert SidesBelow(n, n) == 2 * (n - 1);
    assert n * SidesBelow(n, r + 1) == n * SidesBelow(n, r) + n * Sides(n, r);
    assert (r + 1) * (2 * (n - 1)) == r * (2 * (n - 1)) + 2 * (n - 1);
  }

  /** `adj` holds the grid's list at the index of every cell. */
  ghost predicate GridLists(n: nat, adj: seq<seq<Neighbor>>) {
    forall r, c {:trigger GridAdj(n, r, c)} :: 0 <= r < n && 0 <= c < n ==> Idx(n, r, c) < |adj| && adj[Idx(n, r, c)] == GridAdj(n, r, c)
  }

  /** All the cells of the grid: `4 * n * (n - 1)` entries. */
  lemma BeforeCountAll(n: nat)
    requires n > 0
    ensures BeforeCount(n, n, 0) == 4 * n * (n - 1)
  {
    assert SidesBelow(n, n) == 2 * (n - 1);
    var m := n * (n - 1);
    assert n * (2 * (n - 1)) == 2 * m;
    assert 4 * n * (n - 1) == 4 * m;
  }

  /** The lists of the cells before `(r, c)` hold `BeforeCount(n, r, c)` entries. */
  lemma {:induction false} PrefixEntries(n: nat, adj: seq<seq<Neighbor>>, r: nat, c: nat)
    requires |adj| == n * n && r < n && c <= n
    requires GridLists(n, adj)
    ensures Idx(n, r, c) <= |adj| && EntryCount(adj[..Idx(n, r, c)]) == BeforeCount(n, r, c)
    decreases r, c
  {
    if c > 0 {
      PrefixEntries(n, adj, r, c - 1);
      IdxRight(n, r, c - 1);
      var v := Idx(n, r, c - 1);
      assert v < |adj| && adj[v] == GridAdj(n, r, c - 1);
      assert adj[..v + 1][..v] == adj[..v];
      assert EntryCount(adj[..v + 1]) == EntryCount(adj[..v]) + |adj[v]|;
      GridDegreeExact(n, r, c - 1);
      BeforeCountStep(n, r, c - 1);
    } else if r > 0 {
      PrefixEntries(n, adj, r - 1, n);
      IdxWrap(n, r - 1);
      BeforeCountWrap(n, r - 1);
    } else {
      assert adj[..0] == [];
    }
  }

  /** The grid holds `4 * n * (n - 1)` entries: two per edge, `n - 1` edges along each of the
      `n` rows and as many along each of the `n` columns. */
  lemma GridTotal(n: nat, adj: seq<seq<Neighbor>>)
    requires |adj| == n * n && GridLists(n, adj)
    ensures EntryCount(adj) == 4 * n * (n - 1)
  {
    if n > 0 {
      PrefixEntries(n, adj, n - 1, n);
      IdxWrap(n, n - 1);
      GridSize(n);
      assert adj[..Idx(n, n - 1, n)] == adj;
      BeforeCountWrap(n, n - 1);
      BeforeCountAll(n);
    }
  }
}
