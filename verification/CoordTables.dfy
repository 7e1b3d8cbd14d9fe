/**
 A gridded table as the pruning code sees it: chunked dimensions with coordinates, the rows they
 make, three-valued filters over rows, and per-dimension range guarantees.
 */
module CoordTables {
  import opened Grid
  import opened ChunkGrids
  import opened Wrappers

  /** A coordinate value: a number, or the NaN/NaT marker. */
  datatype Coord = Num(v: real) | NaN

  /**
   One chunked dimension: `prunable` when it is a numeric column of the schema, `indexed` when
   building its pruning index does not raise, `nullable` when a missing coordinate is a NULL cell
   (NaT) and not a NaN number.
   */
  datatype Dim = Dim(sizes: seq<nat>, coords: seq<Coord>, prunable: bool, indexed: bool, nullable: bool) {

    predicate HasIndex() {
      prunable && indexed
    }

    predicate Valid() {
      && sizes != []
      && (forall c :: 0 <= c < |sizes| ==> sizes[c] > 0)
      && |coords| == Total(sizes)
    }
  }

  /** The chunk grid, and the number of rows each of its cells has from dimensions outside the grid. */
  datatype Table = Table(dims: seq<Dim>, outer: nat) {

    predicate Valid() {
      forall d :: 0 <= d < |dims| ==> dims[d].Valid()
    }
  }

  /** A row names a position on every grid dimension and one within the outer dimensions. */
  type Row = seq<nat>

  datatype Truth = True | False | Null

  // ---------------------------------------------------------------------
  // Cells of the chunk grid
  // ---------------------------------------------------------------------

  /** A cell is a list of chunk indices for each dimension. */
  type Cell = seq<seq<nat>>

  ghost predicate ValidCell(t: Table, cell: Cell) {
    && |cell| == |t.dims|
    && forall d :: 0 <= d < |cell| ==> ValidChunks(cell[d], |t.dims[d].sizes|)
  }

  ghost function Axes(t: Table, cell: Cell): (a: seq<set<nat>>)
    requires |cell| == |t.dims|
    ensures |a| == |t.dims| + 1
  {
    seq(|cell|, d requires 0 <= d < |cell| => Positions(t.dims[d].sizes, cell[d])) + [Range(0, t.outer)]
  }

  ghost function Rows(t: Table, cell: Cell): set<Row>
    requires |cell| == |t.dims|
  {
    Box(Axes(t, cell))
  }

  function Whole(t: Table): (cell: Cell)
    ensures |cell| == |t.dims|
  {
    seq(|t.dims|, d requires 0 <= d < |t.dims| => All(|t.dims[d].sizes|))
  }

  ghost function AllRows(t: Table): set<Row> {
    Rows(t, Whole(t))
  }

  ghost predicate IsRow(t: Table, row: Row) {
    && |row| == |t.dims| + 1
    && row[|t.dims|] < t.outer
    && forall d :: 0 <= d < |t.dims| ==> row[d] < Total(t.dims[d].sizes)
  }

  /** A row is in a cell when the cell lists its chunk on every dimension. */
  lemma RowInCell(t: Table, cell: Cell, row: Row)
    requires |cell| == |t.dims|
    ensures row in Rows(t, cell) <==>
            IsRow(t, row) && forall d :: 0 <= d < |cell| ==> ChunkOf(t.dims[d].sizes, row[d]) in cell[d]
  {
    var a := Axes(t, cell);
    BoxMember(row, a);
    if row in Rows(t, cell) {
      assert row[|t.dims|] in a[|t.dims|];
      forall d | 0 <= d < |cell|
        ensures row[d] < Total(t.dims[d].sizes) && ChunkOf(t.dims[d].sizes, row[d]) in cell[d]
      {
        assert row[d] in a[d];
      }
    }
    if IsRow(t, row) && forall d :: 0 <= d < |cell| ==> ChunkOf(t.dims[d].sizes, row[d]) in cell[d] {
      forall d | 0 <= d < |a| ensures row[d] in a[d] {
      }
    }
  }

  lemma RowInTable(t: Table, row: Row)
    ensures row in AllRows(t) <==> IsRow(t, row)
  {
    RowInCell(t, Whole(t), row);
    if IsRow(t, row) {
      forall d | 0 <= d < |t.dims| ensures ChunkOf(t.dims[d].sizes, row[d]) in Whole(t)[d] {
        var c := ChunkOf(t.dims[d].sizes, row[d]);
        assert All(|t.dims[d].sizes|)[c] == c;
      }
    }
  }

  ghost predicate CellInRange(t: Table, cell: Cell) {
    |cell| == |t.dims| && forall d :: 0 <= d < |cell| ==> Below(cell[d], |t.dims[d].sizes|)
  }

  function Lengths(t: Table, cell: Cell): (lens: seq<nat>)
    requires CellInRange(t, cell)
    ensures |lens| == |cell|
  {
    seq(|cell|, d requires 0 <= d < |cell| => Length(t.dims[d].sizes, cell[d]))
  }

  /** Rows spanned by a cell: the product of its lengths per dimension, times the outer rows. */
  function RowCount(t: Table, cell: Cell): nat
    requires CellInRange(t, cell)
  {
    t.outer * Prod(Lengths(t, cell))
  }

  /** Conservation: that product is the number of rows in the cell. */
  lemma RowCountIsSize(t: Table, cell: Cell)
    requires ValidCell(t, cell)
    ensures CellInRange(t, cell) && |Rows(t, cell)| == RowCount(t, cell)
  {
    BoxSize(Axes(t, cell));
    AxesSizes(t, cell);
    ProdSnoc(Lengths(t, cell), t.outer);
  }

  lemma ProdSnoc(lens: seq<nat>, n: nat)
    ensures Prod(lens + [n]) == n * Prod(lens)
  {
    ProdConcat(lens, [n]);
    ProdOne(n);
  }

  lemma ProdOne(n: nat)
    ensures Prod([n]) == n
  {
    assert Prod([n]) == n * Prod([n][1..]);
  }

  lemma AxesSizes(t: Table, cell: Cell)
    requires ValidCell(t, cell)
    ensures CellInRange(t, cell) && Sizes(Axes(t, cell)) == Lengths(t, cell) + [t.outer]
  {
    var a := Axes(t, cell);
    RangeSize(0, t.outer);
    forall d | 0 <= d < |cell| ensures Sizes(a)[d] == Lengths(t, cell)[d] {
      PositionsLength(t.dims[d].sizes, cell[d]);
    }
  }

  // ---------------------------------------------------------------------
  // Range guarantees
  // ---------------------------------------------------------------------

  /** For each dimension, a closed interval its coordinate is promised to lie in, or no promise. */
  type Guarantee = seq<Option<(real, real)>>

  ghost predicate Holds(t: Table, g: Guarantee, row: Row)
    requires IsRow(t, row) && t.Valid()
  {
    && |g| == |t.dims|
    && forall d :: 0 <= d < |g| && g[d].Some? ==>
         var x := t.dims[d].coords[row[d]];
         x.Num? && g[d].value.0 <= x.v <= g[d].value.1
  }

  /** Answer of the guarantee simplifier about one fragment. */
  datatype Verdict = Satisfiable | Unsatisfiable | Raises

  type Oracle = Guarantee -> Verdict

  type Filter = Row -> Truth

  /**
   What the simplifier must promise: it calls a guarantee unsatisfiable only if no row of the
   table that meets the guarantee has the wanted truth value.
   */
  ghost predicate Sound(oracle: Oracle, t: Table, f: Filter, want: Truth)
    requires t.Valid()
  {
    forall g: Guarantee, row: Row :: IsRow(t, row) && Holds(t, g, row) && f(row) == want ==> oracle(g) != Unsatisfiable
  }

  /** `get_fragments`: indices of the satisfiable fragments in order, or nothing when it raises. */
  function Fragments(oracle: Oracle, gs: seq<Guarantee>): (r: Option<seq<nat>>)
    ensures r.Some? <==> forall i :: 0 <= i < |gs| ==> oracle(gs[i]) != Raises
    ensures r.Some? ==> Increasing(r.value, |gs|)
    ensures r.Some? ==> forall i :: 0 <= i < |gs| ==> (i in r.value <==> oracle(gs[i]) == Satisfiable)
  {
    if gs == [] then Some([])
    else
      var last := |gs| - 1;
      match Fragments(oracle, gs[..last])
      case None => None
      case Some(ks) =>
        match oracle(gs[last])
        case Raises => None
        case Satisfiable => Some(ks + [last])
        case Unsatisfiable => Some(ks)
  }

  ghost predicate Increasing(ks: seq<nat>, n: nat) {
    && (forall a, b :: 0 <= a < b < |ks| ==> ks[a] < ks[b])
    && (forall a :: 0 <= a < |ks| ==> ks[a] < n)
  }

  // ---------------------------------------------------------------------
  // Minimum and maximum of coordinate runs
  // ---------------------------------------------------------------------

  predicate HasNaN(coords: seq<Coord>) {
    exists i :: 0 <= i < |coords| && coords[i].NaN?
  }

  predicate AllNum(coords: seq<Coord>) {
    forall i :: 0 <= i < |coords| ==> coords[i].Num?
  }

  function Min(coords: seq<Coord>): (m: real)
    requires coords != [] && AllNum(coords)
    ensures Num(m) in coords && forall i :: 0 <= i < |coords| ==> m <= coords[i].v
  {
    var x := coords[0].v;
    if |coords| == 1 then x
    else
      var m := Min(coords[1..]);
      assert coords == [coords[0]] + coords[1..];
      if x <= m then x else m
  }

  function Max(coords: seq<Coord>): (m: real)
    requires coords != [] && AllNum(coords)
    ensures Num(m) in coords && forall i :: 0 <= i < |coords| ==> coords[i].v <= m
  {
    var x := coords[0].v;
    if |coords| == 1 then x
    else
      var m := Max(coords[1..]);
      assert coords == [coords[0]] + coords[1..];
      if m <= x then x else m
  }

  /** Coordinates of the chunks `lo..hi` of a dimension. */
  function Run(dim: Dim, lo: nat, hi: nat): (vals: seq<Coord>)
    requires dim.Valid() && lo <= hi <= |dim.sizes|
    ensures lo < hi ==> vals != []
  {
    BoundMonotone(dim.sizes, lo, hi);
    BoundMonotone(dim.sizes, hi, |dim.sizes|);
    assert lo < hi ==> Bound(dim.sizes, lo) < Bound(dim.sizes, hi) by {
      if lo < hi { BoundMonotone(dim.sizes, lo + 1, hi); }
    }
    dim.coords[Bound(dim.sizes, lo)..Bound(dim.sizes, hi)]
  }

  /** The value interval of consecutive chunks, or nothing when a NaN would poison it. */
  function Interval(dim: Dim, lo: nat, hi: nat): (r: Option<(real, real)>)
    requires dim.Valid() && lo < hi <= |dim.sizes|
  {
    var vals := Run(dim, lo, hi);
    if HasNaN(vals) then None else Some((Min(vals), Max(vals)))
  }

  /** Every coordinate in the chunks lies in their interval. */
  lemma IntervalHolds(dim: Dim, lo: nat, hi: nat, p: nat)
    requires dim.Valid() && lo < hi <= |dim.sizes|
    requires p < Total(dim.sizes) && lo <= ChunkOf(dim.sizes, p) < hi
    requires Interval(dim, lo, hi).Some?
    ensures var (a, b) := Interval(dim, lo, hi).value; dim.coords[p].Num? && a <= dim.coords[p].v <= b
  {
    var vals := Run(dim, lo, hi);
    var c := ChunkOf(dim.sizes, p);
    BoundMonotone(dim.sizes, lo, c);
    BoundMonotone(dim.sizes, c + 1, hi);
    BoundMonotone(dim.sizes, lo, hi);
    BoundMonotone(dim.sizes, hi, |dim.sizes|);
    assert |vals| == Bound(dim.sizes, hi) - Bound(dim.sizes, lo);
    assert vals[p - Bound(dim.sizes, lo)] == dim.coords[p];
  }

  /** A position of the run lies in its chunks. */
  lemma RunAt(dim: Dim, lo: nat, hi: nat, k: nat) returns (p: nat)
    requires dim.Valid() && lo < hi <= |dim.sizes| && k < |Run(dim, lo, hi)|
    ensures p < Total(dim.sizes) && lo <= ChunkOf(dim.sizes, p) < hi && dim.coords[p] == Run(dim, lo, hi)[k]
  {
    p := Bound(dim.sizes, lo) + k;
    BoundMonotone(dim.sizes, lo, hi);
    BoundMonotone(dim.sizes, hi, |dim.sizes|);
    var c := ChunkOf(dim.sizes, p);
    if c < lo { BoundMonotone(dim.sizes, c + 1, lo); }
    if c >= hi { BoundMonotone(dim.sizes, hi, c); }
    assert dim.coords[p] == Run(dim, lo, hi)[k];
  }

  /** The ends of the interval are coordinates of the chunks. */
  lemma IntervalEnds(dim: Dim, lo: nat, hi: nat) returns (p: nat, q: nat)
    requires dim.Valid() && lo < hi <= |dim.sizes| && Interval(dim, lo, hi).Some?
    ensures p < Total(dim.sizes) && lo <= ChunkOf(dim.sizes, p) < hi
    ensures q < Total(dim.sizes) && lo <= ChunkOf(dim.sizes, q) < hi
    ensures var (a, b) := Interval(dim, lo, hi).value; dim.coords[p] == Num(a) && dim.coords[q] == Num(b)
  {
    var vals := Run(dim, lo, hi);
    var a :| 0 <= a < |vals| && vals[a] == Num(Min(vals));
    var b :| 0 <= b < |vals| && vals[b] == Num(Max(vals));
    p := RunAt(dim, lo, hi, a);
    q := RunAt(dim, lo, hi, b);
  }

  /** Without an interval some coordinate of the chunks is NaN. */
  lemma IntervalGap(dim: Dim, lo: nat, hi: nat) returns (p: nat)
    requires dim.Valid() && lo < hi <= |dim.sizes| && Interval(dim, lo, hi).None?
    ensures p < Total(dim.sizes) && lo <= ChunkOf(dim.sizes, p) < hi && dim.coords[p].NaN?
  {
    var vals := Run(dim, lo, hi);
    var k :| 0 <= k < |vals| && vals[k].NaN?;
    p := RunAt(dim, lo, hi, k);
  }
}
