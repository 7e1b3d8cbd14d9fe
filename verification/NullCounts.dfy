/**
 Where `count_rows` and SQL part ways: a filter that is true on part of a chunk and NULL on the
 rest of it, and false nowhere, is counted on the whole chunk.
 */
module NullCounts {
  import opened Grid
  import opened ChunkGrids
  import opened CoordTables
  import opened Shadow = DimShadow
  import opened StrictPartition
  import opened BlockScan
  import opened FilterExpr
  import opened PushdownDataset
  import opened Wrappers

  /** A one-chunk cell is decided as a whole. */
  lemma SingleCell(t: Table, pos: Oracle, neg: Oracle, cell: Cell, depth: nat)
    requires Live(t, cell) && AllSingle(cell) && depth <= MAX_DEPTH && !Raised(t, pos, neg, cell)
    ensures Classify(t, pos, neg, cell, depth) == ClassifyOne(t, pos, neg, cell, depth)
  {
    var ks := LevelBuckets(cell);
    var combos := LevelCombos(ks);
    LevelHolds(t, cell);
    OnesProduct(ks);
    assert |combos| == 1;
    SingleSubcell(t, cell, ks, combos);
    var ones := Ones(t, pos, neg, cell, ks, combos, depth);
    var one := ClassifyOne(t, pos, neg, cell, depth);
    assert ones == [one];
    assert ones[..0] == [];
    JoinAllSnoc(ones, 0);
    assert ones[..1] == ones;
    if one.Some? {
      assert Parts({} + one.value.proven, [] + one.value.boundary) == one.value;
    }
  }

  lemma SingleSubcell(t: Table, cell: Cell, ks: seq<nat>, combos: seq<seq<nat>>)
    requires Level(t, cell, ks, combos) && AllSingle(cell) && |combos| == 1
    ensures SubcellAt(t, cell, ks, combos, 0) == cell
  {
    forall d | 0 <= d < |cell| ensures Subcell(cell, ks, combos[0])[d] == cell[d] {
      assert InGrid(combos[0], ks);
      SplitEnds(1, 1);
      assert Part(cell[d], 1, 0) == cell[d];
    }
  }

  /** A table of two rows, at -1 and 1, in one chunk. */
  const TWO_ROWS := Table([Dim([2], [Num(-1.0), Num(1.0)], true, true, false)], 1)

  /** `x > 0 OR NULL`: true at 1, NULL at -1. */
  const POSITIVE_OR_NULL := Or(Compare(0, Greater, Some(0.0)), Literal(Null))

  /** Its negation can be true nowhere: with a simplifier that sees it, no cell stays mixed. */
  lemma NeverFalse(g: Guarantee)
    ensures SatisfiableBy(Not(POSITIVE_OR_NULL))(g) == Unsatisfiable
  {
    assert Simplify(g, Literal(Null)) == Possible(false, false, true);
    assert !Simplify(g, POSITIVE_OR_NULL).no;
  }

  /** Over those two rows the filter is true once, and both rows are proven. */
  lemma NullOvercount(data: DataColumns)
    ensures TWO_ROWS.Valid() && |AllRows(TWO_ROWS)| == 2
    ensures var f := FilterOf(TWO_ROWS, data, POSITIVE_OR_NULL);
            var pos, neg := SatisfiableBy(POSITIVE_OR_NULL), SatisfiableBy(Not(POSITIVE_OR_NULL));
            && Sound(pos, TWO_ROWS, f, True) && Sound(neg, TWO_ROWS, f, False)
            && ValidCell(TWO_ROWS, SurvivingCell(TWO_ROWS, pos))
            && Matching(AllRows(TWO_ROWS), f, True) == {[1, 0]}
            && ProvenRows(TWO_ROWS, pos, neg) == AllRows(TWO_ROWS)
            && Matching(ProvenRows(TWO_ROWS, pos, neg), f, Null) == {[0, 0]}
  {
    var t, f := TWO_ROWS, FilterOf(TWO_ROWS, data, POSITIVE_OR_NULL);
    var pos, neg := SatisfiableBy(POSITIVE_OR_NULL), SatisfiableBy(Not(POSITIVE_OR_NULL));
    TwoRowsTable();
    SimplifierIsSound(t, data, POSITIVE_OR_NULL);
    PruneSound(t, pos, f);
    AllProven(pos, neg);
    TwoRowsMatching(f, data);
  }

  /** The one cell survives, is not mixed and is not empty. */
  lemma AllProven(pos: Oracle, neg: Oracle)
    requires TWO_ROWS.Valid() && Whole(TWO_ROWS) == [[0]]
    requires pos == SatisfiableBy(POSITIVE_OR_NULL) && neg == SatisfiableBy(Not(POSITIVE_OR_NULL))
    requires ValidCell(TWO_ROWS, SurvivingCell(TWO_ROWS, pos))
    ensures ProvenRows(TWO_ROWS, pos, neg) == AllRows(TWO_ROWS)
  {
    var cell: Cell, g: Guarantee := [[0]], [Some((-1.0, 1.0))];
    NothingPruned(TWO_ROWS);
    TwoRowsGuarantee();
    NeverFalse(g);
    OneDecided(TWO_ROWS, pos, neg, cell, g);
  }

  /** A one-chunk cell that the filter may satisfy and its negation may not is proven. */
  lemma OneDecided(t: Table, pos: Oracle, neg: Oracle, cell: Cell, g: Guarantee)
    requires Live(t, cell) && AllSingle(cell) && CellGuarantee(t, cell) == Some(g)
    requires pos(g) == Satisfiable && neg(g) == Unsatisfiable
    ensures Classify(t, pos, neg, cell, 0) == Some(Parts(Rows(t, cell), []))
  {
    SingleCell(t, pos, neg, cell, 0);
  }

  lemma TwoRowsMatching(f: Filter, data: DataColumns)
    requires TWO_ROWS.Valid() && f == FilterOf(TWO_ROWS, data, POSITIVE_OR_NULL)
    ensures Matching(AllRows(TWO_ROWS), f, True) == {[1, 0]}
    ensures Matching(AllRows(TWO_ROWS), f, Null) == {[0, 0]}
  {
    forall r ensures r in AllRows(TWO_ROWS) <==> r == [0, 0] || r == [1, 0] {
      RowInTable(TWO_ROWS, r);
      assert Total([2]) == 2 by { assert Bound([2], 1) == Bound([2], 0) + 2; }
      if IsRow(TWO_ROWS, r) {
        assert r == [r[0], r[1]] && r[0] < 2 && r[1] == 0;
      }
    }
    assert f([1, 0]) == True && f([0, 0]) == Null;
  }

  /** So the dataset of those two rows counts two where the filter is true once. */
  method CountTwoRows(data: DataColumns) returns (count: nat)
    ensures count == 2
    ensures |Matching(AllRows(TWO_ROWS), FilterOf(TWO_ROWS, data, POSITIVE_OR_NULL), True)| == 1
  {
    NullOvercount(data);
    var dataset := new PushdownDataset(TWO_ROWS);
    count := dataset.CountRows(
      FilterOf(TWO_ROWS, data, POSITIVE_OR_NULL),
      SatisfiableBy(POSITIVE_OR_NULL), SatisfiableBy(Not(POSITIVE_OR_NULL)));
  }

  lemma TwoRowsTable()
    ensures TWO_ROWS.Valid() && Whole(TWO_ROWS) == [[0]]
    ensures |AllRows(TWO_ROWS)| == 2
  {
    var t := TWO_ROWS;
    assert Total([2]) == 2 by { assert Bound([2], 1) == Bound([2], 0) + 2; }
    assert t.dims[0].Valid();
    assert Whole(t)[0] == All(1) == [0];
    RowCountIsSize(t, Whole(t));
    TwoRowCount(t, Whole(t));
  }

  lemma TwoRowsInterval()
    requires TWO_ROWS.Valid()
    ensures Interval(TWO_ROWS.dims[0], 0, 1) == Some((-1.0, 1.0))
  {
    var dim := TWO_ROWS.dims[0];
    assert Bound([2], 1) == 2 by { assert Bound([2], 1) == Bound([2], 0) + 2; }
    assert Run(dim, 0, 1) == dim.coords;
  }

  lemma TwoRowsGuarantee()
    requires TWO_ROWS.Valid()
    ensures Live(TWO_ROWS, [[0]])
    ensures CellGuarantee(TWO_ROWS, [[0]]) == Some([Some((-1.0, 1.0))])
    ensures SatisfiableBy(POSITIVE_OR_NULL)([Some((-1.0, 1.0))]) == Satisfiable
  {
    var t, cell: Cell := TWO_ROWS, [[0]];
    assert Live(t, cell);
    TwoRowsInterval();
    assert BucketInterval(t.dims[0], cell[0]) == Some((-1.0, 1.0));
    var g := CellGuarantee(t, cell);
    assert g.Some? && g.value == [Some((-1.0, 1.0))];
    PositiveSatisfiable();
  }

  lemma PositiveSatisfiable()
    ensures SatisfiableBy(POSITIVE_OR_NULL)([Some((-1.0, 1.0))]) == Satisfiable
  {
    var g: Guarantee := [Some((-1.0, 1.0))];
    assert Simplify(g, Compare(0, Greater, Some(0.0))).yes;
    assert Simplify(g, POSITIVE_OR_NULL).yes;
  }

  lemma NothingPruned(t: Table)
    requires t == TWO_ROWS && t.Valid()
    ensures SurvivingCell(t, SatisfiableBy(POSITIVE_OR_NULL)) == Whole(t) == [[0]]
  {
    var pos := SatisfiableBy(POSITIVE_OR_NULL);
    var gs := Coarse(t, 0, Cuts(1));
    TwoRowsInterval();
    PositiveSatisfiable();
    assert gs[0] == SpanGuarantee(t, 0, 0, 1) == [Some((-1.0, 1.0))];
    assert Fragments(pos, gs).Some?;
    var buckets := Fragments(pos, gs).value;
    assert 0 in buckets;
    assert Kept(t, 0, pos).None?;
    assert Whole(t)[0] == All(1) == [0];
  }

  lemma TwoRowCount(t: Table, cell: Cell)
    requires t == TWO_ROWS && cell == [[0]] && CellInRange(t, cell)
    ensures RowCount(t, cell) == 2
  {
    assert Length([2], [0]) == 2 + Length([2], [0][1..]);
    assert Lengths(t, cell) == [2];
    ProdOne(2);
  }
}
