/** Scanning blocks exactly: the rows of a block in grid order, and counting the ones a filter accepts. */
module BlockScan {
  import opened Grid
  import opened ChunkGrids
  import opened CoordTables
  import opened StrictPartition

  /** The row at an offset within a block. */
  function RowAt(b: Block, o: seq<nat>): (row: Row)
    requires |o| == |b|
    ensures |row| == |b| && forall d :: 0 <= d < |b| ==> row[d] == b[d].0 + o[d]
  {
    seq(|b|, d requires 0 <= d < |b| => b[d].0 + o[d])
  }

  ghost function OffsetOf(b: Block, row: Row): (o: seq<nat>)
    requires row in BlockRows(b)
    ensures InGrid(o, Widths(b)) && RowAt(b, o) == row
  {
    InBlock(b, row);
    var o := seq(|b|, d requires 0 <= d < |b| => row[d] - b[d].0);
    assert RowAt(b, o) == row;
    o
  }

  lemma InBlock(b: Block, row: Row)
    ensures row in BlockRows(b) <==> |row| == |b| && forall d :: 0 <= d < |b| ==> b[d].0 <= row[d] < b[d].1
  {
    BoxMember(row, BlockAxes(b));
    if row in BlockRows(b) {
      forall d | 0 <= d < |b| ensures b[d].0 <= row[d] < b[d].1 {
        assert row[d] in BlockAxes(b)[d];
      }
    }
  }

  ghost function Matching(rows: set<Row>, f: Filter, want: Truth): set<Row> {
    set r | r in rows && f(r) == want
  }

  /** Rows of a block whose offset is among the first ones listed. */
  ghost function Scanned(b: Block, f: Filter, offsets: seq<seq<nat>>): set<Row> {
    set r | r in BlockRows(b) && f(r) == True && OffsetOf(b, r) in offsets
  }

  lemma ScanStep(b: Block, f: Filter, offsets: seq<seq<nat>>, j: nat)
    requires Enumerates(offsets, Widths(b)) && j < |offsets|
    ensures var r := RowAt(b, offsets[j]);
            && r in BlockRows(b) && r !in Scanned(b, f, offsets[..j])
            && Scanned(b, f, offsets[..j + 1]) == Scanned(b, f, offsets[..j]) + (if f(r) == True then {r} else {})
  {
    var o := offsets[j];
    var r := RowAt(b, o);
    assert offsets[..j + 1] == offsets[..j] + [o];
    assert o !in offsets[..j];
    InBlock(b, r);
    assert OffsetOf(b, r) == o;
    forall x | x in BlockRows(b) ensures OffsetOf(b, x) == o <==> x == r {
    }
  }

  /** The exact count of matching rows of one block. */
  method ScanBlock(b: Block, f: Filter) returns (count: nat)
    ensures count == |Matching(BlockRows(b), f, True)|
  {
    var offsets := LevelCombos(Widths(b));
    LevelCombosEnumerate(Widths(b));
    count := 0;
    assert Scanned(b, f, offsets[..0]) == {};
    for j := 0 to |offsets|
      invariant count == |Scanned(b, f, offsets[..j])|
    {
      ScanStep(b, f, offsets, j);
      if f(RowAt(b, offsets[j])) == True {
        count := count + 1;
      }
    }
    assert offsets[..|offsets|] == offsets;
    assert Scanned(b, f, offsets) == Matching(BlockRows(b), f, True);
  }

  /** Matching rows of each block, added up. */
  ghost function SumMatching(bs: seq<Block>, f: Filter): nat {
    if bs == [] then 0
    else SumMatching(bs[..|bs| - 1], f) + |Matching(BlockRows(bs[|bs| - 1]), f, True)|
  }

  /** The scanner over a list of blocks. */
  method ScanBlocks(bs: seq<Block>, f: Filter) returns (count: nat)
    ensures count == SumMatching(bs, f)
  {
    count := 0;
    for i := 0 to |bs|
      invariant count == SumMatching(bs[..i], f)
    {
      var one := ScanBlock(bs[i], f);
      assert bs[..i + 1][..i] == bs[..i];
      count := count + one;
    }
    assert bs[..|bs|] == bs;
  }

  /** When no row is in two blocks, scanning counts every matching row of their union once. */
  lemma {:induction false} SumMatchingUnion(bs: seq<Block>, f: Filter)
    requires Apart(bs)
    ensures SumMatching(bs, f) == |Matching(UnionOf(bs), f, True)|
  {
    if bs == [] {
      assert Matching(UnionOf(bs), f, True) == {};
    } else {
      var init, last := bs[..|bs| - 1], bs[|bs| - 1];
      SumMatchingUnion(init, f);
      MatchingUnion(UnionOf(init), BlockRows(last), f, True);
    }
  }

  lemma MatchingUnion(a: set<Row>, b: set<Row>, f: Filter, want: Truth)
    requires a !! b
    ensures |Matching(a + b, f, want)| == |Matching(a, f, want)| + |Matching(b, f, want)|
  {
    var x, y := Matching(a, f, want), Matching(b, f, want);
    assert Matching(a + b, f, want) == x + y;
    assert x !! y;
  }
}
