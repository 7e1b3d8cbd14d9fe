/** Merging runs of consecutive surviving chunks along one dimension into single blocks. */
module Coalesce {
  import opened Grid
  import opened ChunkGrids
  import opened CoordTables
  import opened StrictPartition

  // ---------------------------------------------------------------------
  // Runs of one dimension
  // ---------------------------------------------------------------------

  /** Rows a list of chunks spans when each position has `perRow` rows. */
  function RunRows(sizes: seq<nat>, perRow: nat, run: seq<nat>): nat
    requires Below(run, |sizes|)
  {
    if run == [] then 0 else RunRows(sizes, perRow, run[..|run| - 1]) + sizes[run[|run| - 1]] * perRow
  }

  predicate Consecutive(run: seq<nat>) {
    run != [] && forall k :: 0 <= k < |run| ==> run[k] == run[0] + k
  }

  /** A run is consecutive and within the limit, or a single chunk. */
  predicate GoodRun(sizes: seq<nat>, perRow: nat, limit: int, run: seq<nat>) {
    && Below(run, |sizes|) && Consecutive(run)
    && (|run| == 1 || RunRows(sizes, perRow, run) <= limit)
  }

  /** A run could not have gone on with the first chunk of the next one. */
  predicate Stopped(sizes: seq<nat>, perRow: nat, limit: int, run: seq<nat>, next: nat)
    requires GoodRun(sizes, perRow, limit, run) && next < |sizes|
  {
    next != run[|run| - 1] + 1 || RunRows(sizes, perRow, run) + sizes[next] * perRow > limit
  }

  ghost predicate GoodRuns(sizes: seq<nat>, perRow: nat, limit: int, runs: seq<seq<nat>>) {
    && (forall k :: 0 <= k < |runs| ==> GoodRun(sizes, perRow, limit, runs[k]))
    && (forall j, k :: 0 <= j < |runs| && k == j + 1 < |runs| ==> Stopped(sizes, perRow, limit, runs[j], runs[k][0]))
  }

  lemma RunRowsSnoc(sizes: seq<nat>, perRow: nat, run: seq<nat>, c: nat)
    requires Below(run, |sizes|) && c < |sizes|
    ensures Below(run + [c], |sizes|)
    ensures RunRows(sizes, perRow, run + [c]) == RunRows(sizes, perRow, run) + sizes[c] * perRow
  {
    assert (run + [c])[..|run + [c]| - 1] == run;
  }

  /** Where the loop is after some chunks: finished runs, and the run under way with its rows. */
  ghost predicate RunState(
    sizes: seq<nat>, perRow: nat, limit: int, seen: seq<nat>, runs: seq<seq<nat>>, run: seq<nat>, runRows: nat)
  {
    && Flatten(runs) + run == seen
    && Below(run, |sizes|) && runRows == RunRows(sizes, perRow, run)
    && (run == [] ==> seen == [] && runs == [])
    && (run != [] ==> GoodRuns(sizes, perRow, limit, runs + [run]))
  }

  /** The loop over the merged dimension: its runs, in order, are the surviving chunks cut greedily. */
  method Runs(sizes: seq<nat>, chunks: seq<nat>, perRow: nat, limit: int) returns (runs: seq<seq<nat>>)
    requires Below(chunks, |sizes|)
    ensures Flatten(runs) == chunks
    ensures GoodRuns(sizes, perRow, limit, runs)
  {
    runs := [];
    var run: seq<nat> := [];
    var runRows: nat := 0;
    for i := 0 to |chunks|
      invariant RunState(sizes, perRow, limit, chunks[..i], runs, run, runRows)
    {
      var c := chunks[i];
      var rows: nat := sizes[c] * perRow;
      if run != [] && (c != run[|run| - 1] + 1 || runRows + rows > limit) {
        StartRun(sizes, perRow, limit, chunks[..i], runs, run, runRows, c);
        runs := runs + [run];
        run, runRows := [], 0;
      } else {
        ExtendRun(sizes, perRow, limit, chunks[..i], runs, run, runRows, c);
      }
      assert chunks[..i + 1] == chunks[..i] + [c];
      run := run + [c];
      runRows := runRows + rows;
    }
    assert chunks[..|chunks|] == chunks;
    if run != [] {
      FlattenSnoc(runs, run);
      runs := runs + [run];
    }
  }

  lemma StartRun(
    sizes: seq<nat>, perRow: nat, limit: int, seen: seq<nat>, runs: seq<seq<nat>>, run: seq<nat>, runRows: nat, c: nat)
    requires RunState(sizes, perRow, limit, seen, runs, run, runRows) && run != [] && c < |sizes|
    requires c != run[|run| - 1] + 1 || runRows + sizes[c] * perRow > limit
    ensures RunState(sizes, perRow, limit, seen + [c], runs + [run], [] + [c], 0 + sizes[c] * perRow)
  {
    var before, after := runs + [run], (runs + [run]) + [[c]];
    assert before[|runs|] == run && GoodRun(sizes, perRow, limit, run);
    FlattenSnoc(runs, run);
    RunRowsSnoc(sizes, perRow, [], c);
    forall k | 0 <= k < |after| ensures GoodRun(sizes, perRow, limit, after[k]) {
      if k < |before| { assert after[k] == before[k]; }
    }
    forall j, k | 0 <= j < |after| && k == j + 1 < |after|
      ensures Stopped(sizes, perRow, limit, after[j], after[k][0])
    {
      assert after[j] == before[j];
      if k < |before| { assert after[k] == before[k]; }
    }
    assert [] + [c] == [c];
  }

  lemma ExtendRun(
    sizes: seq<nat>, perRow: nat, limit: int, seen: seq<nat>, runs: seq<seq<nat>>, run: seq<nat>, runRows: nat, c: nat)
    requires RunState(sizes, perRow, limit, seen, runs, run, runRows) && c < |sizes|
    requires run != [] ==> c == run[|run| - 1] + 1 && runRows + sizes[c] * perRow <= limit
    ensures RunState(sizes, perRow, limit, seen + [c], runs, run + [c], runRows + sizes[c] * perRow)
  {
    var before, after := runs + [run], runs + [run + [c]];
    RunRowsSnoc(sizes, perRow, run, c);
    if run != [] { assert before[|runs|] == run && GoodRun(sizes, perRow, limit, run); }
    forall k | 0 <= k < |after| ensures GoodRun(sizes, perRow, limit, after[k]) {
      if k < |runs| { assert after[k] == before[k]; }
    }
    forall j, k | 0 <= j < |after| && k == j + 1 < |after|
      ensures Stopped(sizes, perRow, limit, after[j], after[k][0])
    {
      assert after[j] == before[j] && after[k][0] == before[k][0];
    }
  }

  // ---------------------------------------------------------------------
  // Blocks
  // ---------------------------------------------------------------------

  /** The most finely chunked dimension, the first of equals. */
  function MergeDim(t: Table): (m: nat)
    requires t.dims != []
    ensures m < |t.dims|
    ensures forall d :: 0 <= d < |t.dims| ==> |t.dims[d].sizes| <= |t.dims[m].sizes|
  {
    var counts: seq<nat> := seq(|t.dims|, d requires 0 <= d < |t.dims| => |t.dims[d].sizes|);
    assert forall d :: 0 <= d < |t.dims| ==> counts[d] == |t.dims[d].sizes|;
    Widest(counts)
  }

  /** The block of a prefix of chunks on the other dimensions and a run along the merged one. */
  function Flush(t: Table, m: nat, prefix: seq<nat>, run: seq<nat>): (b: Block)
    requires ChunkCombo(t, prefix) && m < |t.dims| && Below(run, |t.dims[m].sizes|) && Consecutive(run)
    ensures |b| == |t.dims| + 1
  {
    seq(|t.dims|, d requires 0 <= d < |t.dims| =>
      if d == m then (Bound(t.dims[m].sizes, run[0]), Bound(t.dims[m].sizes, run[|run| - 1] + 1))
      else (Bound(t.dims[d].sizes, prefix[d]), Bound(t.dims[d].sizes, prefix[d] + 1))) + [(0, t.outer)]
  }

  /** A row whose chunks are the prefix, except along the merged dimension where they are among `chunks`. */
  ghost predicate Within(t: Table, m: nat, prefix: seq<nat>, chunks: seq<nat>, row: Row)
    requires ChunkCombo(t, prefix) && m < |t.dims|
  {
    && IsRow(t, row)
    && (forall d :: 0 <= d < |t.dims| && d != m ==> ChunkOf(t.dims[d].sizes, row[d]) == prefix[d])
    && ChunkOf(t.dims[m].sizes, row[m]) in chunks
  }

  lemma RunPositions(sizes: seq<nat>, run: seq<nat>, p: nat)
    requires Below(run, |sizes|) && Consecutive(run)
    ensures Bound(sizes, run[0]) <= p < Bound(sizes, run[|run| - 1] + 1) <==>
            p < Total(sizes) && ChunkOf(sizes, p) in run
  {
    var lo, hi := run[0], run[|run| - 1];
    BoundMonotone(sizes, hi + 1, |sizes|);
    if p < Total(sizes) {
      var c := ChunkOf(sizes, p);
      if lo <= c <= hi {
        BoundMonotone(sizes, lo, c);
        BoundMonotone(sizes, c + 1, hi + 1);
        assert run[c - lo] == c;
      } else if c < lo {
        BoundMonotone(sizes, c + 1, lo);
        assert c !in run;
      } else {
        BoundMonotone(sizes, hi + 1, c);
        assert c !in run;
      }
    }
  }

  lemma FlushRows(t: Table, m: nat, prefix: seq<nat>, run: seq<nat>, row: Row)
    requires t.Valid() && ChunkCombo(t, prefix) && m < |t.dims| && Below(run, |t.dims[m].sizes|) && Consecutive(run)
    ensures row in BlockRows(Flush(t, m, prefix, run)) <==> Within(t, m, prefix, run, row)
  {
    var b := Flush(t, m, prefix, run);
    var a := BlockAxes(b);
    BoxMember(row, a);
    if |row| == |a| {
      forall d | 0 <= d < |t.dims|
        ensures row[d] in a[d] <==>
                row[d] < Total(t.dims[d].sizes) &&
                if d == m then ChunkOf(t.dims[m].sizes, row[m]) in run
                else ChunkOf(t.dims[d].sizes, row[d]) == prefix[d]
      {
        if d == m {
          RunPositions(t.dims[m].sizes, run, row[m]);
        } else {
          ChunkUnique(t.dims[d].sizes, row[d], prefix[d]);
        }
      }
      assert row[|t.dims|] in a[|t.dims|] <==> row[|t.dims|] < t.outer;
    }
  }

  /** The rows a merged block is charged for are the rows it has. */
  lemma FlushSize(t: Table, m: nat, prefix: seq<nat>, run: seq<nat>)
    requires t.Valid() && ChunkCombo(t, prefix) && m < |t.dims| && Below(run, |t.dims[m].sizes|) && Consecutive(run)
    ensures |BlockRows(Flush(t, m, prefix, run))| == RunRows(t.dims[m].sizes, PerRow(t, m, prefix), run)
  {
    var sizes := t.dims[m].sizes;
    var length := RunLength(sizes, run);
    var lens := PrefixLens(t, m, prefix);
    FlushAxes(t, m, prefix, run);
    BoxSize(BlockAxes(Flush(t, m, prefix, run)));
    ProdSnoc(lens[m := length], t.outer);
    ProdFactor(lens, m);
    ProdFactor(lens[m := length], m);
    assert lens[m := length][..m] == lens[..m] && lens[m := length][m + 1..] == lens[m + 1..];
    var rest := Prod(lens[..m] + lens[m + 1..]);
    assert Prod(lens) == rest;
    MulSwap(t.outer, length, rest);
    RunRowsProduct(sizes, PerRow(t, m, prefix), run);
  }

  /** Positions along the merged dimension of a run. */
  function RunLength(sizes: seq<nat>, run: seq<nat>): nat
    requires Below(run, |sizes|)
  {
    RunRows(sizes, 1, run)
  }

  lemma {:induction false} RunRowsProduct(sizes: seq<nat>, perRow: nat, run: seq<nat>)
    requires Below(run, |sizes|)
    ensures RunRows(sizes, perRow, run) == RunLength(sizes, run) * perRow
  {
    if run != [] {
      var c := run[|run| - 1];
      RunRowsProduct(sizes, perRow, run[..|run| - 1]);
      assert (RunLength(sizes, run[..|run| - 1]) + sizes[c]) * perRow ==
        RunLength(sizes, run[..|run| - 1]) * perRow + sizes[c] * perRow;
    }
  }

  lemma {:induction false} RunLengthBounds(sizes: seq<nat>, run: seq<nat>)
    requires Below(run, |sizes|) && Consecutive(run)
    ensures RunLength(sizes, run) == Bound(sizes, run[|run| - 1] + 1) - Bound(sizes, run[0])
  {
    var init := run[..|run| - 1];
    if init == [] {
      assert RunRows(sizes, 1, init) == 0;
    } else {
      RunLengthBounds(sizes, init);
    }
  }

  lemma FlushAxes(t: Table, m: nat, prefix: seq<nat>, run: seq<nat>)
    requires t.Valid() && ChunkCombo(t, prefix) && m < |t.dims| && Below(run, |t.dims[m].sizes|) && Consecutive(run)
    ensures Sizes(BlockAxes(Flush(t, m, prefix, run))) ==
            PrefixLens(t, m, prefix)[m := RunLength(t.dims[m].sizes, run)] + [t.outer]
  {
    var b := Flush(t, m, prefix, run);
    var a := BlockAxes(b);
    var lens := PrefixLens(t, m, prefix)[m := RunLength(t.dims[m].sizes, run)];
    RangeSize(0, t.outer);
    forall d | 0 <= d < |t.dims| ensures |a[d]| == lens[d] {
      if d == m {
        BoundMonotone(t.dims[m].sizes, run[0], run[|run| - 1] + 1);
        RunLengthBounds(t.dims[m].sizes, run);
        RangeSize(b[m].0, b[m].1);
      } else {
        RangeSize(b[d].0, b[d].1);
      }
    }
  }

  /** The blocks of one prefix. */
  function FlushAll(t: Table, m: nat, prefix: seq<nat>, runs: seq<seq<nat>>): (bs: seq<Block>)
    requires ChunkCombo(t, prefix) && m < |t.dims|
    requires forall k :: 0 <= k < |runs| ==> Below(runs[k], |t.dims[m].sizes|) && Consecutive(runs[k])
    ensures |bs| == |runs|
  {
    if runs == [] then []
    else FlushAll(t, m, prefix, runs[..|runs| - 1]) + [Flush(t, m, prefix, runs[|runs| - 1])]
  }

  lemma DistinctConcat(a: seq<nat>, b: seq<nat>)
    requires Distinct(a + b)
    ensures Distinct(a) && forall c :: c in a ==> c !in b
  {
    var all := a + b;
    forall i, j | 0 <= i < j < |a| ensures a[i] != a[j] { assert all[i] != all[j]; }
    forall i, j | 0 <= i < |a| && 0 <= j < |b| ensures a[i] != b[j] { assert all[i] != all[|a| + j]; }
  }

  lemma {:induction false} FlushAllRows(t: Table, m: nat, prefix: seq<nat>, runs: seq<seq<nat>>)
    requires t.Valid() && ChunkCombo(t, prefix) && m < |t.dims|
    requires forall k :: 0 <= k < |runs| ==> Below(runs[k], |t.dims[m].sizes|) && Consecutive(runs[k])
    requires Distinct(Flatten(runs))
    ensures forall row :: row in UnionOf(FlushAll(t, m, prefix, runs)) <==> Within(t, m, prefix, Flatten(runs), row)
    ensures Apart(FlushAll(t, m, prefix, runs))
  {
    if runs != [] {
      var init, last := runs[..|runs| - 1], runs[|runs| - 1];
      var head, all := Flatten(init), Flatten(runs);
      assert all == head + last;
      DistinctConcat(head, last);
      FlushAllRows(t, m, prefix, init);
      var b := Flush(t, m, prefix, last);
      forall row ensures row in BlockRows(b) <==> Within(t, m, prefix, last, row) {
        FlushRows(t, m, prefix, last, row);
      }
      UnionSingle(b);
      UnionConcat(FlushAll(t, m, prefix, init), [b]);
    }
  }

  /** Rows per position along the merged dimension. */
  function PerRow(t: Table, m: nat, prefix: seq<nat>): nat
    requires ChunkCombo(t, prefix) && m < |t.dims|
  {
    t.outer * Prod(PrefixLens(t, m, prefix))
  }

  /** Length of a prefix on each dimension, one on the merged dimension. */
  function PrefixLens(t: Table, m: nat, prefix: seq<nat>): (lens: seq<nat>)
    requires ChunkCombo(t, prefix) && m < |t.dims|
    ensures |lens| == |t.dims|
  {
    seq(|t.dims|, d requires 0 <= d < |t.dims| => if d == m then 1 else t.dims[d].sizes[prefix[d]])
  }

  /** The product over the other dimensions, with a placeholder on the merged one. */
  function Others(cell: Cell, m: nat): Cell
    requires m < |cell|
  {
    cell[m := [0]]
  }

  /** The blocks of a prefix cover the surviving chunks of the merged dimension greedily. */
  ghost predicate PrefixBlocks(t: Table, m: nat, prefix: seq<nat>, chunks: seq<nat>, limit: int, bs: seq<Block>) {
    && ChunkCombo(t, prefix) && m < |t.dims|
    && exists runs :: CutInto(t, m, prefix, chunks, limit, runs) && bs == FlushAll(t, m, prefix, runs)
  }

  ghost predicate CutInto(t: Table, m: nat, prefix: seq<nat>, chunks: seq<nat>, limit: int, runs: seq<seq<nat>>)
    requires ChunkCombo(t, prefix) && m < |t.dims|
  {
    Flatten(runs) == chunks && GoodRuns(t.dims[m].sizes, PerRow(t, m, prefix), limit, runs)
  }

  method PrefixBlocksOf(t: Table, m: nat, prefix: seq<nat>, chunks: seq<nat>, limit: int) returns (bs: seq<Block>)
    requires t.Valid() && ChunkCombo(t, prefix) && m < |t.dims| && ValidChunks(chunks, |t.dims[m].sizes|)
    ensures PrefixBlocks(t, m, prefix, chunks, limit, bs)
    ensures forall row :: row in UnionOf(bs) <==> Within(t, m, prefix, chunks, row)
    ensures Apart(bs)
  {
    var runs := Runs(t.dims[m].sizes, chunks, PerRow(t, m, prefix), limit);
    assert forall k :: 0 <= k < |runs| ==> GoodRun(t.dims[m].sizes, PerRow(t, m, prefix), limit, runs[k]);
    bs := FlushAll(t, m, prefix, runs);
    FlushAllRows(t, m, prefix, runs);
    assert CutInto(t, m, prefix, chunks, limit, runs);
  }

  ghost predicate InPrefixes(t: Table, m: nat, prefixes: seq<seq<nat>>, chunks: seq<nat>, row: Row)
    requires m < |t.dims| && ChunkCombos(t, prefixes)
  {
    exists k :: 0 <= k < |prefixes| && Within(t, m, prefixes[k], chunks, row)
  }

  lemma OthersValid(t: Table, cell: Cell, m: nat)
    requires t.Valid() && ValidCell(t, cell) && m < |cell|
    ensures ValidCell(t, Others(cell, m))
  {
    var o := Others(cell, m);
    forall d | 0 <= d < |o| ensures ValidChunks(o[d], |t.dims[d].sizes|) {}
  }

  function Joined(parts: seq<seq<Block>>): seq<Block> {
    if parts == [] then [] else Joined(parts[..|parts| - 1]) + parts[|parts| - 1]
  }

  /** One greedy list of blocks for each prefix, in order. */
  ghost predicate MergedBy(
    t: Table, m: nat, prefixes: seq<seq<nat>>, chunks: seq<nat>, limit: int, blocks: seq<Block>, parts: seq<seq<Block>>)
  {
    && blocks == Joined(parts) && |parts| == |prefixes|
    && forall k :: 0 <= k < |parts| ==> PrefixBlocks(t, m, prefixes[k], chunks, limit, parts[k])
  }

  /** Distinct prefixes with a placeholder on the merged dimension. */
  ghost predicate Prefixes(t: Table, m: nat, prefixes: seq<seq<nat>>) {
    && m < |t.dims| && ChunkCombos(t, prefixes) && Distinct(prefixes)
    && forall k :: 0 <= k < |prefixes| ==> prefixes[k][m] == 0
  }

  /** The loop over prefixes. */
  method CoalesceOver(t: Table, m: nat, prefixes: seq<seq<nat>>, chunks: seq<nat>, limit: int)
    returns (blocks: seq<Block>, ghost parts: seq<seq<Block>>)
    requires t.Valid() && Prefixes(t, m, prefixes) && ValidChunks(chunks, |t.dims[m].sizes|)
    ensures Apart(blocks)
    ensures forall row :: row in UnionOf(blocks) <==> InPrefixes(t, m, prefixes, chunks, row)
    ensures MergedBy(t, m, prefixes, chunks, limit, blocks, parts)
  {
    blocks := [];
    parts := [];
    for i := 0 to |prefixes|
      invariant Apart(blocks)
      invariant Covering(t, m, prefixes[..i], chunks, blocks)
      invariant MergedBy(t, m, prefixes[..i], chunks, limit, blocks, parts)
    {
      var bs := PrefixBlocksOf(t, m, prefixes[i], chunks, limit);
      PrefixStep(t, m, prefixes, i, chunks, blocks, bs);
      MergedStep(t, m, prefixes, i, chunks, limit, blocks, parts, bs);
      blocks := blocks + bs;
      parts := parts + [bs];
    }
    assert prefixes[..|prefixes|] == prefixes;
  }

  ghost predicate Covering(t: Table, m: nat, prefixes: seq<seq<nat>>, chunks: seq<nat>, blocks: seq<Block>)
    requires m < |t.dims| && ChunkCombos(t, prefixes)
  {
    forall row :: row in UnionOf(blocks) <==> InPrefixes(t, m, prefixes, chunks, row)
  }

  lemma MergedStep(
    t: Table, m: nat, prefixes: seq<seq<nat>>, i: nat, chunks: seq<nat>, limit: int,
    blocks: seq<Block>, parts: seq<seq<Block>>, bs: seq<Block>)
    requires i < |prefixes| && MergedBy(t, m, prefixes[..i], chunks, limit, blocks, parts)
    requires PrefixBlocks(t, m, prefixes[i], chunks, limit, bs)
    ensures MergedBy(t, m, prefixes[..i + 1], chunks, limit, blocks + bs, parts + [bs])
  {
    assert (parts + [bs])[..|parts + [bs]| - 1] == parts;
    forall k | 0 <= k < i + 1 ensures PrefixBlocks(t, m, prefixes[..i + 1][k], chunks, limit, (parts + [bs])[k]) {
      if k < i { assert prefixes[..i][k] == prefixes[..i + 1][k]; }
    }
  }

  lemma PrefixStep(
    t: Table, m: nat, prefixes: seq<seq<nat>>, i: nat, chunks: seq<nat>, blocks: seq<Block>, bs: seq<Block>)
    requires Prefixes(t, m, prefixes) && i < |prefixes|
    requires Apart(blocks) && Apart(bs)
    requires Covering(t, m, prefixes[..i], chunks, blocks)
    requires forall row :: row in UnionOf(bs) <==> Within(t, m, prefixes[i], chunks, row)
    ensures Apart(blocks + bs)
    ensures Covering(t, m, prefixes[..i + 1], chunks, blocks + bs)
  {
    UnionConcat(blocks, bs);
    forall row
      ensures !(InPrefixes(t, m, prefixes[..i], chunks, row) && Within(t, m, prefixes[i], chunks, row))
      ensures InPrefixes(t, m, prefixes[..i + 1], chunks, row) <==>
              InPrefixes(t, m, prefixes[..i], chunks, row) || Within(t, m, prefixes[i], chunks, row)
    {
      PrefixSnoc(t, m, prefixes, i, chunks, row);
    }
    assert UnionOf(blocks) !! UnionOf(bs);
  }

  lemma PrefixSnoc(t: Table, m: nat, prefixes: seq<seq<nat>>, i: nat, chunks: seq<nat>, row: Row)
    requires Prefixes(t, m, prefixes) && i < |prefixes|
    ensures !(InPrefixes(t, m, prefixes[..i], chunks, row) && Within(t, m, prefixes[i], chunks, row))
    ensures InPrefixes(t, m, prefixes[..i + 1], chunks, row) <==>
            InPrefixes(t, m, prefixes[..i], chunks, row) || Within(t, m, prefixes[i], chunks, row)
  {
    if InPrefixes(t, m, prefixes[..i], chunks, row) {
      var k :| 0 <= k < i && Within(t, m, prefixes[..i][k], chunks, row);
      assert prefixes[..i + 1][k] == prefixes[k];
      if Within(t, m, prefixes[i], chunks, row) { SamePrefix(t, m, prefixes[k], prefixes[i], chunks, row); }
    }
    if InPrefixes(t, m, prefixes[..i + 1], chunks, row) {
      var k :| 0 <= k < i + 1 && Within(t, m, prefixes[..i + 1][k], chunks, row);
      if k < i { assert prefixes[..i][k] == prefixes[k]; }
    }
    if Within(t, m, prefixes[i], chunks, row) { assert prefixes[..i + 1][i] == prefixes[i]; }
  }

  /** A row fits one prefix only. */
  lemma SamePrefix(t: Table, m: nat, p: seq<nat>, q: seq<nat>, chunks: seq<nat>, row: Row)
    requires m < |t.dims| && ChunkCombo(t, p) && ChunkCombo(t, q) && p[m] == q[m]
    requires Within(t, m, p, chunks, row) && Within(t, m, q, chunks, row)
    ensures p == q
  {}

  /** The prefixes of a cell, and what their rows are. */
  lemma PrefixesCover(t: Table, cell: Cell, m: nat)
    requires t.Valid() && ValidCell(t, cell) && m < |cell|
    ensures Prefixes(t, m, Product(Others(cell, m)))
    ensures forall row :: InPrefixes(t, m, Product(Others(cell, m)), cell[m], row) <==> row in Rows(t, cell)
  {
    var others := Others(cell, m);
    OthersValid(t, cell, m);
    CellCombos(t, others);
    var prefixes := Product(others);
    forall k | 0 <= k < |prefixes| ensures prefixes[k][m] == 0 {
      assert prefixes[k] in prefixes;
      assert prefixes[k][m] in others[m];
    }
    forall row ensures InPrefixes(t, m, prefixes, cell[m], row) <==> row in Rows(t, cell) {
      PrefixRow(t, cell, m, prefixes, row);
    }
  }

  lemma PrefixRow(t: Table, cell: Cell, m: nat, prefixes: seq<seq<nat>>, row: Row)
    requires t.Valid() && ValidCell(t, cell) && m < |cell| && ChunkCombos(t, prefixes)
    requires forall c :: c in prefixes <==> Chooses(c, Others(cell, m))
    ensures InPrefixes(t, m, prefixes, cell[m], row) <==> row in Rows(t, cell)
  {
    var others := Others(cell, m);
    RowInCell(t, cell, row);
    if InPrefixes(t, m, prefixes, cell[m], row) {
      var k :| 0 <= k < |prefixes| && Within(t, m, prefixes[k], cell[m], row);
      assert Chooses(prefixes[k], others);
      forall d | 0 <= d < |cell| ensures ChunkOf(t.dims[d].sizes, row[d]) in cell[d] {
        assert prefixes[k][d] in others[d];
      }
    }
    if row in Rows(t, cell) {
      var p := ChunksOf(t, row)[m := 0];
      forall d | 0 <= d < |p| ensures p[d] in others[d] {
        assert ChunkOf(t.dims[d].sizes, row[d]) in cell[d];
      }
      assert Chooses(p, others);
      var k :| 0 <= k < |prefixes| && prefixes[k] == p;
      assert Within(t, m, prefixes[k], cell[m], row);
    }
  }

  /**
   `_coalesced_blocks`: the merged blocks are apart and hold exactly the rows of the surviving
   cells, as the one-chunk-per-block scan does; each is one run of the greedy cut of its prefix.
   */
  method CoalescedBlocks(t: Table, cell: Cell, limit: int) returns (blocks: seq<Block>, ghost parts: seq<seq<Block>>)
    requires t.Valid() && ValidCell(t, cell) && t.dims != []
    ensures Apart(blocks) && UnionOf(blocks) == Rows(t, cell)
    ensures ChunkCombos(t, Product(cell)) && UnionOf(blocks) == UnionOf(BlocksFor(t, Product(cell)))
    ensures MergedBy(t, MergeDim(t), Product(Others(cell, MergeDim(t))), cell[MergeDim(t)], limit, blocks, parts)
  {
    var m := MergeDim(t);
    PrefixesCover(t, cell, m);
    blocks, parts := CoalesceOver(t, m, Product(Others(cell, m)), cell[m], limit);
    assert UnionOf(blocks) == Rows(t, cell);
    CellBlocksCover(t, cell);
  }
}
