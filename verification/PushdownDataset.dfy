/**
 `count_rows` and what it is made of: per-dimension pruning, the classification of the surviving
 cells, and the exact scan of what is left.
 */
module PushdownDataset {
  import opened Grid
  import opened ChunkGrids
  import opened CoordTables
  import opened Shadow = DimShadow
  import opened StrictPartition
  import opened BlockScan
  import opened Wrappers

  // ---------------------------------------------------------------------
  // Pruning
  // ---------------------------------------------------------------------

  /** Surviving chunks of a dimension: its index's answer, or every chunk without one. */
  function Surviving(t: Table, oracle: Oracle, d: nat): seq<nat>
    requires t.Valid() && d < |t.dims|
  {
    var kept := if t.dims[d].HasIndex() then Kept(t, d, oracle) else None;
    if kept.Some? then kept.value else All(|t.dims[d].sizes|)
  }

  function SurvivingCell(t: Table, oracle: Oracle): (cell: Cell)
    requires t.Valid()
    ensures |cell| == |t.dims|
  {
    seq(|t.dims|, d requires 0 <= d < |t.dims| => Surviving(t, oracle, d))
  }

  /** Pruning keeps every row on which the filter is true. */
  lemma PruneSound(t: Table, oracle: Oracle, f: Filter)
    requires t.Valid() && Sound(oracle, t, f, True)
    ensures ValidCell(t, SurvivingCell(t, oracle))
    ensures forall row :: IsRow(t, row) && f(row) == True ==> row in Rows(t, SurvivingCell(t, oracle))
  {
    var cell := SurvivingCell(t, oracle);
    forall d | 0 <= d < |cell|
      ensures ValidChunks(cell[d], |t.dims[d].sizes|)
      ensures forall row :: IsRow(t, row) && f(row) == True ==> ChunkOf(t.dims[d].sizes, row[d]) in cell[d]
    {
      SurvivingSound(t, oracle, f, d);
    }
    forall row | IsRow(t, row) && f(row) == True ensures row in Rows(t, cell) {
      RowInCell(t, cell, row);
    }
  }

  lemma SurvivingSound(t: Table, oracle: Oracle, f: Filter, d: nat)
    requires t.Valid() && d < |t.dims| && Sound(oracle, t, f, True)
    ensures SoundChoice(t, d, f, True, Surviving(t, oracle, d))
    ensures ValidChunks(Surviving(t, oracle, d), |t.dims[d].sizes|)
  {
    KeptSound(t, d, oracle, f, True);
    forall row | IsRow(t, row) ensures ChunkOf(t.dims[d].sizes, row[d]) in All(|t.dims[d].sizes|) {
      var c := ChunkOf(t.dims[d].sizes, row[d]);
      assert All(|t.dims[d].sizes|)[c] == c;
    }
  }

  // ---------------------------------------------------------------------
  // Classification, as the nested function with its two accumulators
  // ---------------------------------------------------------------------

  /** The loop that halves the widest dimension. */
  method BucketCounts(cell: Cell) returns (ks: seq<nat>)
    requires forall d :: 0 <= d < |cell| ==> cell[d] != []
    ensures ks == LevelBuckets(cell)
  {
    ks := Lens(cell);
    while Prod(ks) > LEVEL_BUDGET
      invariant |ks| == |cell| && AllPositive(ks)
      invariant Shrunk(ks) == Shrunk(Lens(cell))
      decreases Prod(ks)
    {
      if ks == [] { break; }
      var widest := Widest(ks);
      if ks[widest] == 1 { break; }
      ProdHalved(ks, widest);
      ks := ks[widest := ks[widest] / 2];
    }
  }

  class Classifier {
    const t: Table
    const pos: Oracle
    const neg: Oracle
    ghost const f: Filter
    var proven: nat
    var boundary: seq<Block>

    ghost predicate Valid() {
      t.Valid() && Sound(pos, t, f, True) && Sound(neg, t, f, False)
    }

    constructor (t: Table, pos: Oracle, neg: Oracle, ghost f: Filter)
      requires t.Valid() && Sound(pos, t, f, True) && Sound(neg, t, f, False)
      ensures Valid() && proven == 0 && boundary == []
      ensures this.t == t && this.pos == pos && this.neg == neg && this.f == f
    {
      this.t, this.pos, this.neg, this.f := t, pos, neg, f;
      proven, boundary := 0, [];
    }

    /** The accumulators have grown by exactly these parts. */
    twostate predicate Grown(parts: Parts)
      reads this
    {
      Accumulated(old(proven), old(boundary), proven, boundary, parts)
    }

    /** The two passes of the simplifier over a level: does either raise? */
    method LevelPasses(cell: Cell, ks: seq<nat>, combos: seq<seq<nat>>) returns (ok: bool)
      requires Level(t, cell, ks, combos)
      ensures ok <==> !LevelRaises(t, pos, neg, cell, ks, combos)
    {
      for i := 0 to |combos|
        invariant forall j :: 0 <= j < i ==> !Raised(t, pos, neg, SubcellAt(t, cell, ks, combos, j))
      {
        SubcellLive(t, cell, ks, combos[i]);
        if Raised(t, pos, neg, Subcell(cell, ks, combos[i])) {
          assert Raised(t, pos, neg, SubcellAt(t, cell, ks, combos, i));
          return false;
        }
      }
      return true;
    }

    /** `classify`: prove, prune or split one cell; false when the simplifier raised. */
    method Classify(cell: Cell, depth: nat) returns (ok: bool)
      requires Valid() && Live(t, cell) && depth <= MAX_DEPTH
      modifies this
      ensures ok <==> StrictPartition.Classify(t, pos, neg, cell, depth).Some?
      ensures ok ==> Grown(StrictPartition.Classify(t, pos, neg, cell, depth).value)
      decreases MAX_DEPTH - depth, 4
    {
      LevelHolds(t, cell);
      var ks := BucketCounts(cell);
      ok := ClassifyLevel(cell, ks, LevelCombos(ks), depth);
    }

    method ClassifyLevel(cell: Cell, ks: seq<nat>, combos: seq<seq<nat>>, depth: nat) returns (ok: bool)
      requires Valid() && Level(t, cell, ks, combos) && depth <= MAX_DEPTH
      modifies this
      ensures ok <==> StrictPartition.ClassifyLevel(t, pos, neg, cell, ks, combos, depth).Some?
      ensures ok ==> Grown(StrictPartition.ClassifyLevel(t, pos, neg, cell, ks, combos, depth).value)
      decreases MAX_DEPTH - depth, 3
    {
      ok := LevelPasses(cell, ks, combos);
      if !ok { return; }
      ghost var ones := Ones(t, pos, neg, cell, ks, combos, depth);
      ghost var proven0, boundary0 := proven, boundary;
      LevelAddsUp(t, pos, neg, f, cell, ks, combos, depth);
      JoinAllNothing(ones, proven0, boundary0);
      for i := 0 to |combos|
        invariant JoinAll(ones[..i]).Some?
        invariant Accumulated(proven0, boundary0, proven, boundary, JoinAll(ones[..i]).value)
      {
        ghost var proven1, boundary1 := proven, boundary;
        ok := ClassifyNext(cell, ks, combos, depth, i);
        if !ok {
          JoinAllNone(ones, i);
          return;
        }
        AccumulateStep(proven0, boundary0, proven1, boundary1, proven, boundary, ones, i);
      }
      assert ones[..|ones|] == ones;
    }

    /** The `i`-th bucket product of a level. */
    method ClassifyNext(cell: Cell, ks: seq<nat>, combos: seq<seq<nat>>, depth: nat, i: nat) returns (ok: bool)
      requires Valid() && Level(t, cell, ks, combos) && depth <= MAX_DEPTH && i < |combos|
      modifies this
      ensures ok <==> Ones(t, pos, neg, cell, ks, combos, depth)[i].Some?
      ensures ok ==> Grown(Ones(t, pos, neg, cell, ks, combos, depth)[i].value)
      decreases MAX_DEPTH - depth, 2
    {
      SubcellLive(t, cell, ks, combos[i]);
      ok := ClassifyOne(Subcell(cell, ks, combos[i]), depth);
    }

    /** The decision on one bucket product. */
    method ClassifyOne(sub: Cell, depth: nat) returns (ok: bool)
      requires Valid() && Live(t, sub) && depth <= MAX_DEPTH
      modifies this
      ensures ok <==> StrictPartition.ClassifyOne(t, pos, neg, sub, depth).Some?
      ensures ok ==> Grown(StrictPartition.ClassifyOne(t, pos, neg, sub, depth).value)
      decreases MAX_DEPTH - depth, 1
    {
      var g := CellGuarantee(t, sub);
      if g.Some? {
        if pos(g.value) == Unsatisfiable {
          return true;
        }
        if neg(g.value) == Unsatisfiable {
          RowCountIsSize(t, sub);
          proven := proven + RowCount(t, sub);
          return true;
        }
      }
      assert Decide(pos, neg, g) == Mixed;
      ok := Descend(sub, depth);
    }

    /** A mixed bucket product: scan it, split it, or at the depth backstop scan every chunk of it. */
    method Descend(sub: Cell, depth: nat) returns (ok: bool)
      requires Valid() && Live(t, sub) && depth <= MAX_DEPTH
      requires Decide(pos, neg, CellGuarantee(t, sub)) == Mixed
      modifies this
      ensures ok <==> StrictPartition.ClassifyOne(t, pos, neg, sub, depth).Some?
      ensures ok ==> Grown(StrictPartition.ClassifyOne(t, pos, neg, sub, depth).value)
      decreases MAX_DEPTH - depth, 0
    {
      if AllSingle(sub) {
        BlockForRows(t, sub);
        var block := BlockFor(t, OnlyCombo(sub));
        boundary := boundary + [block];
        assert StrictPartition.ClassifyOne(t, pos, neg, sub, depth) == Some(Parts({}, [block]));
        ok := true;
      } else if depth < MAX_DEPTH {
        ok := Classify(sub, depth + 1);
      } else {
        CellCombos(t, sub);
        var blocks := BlocksFor(t, Product(sub));
        boundary := boundary + blocks;
        assert StrictPartition.ClassifyOne(t, pos, neg, sub, depth) == Some(Parts({}, blocks));
        ok := true;
      }
    }
  }

  ghost predicate Accumulated(proven0: nat, boundary0: seq<Block>, proven1: nat, boundary1: seq<Block>, parts: Parts) {
    proven1 == proven0 + |parts.proven| && boundary1 == boundary0 + parts.boundary
  }

  lemma JoinAllNothing(ones: seq<Option<Parts>>, proven0: nat, boundary0: seq<Block>)
    ensures JoinAll(ones[..0]).Some? && Accumulated(proven0, boundary0, proven0, boundary0, JoinAll(ones[..0]).value)
  {}

  lemma AccumulateStep(
    proven0: nat, boundary0: seq<Block>, proven1: nat, boundary1: seq<Block>, proven2: nat, boundary2: seq<Block>,
    ones: seq<Option<Parts>>, i: nat)
    requires i < |ones| && AddsUp(ones, i) && JoinAll(ones[..i]).Some? && ones[i].Some?
    requires Accumulated(proven0, boundary0, proven1, boundary1, JoinAll(ones[..i]).value)
    requires Accumulated(proven1, boundary1, proven2, boundary2, ones[i].value)
    ensures JoinAll(ones[..i + 1]).Some?
    ensures Accumulated(proven0, boundary0, proven2, boundary2, JoinAll(ones[..i + 1]).value)
  {
    JoinAllSnoc(ones, i);
  }

  lemma {:induction false} JoinAllNone(ones: seq<Option<Parts>>, i: nat)
    requires i <= |ones| && (JoinAll(ones[..i]).None? || (i < |ones| && ones[i].None?))
    ensures JoinAll(ones).None?
    decreases |ones| - i
  {
    if i < |ones| {
      JoinAllSnoc(ones, i);
      JoinAllNone(ones, i + 1);
    } else {
      assert ones[..i] == ones;
    }
  }

  /** Adding one bucket product adds its proven rows, because they are new. */
  lemma NewlyProven(t: Table, f: Filter, cell: Cell, ks: seq<nat>, combos: seq<seq<nat>>, ones: seq<Option<Parts>>,
                    i: nat)
    requires Level(t, cell, ks, combos) && EachAccounts(t, f, cell, ks, combos, ones) && i < |ones|
    requires JoinAll(ones[..i]).Some? && ones[i].Some?
    ensures JoinAll(ones[..i + 1]).Some?
    ensures |JoinAll(ones[..i + 1]).value.proven| == |JoinAll(ones[..i]).value.proven| + |ones[i].value.proven|
  {
    UpToAccounts(t, f, cell, ks, combos, ones, i);
    JoinAllSnoc(ones, i);
    RegionStep(t, cell, ks, combos, i);
    var before, one := JoinAll(ones[..i]).value.proven, ones[i].value.proven;
    assert before !! one;
    assert |before + one| == |before| + |one|;
  }

  /** Joining one more bucket product adds its proven rows. */
  ghost predicate AddsUp(ones: seq<Option<Parts>>, i: nat)
    requires i < |ones|
  {
    JoinAll(ones[..i]).Some? && ones[i].Some? ==>
      JoinAll(ones[..i + 1]).Some? &&
      |JoinAll(ones[..i + 1]).value.proven| == |JoinAll(ones[..i]).value.proven| + |ones[i].value.proven|
  }

  lemma LevelAddsUp(
    t: Table, pos: Oracle, neg: Oracle, f: Filter, cell: Cell, ks: seq<nat>, combos: seq<seq<nat>>, depth: nat)
    requires Level(t, cell, ks, combos) && depth <= MAX_DEPTH
    requires Sound(pos, t, f, True) && Sound(neg, t, f, False)
    ensures var ones := Ones(t, pos, neg, cell, ks, combos, depth);
            forall i :: 0 <= i < |ones| ==> AddsUp(ones, i)
  {
    var ones := Ones(t, pos, neg, cell, ks, combos, depth);
    OnesAccount(t, pos, neg, f, cell, ks, combos, depth);
    forall i | 0 <= i < |ones| ensures AddsUp(ones, i) {
      if JoinAll(ones[..i]).Some? && ones[i].Some? {
        NewlyProven(t, f, cell, ks, combos, ones, i);
      }
    }
  }

  // ---------------------------------------------------------------------
  // Counting
  // ---------------------------------------------------------------------

  /** Nothing to partition: no grid dimension, or one without a surviving chunk. */
  predicate NoCells(cell: Cell) {
    cell == [] || exists d :: 0 <= d < |cell| && cell[d] == []
  }

  /** The rows a filtered count adds without reading them. */
  ghost function ProvenRows(t: Table, pos: Oracle, neg: Oracle): set<Row>
    requires t.Valid() && ValidCell(t, SurvivingCell(t, pos))
  {
    var cell := SurvivingCell(t, pos);
    if NoCells(cell) then {}
    else
      match StrictPartition.Classify(t, pos, neg, cell, 0)
      case None => {}
      case Some(parts) => parts.proven
  }

  /** Proven rows plus scanned matches: all the matches, and the proven rows on which the filter is NULL. */
  lemma AccountedCount(t: Table, f: Filter, region: set<Row>, parts: Parts)
    requires t.Valid() && Accounts(t, f, region, parts)
    requires region <= AllRows(t)
    requires forall r :: r in AllRows(t) && f(r) == True ==> r in region
    ensures |parts.proven| + |Matching(UnionOf(parts.boundary), f, True)| ==
            |Matching(AllRows(t), f, True)| + |Matching(parts.proven, f, Null)|
  {
    var scanned := UnionOf(parts.boundary);
    assert Matching(AllRows(t), f, True) == Matching(parts.proven + scanned, f, True);
    MatchingUnion(parts.proven, scanned, f, True);
    TrueOrNull(parts.proven, f);
  }

  lemma TrueOrNull(rows: set<Row>, f: Filter)
    requires forall r :: r in rows ==> f(r) != False
    ensures |rows| == |Matching(rows, f, True)| + |Matching(rows, f, Null)|
  {
    var yes, unknown := Matching(rows, f, True), Matching(rows, f, Null);
    assert rows == yes + unknown && yes !! unknown;
  }

  lemma CellInTable(t: Table, cell: Cell)
    requires |cell| == |t.dims|
    ensures Rows(t, cell) <= AllRows(t)
  {
    forall r | r in Rows(t, cell) ensures r in AllRows(t) {
      RowInCell(t, cell, r);
      RowInTable(t, r);
    }
  }

  /** The filter has a truth value on every row a complete guarantee can cover. */
  ghost predicate NeverNullWhereCovered(t: Table, f: Filter)
    requires t.Valid()
  {
    forall r :: IsRow(t, r) && Covered(t, r) ==> f(r) != Null
  }

  /** Proven rows are rows covered by a complete guarantee, and the filter is false on none of them. */
  lemma ProvenNotFalse(t: Table, pos: Oracle, neg: Oracle, f: Filter)
    requires t.Valid() && Sound(pos, t, f, True) && Sound(neg, t, f, False)
    ensures ValidCell(t, SurvivingCell(t, pos))
    ensures forall r :: r in ProvenRows(t, pos, neg) ==> IsRow(t, r) && Covered(t, r) && f(r) != False
  {
    PruneSound(t, pos, f);
    var cell := SurvivingCell(t, pos);
    if !NoCells(cell) && StrictPartition.Classify(t, pos, neg, cell, 0).Some? {
      ClassifyAccounts(t, pos, neg, f, cell, 0);
    }
  }

  /** A filter that is never NULL where a guarantee is complete has no NULL proven row. */
  lemma CoveredFiltersCountExactly(t: Table, pos: Oracle, neg: Oracle, f: Filter)
    requires t.Valid() && Sound(pos, t, f, True) && Sound(neg, t, f, False)
    requires NeverNullWhereCovered(t, f)
    ensures ValidCell(t, SurvivingCell(t, pos))
    ensures Matching(ProvenRows(t, pos, neg), f, Null) == {}
  {
    ProvenNotFalse(t, pos, neg, f);
  }

  /** The pruning indexes of a table: one for every dimension that can have one. */
  ghost predicate IndexesOf(t: Table, shadows: seq<Option<Shadow.DimShadow>>, n: nat)
    requires t.Valid() && n <= |t.dims|
    reads set d | 0 <= d < |shadows| && shadows[d].Some? :: shadows[d].value
  {
    && |shadows| == n
    && (forall d :: 0 <= d < n ==> (shadows[d].Some? <==> t.dims[d].HasIndex()))
    && (forall d :: 0 <= d < n && shadows[d].Some? ==>
          shadows[d].value.t == t && shadows[d].value.d == d && shadows[d].value.Valid())
  }

  class PushdownDataset {
    const t: Table
    var shadows: Option<seq<Option<Shadow.DimShadow>>>

    ghost predicate Valid()
      reads this, Indexes()
    {
      t.Valid() && (shadows.Some? ==> IndexesOf(t, shadows.value, |t.dims|))
    }

    ghost function Indexes(): set<object>
      reads this
    {
      if shadows.None? then {}
      else set d | 0 <= d < |shadows.value| && shadows.value[d].Some? :: shadows.value[d].value
    }

    constructor (t: Table)
      requires t.Valid()
      ensures Valid() && this.t == t && shadows.None?
    {
      this.t := t;
      shadows := None;
    }

    /** `_dim_shadows`: one index per dimension that can have one, built on first use. */
    method DimShadows()
      requires Valid()
      modifies this
      ensures Valid() && shadows.Some?
      ensures old(shadows).Some? ==> shadows == old(shadows)
      ensures old(shadows).None? ==> fresh(Indexes())
    {
      if shadows.Some? { return; }
      var built: seq<Option<Shadow.DimShadow>> := [];
      for d := 0 to |t.dims|
        invariant shadows.None? && IndexesOf(t, built, d)
        invariant forall e :: 0 <= e < d && built[e].Some? ==> fresh(built[e].value)
      {
        var shadow := None;
        if t.dims[d].HasIndex() {
          var index := new Shadow.DimShadow(t, d);
          shadow := Some(index);
        }
        built := built + [shadow];
      }
      shadows := Some(built);
    }

    /** `_prune` and `_surviving` together: the surviving chunks of every dimension. */
    method Survivors(oracle: Oracle) returns (cell: Cell)
      requires Valid()
      modifies this, Indexes()
      ensures Valid() && shadows.Some? && fresh(Indexes() - old(Indexes()))
      ensures cell == SurvivingCell(t, oracle)
    {
      DimShadows();
      cell := [];
      for d := 0 to |t.dims|
        invariant Valid() && shadows.Some? && fresh(Indexes() - old(Indexes()))
        invariant |cell| == d && forall e :: 0 <= e < d ==> cell[e] == Surviving(t, oracle, e)
      {
        var chunks := SurvivorsOf(oracle, d);
        cell := cell + [chunks];
      }
    }

    method SurvivorsOf(oracle: Oracle, d: nat) returns (chunks: seq<nat>)
      requires Valid() && shadows.Some? && d < |t.dims|
      modifies Indexes()
      ensures Valid()
      ensures chunks == Surviving(t, oracle, d)
    {
      var kept := None;
      var shadow := shadows.value[d];
      if shadow.Some? {
        assert shadow.value in Indexes();
        kept := shadow.value.Keep(oracle);
      }
      chunks := if kept.Some? then kept.value else All(|t.dims[d].sizes|);
    }

    /** `_strict_partition`: rows proven, and the blocks to scan. */
    method Partition(cell: Cell, pos: Oracle, neg: Oracle, ghost f: Filter) returns (proven: nat, boundary: seq<Block>)
      requires t.Valid() && ValidCell(t, cell)
      requires Sound(pos, t, f, True) && Sound(neg, t, f, False)
      ensures NoCells(cell) ==> proven == 0 && boundary == []
      ensures !NoCells(cell) ==>
                match StrictPartition.Classify(t, pos, neg, cell, 0)
                case Some(parts) => proven == |parts.proven| && boundary == parts.boundary
                case None => proven == 0 && ChunkCombos(t, Product(cell)) && boundary == BlocksFor(t, Product(cell))
    {
      if NoCells(cell) {
        return 0, [];
      }
      var classifier := new Classifier(t, pos, neg, f);
      var ok := classifier.Classify(cell, 0);
      if ok {
        return classifier.proven, classifier.boundary;
      }
      CellCombos(t, cell);
      return 0, BlocksFor(t, Product(cell));
    }

    /**
     `count_rows` with a filter: the rows on which it is true, and nothing else but the proven rows
     on which it is NULL.
     */
    method CountRows(f: Filter, pos: Oracle, neg: Oracle) returns (count: nat)
      requires Valid() && Sound(pos, t, f, True) && Sound(neg, t, f, False)
      modifies this, Indexes()
      ensures Valid() && fresh(Indexes() - old(Indexes())) && ValidCell(t, SurvivingCell(t, pos))
      ensures count == |Matching(AllRows(t), f, True)| + |Matching(ProvenRows(t, pos, neg), f, Null)|
      ensures count == |Matching(AllRows(t), f, True)| <==> forall r :: r in ProvenRows(t, pos, neg) ==> f(r) != Null
      ensures NeverNullWhereCovered(t, f) ==> count == |Matching(AllRows(t), f, True)|
    {
      PruneSound(t, pos, f);
      NoneNull(ProvenRows(t, pos, neg), f);
      if t.dims == [] {
        OnlyBlock(t);
        count := ScanBlock([(0, t.outer)], f);
        return;
      }
      var cell := Survivors(pos);
      var proven, boundary := Partition(cell, pos, neg, f);
      var scanned := ScanBlocks(boundary, f);
      count := proven + scanned;
      CountedRight(t, pos, neg, f, boundary);
      if NeverNullWhereCovered(t, f) {
        CoveredFiltersCountExactly(t, pos, neg, f);
      }
    }

    /** `count_rows` without a filter: pure arithmetic. */
    method CountAll() returns (count: nat)
      requires t.Valid()
      ensures count == |AllRows(t)|
    {
      WholeCell(t);
      RowCountIsSize(t, Whole(t));
      count := RowCount(t, Whole(t));
    }
  }

  /** Without a dimension in the grid, one block holds every row. */
  lemma OnlyBlock(t: Table)
    requires t.dims == []
    ensures BlockRows([(0, t.outer)]) == AllRows(t)
  {
    assert BlockAxes([(0, t.outer)]) == Axes(t, Whole(t));
  }

  lemma WholeCell(t: Table)
    requires t.Valid()
    ensures ValidCell(t, Whole(t))
  {}

  lemma NoneNull(rows: set<Row>, f: Filter)
    ensures |Matching(rows, f, Null)| == 0 <==> forall r :: r in rows ==> f(r) != Null
  {
    var unknown := Matching(rows, f, Null);
    if |unknown| == 0 {
      assert unknown == {};
      forall r | r in rows ensures f(r) != Null { assert r !in unknown; }
    }
    if forall r :: r in rows ==> f(r) != Null { assert unknown == {}; }
  }

  /** The count of a partition of the surviving cell, whichever way it was obtained. */
  lemma CountedRight(t: Table, pos: Oracle, neg: Oracle, f: Filter, boundary: seq<Block>)
    requires t.Valid() && t.dims != []
    requires Sound(pos, t, f, True) && Sound(neg, t, f, False)
    requires ValidCell(t, SurvivingCell(t, pos))
    requires var cell := SurvivingCell(t, pos);
             if NoCells(cell) then boundary == []
             else
               match StrictPartition.Classify(t, pos, neg, cell, 0)
               case Some(parts) => boundary == parts.boundary
               case None => ChunkCombos(t, Product(cell)) && boundary == BlocksFor(t, Product(cell))
    ensures |ProvenRows(t, pos, neg)| + SumMatching(boundary, f) ==
            |Matching(AllRows(t), f, True)| + |Matching(ProvenRows(t, pos, neg), f, Null)|
  {
    var cell := SurvivingCell(t, pos);
    var parts := Parts(ProvenRows(t, pos, neg), boundary);
    PruneSound(t, pos, f);
    CellInTable(t, cell);
    forall r | r in AllRows(t) && f(r) == True ensures r in Rows(t, cell) {
      RowInTable(t, r);
    }
    PartitionAccounts(t, pos, neg, f, cell, parts);
    AccountedCount(t, f, Rows(t, cell), parts);
    SumMatchingUnion(boundary, f);
  }

  lemma PartitionAccounts(t: Table, pos: Oracle, neg: Oracle, f: Filter, cell: Cell, parts: Parts)
    requires t.Valid() && t.dims != []
    requires Sound(pos, t, f, True) && Sound(neg, t, f, False)
    requires ValidCell(t, cell)
    requires if NoCells(cell) then parts == Parts({}, [])
             else
               match StrictPartition.Classify(t, pos, neg, cell, 0)
               case Some(p) => parts == p
               case None => ChunkCombos(t, Product(cell)) && parts == Parts({}, BlocksFor(t, Product(cell)))
    ensures Accounts(t, f, Rows(t, cell), parts)
  {
    if NoCells(cell) {
      var d :| 0 <= d < |cell| && cell[d] == [];
      forall r ensures r !in Rows(t, cell) {
        RowInCell(t, cell, r);
      }
      assert Rows(t, cell) == {};
      AccountsNothing(t, f);
    } else if StrictPartition.Classify(t, pos, neg, cell, 0).Some? {
      ClassifyAccounts(t, pos, neg, f, cell, 0);
    } else {
      CellBlocksCover(t, cell);
    }
  }
}
