/**
 How a dataset is cut into partitions: chunk tuples per dimension, the blocks they make, and the
 default chunking of datasets that record none.
 */
module DatasetBlocks {
  import opened ChunkGrids
  import opened Grid
  import opened Wrappers

  // ---------------------------------------------------------------------
  // Chunk tuples
  // ---------------------------------------------------------------------

  /** An axis of `size` cut into chunks of `step`, the last one shorter. */
  ghost predicate CutInto(sizes: seq<nat>, size: nat, step: nat)
  {
    && Total(sizes) == size
    && sizes != []
    && forall c :: 0 <= c < |sizes| ==> if c < |sizes| - 1 then sizes[c] == step else 0 < sizes[c] <= step
  }

  function Repeated(step: nat, n: nat): (sizes: seq<nat>)
    ensures |sizes| == n && forall c :: 0 <= c < n ==> sizes[c] == step
  {
    seq(n, _ => step)
  }

  lemma {:induction false} BoundRepeated(sizes: seq<nat>, step: nat, i: nat)
    requires i <= |sizes| && forall c :: 0 <= c < i ==> sizes[c] == step
    ensures Bound(sizes, i) == i * step
  {
    if i > 0 {
      BoundRepeated(sizes, step, i - 1);
      MulSucc(i - 1, step);
    }
  }

  /** `(step,) * (size // step)`, and the remainder if there is one. */
  function Cut(size: nat, step: nat): (sizes: seq<nat>)
    requires 0 < step < size
    ensures CutInto(sizes, size, step)
  {
    var sizes := Repeated(step, size / step) + if size % step > 0 then [size % step] else [];
    BoundRepeated(sizes, step, size / step);
    DivLeast(size, step);
    assert size == step * (size / step) + size % step;
    sizes
  }

  /** Chunk tuples matching a rechunking request, from the requested sizes and existing chunks per dimension. */
  method ComputeChunks(sizes: seq<nat>, asked: seq<Option<int>>, existing: seq<Option<seq<nat>>>)
    returns (resolved: seq<seq<nat>>)
    requires |asked| == |existing| == |sizes|
    requires forall d :: 0 <= d < |sizes| && existing[d].Some? ==> Total(existing[d].value) == sizes[d]
    ensures |resolved| == |sizes|
    ensures forall d :: 0 <= d < |sizes| ==> Total(resolved[d]) == sizes[d]
    ensures forall d :: 0 <= d < |sizes| ==>
              match asked[d]
              case Some(step) =>
                if 0 < step < sizes[d] then CutInto(resolved[d], sizes[d], step) else resolved[d] == [sizes[d]]
              case None => resolved[d] == existing[d].GetOr([sizes[d]])
  {
    resolved := [];
    for d := 0 to |sizes|
      invariant |resolved| == d
      invariant forall e :: 0 <= e < d ==> Total(resolved[e]) == sizes[e]
      invariant forall e :: 0 <= e < d ==>
                  match asked[e]
                  case Some(step) =>
                    if 0 < step < sizes[e] then CutInto(resolved[e], sizes[e], step) else resolved[e] == [sizes[e]]
                  case None => resolved[e] == existing[e].GetOr([sizes[e]])
    {
      var whole := [sizes[d]];
      assert Total(whole) == Bound(whole, 0) + whole[0] == sizes[d];
      var tuple := whole;
      match asked[d] {
        case Some(step) =>
          if 0 < step < sizes[d] { tuple := Cut(sizes[d], step); }
        case None =>
          tuple := existing[d].GetOr(whole);
      }
      resolved := resolved + [tuple];
    }
  }

  // ---------------------------------------------------------------------
  // Blocks
  // ---------------------------------------------------------------------

  datatype Slice = Slice(start: nat, stop: nat)

  type Block = seq<Slice>

  function Shape(resolved: seq<seq<nat>>): (shape: seq<nat>)
    ensures |shape| == |resolved|
  {
    seq(|resolved|, d requires 0 <= d < |resolved| => Total(resolved[d]))
  }

  /** The slices of the block at one vector of chunk indices. */
  function BlockAt(resolved: seq<seq<nat>>, c: seq<nat>): (b: Block)
    requires InGrid(c, Lens(resolved))
    ensures |b| == |resolved|
  {
    seq(|resolved|, d requires 0 <= d < |resolved| => Slice(Bound(resolved[d], c[d]), Bound(resolved[d], c[d] + 1)))
  }

  /** All blocks, in the order of `itertools.product` over the chunk indices. */
  function Blocks(resolved: seq<seq<nat>>): (bs: seq<Block>)
    ensures |bs| == Prod(Lens(resolved))
  {
    seq(Prod(Lens(resolved)), b requires 0 <= b < Prod(Lens(resolved)) => BlockAt(resolved, Unravel(b, Lens(resolved))))
  }

  predicate InBlock(idx: seq<nat>, b: Block) {
    |idx| == |b| && forall d :: 0 <= d < |b| ==> b[d].start <= idx[d] < b[d].stop
  }

  ghost function HomeChunks(resolved: seq<seq<nat>>, idx: seq<nat>): (c: seq<nat>)
    requires InGrid(idx, Shape(resolved))
    ensures InGrid(c, Lens(resolved))
  {
    seq(|resolved|, d requires 0 <= d < |resolved| =>
      ChunkOf(resolved[d], (assert idx[d] < Shape(resolved)[d]; idx[d])))
  }

  lemma InHomeBlock(resolved: seq<seq<nat>>, c: seq<nat>, idx: seq<nat>)
    requires InGrid(idx, Shape(resolved)) && InGrid(c, Lens(resolved))
    ensures InBlock(idx, BlockAt(resolved, c)) <==> c == HomeChunks(resolved, idx)
  {
    var home := HomeChunks(resolved, idx);
    var b := BlockAt(resolved, c);
    forall d | 0 <= d < |resolved| ensures b[d].start <= idx[d] < b[d].stop <==> c[d] == home[d] {
      ChunkUnique(resolved[d], idx[d], c[d]);
    }
    if InBlock(idx, b) {
      forall d | 0 <= d < |resolved| ensures c[d] == home[d] {
        assert b[d].start <= idx[d] < b[d].stop;
      }
      assert c == home;
    }
  }

  /** Each index vector of the grid is in one block and in no other. */
  lemma BlocksCover(resolved: seq<seq<nat>>, idx: seq<nat>) returns (home: nat)
    requires InGrid(idx, Shape(resolved))
    ensures home < |Blocks(resolved)|
    ensures forall b :: 0 <= b < |Blocks(resolved)| ==> (InBlock(idx, Blocks(resolved)[b]) <==> b == home)
  {
    var c := HomeChunks(resolved, idx);
    home := Ravel(c, Lens(resolved));
    forall b | 0 <= b < |Blocks(resolved)| ensures InBlock(idx, Blocks(resolved)[b]) <==> b == home {
      InHomeBlock(resolved, Unravel(b, Lens(resolved)), idx);
      RavelUnravel(b, Lens(resolved));
      UnravelRavel(c, Lens(resolved));
    }
  }

  // ---------------------------------------------------------------------
  // Rows per block
  // ---------------------------------------------------------------------

  function Extents(resolved: seq<seq<nat>>, c: seq<nat>): (lens: seq<nat>)
    requires InGrid(c, Lens(resolved))
    ensures |lens| == |resolved|
  {
    seq(|resolved|, d requires 0 <= d < |resolved| => resolved[d][c[d]])
  }

  /** `_block_len`: the product of the slice lengths. */
  function BlockLen(resolved: seq<seq<nat>>, b: nat): nat
    requires b < Prod(Lens(resolved))
  {
    Prod(Extents(resolved, Unravel(b, Lens(resolved))))
  }

  lemma BlockLenIsProduct(resolved: seq<seq<nat>>, b: nat)
    requires b < |Blocks(resolved)|
    ensures forall d :: 0 <= d < |resolved| ==>
              var s := Blocks(resolved)[b][d];
              s.start <= s.stop && s.stop - s.start == Extents(resolved, Unravel(b, Lens(resolved)))[d]
  {}

  function BlockLens(resolved: seq<seq<nat>>): (lens: seq<nat>)
    ensures |lens| == Prod(Lens(resolved))
  {
    seq(Prod(Lens(resolved)), b requires 0 <= b < Prod(Lens(resolved)) => BlockLen(resolved, b))
  }

  /** Row `j` of column `c` in a table of `n` rows per column. */
  function Place(c: nat, j: nat, n: nat): nat {
    c * n + j
  }

  predicate ProductAt(f: seq<nat>, a: seq<nat>, g: seq<nat>, c: nat, j: nat)
    requires c < |a| && j < |g|
  {
    Place(c, j, |g|) < |f| && f[Place(c, j, |g|)] == a[c] * g[j]
  }

  /** The entries of `f` are the products of an entry of `a` and one of `g`, those of `g` varying fastest. */
  ghost predicate OuterProduct(f: seq<nat>, a: seq<nat>, g: seq<nat>) {
    && |f| == Place(|a|, 0, |g|)
    && forall c, j :: 0 <= c < |a| && 0 <= j < |g| ==> ProductAt(f, a, g, c, j)
  }

  lemma MulAdd(a: nat, b: nat, c: nat)
    ensures (a + b) * c == a * c + b * c
    ensures c * (a + b) == c * a + c * b
  {}

  /** A prefix of a sum of products is a product of sums and a remainder. */
  lemma {:induction false} OuterSums(f: seq<nat>, a: seq<nat>, g: seq<nat>, c: nat, j: nat)
    requires OuterProduct(f, a, g) && c < |a| && j <= |g|
    ensures Place(c, j, |g|) <= |f|
    ensures Bound(f, Place(c, j, |g|)) == Bound(a, c) * Total(g) + a[c] * Bound(g, j)
    decreases c, j
  {
    if j > 0 {
      OuterSums(f, a, g, c, j - 1);
      assert ProductAt(f, a, g, c, j - 1);
      MulAdd(Bound(g, j - 1), g[j - 1], a[c]);
    } else if c > 0 {
      OuterSums(f, a, g, c - 1, |g|);
      MulSucc(c - 1, |g|);
      MulAdd(Bound(a, c - 1), a[c - 1], Total(g));
    }
  }

  lemma OuterTotal(f: seq<nat>, a: seq<nat>, g: seq<nat>)
    requires OuterProduct(f, a, g)
    ensures Total(f) == Total(a) * Total(g)
  {
    if a != [] {
      OuterSums(f, a, g, |a| - 1, |g|);
      MulSucc(|a| - 1, |g|);
      MulAdd(Bound(a, |a| - 1), a[|a| - 1], Total(g));
    }
  }

  /** A block number splits into the chunk of the first dimension and a block of the others. */
  lemma BlockSplit(resolved: seq<seq<nat>>, c: nat, j: nat)
    requires resolved != [] && c < |resolved[0]| && j < Prod(Lens(resolved[1..]))
    ensures Lens(resolved)[1..] == Lens(resolved[1..])
    ensures Place(c, j, Prod(Lens(resolved[1..]))) < Prod(Lens(resolved))
    ensures Unravel(Place(c, j, Prod(Lens(resolved[1..]))), Lens(resolved)) == [c] + Unravel(j, Lens(resolved[1..]))
    ensures BlockLen(resolved, Place(c, j, Prod(Lens(resolved[1..])))) == resolved[0][c] * BlockLen(resolved[1..], j)
  {
    var rest := resolved[1..];
    var n := Prod(Lens(rest));
    assert Lens(resolved)[1..] == Lens(rest);
    DigitBound(c, |resolved[0]|, j, n);
    DivModUnique(c, j, n);
    var idx := Unravel(Place(c, j, n), Lens(resolved));
    assert idx == [c] + Unravel(j, Lens(rest));
    assert Extents(resolved, idx)[1..] == Extents(rest, Unravel(j, Lens(rest)));
  }

  lemma BlockCount(resolved: seq<seq<nat>>)
    requires resolved != []
    ensures |BlockLens(resolved)| == Place(|resolved[0]|, 0, |BlockLens(resolved[1..])|)
  {
    assert Lens(resolved)[1..] == Lens(resolved[1..]);
  }

  lemma BlockLenAt(resolved: seq<seq<nat>>, c: nat, j: nat)
    requires resolved != [] && c < |resolved[0]| && j < |BlockLens(resolved[1..])|
    ensures ProductAt(BlockLens(resolved), resolved[0], BlockLens(resolved[1..]), c, j)
  {
    BlockSplit(resolved, c, j);
  }

  lemma BlockLensOuter(resolved: seq<seq<nat>>)
    requires resolved != []
    ensures OuterProduct(BlockLens(resolved), resolved[0], BlockLens(resolved[1..]))
  {
    BlockCount(resolved);
    forall c, j | 0 <= c < |resolved[0]| && 0 <= j < |BlockLens(resolved[1..])|
      ensures ProductAt(BlockLens(resolved), resolved[0], BlockLens(resolved[1..]), c, j)
    {
      BlockLenAt(resolved, c, j);
    }
  }

  /** Conservation: the blocks together have as many rows as the grid, a sum of products equal to a product of sums. */
  lemma {:induction false} RowsConserved(resolved: seq<seq<nat>>)
    ensures Total(BlockLens(resolved)) == Prod(Shape(resolved))
  {
    if resolved == [] {
      assert BlockLens(resolved) == [1];
      assert Total([1]) == Bound([1], 0) + 1;
    } else {
      BlockLensOuter(resolved);
      OuterTotal(BlockLens(resolved), resolved[0], BlockLens(resolved[1..]));
      RowsConserved(resolved[1..]);
      assert Shape(resolved)[1..] == Shape(resolved[1..]);
    }
  }

  // ---------------------------------------------------------------------
  // Contiguous blocks
  // ---------------------------------------------------------------------

  /** Size-one chunks, then one dimension cut at will, then whole dimensions. */
  predicate Nested(resolved: seq<seq<nat>>) {
    || resolved == []
    || Wholes(resolved[1..])
    || (AllOnes(resolved[0]) && Nested(resolved[1..]))
  }

  predicate AllOnes(sizes: seq<nat>) {
    forall c :: 0 <= c < |sizes| ==> sizes[c] == 1
  }

  predicate Wholes(resolved: seq<seq<nat>>) {
    forall d :: 0 <= d < |resolved| ==> |resolved[d]| == 1
  }

  /** Where a block starts in the row-major order of the grid: the flat index of its first corner. */
  function Start(resolved: seq<seq<nat>>, c: seq<nat>): nat
    requires InGrid(c, Lens(resolved))
  {
    if resolved == [] then 0
    else
      assert Lens(resolved)[1..] == Lens(resolved[1..]);
      Bound(resolved[0], c[0]) * Prod(Shape(resolved[1..])) + Start(resolved[1..], c[1..])
  }

  lemma {:induction false} WholesStart(resolved: seq<seq<nat>>, c: seq<nat>)
    requires Wholes(resolved) && InGrid(c, Lens(resolved))
    ensures Start(resolved, c) == 0
    ensures Extents(resolved, c) == Shape(resolved)
    ensures Prod(Lens(resolved)) == 1
  {
    if resolved != [] {
      assert Lens(resolved)[1..] == Lens(resolved[1..]);
      WholesStart(resolved[1..], c[1..]);
      assert Bound(resolved[0], c[0]) == 0;
      assert Total(resolved[0]) == Bound(resolved[0], 0) + resolved[0][0];
      forall d | 0 <= d < |resolved| ensures Extents(resolved, c)[d] == Shape(resolved)[d] {
        if d > 0 { assert Extents(resolved[1..], c[1..])[d - 1] == Shape(resolved[1..])[d - 1]; }
      }
    }
  }

  lemma Tails(resolved: seq<seq<nat>>)
    requires resolved != []
    ensures Lens(resolved)[1..] == Lens(resolved[1..]) && Shape(resolved)[1..] == Shape(resolved[1..])
  {}

  lemma OneOrZero(a: nat, x: nat)
    requires a == 1 || x == 0
    ensures a * x == x
  {}

  /** The prefix sum of an outer product, its two parts named. */
  lemma OuterParts(f: seq<nat>, a: seq<nat>, g: seq<nat>, c: nat, j: nat) returns (inner: int)
    requires OuterProduct(f, a, g) && c < |a| && j < |g|
    ensures Place(c, j, |g|) < |f|
    ensures Bound(f, Place(c, j, |g|)) == Bound(a, c) * Total(g) + inner
    ensures a[c] == 1 || Bound(g, j) == 0 ==> inner == Bound(g, j)
  {
    assert ProductAt(f, a, g, c, j);
    OuterSums(f, a, g, c, j);
    inner := a[c] * Bound(g, j);
    if a[c] == 1 || Bound(g, j) == 0 { OneOrZero(a[c], Bound(g, j)); }
  }

  /** Both the start of a block and the rows before it split off the first dimension alike. */
  lemma SplitFirst(resolved: seq<seq<nat>>, b: nat) returns (c: nat, j: nat, outer: int, inner: int)
    requires resolved != [] && b < Prod(Lens(resolved))
    ensures c < |resolved[0]| && j < Prod(Lens(resolved[1..]))
    ensures Start(resolved, Unravel(b, Lens(resolved))) == outer + Start(resolved[1..], Unravel(j, Lens(resolved[1..])))
    ensures Bound(BlockLens(resolved), b) == outer + inner
    ensures resolved[0][c] == 1 || Bound(BlockLens(resolved[1..]), j) == 0 ==>
              inner == Bound(BlockLens(resolved[1..]), j)
  {
    var rest := resolved[1..];
    var n := Prod(Lens(rest));
    Tails(resolved);
    DivBound(b, |resolved[0]|, n);
    c, j := b / n, b % n;
    assert b == Place(c, j, n);
    BlockSplit(resolved, c, j);
    BlockLensOuter(resolved);
    inner := OuterParts(BlockLens(resolved), resolved[0], BlockLens(rest), c, j);
    RowsConserved(rest);
    assert Unravel(b, Lens(resolved))[1..] == Unravel(j, Lens(rest));
    outer := Bound(resolved[0], c) * Prod(Shape(rest));
  }

  lemma WholesBound(resolved: seq<seq<nat>>, j: nat)
    requires Wholes(resolved) && j < Prod(Lens(resolved))
    ensures Start(resolved, Unravel(j, Lens(resolved))) == 0 && Bound(BlockLens(resolved), j) == 0
  {
    WholesStart(resolved, Unravel(j, Lens(resolved)));
  }

  /** Blocks are consecutive: each starts where the blocks before it end. */
  lemma {:induction false} StartIsRowsBefore(resolved: seq<seq<nat>>, b: nat)
    requires Nested(resolved) && b < Prod(Lens(resolved))
    ensures Start(resolved, Unravel(b, Lens(resolved))) == Bound(BlockLens(resolved), b)
  {
    if resolved != [] {
      var c, j, outer, inner := SplitFirst(resolved, b);
      if Wholes(resolved[1..]) {
        WholesBound(resolved[1..], j);
      } else {
        StartIsRowsBefore(resolved[1..], j);
      }
    }
  }

  lemma RunInside(resolved: seq<seq<nat>>, c: seq<nat>)
    requires Nested(resolved) && InGrid(c, Lens(resolved))
    ensures Start(resolved, c) + Prod(Extents(resolved, c)) <= Prod(Shape(resolved))
  {
    var b := Ravel(c, Lens(resolved));
    UnravelRavel(c, Lens(resolved));
    StartIsRowsBefore(resolved, b);
    RowsConserved(resolved);
    BoundBelowTotal(BlockLens(resolved), b);
  }

  lemma BoundBelowTotal(lens: seq<nat>, b: nat)
    requires b < |lens|
    ensures Bound(lens, b) + lens[b] <= Total(lens)
  {
    BoundMonotone(lens, b + 1, |lens|);
  }

  /** Comparing flat indices digit by digit. */
  lemma RunOfOne(x: nat, c: nat, r: nat, t: nat, start: nat, len: nat)
    requires r < t && start + len <= t
    ensures x == c && start <= r < start + len <==> c * t + start <= x * t + r < c * t + start + len
  {
    if x < c {
      MulMono(x + 1, c, t);
      MulSucc(x, t);
    } else if c < x {
      MulMono(c + 1, x, t);
      MulSucc(c, t);
    }
  }

  lemma RunOfMany(x: nat, lo: nat, n: nat, r: nat, t: nat)
    requires r < t
    ensures lo <= x < lo + n <==> lo * t <= x * t + r < lo * t + n * t
  {
    MulAdd(lo, n, t);
    if x < lo {
      MulMono(x + 1, lo, t);
      MulSucc(x, t);
    } else {
      MulMono(lo, x, t);
    }
    if x < lo + n {
      MulMono(x + 1, lo + n, t);
      MulSucc(x, t);
    } else {
      MulMono(lo + n, x, t);
    }
  }

  lemma InBlockTail(resolved: seq<seq<nat>>, c: seq<nat>, idx: seq<nat>)
    requires resolved != [] && InGrid(c, Lens(resolved)) && InGrid(idx, Shape(resolved))
    ensures InGrid(c[1..], Lens(resolved[1..])) && InGrid(idx[1..], Shape(resolved[1..]))
    ensures InBlock(idx, BlockAt(resolved, c)) <==>
            && Bound(resolved[0], c[0]) <= idx[0] < Bound(resolved[0], c[0] + 1)
            && InBlock(idx[1..], BlockAt(resolved[1..], c[1..]))
    ensures Prod(Extents(resolved, c)) == resolved[0][c[0]] * Prod(Extents(resolved[1..], c[1..]))
  {
    assert Lens(resolved)[1..] == Lens(resolved[1..]) && Shape(resolved)[1..] == Shape(resolved[1..]);
    var b := BlockAt(resolved, c);
    assert b[1..] == BlockAt(resolved[1..], c[1..]);
    assert b == [b[0]] + b[1..] && idx == [idx[0]] + idx[1..];
    assert Extents(resolved, c)[1..] == Extents(resolved[1..], c[1..]);
  }

  lemma InWholes(resolved: seq<seq<nat>>, c: seq<nat>, idx: seq<nat>)
    requires Wholes(resolved) && InGrid(c, Lens(resolved)) && InGrid(idx, Shape(resolved))
    ensures InBlock(idx, BlockAt(resolved, c))
  {
    forall d | 0 <= d < |resolved| ensures BlockAt(resolved, c)[d] == Slice(0, Shape(resolved)[d]) {
      assert c[d] == 0;
      assert Total(resolved[d]) == Bound(resolved[d], 0) + resolved[d][0];
    }
  }

  lemma RunStepWhole(resolved: seq<seq<nat>>, c: seq<nat>, idx: seq<nat>)
    requires resolved != [] && Wholes(resolved[1..]) && InGrid(c, Lens(resolved)) && InGrid(idx, Shape(resolved))
    ensures InBlock(idx, BlockAt(resolved, c)) <==>
            Start(resolved, c) <= Ravel(idx, Shape(resolved)) < Start(resolved, c) + Prod(Extents(resolved, c))
  {
    var rest := resolved[1..];
    InBlockTail(resolved, c, idx);
    assert Shape(resolved)[1..] == Shape(rest);
    WholesStart(rest, c[1..]);
    InWholes(rest, c[1..], idx[1..]);
    var t := Prod(Shape(rest));
    RunOfMany(idx[0], Bound(resolved[0], c[0]), resolved[0][c[0]], Ravel(idx[1..], Shape(rest)), t);
    assert Start(resolved, c) == Bound(resolved[0], c[0]) * t;
    assert Prod(Extents(resolved, c)) == resolved[0][c[0]] * t;
  }

  lemma OnesHead(resolved: seq<seq<nat>>, c: seq<nat>)
    requires resolved != [] && AllOnes(resolved[0]) && InGrid(c, Lens(resolved))
    ensures InGrid(c[1..], Lens(resolved[1..]))
    ensures Bound(resolved[0], c[0]) == c[0] && Bound(resolved[0], c[0] + 1) == c[0] + 1
    ensures Start(resolved, c) == c[0] * Prod(Shape(resolved[1..])) + Start(resolved[1..], c[1..])
    ensures Prod(Extents(resolved, c)) == Prod(Extents(resolved[1..], c[1..]))
  {
    assert Lens(resolved)[1..] == Lens(resolved[1..]);
    BoundRepeated(resolved[0], 1, c[0]);
    assert Extents(resolved, c)[1..] == Extents(resolved[1..], c[1..]);
  }

  lemma RunStepOne(resolved: seq<seq<nat>>, c: seq<nat>, idx: seq<nat>)
    requires resolved != [] && AllOnes(resolved[0])
    requires InGrid(c, Lens(resolved)) && InGrid(idx, Shape(resolved))
    requires InGrid(c[1..], Lens(resolved[1..])) && InGrid(idx[1..], Shape(resolved[1..]))
    requires Start(resolved[1..], c[1..]) + Prod(Extents(resolved[1..], c[1..])) <= Prod(Shape(resolved[1..]))
    ensures var rest := resolved[1..];
            var r := Ravel(idx[1..], Shape(rest));
            idx[0] == c[0] && Start(rest, c[1..]) <= r < Start(rest, c[1..]) + Prod(Extents(rest, c[1..])) <==>
            Start(resolved, c) <= Ravel(idx, Shape(resolved)) < Start(resolved, c) + Prod(Extents(resolved, c))
  {
    var rest := resolved[1..];
    OnesHead(resolved, c);
    Tails(resolved);
    RunOfOne(idx[0], c[0], Ravel(idx[1..], Shape(rest)), Prod(Shape(rest)), Start(rest, c[1..]),
      Prod(Extents(rest, c[1..])));
  }

  /** Blocks are contiguous: the cells of a block are those whose flat indices lie in one run. */
  lemma {:induction false} BlockIsRun(resolved: seq<seq<nat>>, c: seq<nat>, idx: seq<nat>)
    requires Nested(resolved) && InGrid(c, Lens(resolved)) && InGrid(idx, Shape(resolved))
    ensures InBlock(idx, BlockAt(resolved, c)) <==>
            Start(resolved, c) <= Ravel(idx, Shape(resolved)) < Start(resolved, c) + Prod(Extents(resolved, c))
  {
    if resolved != [] {
      if Wholes(resolved[1..]) {
        RunStepWhole(resolved, c, idx);
      } else {
        InBlockTail(resolved, c, idx);
        BlockIsRun(resolved[1..], c[1..], idx[1..]);
        RunInside(resolved[1..], c[1..]);
        OnesHead(resolved, c);
        RunStepOne(resolved, c, idx);
      }
    }
  }

  // ---------------------------------------------------------------------
  // Default chunks
  // ---------------------------------------------------------------------

  const DEFAULT_BLOCK_ROWS: nat := 0x10_0000

  /** The step along a dimension whose inner dimensions have `inner` rows per block. */
  function StepFor(size: nat, inner: nat): (step: nat)
    requires 0 < inner
    ensures step > 0
  {
    var fit := DEFAULT_BLOCK_ROWS / inner;
    var least := if size < fit then size else fit;
    if least > 1 then least else 1
  }

  function Steps(sizes: seq<nat>): (steps: seq<nat>)
    ensures |steps| == |sizes| && AllPositive(steps) && Prod(steps) > 0
  {
    if sizes == [] then []
    else
      var inner := Steps(sizes[1..]);
      var steps := [StepFor(sizes[0], Prod(inner))] + inner;
      ProdPositive(steps);
      steps
  }

  /** The request that leaves a dimension whole when its step reaches its size. */
  function Request(step: nat, size: nat): Option<int> {
    if step < size then Some(step) else None
  }

  lemma StepsFrom(sizes: seq<nat>, d: nat)
    requires d < |sizes|
    ensures var inner := Steps(sizes[d + 1..]);
            Steps(sizes[d..]) == [StepFor(sizes[d], Prod(inner))] + inner
            && Prod(Steps(sizes[d..])) == StepFor(sizes[d], Prod(inner)) * Prod(inner)
  {
    var inner := Steps(sizes[d + 1..]);
    assert sizes[d..][1..] == sizes[d + 1..];
    assert Steps(sizes[d..]) == [StepFor(sizes[d], Prod(inner))] + inner;
    assert Steps(sizes[d..])[1..] == inner;
  }

  function Requests(steps: seq<nat>, sizes: seq<nat>): (chunks: seq<Option<int>>)
    requires |steps| == |sizes|
    ensures |chunks| == |sizes| && forall d :: 0 <= d < |sizes| ==> chunks[d] == Request(steps[d], sizes[d])
  {
    seq(|sizes|, d requires 0 <= d < |sizes| => Request(steps[d], sizes[d]))
  }

  /** The dimensions from the inside out, each with the rows its inner dimensions take up. */
  method DefaultChunks(sizes: seq<nat>) returns (chunks: seq<Option<int>>)
    ensures chunks == Requests(Steps(sizes), sizes)
  {
    chunks := [];
    var inner: nat := 1;
    for d := |sizes| downto 0
      invariant inner == Prod(Steps(sizes[d..]))
      invariant chunks == Requests(Steps(sizes[d..]), sizes[d..])
    {
      StepsFrom(sizes, d);
      var step := StepFor(sizes[d], inner);
      assert sizes[d..] == [sizes[d]] + sizes[d + 1..];
      chunks := [Request(step, sizes[d])] + chunks;
      inner := step * inner;
    }
    assert sizes[0..] == sizes;
  }

  lemma DivAtLeastOne(a: nat, b: nat)
    requires 0 < b <= a
    ensures a / b >= 1 && (a / b) * b <= a < (a / b + 1) * b
  {
    DivLeast(a, b);
    MulSucc(a / b, b);
  }

  /** A step either covers its dimension or fills more than half of what is left. */
  lemma StepFills(size: nat, inner: nat)
    requires 0 < inner <= DEFAULT_BLOCK_ROWS
    ensures StepFor(size, inner) * inner <= DEFAULT_BLOCK_ROWS
    ensures StepFor(size, inner) < size ==> 2 * (StepFor(size, inner) * inner) > DEFAULT_BLOCK_ROWS
    ensures 2 * inner > DEFAULT_BLOCK_ROWS ==> StepFor(size, inner) == 1
  {
    var fit := DEFAULT_BLOCK_ROWS / inner;
    DivAtLeastOne(DEFAULT_BLOCK_ROWS, inner);
    MulMono(StepFor(size, inner), fit, inner);
    if StepFor(size, inner) < size {
      MulMono(fit + 1, 2 * fit, inner);
      MulAdd(fit, fit, inner);
    }
    if 2 * inner > DEFAULT_BLOCK_ROWS && fit >= 2 {
      MulMono(2, fit, inner);
      assert false;
    }
  }

  predicate CoversAll(steps: seq<nat>, sizes: seq<nat>)
    requires |steps| == |sizes|
  {
    forall d :: 0 <= d < |sizes| ==> steps[d] >= sizes[d]
  }

  /**
   A default block has at most 2^20 rows, and outside the first dimension from the inside that is
   cut every step is one: at most one dimension is cut to a size other than one.
   */
  lemma {:induction false} StepsShape(sizes: seq<nat>)
    ensures Prod(Steps(sizes)) <= 0x10_0000
    ensures CoversAll(Steps(sizes), sizes) || 2 * Prod(Steps(sizes)) > 0x10_0000
    ensures forall d, e :: 0 <= e < d < |sizes| && Steps(sizes)[d] < sizes[d] ==> Steps(sizes)[e] == 1
  {
    if sizes != [] {
      var inner := Steps(sizes[1..]);
      StepsShape(sizes[1..]);
      var step := StepFor(sizes[0], Prod(inner));
      assert Steps(sizes) == [step] + inner && Steps(sizes)[1..] == inner;
      StepFills(sizes[0], Prod(inner));
      forall d, e | 0 <= e < d < |sizes| && Steps(sizes)[d] < sizes[d] ensures Steps(sizes)[e] == 1 {
        assert inner[d - 1] < sizes[1..][d - 1];
        if e > 0 { assert inner[e - 1] == 1; }
      }
    }
  }

  /** The chunk tuples a request for default chunks resolves to. */
  ghost predicate DefaultResolved(sizes: seq<nat>, resolved: seq<seq<nat>>) {
    && |resolved| == |sizes|
    && forall d :: 0 <= d < |sizes| ==>
         if Steps(sizes)[d] < sizes[d] then CutInto(resolved[d], sizes[d], Steps(sizes)[d])
         else resolved[d] == [sizes[d]]
  }

  /** `resolve_chunks` of a dataset that is not chunked and records no storage chunks. */
  method ResolveDefault(sizes: seq<nat>) returns (resolved: seq<seq<nat>>)
    ensures DefaultResolved(sizes, resolved)
  {
    var chunks := DefaultChunks(sizes);
    resolved := ComputeChunks(sizes, chunks, seq(|sizes|, _ => None));
  }

  lemma CutByOne(sizes: seq<nat>, size: nat)
    requires CutInto(sizes, size, 1)
    ensures AllOnes(sizes)
  {}

  lemma DefaultTail(sizes: seq<nat>, resolved: seq<seq<nat>>)
    requires DefaultResolved(sizes, resolved) && sizes != []
    ensures Steps(sizes)[1..] == Steps(sizes[1..])
    ensures DefaultResolved(sizes[1..], resolved[1..])
  {
    assert Steps(sizes)[1..] == Steps(sizes[1..]);
    forall d | 0 <= d < |sizes| - 1
      ensures Steps(sizes[1..])[d] == Steps(sizes)[d + 1] && sizes[1..][d] == sizes[d + 1]
    {
      assert Steps(sizes)[1..][d] == Steps(sizes)[d + 1];
    }
  }

  lemma StepsOutside(sizes: seq<nat>, d: nat)
    requires 0 < d < |sizes| && Steps(sizes)[d] < sizes[d]
    ensures Steps(sizes)[0] == 1
  {
    StepsShape(sizes);
  }

  /** Default blocks of a nonempty grid are consecutive runs of the row-major order. */
  lemma {:induction false} DefaultIsNested(sizes: seq<nat>, resolved: seq<seq<nat>>)
    requires DefaultResolved(sizes, resolved) && AllPositive(sizes)
    ensures Nested(resolved)
  {
    if sizes != [] {
      DefaultTail(sizes, resolved);
      if !Wholes(resolved[1..]) {
        var d :| 0 <= d < |resolved[1..]| && |resolved[1..][d]| != 1;
        StepsOutside(sizes, d + 1);
        if Steps(sizes)[0] < sizes[0] { CutByOne(resolved[0], sizes[0]); }
        DefaultIsNested(sizes[1..], resolved[1..]);
      }
    }
  }

  lemma {:induction false} ProdMonotone(a: seq<nat>, b: seq<nat>)
    requires |a| == |b| && forall d :: 0 <= d < |a| ==> a[d] <= b[d]
    ensures Prod(a) <= Prod(b)
  {
    if a != [] {
      ProdMonotone(a[1..], b[1..]);
      MulMono(a[0], b[0], Prod(a[1..]));
      MulMono(Prod(a[1..]), Prod(b[1..]), b[0]);
      MulCommutes(b[0], Prod(a[1..]));
      MulCommutes(b[0], Prod(b[1..]));
    }
  }

  lemma MulCommutes(a: nat, b: nat)
    ensures a * b == b * a
  {}

  /** Every default block has at most 2^20 rows. */
  lemma DefaultBlockRows(sizes: seq<nat>, resolved: seq<seq<nat>>, b: nat)
    requires DefaultResolved(sizes, resolved) && b < Prod(Lens(resolved))
    ensures BlockLen(resolved, b) <= 0x10_0000
  {
    StepsShape(sizes);
    var c := Unravel(b, Lens(resolved));
    forall d | 0 <= d < |sizes| ensures Extents(resolved, c)[d] <= Steps(sizes)[d] {
      assert c[d] < |resolved[d]|;
    }
    ProdMonotone(Extents(resolved, c), Steps(sizes));
  }

  lemma DefaultShape(sizes: seq<nat>, resolved: seq<seq<nat>>)
    requires DefaultResolved(sizes, resolved)
    ensures Shape(resolved) == sizes
  {
    forall d | 0 <= d < |sizes| ensures Total(resolved[d]) == sizes[d] {
      if resolved[d] == [sizes[d]] { assert Total(resolved[d]) == Bound(resolved[d], 0) + sizes[d]; }
    }
  }

  /**
   Default blocks cut the rows of the table, in row-major order, into consecutive runs of at most
   2^20 rows: a cell is in block `b` exactly when its row number is in run `b`.
   */
  lemma DefaultBlocksAreRuns(sizes: seq<nat>, resolved: seq<seq<nat>>, b: nat, idx: seq<nat>)
    requires DefaultResolved(sizes, resolved) && AllPositive(sizes)
    requires b < |Blocks(resolved)| && InGrid(idx, sizes)
    ensures BlockLens(resolved)[b] <= 0x10_0000
    ensures InBlock(idx, Blocks(resolved)[b]) <==>
            Bound(BlockLens(resolved), b) <= Ravel(idx, sizes) < Bound(BlockLens(resolved), b + 1)
  {
    DefaultShape(sizes, resolved);
    DefaultIsNested(sizes, resolved);
    DefaultBlockRows(sizes, resolved, b);
    StartIsRowsBefore(resolved, b);
    BlockIsRun(resolved, Unravel(b, Lens(resolved)), idx);
  }
}
