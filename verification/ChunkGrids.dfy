/** Axes cut into chunks: cumulative bounds, the chunk of a position, and the positions of some chunks. */
module ChunkGrids {
  import opened Grid

  /** Bound `i` of the cumulative sum of the chunk lengths: where chunk `i` starts. */
  function Bound(sizes: seq<nat>, i: nat): nat
    requires i <= |sizes|
  {
    if i == 0 then 0 else Bound(sizes, i - 1) + sizes[i - 1]
  }

  function Total(sizes: seq<nat>): nat {
    Bound(sizes, |sizes|)
  }

  lemma {:induction false} BoundMonotone(sizes: seq<nat>, i: nat, j: nat)
    requires i <= j <= |sizes|
    ensures Bound(sizes, i) <= Bound(sizes, j)
    decreases j - i
  {
    if i < j { BoundMonotone(sizes, i, j - 1); }
  }

  predicate InChunk(sizes: seq<nat>, c: nat, p: nat)
    requires c < |sizes|
  {
    Bound(sizes, c) <= p < Bound(sizes, c + 1)
  }

  /** The chunk of a position. */
  ghost function ChunkOf(sizes: seq<nat>, p: nat): (c: nat)
    requires p < Total(sizes)
    ensures c < |sizes| && InChunk(sizes, c, p)
  {
    Search(sizes, p, |sizes|)
  }

  ghost function Search(sizes: seq<nat>, p: nat, k: nat): (c: nat)
    requires k <= |sizes| && p < Bound(sizes, k)
    ensures c < |sizes| && InChunk(sizes, c, p)
  {
    if p >= Bound(sizes, k - 1) then k - 1 else Search(sizes, p, k - 1)
  }

  /** A position lies in no other chunk. */
  lemma ChunkUnique(sizes: seq<nat>, p: nat, c: nat)
    requires c < |sizes|
    ensures InChunk(sizes, c, p) <==> p < Total(sizes) && ChunkOf(sizes, p) == c
  {
    if InChunk(sizes, c, p) {
      BoundMonotone(sizes, c + 1, |sizes|);
      var o := ChunkOf(sizes, p);
      if o < c {
        BoundMonotone(sizes, o + 1, c);
      } else if c < o {
        BoundMonotone(sizes, c + 1, o);
      }
    }
  }

  predicate Below(chunks: seq<nat>, n: nat) {
    forall i :: 0 <= i < |chunks| ==> chunks[i] < n
  }

  ghost predicate ValidChunks(chunks: seq<nat>, n: nat) {
    Distinct(chunks) && Below(chunks, n)
  }

  /** The positions inside the given chunks. */
  ghost function Positions(sizes: seq<nat>, chunks: seq<nat>): set<nat> {
    set p | p in Range(0, Total(sizes)) && ChunkOf(sizes, p) in chunks
  }

  /** Rows a list of chunks spans along the axis. */
  function Length(sizes: seq<nat>, chunks: seq<nat>): nat
    requires Below(chunks, |sizes|)
  {
    if chunks == [] then 0 else sizes[chunks[0]] + Length(sizes, chunks[1..])
  }

  lemma SingleChunk(sizes: seq<nat>, c: nat)
    requires c < |sizes|
    ensures Positions(sizes, [c]) == Range(Bound(sizes, c), Bound(sizes, c + 1))
  {
    BoundMonotone(sizes, c + 1, |sizes|);
    forall p: nat ensures p in Positions(sizes, [c]) <==> p in Range(Bound(sizes, c), Bound(sizes, c + 1)) {
      ChunkUnique(sizes, p, c);
    }
  }

  lemma {:induction false} PositionsLength(sizes: seq<nat>, chunks: seq<nat>)
    requires ValidChunks(chunks, |sizes|)
    ensures |Positions(sizes, chunks)| == Length(sizes, chunks)
  {
    if chunks == [] {
      assert Positions(sizes, chunks) == {};
    } else {
      var c, rest := chunks[0], chunks[1..];
      assert chunks == [c] + rest;
      assert c !in rest;
      PositionsLength(sizes, rest);
      SingleChunk(sizes, c);
      RangeSize(Bound(sizes, c), Bound(sizes, c + 1));
      assert Positions(sizes, chunks) == Positions(sizes, [c]) + Positions(sizes, rest);
      assert Positions(sizes, [c]) !! Positions(sizes, rest);
    }
  }

  /** The chunks of an axis, in order. */
  function All(n: nat): (s: seq<nat>)
    ensures |s| == n && forall i :: 0 <= i < n ==> s[i] == i
  {
    seq(n, i requires 0 <= i < n => i)
  }

  // ---------------------------------------------------------------------
  // np.array_split
  // ---------------------------------------------------------------------

  /** Start of part `b` when `n` items are split into `k` nearly equal parts, the longer ones first. */
  function SplitAt(n: nat, k: nat, b: nat): nat
    requires k > 0
  {
    b * (n / k) + if b < n % k then b else n % k
  }

  lemma SplitStep(n: nat, k: nat, b: nat)
    requires k > 0
    ensures SplitAt(n, k, b + 1) == SplitAt(n, k, b) + n / k + (if b < n % k then 1 else 0)
  {
    MulSucc(b, n / k);
  }

  lemma {:induction false} SplitMonotone(n: nat, k: nat, a: nat, b: nat)
    requires k > 0 && a <= b
    ensures SplitAt(n, k, a) <= SplitAt(n, k, b)
    decreases b - a
  {
    if a < b {
      SplitMonotone(n, k, a, b - 1);
      SplitStep(n, k, b - 1);
    }
  }

  lemma SplitEnds(n: nat, k: nat)
    requires k > 0
    ensures SplitAt(n, k, 0) == 0 && SplitAt(n, k, k) == n
  {
    assert n == k * (n / k) + n % k;
  }

  /** Part `b` of the split. */
  function Part<T>(xs: seq<T>, k: nat, b: nat): (part: seq<T>)
    requires b < k
    ensures SplitAt(|xs|, k, b) <= SplitAt(|xs|, k, b + 1) <= |xs|
    ensures part == xs[SplitAt(|xs|, k, b)..SplitAt(|xs|, k, b + 1)]
  {
    SplitMonotone(|xs|, k, b, b + 1);
    SplitMonotone(|xs|, k, b + 1, k);
    SplitEnds(|xs|, k);
    xs[SplitAt(|xs|, k, b)..SplitAt(|xs|, k, b + 1)]
  }

  /** The part an index falls in. */
  lemma SplitHome(n: nat, k: nat, i: nat) returns (b: nat)
    requires k > 0 && i < n
    ensures b < k && SplitAt(n, k, b) <= i < SplitAt(n, k, b + 1)
    ensures forall a :: 0 <= a < k && SplitAt(n, k, a) <= i < SplitAt(n, k, a + 1) ==> a == b
  {
    SplitEnds(n, k);
    b := 0;
    while i >= SplitAt(n, k, b + 1)
      invariant b < k && SplitAt(n, k, b) <= i
      decreases k - b
    {
      b := b + 1;
    }
    forall a | 0 <= a < k && SplitAt(n, k, a) <= i < SplitAt(n, k, a + 1) ensures a == b {
      if a < b { SplitMonotone(n, k, a + 1, b); } else if b < a { SplitMonotone(n, k, b + 1, a); }
    }
  }

  /** Splitting distinct items: each is in exactly one part. */
  lemma SplitMembers<T>(xs: seq<T>, k: nat, x: T) returns (b: nat)
    requires k > 0 && Distinct(xs) && x in xs
    ensures b < k && forall a :: 0 <= a < k ==> (x in Part(xs, k, a) <==> a == b)
  {
    var i :| 0 <= i < |xs| && xs[i] == x;
    b := SplitHome(|xs|, k, i);
    forall a | 0 <= a < k ensures x in Part(xs, k, a) <==> a == b {
      InPart(xs, k, a, i);
    }
  }

  lemma InPart<T>(xs: seq<T>, k: nat, a: nat, i: nat)
    requires a < k && Distinct(xs) && i < |xs|
    ensures xs[i] in Part(xs, k, a) <==> SplitAt(|xs|, k, a) <= i < SplitAt(|xs|, k, a + 1)
  {
    var part, lo := Part(xs, k, a), SplitAt(|xs|, k, a);
    if xs[i] in part {
      var j :| 0 <= j < |part| && part[j] == xs[i];
      assert xs[lo + j] == xs[i];
    }
    if lo <= i < SplitAt(|xs|, k, a + 1) { assert part[i - lo] == xs[i]; }
  }

  lemma PartOf<T>(xs: seq<T>, k: nat, b: nat)
    requires b < k
    ensures var part := Part(xs, k, b); (Distinct(xs) ==> Distinct(part)) && forall x :: x in part ==> x in xs
  {
    var part, lo := Part(xs, k, b), SplitAt(|xs|, k, b);
    forall x | x in part ensures x in xs {
      var j :| 0 <= j < |part| && part[j] == x;
      assert xs[lo + j] == x;
    }
    if Distinct(xs) {
      forall i, j | 0 <= i < j < |part| ensures part[i] != part[j] {
        assert xs[lo + i] != xs[lo + j];
      }
    }
  }

  /** Parts are nonempty, a full split gives single items, and any real split gives shorter parts. */
  lemma PartLength<T>(xs: seq<T>, k: nat, b: nat)
    requires b < k <= |xs|
    ensures var part := Part(xs, k, b);
            && |part| >= 1
            && (k == |xs| ==> |part| == 1)
            && (2 <= k ==> |part| < |xs|)
  {
    var n := |xs|;
    SplitStep(n, k, b);
    DivLeast(n, k);
    assert n == k * (n / k) + n % k;
    if k == n {
      DivModUnique(1, 0, k);
      assert n == 1 * k + 0;
    } else if k >= 2 {
      MulMono(2, k, n / k);
      assert k * (n / k) == (n / k) * k;
    }
  }

  lemma DivLeast(n: nat, k: nat)
    requires 0 < k <= n
    ensures n / k >= 1
  {
    assert n == k * (n / k) + n % k;
  }
}
