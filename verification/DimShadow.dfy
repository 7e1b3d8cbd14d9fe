/**
 The chunk-pruning index of one dimension: one level of guarantees, or coarse buckets of chunks
 with fine levels built and cached when a query first needs them.
 */
module DimShadow {
  import opened Grid
  import opened ChunkGrids
  import opened CoordTables
  import opened Wrappers

  const FANOUT: nat := 1024

  /** Chunks per coarse bucket: one when the axis needs no second level. */
  function Step(n: nat): (step: nat)
    ensures step >= 1 && step * 1024 >= n
    ensures n > 0 ==> (step - 1) * 1024 < n
  {
    if n == 0 then 1 else (n + FANOUT - 1) / FANOUT
  }

  /** Number of buckets, never above the fan-out. */
  function Buckets(n: nat): (k: nat)
    ensures k <= FANOUT && k * Step(n) >= n
    ensures k > 0 ==> (k - 1) * Step(n) < n
    ensures Step(n) == 1 ==> k == n
  {
    BucketsBound(n, Step(n));
    (n + Step(n) - 1) / Step(n)
  }

  lemma BucketsBound(n: nat, step: nat)
    requires step >= 1 && step * FANOUT >= n
    ensures var k := (n + step - 1) / step;
            k <= FANOUT && k * step >= n && (k > 0 ==> (k - 1) * step < n) && (step == 1 ==> k == n)
  {
    var m := n + step - 1;
    var k := m / step;
    assert m == k * step + m % step;
    if k > FANOUT { MulMono(FANOUT + 1, k, step); MulSucc(FANOUT, step); }
    if k > 0 { MulSucc(k - 1, step); }
  }

  /** Cut points of the buckets: bucket `b` is the chunks from cut `b` up to cut `b + 1`. */
  predicate CutPoints(cuts: seq<nat>, n: nat) {
    && cuts != [] && cuts[0] == 0 && cuts[|cuts| - 1] == n
    && forall i, j :: 0 <= i < j < |cuts| ==> cuts[i] < cuts[j]
  }

  /** `b * step`, clipped to the axis. */
  function CutAt(n: nat, step: nat, b: nat): nat {
    if b * step <= n then b * step else n
  }

  lemma CutsRise(n: nat, step: nat, k: nat, i: nat, j: nat)
    requires i < j <= k && step >= 1 && (k - 1) * step < n
    ensures CutAt(n, step, i) < CutAt(n, step, j)
  {
    MulMono(i, k - 1, step);
    MulMono(i + 1, j, step);
    MulSucc(i, step);
  }

  lemma CutsEnd(n: nat, step: nat, k: nat)
    requires k * step >= n
    ensures CutAt(n, step, 0) == 0 && CutAt(n, step, k) == n
  {}

  function Cuts(n: nat): (cuts: seq<nat>)
    ensures |cuts| == Buckets(n) + 1 && CutPoints(cuts, n)
  {
    var step, k := Step(n), Buckets(n);
    var cuts := seq(k + 1, b requires 0 <= b <= k => CutAt(n, step, b));
    CutsEnd(n, step, k);
    assert forall i, j :: 0 <= i < j < |cuts| ==> cuts[i] < cuts[j] by {
      forall i, j | 0 <= i < j < |cuts| ensures cuts[i] < cuts[j] {
        CutsRise(n, step, k, i, j);
        assert cuts[i] == CutAt(n, step, i) && cuts[j] == CutAt(n, step, j);
      }
    }
    assert cuts[0] == CutAt(n, step, 0) && cuts[k] == CutAt(n, step, k);
    cuts
  }

  /** With one level, a bucket is a chunk. */
  lemma CutsUnit(n: nat, b: nat)
    requires Step(n) == 1 && b <= Buckets(n)
    ensures Cuts(n)[b] == b
  {
    assert Cuts(n)[b] == CutAt(n, 1, b);
    assert b * 1 == b;
  }

  predicate InBucket(cuts: seq<nat>, b: nat, c: nat) {
    b + 1 < |cuts| && cuts[b] <= c < cuts[b + 1]
  }

  /** Every chunk is in a bucket. */
  lemma BucketOf(cuts: seq<nat>, n: nat, c: nat) returns (b: nat)
    requires CutPoints(cuts, n) && c < n
    ensures InBucket(cuts, b, c)
  {
    b := 0;
    while c >= cuts[b + 1]
      invariant b < |cuts| - 1 && cuts[b] <= c
      decreases |cuts| - b
    {
      b := b + 1;
    }
  }

  // ---------------------------------------------------------------------
  // Guarantees
  // ---------------------------------------------------------------------

  /** A promise about dimension `d` alone: the value range of the chunks `lo..hi`, or nothing. */
  function SpanGuarantee(t: Table, d: nat, lo: nat, hi: nat): (g: Guarantee)
    requires t.Valid() && d < |t.dims| && lo < hi <= |t.dims[d].sizes|
  {
    seq(|t.dims|, e requires 0 <= e < |t.dims| => if e == d then Interval(t.dims[d], lo, hi) else None)
  }

  lemma SpanHolds(t: Table, d: nat, lo: nat, hi: nat, row: Row)
    requires t.Valid() && d < |t.dims| && lo < hi <= |t.dims[d].sizes|
    requires IsRow(t, row) && lo <= ChunkOf(t.dims[d].sizes, row[d]) < hi
    ensures Holds(t, SpanGuarantee(t, d, lo, hi), row)
  {
    var g := SpanGuarantee(t, d, lo, hi);
    forall e | 0 <= e < |g| && g[e].Some?
      ensures var x := t.dims[e].coords[row[e]]; x.Num? && g[e].value.0 <= x.v <= g[e].value.1
    {
      IntervalHolds(t.dims[d], lo, hi, row[d]);
    }
  }

  /** The promise of a whole bucket. */
  function BucketGuarantee(t: Table, d: nat, cuts: seq<nat>, b: nat): (g: Guarantee)
    requires t.Valid() && d < |t.dims| && CutPoints(cuts, |t.dims[d].sizes|) && b < |cuts| - 1
  {
    CutsWithin(cuts, |t.dims[d].sizes|, b);
    SpanGuarantee(t, d, cuts[b], cuts[b + 1])
  }

  function Coarse(t: Table, d: nat, cuts: seq<nat>): (gs: seq<Guarantee>)
    requires t.Valid() && d < |t.dims| && CutPoints(cuts, |t.dims[d].sizes|)
    ensures |gs| == |cuts| - 1
    ensures forall b :: 0 <= b < |gs| ==> gs[b] == BucketGuarantee(t, d, cuts, b)
  {
    seq(|cuts| - 1, b requires 0 <= b < |cuts| - 1 => BucketGuarantee(t, d, cuts, b))
  }

  function Fine(t: Table, d: nat, lo: nat, hi: nat): (gs: seq<Guarantee>)
    requires t.Valid() && d < |t.dims| && lo <= hi <= |t.dims[d].sizes|
    ensures |gs| == hi - lo
    ensures forall i :: 0 <= i < |gs| ==> gs[i] == SpanGuarantee(t, d, lo + i, lo + i + 1)
  {
    seq(hi - lo, i requires 0 <= i < hi - lo => SpanGuarantee(t, d, lo + i, lo + i + 1))
  }

  /** The promises of a bucket's chunks, one by one. */
  function FineLevel(t: Table, d: nat, cuts: seq<nat>, b: nat): (gs: seq<Guarantee>)
    requires t.Valid() && d < |t.dims| && CutPoints(cuts, |t.dims[d].sizes|) && b < |cuts| - 1
  {
    CutsWithin(cuts, |t.dims[d].sizes|, b);
    Fine(t, d, cuts[b], cuts[b + 1])
  }

  // ---------------------------------------------------------------------
  // Which chunks a query keeps
  // ---------------------------------------------------------------------

  function Shift(ks: seq<nat>, first: nat): (s: seq<nat>)
    ensures |s| == |ks| && forall i :: 0 <= i < |ks| ==> s[i] == first + ks[i]
  {
    seq(|ks|, i requires 0 <= i < |ks| => first + ks[i])
  }

  predicate Bucketed(buckets: seq<nat>, cuts: seq<nat>, n: nat) {
    && CutPoints(cuts, n)
    && (forall i, j :: 0 <= i < j < |buckets| ==> buckets[i] < buckets[j])
    && (forall i :: 0 <= i < |buckets| ==> buckets[i] < |cuts| - 1)
  }

  /** All chunks of the kept buckets, in order. */
  function Expand(n: nat, cuts: seq<nat>, buckets: seq<nat>): seq<nat>
    requires Bucketed(buckets, cuts, n)
  {
    if buckets == [] then []
    else
      var b := buckets[|buckets| - 1];
      Expand(n, cuts, buckets[..|buckets| - 1]) + Shift(All(cuts[b + 1] - cuts[b]), cuts[b])
  }

  /** The kept chunks of the kept buckets, bucket by bucket; nothing when a fine level raises. */
  function Refine(t: Table, d: nat, oracle: Oracle, cuts: seq<nat>, buckets: seq<nat>): Option<seq<nat>>
    requires t.Valid() && d < |t.dims| && Bucketed(buckets, cuts, |t.dims[d].sizes|)
  {
    if buckets == [] then Some([])
    else
      var b := buckets[|buckets| - 1];
      match Refine(t, d, oracle, cuts, buckets[..|buckets| - 1])
      case None => None
      case Some(head) =>
        match FinePass(t, d, oracle, cuts, b)
        case None => None
        case Some(tail) => Some(head + tail)
  }

  /** The kept chunks of one bucket. */
  function FinePass(t: Table, d: nat, oracle: Oracle, cuts: seq<nat>, b: nat): Option<seq<nat>>
    requires t.Valid() && d < |t.dims| && CutPoints(cuts, |t.dims[d].sizes|) && b < |cuts| - 1
  {
    match Fragments(oracle, FineLevel(t, d, cuts, b))
    case None => None
    case Some(ks) => Some(Shift(ks, cuts[b]))
  }

  lemma CutsWithin(cuts: seq<nat>, n: nat, b: nat)
    requires CutPoints(cuts, n) && b < |cuts| - 1
    ensures cuts[b] < cuts[b + 1] <= n
  {
    if b + 1 < |cuts| - 1 { assert cuts[b + 1] < cuts[|cuts| - 1]; }
  }

  /** The answer of `kept` without any caching; `None` means every chunk. */
  function Kept(t: Table, d: nat, oracle: Oracle): Option<seq<nat>>
    requires t.Valid() && d < |t.dims|
  {
    var n := |t.dims[d].sizes|;
    match Fragments(oracle, Coarse(t, d, Cuts(n)))
    case None => None
    case Some(buckets) =>
      if Step(n) == 1 then (if |buckets| < n then Some(buckets) else None)
      else if SkipsFine(|buckets|, Buckets(n)) then
        (if |buckets| == Buckets(n) then None else Some(Expand(n, Cuts(n), buckets)))
      else Refine(t, d, oracle, Cuts(n), buckets)
  }

  /** More than a quarter of the buckets survived the coarse pass. */
  predicate SkipsFine(kept: nat, buckets: nat) {
    4 * kept > buckets
  }

  /** The kept chunks are increasing indices of the axis, and no chunk left out holds a matching row. */
  ghost predicate SoundChoice(t: Table, d: nat, f: Filter, want: Truth, ks: seq<nat>)
    requires t.Valid() && d < |t.dims|
  {
    && Increasing(ks, |t.dims[d].sizes|)
    && forall row :: IsRow(t, row) && f(row) == want ==> ChunkOf(t.dims[d].sizes, row[d]) in ks
  }

  ghost predicate InBuckets(cuts: seq<nat>, buckets: seq<nat>, c: nat) {
    exists b :: b in buckets && InBucket(cuts, b, c)
  }

  lemma InBucketsSnoc(cuts: seq<nat>, init: seq<nat>, b: nat, c: nat)
    ensures InBuckets(cuts, init + [b], c) <==> InBuckets(cuts, init, c) || InBucket(cuts, b, c)
  {
    if InBuckets(cuts, init + [b], c) {
      var a :| a in init + [b] && InBucket(cuts, a, c);
      assert a in init || a == b;
    }
    if InBuckets(cuts, init, c) {
      var a :| a in init && InBucket(cuts, a, c);
      assert a in init + [b];
    }
    assert b in init + [b];
  }

  /** Expanding the kept buckets lists exactly their chunks. */
  lemma {:induction false} ExpandMembers(n: nat, cuts: seq<nat>, buckets: seq<nat>, c: nat)
    requires Bucketed(buckets, cuts, n)
    ensures c in Expand(n, cuts, buckets) <==> InBuckets(cuts, buckets, c)
  {
    if buckets != [] {
      var init, b := buckets[..|buckets| - 1], buckets[|buckets| - 1];
      ExpandMembers(n, cuts, init, c);
      InBucketsSnoc(cuts, init, b, c);
      assert buckets == init + [b];
      CutsWithin(cuts, n, b);
      AllShifted(cuts[b], cuts[b + 1], c);
    }
  }

  lemma AllShifted(lo: nat, hi: nat, c: nat)
    requires lo <= hi
    ensures c in Shift(All(hi - lo), lo) <==> lo <= c < hi
  {
    if lo <= c < hi { assert Shift(All(hi - lo), lo)[c - lo] == c; }
  }

  ghost predicate KeepFine(t: Table, d: nat, oracle: Oracle, c: nat)
    requires t.Valid() && d < |t.dims|
  {
    c < |t.dims[d].sizes| && oracle(SpanGuarantee(t, d, c, c + 1)) == Satisfiable
  }

  /** Refining the kept buckets lists exactly their chunks that may match. */
  lemma {:induction false} RefineMembers(t: Table, d: nat, oracle: Oracle, cuts: seq<nat>, buckets: seq<nat>, c: nat)
    requires t.Valid() && d < |t.dims| && Bucketed(buckets, cuts, |t.dims[d].sizes|)
    requires Refine(t, d, oracle, cuts, buckets).Some?
    ensures c in Refine(t, d, oracle, cuts, buckets).value <==>
            InBuckets(cuts, buckets, c) && KeepFine(t, d, oracle, c)
    ensures InBuckets(cuts, buckets, c) ==>
            c < |t.dims[d].sizes| && oracle(SpanGuarantee(t, d, c, c + 1)) != Raises
  {
    if buckets != [] {
      var init, b := buckets[..|buckets| - 1], buckets[|buckets| - 1];
      RefineMembers(t, d, oracle, cuts, init, c);
      InBucketsSnoc(cuts, init, b, c);
      assert buckets == init + [b];
      FineMembers(t, d, oracle, cuts, b, c);
    }
  }

  lemma FineMembers(t: Table, d: nat, oracle: Oracle, cuts: seq<nat>, b: nat, c: nat)
    requires t.Valid() && d < |t.dims| && CutPoints(cuts, |t.dims[d].sizes|) && b < |cuts| - 1
    requires FinePass(t, d, oracle, cuts, b).Some?
    ensures c in FinePass(t, d, oracle, cuts, b).value <==> InBucket(cuts, b, c) && KeepFine(t, d, oracle, c)
    ensures InBucket(cuts, b, c) ==> c < |t.dims[d].sizes| && oracle(SpanGuarantee(t, d, c, c + 1)) != Raises
  {
    CutsWithin(cuts, |t.dims[d].sizes|, b);
    var gs := FineLevel(t, d, cuts, b);
    var ks := Fragments(oracle, gs).value;
    ShiftMember(ks, cuts[b], c);
    if InBucket(cuts, b, c) {
      assert gs[c - cuts[b]] == SpanGuarantee(t, d, c, c + 1);
    }
  }

  lemma ShiftMember(ks: seq<nat>, first: nat, c: nat)
    ensures c in Shift(ks, first) <==> first <= c && c - first in ks
  {
    var s := Shift(ks, first);
    if first <= c && c - first in ks {
      var j :| 0 <= j < |ks| && ks[j] == c - first;
      assert s[j] == c;
    }
    if c in s {
      var j :| 0 <= j < |s| && s[j] == c;
      assert ks[j] == c - first;
    }
  }

  // ---- order ----

  /** Chunks of earlier buckets come before the next bucket's first chunk. */
  lemma EarlierChunk(cuts: seq<nat>, n: nat, init: seq<nat>, b: nat, c: nat)
    requires Bucketed(init + [b], cuts, n) && b < |cuts| - 1 && InBuckets(cuts, init, c)
    ensures c < cuts[b]
  {
    var a :| a in init && InBucket(cuts, a, c);
    var i :| 0 <= i < |init| && init[i] == a;
    assert (init + [b])[i] < (init + [b])[|init|];
    if a + 1 < b { assert cuts[a + 1] < cuts[b]; }
  }

  lemma JoinIncreasing(head: seq<nat>, tail: seq<nat>, cut: nat, n: nat)
    requires Increasing(head, n) && Increasing(tail, n)
    requires forall c :: c in head ==> c < cut
    requires forall c :: c in tail ==> cut <= c
    ensures Increasing(head + tail, n)
  {
    var s := head + tail;
    forall i, j | 0 <= i < j < |s| ensures s[i] < s[j] {
      if i < |head| <= j {
        assert s[i] in head && s[j] in tail;
      }
    }
  }

  lemma ShiftIncreasing(ks: seq<nat>, first: nat, k: nat, n: nat)
    requires Increasing(ks, k) && first + k <= n
    ensures Increasing(Shift(ks, first), n)
  {}

  lemma {:induction false} ExpandIncreasing(n: nat, cuts: seq<nat>, buckets: seq<nat>)
    requires Bucketed(buckets, cuts, n)
    ensures Increasing(Expand(n, cuts, buckets), n)
  {
    if buckets != [] {
      var init, b := buckets[..|buckets| - 1], buckets[|buckets| - 1];
      assert buckets == init + [b];
      ExpandIncreasing(n, cuts, init);
      CutsWithin(cuts, n, b);
      var head, tail := Expand(n, cuts, init), Shift(All(cuts[b + 1] - cuts[b]), cuts[b]);
      forall c | c in head ensures c < cuts[b] {
        ExpandMembers(n, cuts, init, c);
        EarlierChunk(cuts, n, init, b, c);
      }
      ShiftIncreasing(All(cuts[b + 1] - cuts[b]), cuts[b], cuts[b + 1] - cuts[b], n);
      JoinIncreasing(head, tail, cuts[b], n);
    }
  }

  lemma {:induction false} RefineIncreasing(t: Table, d: nat, oracle: Oracle, cuts: seq<nat>, buckets: seq<nat>)
    requires t.Valid() && d < |t.dims| && Bucketed(buckets, cuts, |t.dims[d].sizes|)
    requires Refine(t, d, oracle, cuts, buckets).Some?
    ensures Increasing(Refine(t, d, oracle, cuts, buckets).value, |t.dims[d].sizes|)
  {
    if buckets != [] {
      var n := |t.dims[d].sizes|;
      var init, b := buckets[..|buckets| - 1], buckets[|buckets| - 1];
      assert buckets == init + [b];
      RefineIncreasing(t, d, oracle, cuts, init);
      CutsWithin(cuts, n, b);
      var head, tail := Refine(t, d, oracle, cuts, init).value, FinePass(t, d, oracle, cuts, b).value;
      forall c | c in head ensures c < cuts[b] {
        RefineMembers(t, d, oracle, cuts, init, c);
        EarlierChunk(cuts, n, init, b, c);
      }
      ShiftIncreasing(Fragments(oracle, FineLevel(t, d, cuts, b)).value, cuts[b], cuts[b + 1] - cuts[b], n);
      JoinIncreasing(head, tail, cuts[b], n);
    }
  }

  /**
   On every path (single level, coarse only, refined) the answer of `kept` is sound: its indices
   are increasing and in range, and a chunk it drops holds no row on which the filter is true.
   */
  lemma KeptSound(t: Table, d: nat, oracle: Oracle, f: Filter, want: Truth)
    requires t.Valid() && d < |t.dims| && Sound(oracle, t, f, want)
    ensures Kept(t, d, oracle).Some? ==> SoundChoice(t, d, f, want, Kept(t, d, oracle).value)
  {
    var n := |t.dims[d].sizes|;
    if Kept(t, d, oracle).Some? {
      var buckets := Fragments(oracle, Coarse(t, d, Cuts(n))).value;
      KeptIncreasing(t, d, oracle, buckets);
      forall row | IsRow(t, row) && f(row) == want
        ensures ChunkOf(t.dims[d].sizes, row[d]) in Kept(t, d, oracle).value
      {
        MatchKept(t, d, oracle, f, want, row, buckets);
      }
    }
  }

  lemma KeptIncreasing(t: Table, d: nat, oracle: Oracle, buckets: seq<nat>)
    requires t.Valid() && d < |t.dims| && Kept(t, d, oracle).Some?
    requires Fragments(oracle, Coarse(t, d, Cuts(|t.dims[d].sizes|))) == Some(buckets)
    ensures Bucketed(buckets, Cuts(|t.dims[d].sizes|), |t.dims[d].sizes|)
    ensures Increasing(Kept(t, d, oracle).value, |t.dims[d].sizes|)
  {
    var n := |t.dims[d].sizes|;
    assert Bucketed(buckets, Cuts(n), n);
    if Step(n) != 1 {
      if SkipsFine(|buckets|, Buckets(n)) {
        ExpandIncreasing(n, Cuts(n), buckets);
      } else {
        RefineIncreasing(t, d, oracle, Cuts(n), buckets);
      }
    }
  }

  lemma MatchKept(t: Table, d: nat, oracle: Oracle, f: Filter, want: Truth, row: Row, buckets: seq<nat>)
    requires t.Valid() && d < |t.dims| && Sound(oracle, t, f, want)
    requires IsRow(t, row) && f(row) == want
    requires Kept(t, d, oracle).Some?
    requires Fragments(oracle, Coarse(t, d, Cuts(|t.dims[d].sizes|))) == Some(buckets)
    ensures ChunkOf(t.dims[d].sizes, row[d]) in Kept(t, d, oracle).value
  {
    var n := |t.dims[d].sizes|;
    var cuts, c := Cuts(n), ChunkOf(t.dims[d].sizes, row[d]);
    CoarseMatch(t, d, oracle, f, want, row, cuts, buckets);
    if Step(n) == 1 {
      UnitBuckets(n, buckets, c);
    } else {
      LevelMatch(t, d, oracle, row, cuts, buckets);
    }
  }

  lemma UnitBuckets(n: nat, buckets: seq<nat>, c: nat)
    requires Step(n) == 1 && InBuckets(Cuts(n), buckets, c)
    ensures c in buckets
  {
    var b :| b in buckets && InBucket(Cuts(n), b, c);
    CutsUnit(n, b);
    CutsUnit(n, b + 1);
  }

  /** With two levels, a matching row in a kept bucket has its chunk listed, whether or not the buckets are refined. */
  lemma LevelMatch(t: Table, d: nat, oracle: Oracle, row: Row, cuts: seq<nat>, buckets: seq<nat>)
    requires t.Valid() && d < |t.dims| && IsRow(t, row)
    requires Bucketed(buckets, cuts, |t.dims[d].sizes|)
    requires var c := ChunkOf(t.dims[d].sizes, row[d]);
             InBuckets(cuts, buckets, c) && oracle(SpanGuarantee(t, d, c, c + 1)) != Unsatisfiable
    ensures ChunkOf(t.dims[d].sizes, row[d]) in Expand(|t.dims[d].sizes|, cuts, buckets)
    ensures Refine(t, d, oracle, cuts, buckets).Some? ==>
            ChunkOf(t.dims[d].sizes, row[d]) in Refine(t, d, oracle, cuts, buckets).value
  {
    var c := ChunkOf(t.dims[d].sizes, row[d]);
    ExpandMembers(|t.dims[d].sizes|, cuts, buckets, c);
    if Refine(t, d, oracle, cuts, buckets).Some? {
      RefineMembers(t, d, oracle, cuts, buckets, c);
    }
  }

  lemma CoarseMatch(t: Table, d: nat, oracle: Oracle, f: Filter, want: Truth, row: Row, cuts: seq<nat>,
                    buckets: seq<nat>)
    requires t.Valid() && d < |t.dims| && Sound(oracle, t, f, want)
    requires IsRow(t, row) && f(row) == want
    requires CutPoints(cuts, |t.dims[d].sizes|)
    requires Fragments(oracle, Coarse(t, d, cuts)) == Some(buckets)
    ensures Bucketed(buckets, cuts, |t.dims[d].sizes|)
    ensures var c := ChunkOf(t.dims[d].sizes, row[d]);
            InBuckets(cuts, buckets, c) && oracle(SpanGuarantee(t, d, c, c + 1)) != Unsatisfiable
  {
    var c := ChunkOf(t.dims[d].sizes, row[d]);
    var b := BucketOf(cuts, |t.dims[d].sizes|, c);
    CutsWithin(cuts, |t.dims[d].sizes|, b);
    SpanHolds(t, d, cuts[b], cuts[b + 1], row);
    SpanHolds(t, d, c, c + 1, row);
    assert Coarse(t, d, cuts)[b] == BucketGuarantee(t, d, cuts, b);
    assert b in buckets;
  }

  // ---------------------------------------------------------------------
  // Exactly what is kept
  // ---------------------------------------------------------------------

  /** The simplifier's answer about the chunks `b * step` up to `(b + 1) * step`, clipped to the axis. */
  ghost function BucketVerdict(t: Table, d: nat, oracle: Oracle, b: nat): Verdict
    requires t.Valid() && d < |t.dims| && b < Buckets(|t.dims[d].sizes|)
  {
    var n := |t.dims[d].sizes|;
    BucketStarts(n, b);
    oracle(SpanGuarantee(t, d, b * Step(n), if (b + 1) * Step(n) <= n then (b + 1) * Step(n) else n))
  }

  ghost function ChunkVerdict(t: Table, d: nat, oracle: Oracle, c: nat): Verdict
    requires t.Valid() && d < |t.dims| && c < |t.dims[d].sizes|
  {
    oracle(SpanGuarantee(t, d, c, c + 1))
  }

  lemma BucketStarts(n: nat, b: nat)
    requires b < Buckets(n)
    ensures b * Step(n) < n && b * Step(n) < (b + 1) * Step(n)
    ensures Cuts(n)[b] == b * Step(n) && Cuts(n)[b + 1] == if (b + 1) * Step(n) <= n then (b + 1) * Step(n) else n
  {
    MulMono(b, Buckets(n) - 1, Step(n));
    MulSucc(b, Step(n));
    assert Cuts(n)[b] == CutAt(n, Step(n), b) && Cuts(n)[b + 1] == CutAt(n, Step(n), b + 1);
  }

  /** The bucket of a chunk is its index divided by the step. */
  lemma BucketByDivision(n: nat, c: nat, b: nat)
    requires c < n
    ensures c / Step(n) < Buckets(n)
    ensures InBucket(Cuts(n), b, c) <==> b == c / Step(n)
  {
    var q := c / Step(n);
    QuotientBounds(c, q, Step(n));
    if q >= Buckets(n) { MulMono(Buckets(n), q, Step(n)); }
    BucketStarts(n, q);
    if InBucket(Cuts(n), b, c) {
      BucketStarts(n, b);
      QuotientBounds(c, b, Step(n));
    }
  }

  /** The buckets that may match. */
  ghost function LiveBuckets(t: Table, d: nat, oracle: Oracle): set<nat>
    requires t.Valid() && d < |t.dims|
  {
    set b: nat | b < Buckets(|t.dims[d].sizes|) && BucketVerdict(t, d, oracle, b) == Satisfiable
  }

  /** The fine levels are consulted: there are some, and at most a quarter of the buckets may match. */
  ghost predicate Refines(t: Table, d: nat, oracle: Oracle)
    requires t.Valid() && d < |t.dims|
  {
    |t.dims[d].sizes| > FANOUT && 4 * |LiveBuckets(t, d, oracle)| <= Buckets(|t.dims[d].sizes|)
  }

  lemma CoarseVerdict(t: Table, d: nat, oracle: Oracle, b: nat)
    requires t.Valid() && d < |t.dims| && b < Buckets(|t.dims[d].sizes|)
    ensures var gs := Coarse(t, d, Cuts(|t.dims[d].sizes|));
            b < |gs| && oracle(gs[b]) == BucketVerdict(t, d, oracle, b)
  {
    BucketStarts(|t.dims[d].sizes|, b);
    var gs := Coarse(t, d, Cuts(|t.dims[d].sizes|));
    assert gs[b] == BucketGuarantee(t, d, Cuts(|t.dims[d].sizes|), b);
  }

  /** The coarse pass: it raises when the simplifier does about a bucket, and keeps the buckets that may match. */
  lemma CoarsePass(t: Table, d: nat, oracle: Oracle)
    requires t.Valid() && d < |t.dims|
    ensures var n := |t.dims[d].sizes|;
            var pass := Fragments(oracle, Coarse(t, d, Cuts(n)));
            && (pass.None? <==> exists b: nat :: b < Buckets(n) && BucketVerdict(t, d, oracle, b) == Raises)
            && (pass.Some? ==> KeepsLive(t, d, oracle, pass.value))
  {
    var n := |t.dims[d].sizes|;
    var gs := Coarse(t, d, Cuts(n));
    forall b: nat | b < Buckets(n) ensures b < |gs| && oracle(gs[b]) == BucketVerdict(t, d, oracle, b) {
      CoarseVerdict(t, d, oracle, b);
    }
    assert |gs| == Buckets(n);
  }

  ghost predicate KeepsLive(t: Table, d: nat, oracle: Oracle, buckets: seq<nat>)
    requires t.Valid() && d < |t.dims|
  {
    var n := |t.dims[d].sizes|;
    && Increasing(buckets, Buckets(n))
    && forall b: nat :: b < Buckets(n) ==> (b in buckets <==> BucketVerdict(t, d, oracle, b) == Satisfiable)
  }

  lemma LiveCount(t: Table, d: nat, oracle: Oracle, buckets: seq<nat>)
    requires t.Valid() && d < |t.dims| && KeepsLive(t, d, oracle, buckets)
    ensures |buckets| == |LiveBuckets(t, d, oracle)| <= Buckets(|t.dims[d].sizes|)
  {
    CountIndices(buckets, LiveBuckets(t, d, oracle), Buckets(|t.dims[d].sizes|));
  }

  lemma CountIndices(ks: seq<nat>, members: set<nat>, n: nat)
    requires Increasing(ks, n) && (forall b :: b in members ==> b < n)
    requires forall b: nat :: b < n ==> (b in ks <==> b in members)
    ensures |ks| == |members| <= n
  {
    forall b: nat ensures b in Elements(ks) <==> b in members {
      if b in ks {
        var i :| 0 <= i < |ks| && ks[i] == b;
      }
    }
    assert Elements(ks) == members;
    DistinctSize(ks);
    RangeSize(0, n);
    SubsetSize(members, Range(0, n));
  }

  lemma FineRaises(t: Table, d: nat, oracle: Oracle, cuts: seq<nat>, b: nat) returns (c: nat)
    requires t.Valid() && d < |t.dims| && CutPoints(cuts, |t.dims[d].sizes|) && b < |cuts| - 1
    requires FinePass(t, d, oracle, cuts, b).None?
    ensures c < |t.dims[d].sizes| && InBucket(cuts, b, c) && ChunkVerdict(t, d, oracle, c) == Raises
  {
    var gs := FineLevel(t, d, cuts, b);
    CutsWithin(cuts, |t.dims[d].sizes|, b);
    var i :| 0 <= i < |gs| && oracle(gs[i]) == Raises;
    c := cuts[b] + i;
  }

  /** Refinement gives up exactly when the simplifier raises about a chunk of a kept bucket. */
  lemma {:induction false} RefineRaises(t: Table, d: nat, oracle: Oracle, cuts: seq<nat>, buckets: seq<nat>)
    returns (c: nat)
    requires t.Valid() && d < |t.dims| && Bucketed(buckets, cuts, |t.dims[d].sizes|)
    requires Refine(t, d, oracle, cuts, buckets).None?
    ensures c < |t.dims[d].sizes| && InBuckets(cuts, buckets, c) && ChunkVerdict(t, d, oracle, c) == Raises
  {
    var init, b := buckets[..|buckets| - 1], buckets[|buckets| - 1];
    assert buckets == init + [b];
    if Refine(t, d, oracle, cuts, init).None? {
      c := RefineRaises(t, d, oracle, cuts, init);
    } else {
      c := FineRaises(t, d, oracle, cuts, b);
    }
    InBucketsSnoc(cuts, init, b, c);
  }

  /** An answer lists the chunks of the kept buckets that, on the refined path, may match themselves. */
  lemma KeptMember(t: Table, d: nat, oracle: Oracle, buckets: seq<nat>, c: nat)
    requires t.Valid() && d < |t.dims| && Kept(t, d, oracle).Some? && c < |t.dims[d].sizes|
    requires Fragments(oracle, Coarse(t, d, Cuts(|t.dims[d].sizes|))) == Some(buckets)
    ensures var n := |t.dims[d].sizes|;
            c in Kept(t, d, oracle).value <==>
              && InBuckets(Cuts(n), buckets, c)
              && (Step(n) > 1 && !SkipsFine(|buckets|, Buckets(n)) ==> ChunkVerdict(t, d, oracle, c) == Satisfiable)
  {
    var n := |t.dims[d].sizes|;
    if Step(n) == 1 {
      UnitMember(n, buckets, c);
    } else {
      ExpandMembers(n, Cuts(n), buckets, c);
      if !SkipsFine(|buckets|, Buckets(n)) { RefineMembers(t, d, oracle, Cuts(n), buckets, c); }
    }
  }

  lemma UnitMember(n: nat, buckets: seq<nat>, c: nat)
    requires Step(n) == 1 && c < n
    ensures InBuckets(Cuts(n), buckets, c) <==> c in buckets
  {
    if c in buckets {
      CutsUnit(n, c);
      CutsUnit(n, c + 1);
      assert InBucket(Cuts(n), c, c);
    }
    if InBuckets(Cuts(n), buckets, c) { UnitBuckets(n, buckets, c); }
  }

  /** An answer lists exactly the chunks whose bucket may match and, where refined, that may match themselves. */
  lemma KeptExactly(t: Table, d: nat, oracle: Oracle, c: nat)
    requires t.Valid() && d < |t.dims| && Kept(t, d, oracle).Some? && c < |t.dims[d].sizes|
    ensures c / Step(|t.dims[d].sizes|) < Buckets(|t.dims[d].sizes|)
    ensures c in Kept(t, d, oracle).value <==>
              && BucketVerdict(t, d, oracle, c / Step(|t.dims[d].sizes|)) == Satisfiable
              && (Refines(t, d, oracle) ==> ChunkVerdict(t, d, oracle, c) == Satisfiable)
  {
    CoarsePass(t, d, oracle);
    var buckets := Fragments(oracle, Coarse(t, d, Cuts(|t.dims[d].sizes|))).value;
    KeptMember(t, d, oracle, buckets, c);
    LiveCount(t, d, oracle, buckets);
    InBucketsLive(t, d, oracle, buckets, c);
    StepIsOne(|t.dims[d].sizes|);
  }

  lemma ByDivision(n: nat, buckets: seq<nat>, c: nat)
    requires c < n
    ensures InBuckets(Cuts(n), buckets, c) <==> c / Step(n) in buckets
  {
    BucketByDivision(n, c, c / Step(n));
    if InBuckets(Cuts(n), buckets, c) {
      var b :| b in buckets && InBucket(Cuts(n), b, c);
      BucketByDivision(n, c, b);
    }
  }

  lemma StepIsOne(n: nat)
    ensures Step(n) == 1 <==> n <= FANOUT
  {
    if Step(n) == 1 && n > 0 { assert n <= FANOUT; }
    if Step(n) > 1 { MulMono(1, Step(n) - 1, FANOUT); }
  }

  /**
   "Every chunk" is the answer exactly when the simplifier raises about a bucket, or about a chunk
   that is consulted, or when nothing is refined and every bucket may match.
   */
  lemma KeptNothingPruned(t: Table, d: nat, oracle: Oracle)
    requires t.Valid() && d < |t.dims|
    ensures var n := |t.dims[d].sizes|;
            Kept(t, d, oracle).None? <==>
              || (exists b: nat :: b < Buckets(n) && BucketVerdict(t, d, oracle, b) == Raises)
              || (!Refines(t, d, oracle) && |LiveBuckets(t, d, oracle)| == Buckets(n))
              || (Refines(t, d, oracle) && exists c: nat :: c < n && Consulted(t, d, oracle, c))
  {
    CoarsePass(t, d, oracle);
    StepIsOne(|t.dims[d].sizes|);
    var pass := Fragments(oracle, Coarse(t, d, Cuts(|t.dims[d].sizes|)));
    if pass.Some? {
      LiveCount(t, d, oracle, pass.value);
      if Refines(t, d, oracle) { RefineStops(t, d, oracle, pass.value); }
    }
  }

  lemma RefineStops(t: Table, d: nat, oracle: Oracle, buckets: seq<nat>)
    requires t.Valid() && d < |t.dims|
    requires Bucketed(buckets, Cuts(|t.dims[d].sizes|), |t.dims[d].sizes|) && KeepsLive(t, d, oracle, buckets)
    ensures Refine(t, d, oracle, Cuts(|t.dims[d].sizes|), buckets).None? <==>
            exists c: nat :: c < |t.dims[d].sizes| && Consulted(t, d, oracle, c)
  {
    var n := |t.dims[d].sizes|;
    var cuts := Cuts(n);
    if Refine(t, d, oracle, cuts, buckets).None? {
      var c := RefineRaises(t, d, oracle, cuts, buckets);
      InBucketsLive(t, d, oracle, buckets, c);
      assert Consulted(t, d, oracle, c);
    } else {
      forall c: nat | c < n ensures !Consulted(t, d, oracle, c) {
        InBucketsLive(t, d, oracle, buckets, c);
        RefineMembers(t, d, oracle, cuts, buckets, c);
      }
    }
  }

  lemma InBucketsLive(t: Table, d: nat, oracle: Oracle, buckets: seq<nat>, c: nat)
    requires t.Valid() && d < |t.dims| && KeepsLive(t, d, oracle, buckets) && c < |t.dims[d].sizes|
    ensures c / Step(|t.dims[d].sizes|) < Buckets(|t.dims[d].sizes|)
    ensures InBuckets(Cuts(|t.dims[d].sizes|), buckets, c) <==>
            BucketVerdict(t, d, oracle, c / Step(|t.dims[d].sizes|)) == Satisfiable
  {
    var n := |t.dims[d].sizes|;
    ByDivision(n, buckets, c);
    BucketByDivision(n, c, c / Step(n));
  }

  /** The simplifier raises about a chunk of a bucket that may match. */
  ghost predicate Consulted(t: Table, d: nat, oracle: Oracle, c: nat)
    requires t.Valid() && d < |t.dims| && c < |t.dims[d].sizes|
  {
    var n := |t.dims[d].sizes|;
    && c / Step(n) < Buckets(n) && BucketVerdict(t, d, oracle, c / Step(n)) == Satisfiable
    && ChunkVerdict(t, d, oracle, c) == Raises
  }

  // ---------------------------------------------------------------------
  // The index object
  // ---------------------------------------------------------------------

  class DimShadow {
    const t: Table
    const d: nat
    const n: nat
    const step: nat
    const cuts: seq<nat>
    const coarse: seq<Guarantee>
    var fine: map<nat, seq<Guarantee>>

    ghost predicate Valid()
      reads this
    {
      && t.Valid() && d < |t.dims|
      && n == |t.dims[d].sizes| && step == Step(n) && cuts == Cuts(n)
      && coarse == Coarse(t, d, cuts)
      && FineCached(t, d, cuts, fine)
    }

    constructor (t: Table, d: nat)
      requires t.Valid() && d < |t.dims|
      ensures Valid() && this.t == t && this.d == d && fine == map[]
    {
      this.t, this.d := t, d;
      n := |t.dims[d].sizes|;
      step, cuts := Step(|t.dims[d].sizes|), Cuts(|t.dims[d].sizes|);
      coarse := Coarse(t, d, Cuts(|t.dims[d].sizes|));
      fine := map[];
    }

    /** `kept`: whatever fine levels earlier queries left cached, the answer is the uncached one. */
    method Keep(oracle: Oracle) returns (kept: Option<seq<nat>>)
      requires Valid()
      modifies this`fine
      ensures Valid()
      ensures kept == Kept(t, d, oracle)
    {
      var coarsePass := Fragments(oracle, coarse);
      if coarsePass.None? { return None; }
      var buckets := coarsePass.value;
      if step == 1 {
        return if |buckets| < n then Some(buckets) else None;
      }
      if SkipsFine(|buckets|, |cuts| - 1) {
        return if |buckets| == |cuts| - 1 then None else Some(Expand(n, cuts, buckets));
      }
      kept := RefineKept(oracle, buckets);
    }

    /** The fine pass over the kept buckets, building each bucket's fine level at most once. */
    method RefineKept(oracle: Oracle, buckets: seq<nat>) returns (kept: Option<seq<nat>>)
      requires Valid() && Bucketed(buckets, cuts, n)
      modifies this`fine
      ensures Valid()
      ensures kept == Refine(t, d, oracle, cuts, buckets)
    {
      var chunks: seq<nat> := [];
      for i := 0 to |buckets|
        invariant Valid()
        invariant Refine(t, d, oracle, cuts, buckets[..i]) == Some(chunks)
      {
        var finePass := PassOver(oracle, buckets[i]);
        RefineSnoc(t, d, oracle, cuts, buckets, i);
        if finePass.None? {
          RefinePrefix(t, d, oracle, cuts, buckets, i + 1);
          return None;
        }
        chunks := chunks + finePass.value;
      }
      assert buckets[..|buckets|] == buckets;
      return Some(chunks);
    }

    /** The fine pass over one bucket. */
    method PassOver(oracle: Oracle, b: nat) returns (kept: Option<seq<nat>>)
      requires Valid() && b < |cuts| - 1
      modifies this`fine
      ensures Valid()
      ensures kept == FinePass(t, d, oracle, cuts, b)
    {
      if b !in fine {
        fine := fine[b := FineLevel(t, d, cuts, b)];
      }
      var pass := Fragments(oracle, fine[b]);
      kept := if pass.None? then None else Some(Shift(pass.value, cuts[b]));
    }
  }

  lemma RefineSnoc(t: Table, d: nat, oracle: Oracle, cuts: seq<nat>, buckets: seq<nat>, i: nat)
    requires t.Valid() && d < |t.dims| && Bucketed(buckets, cuts, |t.dims[d].sizes|) && i < |buckets|
    requires Refine(t, d, oracle, cuts, buckets[..i]).Some?
    ensures var head, tail := Refine(t, d, oracle, cuts, buckets[..i]), FinePass(t, d, oracle, cuts, buckets[i]);
            Refine(t, d, oracle, cuts, buckets[..i + 1]) ==
              if tail.None? then None else Some(head.value + tail.value)
  {
    assert buckets[..i + 1][..i] == buckets[..i];
  }

  /** Every cached fine level is the one a query would build. */
  ghost predicate FineCached(t: Table, d: nat, cuts: seq<nat>, fine: map<nat, seq<Guarantee>>)
    requires t.Valid() && d < |t.dims| && CutPoints(cuts, |t.dims[d].sizes|)
  {
    forall b :: b in fine ==> b < |cuts| - 1 && fine[b] == FineLevel(t, d, cuts, b)
  }

  /** A level that raises on the way makes the whole answer "every chunk". */
  lemma {:induction false} RefinePrefix(t: Table, d: nat, oracle: Oracle, cuts: seq<nat>, buckets: seq<nat>, i: nat)
    requires t.Valid() && d < |t.dims| && Bucketed(buckets, cuts, |t.dims[d].sizes|) && i <= |buckets|
    ensures Refine(t, d, oracle, cuts, buckets[..i]).None? ==> Refine(t, d, oracle, cuts, buckets).None?
    decreases |buckets| - i
  {
    if i < |buckets| {
      assert buckets[..i + 1][..i] == buckets[..i];
      RefinePrefix(t, d, oracle, cuts, buckets, i + 1);
    } else {
      assert buckets[..i] == buckets;
    }
  }
}
