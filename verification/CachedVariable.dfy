/** Selections read through the chunk cache: how a basic selection is assembled from the cached chunks it overlaps. */
module CachedVariable {
  import opened Grid
  import opened Lru
  import opened NdArrays
  import opened QueryRuns
  import opened Cache = ChunkCache

  /** One axis of a normalised basic selection. */
  datatype Indexer = Position(i: nat) | Slice(start: nat, stop: nat, step: nat)

  /** Name of a variable and the half-open extent of a chunk on each axis. */
  datatype ChunkKey = ChunkKey(name: string, bounds: seq<(nat, nat)>)

  /** A source variable and the chunk length the cache uses on each axis. */
  datatype Variable<T> = Variable(values: NdArray<T>, chunkLens: seq<nat>) {

    ghost predicate Valid() {
      && values.Valid()
      && |chunkLens| == |values.shape|
      && forall d :: 0 <= d < |chunkLens| ==> values.shape[d] > 0 ==> chunkLens[d] > 0
    }
  }

  predicate Selects(key: seq<Indexer>, shape: seq<nat>) {
    |key| == |shape| && forall d :: 0 <= d < |key| ==>
      match key[d] case Position(i) => i < shape[d] case Slice(_, _, step) => step > 0
  }

  // ---------------------------------------------------------------------
  // One axis
  // ---------------------------------------------------------------------

  /** The positions `lo..hi` of an axis of length `n` cut into chunks of length `c`, read every `step`. */
  datatype Span = Span(lo: nat, hi: nat, step: nat, c: nat, n: nat) {

    predicate Valid() {
      lo <= hi <= n && step > 0 && (hi > lo ==> c > 0)
    }

    function Length(): nat requires Valid() { hi - lo }

    function Steps(): nat requires Valid() { (hi - lo + step - 1) / step }

    function First(): nat requires Valid() {
      if hi > lo then lo / c else 0
    }

    /** Number of chunks overlapped. */
    function Chunks(): (k: nat)
      requires Valid()
      ensures hi > lo ==> k > 0
    {
      if hi > lo then
        DivMonotone(lo, hi - 1, c);
        (hi - 1) / c + 1 - lo / c
      else 0
    }

    /** Extent of the `t`-th overlapped chunk. */
    function Bounds(t: nat): (nat, nat)
      requires Valid() && t < Chunks()
    {
      var i := First() + t;
      (i * c, if (i + 1) * c <= n then (i + 1) * c else n)
    }

    /** The overlapped chunk holding the `x`-th position of the span. */
    function Home(x: nat): (t: nat)
      requires Valid() && x < Length()
      ensures t < Chunks()
    {
      DivMonotone(lo, lo + x, c);
      DivMonotone(lo + x, hi - 1, c);
      (lo + x) / c - First()
    }

    /** And where in that chunk it is. */
    function Offset(x: nat): (o: nat)
      requires Valid() && x < Length()
      ensures var (b, e) := Bounds(Home(x)); b <= e && o < e - b && b + o == lo + x
    {
      HomeBounds(this, x, Home(x));
      lo + x - Bounds(Home(x)).0
    }
  }

  /** A slice picks every `step`-th position from its clamped start up to its clamped stop, and no other. */
  lemma StepsCover(s: Span, p: nat)
    requires s.Valid()
    ensures s.lo <= p < s.hi && (p - s.lo) % s.step == 0 <==>
            exists u: nat :: u < s.Steps() && p == s.lo + StepOf(s, u)
  {
    if s.lo <= p < s.hi && (p - s.lo) % s.step == 0 {
      var u := (p - s.lo) / s.step;
      assert p - s.lo == u * s.step + 0;
      DivMonotone(p - s.lo + s.step, s.hi - s.lo + s.step - 1, s.step);
      DivModUnique(u + 1, 0, s.step);
      MulSucc(u, s.step);
      assert p == s.lo + StepOf(s, u);
    }
    forall u: nat | u < s.Steps() && p == s.lo + StepOf(s, u) ensures s.lo <= p < s.hi && (p - s.lo) % s.step == 0 {
      DivModUnique(u, 0, s.step);
    }
  }

  lemma DivMonotone(a: nat, b: nat, c: nat)
    requires a <= b && c > 0
    ensures a / c <= b / c
  {
    if b / c < a / c {
      MulMono(b / c + 1, a / c, c);
      assert false;
    }
  }

  /** The chunk of a position is the only overlapped chunk whose extent contains it. */
  lemma HomeBounds(s: Span, x: nat, t: nat)
    requires s.Valid() && x < s.Length() && t < s.Chunks()
    ensures s.Bounds(t).0 <= s.lo + x < s.Bounds(t).1 <==> t == s.Home(x)
    ensures s.Bounds(t).0 <= s.Bounds(t).1 <= s.n
  {
    var i, p := s.First() + t, s.lo + x;
    MulSucc(i, s.c);
    QuotientBounds(p, i, s.c);
    QuotientBounds(s.hi - 1, i, s.c);
    DivMonotone(p, s.hi - 1, s.c);
  }

  // ---------------------------------------------------------------------
  // All axes
  // ---------------------------------------------------------------------

  /** `slice.indices` on every axis; an integer is a slice of one. */
  function SpanOf(k: Indexer, n: nat, c: nat): Span {
    match k
    case Position(i) => Span(i, i + 1, 1, c, n)
    case Slice(start, stop, step) =>
      var lo := if start < n then start else n;
      var end := if stop < n then stop else n;
      Span(lo, if lo < end then end else lo, step, c, n)
  }

  function Spans<T>(v: Variable<T>, key: seq<Indexer>): (spans: seq<Span>)
    requires v.Valid() && Selects(key, v.values.shape)
    ensures ValidSpans(spans) && Fits(spans, v.values.shape)
  {
    seq(|key|, d requires 0 <= d < |key| => SpanOf(key[d], v.values.shape[d], v.chunkLens[d]))
  }

  predicate ValidSpans(spans: seq<Span>) {
    forall d :: 0 <= d < |spans| ==> spans[d].Valid()
  }

  predicate Fits(spans: seq<Span>, shape: seq<nat>) {
    |spans| == |shape| && forall d :: 0 <= d < |spans| ==> spans[d].n == shape[d]
  }

  function Extent(spans: seq<Span>): (s: seq<nat>)
    requires ValidSpans(spans)
    ensures |s| == |spans|
  {
    seq(|spans|, d requires 0 <= d < |spans| => spans[d].Length())
  }

  function Steps(spans: seq<Span>): (s: seq<nat>)
    requires ValidSpans(spans)
    ensures |s| == |spans|
  {
    seq(|spans|, d requires 0 <= d < |spans| => spans[d].Steps())
  }

  function ChunkGrid(spans: seq<Span>): (s: seq<nat>)
    requires ValidSpans(spans)
    ensures |s| == |spans|
  {
    seq(|spans|, d requires 0 <= d < |spans| => spans[d].Chunks())
  }

  function BoundsOf(spans: seq<Span>, t: seq<nat>): (b: seq<(nat, nat)>)
    requires ValidSpans(spans) && InGrid(t, ChunkGrid(spans))
    ensures |b| == |spans|
  {
    seq(|spans|, d requires 0 <= d < |spans| => spans[d].Bounds(t[d]))
  }

  /** The keys a selection reads, in the order of the product over axes. */
  function KeysOf(name: string, spans: seq<Span>): (keys: seq<ChunkKey>)
    requires ValidSpans(spans)
    ensures |keys| == Prod(ChunkGrid(spans))
  {
    var g := ChunkGrid(spans);
    seq(Prod(g), i requires 0 <= i < Prod(g) => ChunkKey(name, BoundsOf(spans, Unravel(i, g))))
  }

  /** Which of those keys holds a cell of the selection's extent, and where in that chunk it is. */
  function HomeOf(spans: seq<Span>, idx: seq<nat>): (t: seq<nat>)
    requires ValidSpans(spans) && InGrid(idx, Extent(spans))
    ensures InGrid(t, ChunkGrid(spans))
  {
    seq(|spans|, d requires 0 <= d < |spans| => spans[d].Home(idx[d]))
  }

  function OffsetIn(spans: seq<Span>, idx: seq<nat>): (o: seq<nat>)
    requires ValidSpans(spans) && InGrid(idx, Extent(spans))
    ensures InGrid(o, Widths(BoundsOf(spans, HomeOf(spans, idx))))
  {
    seq(|spans|, d requires 0 <= d < |spans| => spans[d].Offset(idx[d]))
  }

  /** The part of an array inside an extent, as `isel` with slices gives it. */
  function Region<T>(a: NdArray<T>, bounds: seq<(nat, nat)>): (r: NdArray<T>)
    requires a.Valid() && Within(bounds, a.shape)
    ensures r.Valid() && r.shape == Widths(bounds)
  {
    var s := Widths(bounds);
    NdArray(s, seq(Prod(s), j requires 0 <= j < Prod(s) => a.At(Shifted(bounds, Unravel(j, s), a.shape))))
  }

  predicate Within(bounds: seq<(nat, nat)>, shape: seq<nat>) {
    |bounds| == |shape| && forall d :: 0 <= d < |bounds| ==> bounds[d].0 <= bounds[d].1 <= shape[d]
  }

  function Shifted(bounds: seq<(nat, nat)>, o: seq<nat>, ghost shape: seq<nat>): (p: seq<nat>)
    requires Within(bounds, shape) && InGrid(o, Widths(bounds))
    ensures InGrid(p, shape)
  {
    assert forall d :: 0 <= d < |bounds| ==> o[d] < Widths(bounds)[d];
    seq(|bounds|, d requires 0 <= d < |bounds| => bounds[d].0 + o[d])
  }

  lemma RegionAt<T>(a: NdArray<T>, bounds: seq<(nat, nat)>, o: seq<nat>)
    requires a.Valid() && Within(bounds, a.shape) && InGrid(o, Widths(bounds))
    ensures Region(a, bounds).At(o) == a.At(Shifted(bounds, o, a.shape))
  {
    UnravelRavel(o, Widths(bounds));
  }

  lemma BoundsWithin(spans: seq<Span>, t: seq<nat>, shape: seq<nat>)
    requires ValidSpans(spans) && Fits(spans, shape) && InGrid(t, ChunkGrid(spans))
    ensures Within(BoundsOf(spans, t), shape)
  {
    forall d | 0 <= d < |spans| ensures BoundsOf(spans, t)[d].0 <= BoundsOf(spans, t)[d].1 <= shape[d] {
      assert t[d] < ChunkGrid(spans)[d];
      BoundsOrdered(spans[d], t[d]);
    }
  }

  lemma BoundsOrdered(s: Span, t: nat)
    requires s.Valid() && t < s.Chunks()
    ensures s.Bounds(t).0 <= s.Bounds(t).1 <= s.n
  {
    HomeBounds(s, 0, t);
  }

  // ---------------------------------------------------------------------
  // Assembly
  // ---------------------------------------------------------------------

  /** An element, or `pad` where the array has none. */
  function Element<T>(a: NdArray<T>, idx: seq<nat>, pad: T): T {
    if a.Valid() && InGrid(idx, a.shape) then a.At(idx) else pad
  }

  /** The buffer over the selection's extent that the chunks `parts` fill. */
  function Filled<T>(spans: seq<Span>, parts: seq<NdArray<T>>, pad: T): (out: NdArray<T>)
    requires ValidSpans(spans) && |parts| == Prod(ChunkGrid(spans))
    ensures out.Valid() && out.shape == Extent(spans)
  {
    var s := Extent(spans);
    NdArray(s, seq(Prod(s), j requires 0 <= j < Prod(s) => FilledAt(spans, parts, Unravel(j, s), pad)))
  }

  function FilledAt<T>(spans: seq<Span>, parts: seq<NdArray<T>>, idx: seq<nat>, pad: T): T
    requires ValidSpans(spans) && |parts| == Prod(ChunkGrid(spans)) && InGrid(idx, Extent(spans))
  {
    Element(parts[Ravel(HomeOf(spans, idx), ChunkGrid(spans))], OffsetIn(spans, idx), pad)
  }

  /** Every `step`-th element of the buffer on each axis. */
  function Strided<T>(spans: seq<Span>, out: NdArray<T>): (r: NdArray<T>)
    requires ValidSpans(spans) && out.Valid() && out.shape == Extent(spans)
    ensures r.Valid() && r.shape == Steps(spans)
  {
    var s := Steps(spans);
    NdArray(s, seq(Prod(s), j requires 0 <= j < Prod(s) => out.At(Stepped(spans, Unravel(j, s)))))
  }

  function Stepped(spans: seq<Span>, u: seq<nat>): (idx: seq<nat>)
    requires ValidSpans(spans) && InGrid(u, Steps(spans))
    ensures InGrid(idx, Extent(spans))
  {
    assert forall d :: 0 <= d < |spans| ==> u[d] < Steps(spans)[d];
    seq(|spans|, d requires 0 <= d < |spans| => StepOf(spans[d], u[d]))
  }

  function StepOf(s: Span, u: nat): (x: nat)
    requires s.Valid() && u < s.Steps()
    ensures x == u * s.step && x < s.Length()
  {
    QuotientBounds(s.hi - s.lo + s.step - 1, s.Steps(), s.step);
    MulMono(u + 1, s.Steps(), s.step);
    MulSucc(u, s.step);
    u * s.step
  }

  /** Axes selected by an integer are dropped; their length is one, so the elements stay as they are. */
  function Squeezed<T>(key: seq<Indexer>, a: NdArray<T>): NdArray<T>
    requires |key| == |a.shape|
  {
    NdArray(Undropped(a.shape, Drops(key)), a.data)
  }

  function Drops(key: seq<Indexer>): (dropped: seq<bool>)
    ensures |dropped| == |key| && forall d :: 0 <= d < |key| ==> dropped[d] == key[d].Position?
  {
    seq(|key|, d requires 0 <= d < |key| => key[d].Position?)
  }

  function Assembled<T>(v: Variable<T>, key: seq<Indexer>, parts: seq<NdArray<T>>, pad: T): NdArray<T>
    requires v.Valid() && Selects(key, v.values.shape)
    requires |parts| == Prod(ChunkGrid(Spans(v, key)))
  {
    var spans := Spans(v, key);
    Squeezed(key, Strided(spans, Filled(spans, parts, pad)))
  }

  /** The same selection made on the source array itself. */
  function Selected<T>(v: Variable<T>, key: seq<Indexer>): NdArray<T>
    requires v.Valid() && Selects(key, v.values.shape)
  {
    Squeezed(key, Gathered(v.values, Spans(v, key)))
  }

  function Gathered<T>(a: NdArray<T>, spans: seq<Span>): (r: NdArray<T>)
    requires a.Valid() && ValidSpans(spans) && Fits(spans, a.shape)
    ensures r.Valid() && r.shape == Steps(spans)
  {
    var s := Steps(spans);
    NdArray(s, seq(Prod(s), j requires 0 <= j < Prod(s) => a.At(Picked(spans, Unravel(j, s), a.shape))))
  }

  function Picked(spans: seq<Span>, u: seq<nat>, ghost shape: seq<nat>): (p: seq<nat>)
    requires ValidSpans(spans) && Fits(spans, shape) && InGrid(u, Steps(spans))
    ensures InGrid(p, shape)
  {
    assert forall d :: 0 <= d < |spans| ==> u[d] < Steps(spans)[d];
    seq(|spans|, d requires 0 <= d < |spans| => spans[d].lo + StepOf(spans[d], u[d]))
  }

  // ---------------------------------------------------------------------
  // What a selection is
  // ---------------------------------------------------------------------

  /** The position that the `u`-th element along an axis of length `n` comes from. */
  function PositionAt(k: Indexer, n: nat, u: nat): nat {
    match k
    case Position(i) => i
    case Slice(start, _, step) => (if start < n then start else n) + u * step
  }

  /** Whether there is a `u`-th element: one for an integer, and for a slice those before its clamped stop. */
  predicate Reaches(k: Indexer, n: nat, u: nat) {
    match k
    case Position(_) => u == 0
    case Slice(_, stop, _) => PositionAt(k, n, u) < if stop < n then stop else n
  }

  ghost predicate ReachesAll(key: seq<Indexer>, shape: seq<nat>, u: seq<nat>) {
    |u| == |key| == |shape| && forall d :: 0 <= d < |key| ==> Reaches(key[d], shape[d], u[d])
  }

  function PositionsAt(key: seq<Indexer>, shape: seq<nat>, u: seq<nat>): (p: seq<nat>)
    requires |u| == |key| == |shape|
    ensures |p| == |key| && forall d :: 0 <= d < |key| ==> p[d] == PositionAt(key[d], shape[d], u[d])
  {
    seq(|key|, d requires 0 <= d < |key| => PositionAt(key[d], shape[d], u[d]))
  }

  /**
   Basic indexing, from the array and the key alone: the axes indexed by integers are dropped, the
   length of each other axis is its number of elements, and each element is the one of the array at
   the positions its indices name.
   */
  ghost predicate IsSelection<T>(r: NdArray<T>, a: NdArray<T>, key: seq<Indexer>) {
    && r.Valid() && a.Valid() && |key| == |a.shape|
    && forall axes :: Remaining(axes, Drops(key)) ==> SelectsAlong(r, a, key, axes)
  }

  ghost predicate SelectsAlong<T>(r: NdArray<T>, a: NdArray<T>, key: seq<Indexer>, axes: seq<nat>)
    requires r.Valid() && a.Valid() && |key| == |a.shape| && Remaining(axes, Drops(key))
  {
    && |r.shape| == |axes|
    && (forall j :: 0 <= j < |axes| ==> HasLength(key[axes[j]], a.shape[axes[j]], r.shape[j]))
    && forall u :: ReachesAll(key, a.shape, u) ==> ElementIs(r, At(u, axes), a, PositionsAt(key, a.shape, u))
  }

  ghost predicate HasLength(k: Indexer, n: nat, length: nat) {
    forall u: nat :: u < length <==> Reaches(k, n, u)
  }

  ghost predicate ElementIs<T>(r: NdArray<T>, idx: seq<nat>, a: NdArray<T>, p: seq<nat>)
    requires r.Valid() && a.Valid()
  {
    InGrid(idx, r.shape) && InGrid(p, a.shape) && r.At(idx) == a.At(p)
  }

  lemma CeilingExact(length: nat, step: nat, u: nat)
    requires step > 0
    ensures u < (length + step - 1) / step <==> u * step < length
  {
    QuotientBounds(length + step - 1, (length + step - 1) / step, step);
    if u < (length + step - 1) / step {
      MulMono(u + 1, (length + step - 1) / step, step);
      MulSucc(u, step);
    }
    if u * step < length {
      MulSucc(u, step);
      DivModUnique(u + 1, 0, step);
      DivMonotone((u + 1) * step, length + step - 1, step);
    }
  }

  lemma AxisSelection(k: Indexer, n: nat, c: nat, u: nat)
    requires SpanOf(k, n, c).Valid() && (k.Position? ==> k.i < n)
    ensures u < SpanOf(k, n, c).Steps() <==> Reaches(k, n, u)
    ensures u < SpanOf(k, n, c).Steps() ==> SpanOf(k, n, c).lo + StepOf(SpanOf(k, n, c), u) == PositionAt(k, n, u)
  {
    CeilingExact(SpanOf(k, n, c).Length(), SpanOf(k, n, c).step, u);
  }

  /** The selection of the source is basic indexing of its array. */
  lemma SelectedIsIndexing<T>(v: Variable<T>, key: seq<Indexer>)
    requires v.Valid() && Selects(key, v.values.shape)
    ensures IsSelection(Selected(v, key), v.values, key)
  {
    PositionsAreOne(v, key);
    ProdUndropped(Drops(key), Steps(Spans(v, key)));
    forall axes | Remaining(axes, Drops(key)) ensures SelectsAlong(Selected(v, key), v.values, key, axes) {
      forall j | 0 <= j < |axes|
        ensures |Selected(v, key).shape| == |axes|
        ensures HasLength(key[axes[j]], v.values.shape[axes[j]], Selected(v, key).shape[j])
      {
        AxisHasLength(v, key, axes, j);
      }
      UndroppedAt(Steps(Spans(v, key)), Drops(key), axes);
      forall u | ReachesAll(key, v.values.shape, u)
        ensures ElementIs(Selected(v, key), At(u, axes), v.values, PositionsAt(key, v.values.shape, u))
      {
        ElementSelected(v, key, axes, u);
      }
    }
  }

  lemma AxisHasLength<T>(v: Variable<T>, key: seq<Indexer>, axes: seq<nat>, j: nat)
    requires v.Valid() && Selects(key, v.values.shape) && Remaining(axes, Drops(key)) && j < |axes|
    ensures |Selected(v, key).shape| == |axes|
    ensures HasLength(key[axes[j]], v.values.shape[axes[j]], Selected(v, key).shape[j])
  {
    var spans, d := Spans(v, key), axes[j];
    UndroppedAt(Steps(spans), Drops(key), axes);
    forall u: nat ensures u < Steps(spans)[d] <==> Reaches(key[d], v.values.shape[d], u) {
      AxisSelection(key[d], v.values.shape[d], v.chunkLens[d], u);
    }
  }

  lemma ElementSelected<T>(v: Variable<T>, key: seq<Indexer>, axes: seq<nat>, u: seq<nat>)
    requires v.Valid() && Selects(key, v.values.shape) && Selected(v, key).Valid()
    requires Remaining(axes, Drops(key)) && ReachesAll(key, v.values.shape, u)
    ensures ElementIs(Selected(v, key), At(u, axes), v.values, PositionsAt(key, v.values.shape, u))
  {
    var spans := Spans(v, key);
    var steps := Steps(spans);
    forall d | 0 <= d < |key|
      ensures u[d] < steps[d] && spans[d].lo + StepOf(spans[d], u[d]) == PositionAt(key[d], v.values.shape[d], u[d])
    {
      AxisSelection(key[d], v.values.shape[d], v.chunkLens[d], u[d]);
    }
    assert InGrid(u, steps);
    assert Picked(spans, u, v.values.shape) == PositionsAt(key, v.values.shape, u);
    PositionsAreOne(v, key);
    UndroppedAt(u, Drops(key), axes);
    SqueezeKeepsOrder(Drops(key), steps, u);
    UnravelRavel(u, steps);
  }

  lemma PositionsAreOne<T>(v: Variable<T>, key: seq<Indexer>)
    requires v.Valid() && Selects(key, v.values.shape)
    ensures forall d :: 0 <= d < |key| && Drops(key)[d] ==> Steps(Spans(v, key))[d] == 1
  {}

  /** The parts are the real chunks the selection overlaps, in the order of `KeysOf`. */
  ghost predicate RealParts<T>(a: NdArray<T>, spans: seq<Span>, parts: seq<NdArray<T>>) {
    && a.Valid() && ValidSpans(spans) && Fits(spans, a.shape)
    && |parts| == Prod(ChunkGrid(spans))
    && forall i :: 0 <= i < |parts| ==>
         var b := BoundsOf(spans, Unravel(i, ChunkGrid(spans)));
         Within(b, a.shape) && parts[i] == Region(a, b)
  }

  /** Assembling the real chunks a selection overlaps gives the selection of the source. */
  lemma AssemblyIsSelection<T>(v: Variable<T>, key: seq<Indexer>, parts: seq<NdArray<T>>, pad: T)
    requires v.Valid() && Selects(key, v.values.shape)
    requires RealParts(v.values, Spans(v, key), parts)
    ensures Assembled(v, key, parts, pad) == Selected(v, key)
    ensures IsSelection(Assembled(v, key, parts, pad), v.values, key)
  {
    SelectedIsIndexing(v, key);
    var spans := Spans(v, key);
    var l, r := Strided(spans, Filled(spans, parts, pad)), Gathered(v.values, spans);
    forall j | 0 <= j < Prod(Steps(spans)) ensures l.data[j] == r.data[j] {
      StridedReal(v.values, spans, parts, j, pad);
    }
    assert l.data == r.data;
  }

  lemma StridedReal<T>(a: NdArray<T>, spans: seq<Span>, parts: seq<NdArray<T>>, j: nat, pad: T)
    requires RealParts(a, spans, parts)
    requires j < Prod(Steps(spans))
    ensures Strided(spans, Filled(spans, parts, pad)).data[j] == Gathered(a, spans).data[j]
  {
    var u := Unravel(j, Steps(spans));
    var idx := Stepped(spans, u);
    FilledReal(a, spans, parts, idx, pad);
    UnravelRavel(idx, Extent(spans));
    assert Picked(spans, u, a.shape) == Absolute(spans, idx, a.shape);
  }

  function Absolute(spans: seq<Span>, idx: seq<nat>, ghost shape: seq<nat>): (p: seq<nat>)
    requires ValidSpans(spans) && Fits(spans, shape) && InGrid(idx, Extent(spans))
    ensures InGrid(p, shape)
  {
    assert forall d :: 0 <= d < |spans| ==> idx[d] < Extent(spans)[d];
    seq(|spans|, d requires 0 <= d < |spans| => spans[d].lo + idx[d])
  }

  lemma FilledReal<T>(a: NdArray<T>, spans: seq<Span>, parts: seq<NdArray<T>>, idx: seq<nat>, pad: T)
    requires RealParts(a, spans, parts)
    requires InGrid(idx, Extent(spans))
    ensures FilledAt(spans, parts, idx, pad) == a.At(Absolute(spans, idx, a.shape))
  {
    var g := ChunkGrid(spans);
    var home := HomeOf(spans, idx);
    var i := Ravel(home, g);
    UnravelRavel(home, g);
    var b, o := BoundsOf(spans, home), OffsetIn(spans, idx);
    assert Within(b, a.shape) && parts[i] == Region(a, b);
    RegionAt(a, b, o);
    forall d | 0 <= d < |spans| ensures Shifted(b, o, a.shape)[d] == Absolute(spans, idx, a.shape)[d] {
      assert o[d] == spans[d].Offset(idx[d]);
      assert b[d] == spans[d].Bounds(spans[d].Home(idx[d]));
    }
    assert Shifted(b, o, a.shape) == Absolute(spans, idx, a.shape);
  }

  // ---------------------------------------------------------------------
  // Filling the buffer in place
  // ---------------------------------------------------------------------

  /** The part of the `t`-th overlapped chunk inside the span. */
  function Cut(s: Span, t: nat): (ab: (nat, nat))
    requires s.Valid() && t < s.Chunks()
    ensures s.lo <= ab.0 <= ab.1 <= s.hi && s.Bounds(t).0 <= ab.0 && ab.1 <= s.Bounds(t).1
    ensures forall x: nat :: x < s.Length() ==> (ab.0 <= s.lo + x < ab.1 <==> s.Home(x) == t)
  {
    assert forall x: nat :: x < s.Length() ==> (s.Bounds(t).0 <= s.lo + x < s.Bounds(t).1 <==> s.Home(x) == t) by {
      forall x: nat | x < s.Length() ensures s.Bounds(t).0 <= s.lo + x < s.Bounds(t).1 <==> s.Home(x) == t {
        HomeBounds(s, x, t);
      }
    }
    CutOrdered(s, t);
    var (b0, b1) := s.Bounds(t);
    (if s.lo <= b0 then b0 else s.lo, if b1 <= s.hi then b1 else s.hi)
  }

  lemma CutOrdered(s: Span, t: nat)
    requires s.Valid() && t < s.Chunks()
    ensures var (b0, b1) := s.Bounds(t); b0 <= b1 && b0 < s.hi && s.lo < b1
  {
    var i := s.First() + t;
    BoundsOrdered(s, t);
    QuotientBounds(s.hi - 1, i, s.c);
    QuotientBounds(s.lo, i, s.c);
    QuotientBounds(s.lo, s.First(), s.c);
    MulMono(s.First() + 1, i + 1, s.c);
  }

  function CutShape(spans: seq<Span>, t: seq<nat>): (s: seq<nat>)
    requires ValidSpans(spans) && InGrid(t, ChunkGrid(spans))
    ensures |s| == |spans|
  {
    seq(|spans|, d requires 0 <= d < |spans| => Cut(spans[d], t[d]).1 - Cut(spans[d], t[d]).0)
  }

  /** Cell of the buffer for the `u`-th cell of the cut, and the cell of the chunk copied into it. */
  function Target(spans: seq<Span>, t: seq<nat>, u: seq<nat>): (idx: seq<nat>)
    requires ValidSpans(spans) && InGrid(t, ChunkGrid(spans)) && InGrid(u, CutShape(spans, t))
    ensures InGrid(idx, Extent(spans)) && HomeOf(spans, idx) == t
  {
    assert forall d :: 0 <= d < |spans| ==> u[d] < CutShape(spans, t)[d];
    var idx := seq(|spans|, d requires 0 <= d < |spans| => Cut(spans[d], t[d]).0 - spans[d].lo + u[d]);
    assert forall d :: 0 <= d < |spans| ==> spans[d].Home(idx[d]) == t[d];
    idx
  }

  function Origin(spans: seq<Span>, t: seq<nat>, u: seq<nat>): (o: seq<nat>)
    requires ValidSpans(spans) && InGrid(t, ChunkGrid(spans)) && InGrid(u, CutShape(spans, t))
    ensures InGrid(o, Widths(BoundsOf(spans, t)))
    ensures o == OffsetIn(spans, Target(spans, t, u))
  {
    assert forall d :: 0 <= d < |spans| ==> u[d] < CutShape(spans, t)[d];
    var o := seq(|spans|, d requires 0 <= d < |spans| => Cut(spans[d], t[d]).0 - spans[d].Bounds(t[d]).0 + u[d]);
    var idx := Target(spans, t, u);
    assert forall d :: 0 <= d < |spans| ==> o[d] == spans[d].Offset(idx[d]) by {
      forall d | 0 <= d < |spans| ensures o[d] == spans[d].Offset(idx[d]) {
        assert spans[d].Home(idx[d]) == HomeOf(spans, idx)[d] == t[d];
      }
    }
    o
  }

  /** Which cell of the cut a cell of the buffer is. */
  ghost function CutCell(spans: seq<Span>, t: seq<nat>, idx: seq<nat>): (u: seq<nat>)
    requires ValidSpans(spans) && InGrid(idx, Extent(spans)) && HomeOf(spans, idx) == t
    ensures InGrid(u, CutShape(spans, t)) && Target(spans, t, u) == idx
  {
    assert forall d :: 0 <= d < |spans| ==> spans[d].Home(idx[d]) == HomeOf(spans, idx)[d] == t[d];
    var u := seq(|spans|, d requires 0 <= d < |spans| => idx[d] + spans[d].lo - Cut(spans[d], t[d]).0);
    assert forall d :: 0 <= d < |spans| ==> u[d] < CutShape(spans, t)[d];
    assert Target(spans, t, u) == idx;
    u
  }

  /** `out[dst] = chunk[src]` for one overlapped chunk: it fills exactly the cells whose home it is. */
  method CopyChunk<T>(out: array<T>, spans: seq<Span>, t: seq<nat>, chunk: NdArray<T>)
    requires ValidSpans(spans) && InGrid(t, ChunkGrid(spans))
    requires out.Length == Prod(Extent(spans))
    requires chunk.Valid() && chunk.shape == Widths(BoundsOf(spans, t))
    modifies out
    ensures forall idx :: InGrid(idx, Extent(spans)) ==>
      out[Ravel(idx, Extent(spans))] ==
        if HomeOf(spans, idx) == t then chunk.At(OffsetIn(spans, idx)) else old(out[Ravel(idx, Extent(spans))])
  {
    var e, s := Extent(spans), CutShape(spans, t);
    for j := 0 to Prod(s)
      invariant forall idx :: InGrid(idx, e) ==>
        out[Ravel(idx, e)] ==
          if HomeOf(spans, idx) == t && Ravel(CutCell(spans, t, idx), s) < j
          then chunk.At(OffsetIn(spans, idx)) else old(out[Ravel(idx, e)])
    {
      var u := Unravel(j, s);
      var dst, src := Target(spans, t, u), Origin(spans, t, u);
      ghost var before := out[..];
      out[Ravel(dst, e)] := chunk.At(src);
      RavelUnravel(j, s);
      forall idx | InGrid(idx, e)
        ensures out[Ravel(idx, e)] ==
          if HomeOf(spans, idx) == t && Ravel(CutCell(spans, t, idx), s) < j + 1
          then chunk.At(OffsetIn(spans, idx)) else old(out[Ravel(idx, e)])
      {
        if Ravel(idx, e) == Ravel(dst, e) {
          RavelInjective(idx, dst, e);
          SameCell(spans, t, u);
        } else if HomeOf(spans, idx) == t && Ravel(CutCell(spans, t, idx), s) == j {
          RavelInjective(CutCell(spans, t, idx), u, s);
        }
      }
    }
  }

  lemma SameCell(spans: seq<Span>, t: seq<nat>, u: seq<nat>)
    requires ValidSpans(spans) && InGrid(t, ChunkGrid(spans)) && InGrid(u, CutShape(spans, t))
    ensures CutCell(spans, t, Target(spans, t, u)) == u
  {
  }

  // ---------------------------------------------------------------------
  // Reading a selection through the cache
  // ---------------------------------------------------------------------

  /** The store holds every chunk a selection of this variable reads, and its fill values have their shapes. */
  ghost predicate Serves<T(!new)>(store: Store<ChunkKey, NdArray<T>>, name: string, v: Variable<T>) {
    && v.Valid()
    && (forall b: seq<(nat, nat)> :: Within(b, v.values.shape) && ChunkKey(name, b) in store.chunks ==>
          && store.chunks[ChunkKey(name, b)] == Region(v.values, b)
          && store.fill(ChunkKey(name, b)).Valid()
          && store.fill(ChunkKey(name, b)).shape == Widths(b))
    && (forall key :: Selects(key, v.values.shape) ==>
          forall i :: 0 <= i < |KeysOf(name, Spans(v, key))| ==> KeysOf(name, Spans(v, key))[i] in store.chunks)
  }

  /** What the reads of `keys` see when exactly `cached` is in memory. */
  ghost function PartsSeen<K, V>(st: Store<K, V>, cached: set<K>, keys: seq<K>): (parts: seq<V>)
    ensures |parts| == |keys|
    ensures forall i :: 0 <= i < |keys| ==> parts[i] == Lookup(st, cached, keys[i])
  {
    seq(|keys|, i requires 0 <= i < |keys| => Lookup(st, cached, keys[i]))
  }

  lemma SeenShape<T(!new)>(
    store: Store<ChunkKey, NdArray<T>>, cached: set<ChunkKey>, name: string, v: Variable<T>, key: seq<Indexer>, i: nat)
    requires Serves(store, name, v) && Selects(key, v.values.shape)
    requires i < Prod(ChunkGrid(Spans(v, key)))
    ensures var spans := Spans(v, key);
            var b := BoundsOf(spans, Unravel(i, ChunkGrid(spans)));
            var k := KeysOf(name, spans)[i];
            && k == ChunkKey(name, b) && k in store.chunks && Within(b, v.values.shape)
            && store.chunks[k] == Region(v.values, b)
            && Lookup(store, cached, k).Valid() && Lookup(store, cached, k).shape == Widths(b)
  {
    var spans := Spans(v, key);
    BoundsWithin(spans, Unravel(i, ChunkGrid(spans)), v.values.shape);
    assert KeysOf(name, spans)[i] in store.chunks;
  }

  /** One pass of the loop of `_raw_getitem`: read the `i`-th overlapped chunk and copy its part in. */
  method ReadPart<T(!new)>(
    cache: ChunkCache<ChunkKey, NdArray<T>>, name: string, v: Variable<T>, key: seq<Indexer>,
    out: array<T>, ghost parts: seq<NdArray<T>>, i: nat)
    requires cache.Valid() && Serves(cache.store, name, v) && Selects(key, v.values.shape)
    requires i < Prod(ChunkGrid(Spans(v, key)))
    requires parts == PartsSeen(cache.store, cache.chunks.Keys, KeysOf(name, Spans(v, key)))
    requires FilledBelow(Spans(v, key), parts, out[..], i)
    modifies cache`order, cache`missing, out
    ensures cache.Valid()
    ensures cache.order == Touch(old(cache.order), KeysOf(name, Spans(v, key))[i])
    ensures cache.missing == old(cache.missing) + ({KeysOf(name, Spans(v, key))[i]} - cache.chunks.Keys)
    ensures FilledBelow(Spans(v, key), parts, out[..], i + 1)
  {
    var spans := Spans(v, key);
    var t := Unravel(i, ChunkGrid(spans));
    SeenShape(cache.store, cache.chunks.Keys, name, v, key, i);
    var chunk := cache.Get(ChunkKey(name, BoundsOf(spans, t)));
    ghost var before := out[..];
    CopyChunk(out, spans, t, chunk);
    FilledStep(spans, parts, before, out[..], i);
  }

  /** `_raw_getitem`: read the overlapped chunks in order, fill the buffer, stride and squeeze it. */
  method RawGetItem<T(0, !new)>(
    cache: ChunkCache<ChunkKey, NdArray<T>>, name: string, v: Variable<T>, key: seq<Indexer>)
    returns (r: NdArray<T>)
    requires cache.Valid() && Serves(cache.store, name, v) && Selects(key, v.values.shape)
    modifies cache`order, cache`missing
    ensures cache.Valid()
    ensures cache.order == TouchAll(old(cache.order), KeysOf(name, Spans(v, key)))
    ensures cache.missing == old(cache.missing) + (Elements(KeysOf(name, Spans(v, key))) - cache.chunks.Keys)
    ensures forall pad ::
              r == Assembled(v, key, PartsSeen(cache.store, cache.chunks.Keys, KeysOf(name, Spans(v, key))), pad)
  {
    var spans := Spans(v, key);
    var e := Extent(spans);
    var keys := KeysOf(name, spans);
    ghost var parts := PartsSeen(cache.store, cache.chunks.Keys, keys);
    var out := new T[Prod(e)];
    assert keys[..0] == [];
    for i := 0 to |keys|
      invariant cache.Valid()
      invariant cache.order == TouchAll(old(cache.order), keys[..i])
      invariant cache.missing == old(cache.missing) + (Elements(keys[..i]) - cache.chunks.Keys)
      invariant FilledBelow(spans, parts, out[..], i)
    {
      ReadPart(cache, name, v, key, out, parts, i);
      OneMore(old(cache.order), keys, i);
    }
    assert keys[..|keys|] == keys;
    FilledEverywhere(spans, parts, out[..]);
    r := Squeezed(key, Strided(spans, NdArray(e, out[..])));
  }

  lemma OneMore<K(!new)>(order: seq<K>, keys: seq<K>, i: nat)
    requires i < |keys|
    ensures TouchAll(order, keys[..i + 1]) == Touch(TouchAll(order, keys[..i]), keys[i])
    ensures Elements(keys[..i + 1]) == Elements(keys[..i]) + {keys[i]}
  {
    assert keys[..i + 1] == keys[..i] + [keys[i]];
    TouchAllSnoc(order, keys[..i], keys[i]);
  }

  /** The cells whose home is among the first `i` chunks are filled. */
  ghost predicate FilledBelow<T(!new)>(spans: seq<Span>, parts: seq<NdArray<T>>, data: seq<T>, i: nat)
    requires ValidSpans(spans)
  {
    && |parts| == Prod(ChunkGrid(spans)) && |data| == Prod(Extent(spans))
    && forall idx :: InGrid(idx, Extent(spans)) && Ravel(HomeOf(spans, idx), ChunkGrid(spans)) < i ==>
         forall pad :: data[Ravel(idx, Extent(spans))] == FilledAt(spans, parts, idx, pad)
  }

  lemma FilledStep<T(!new)>(spans: seq<Span>, parts: seq<NdArray<T>>, before: seq<T>, after: seq<T>, i: nat)
    requires ValidSpans(spans) && i < Prod(ChunkGrid(spans))
    requires FilledBelow(spans, parts, before, i)
    requires var t := Unravel(i, ChunkGrid(spans));
             && parts[i].Valid() && parts[i].shape == Widths(BoundsOf(spans, t))
             && |after| == |before|
             && forall idx :: InGrid(idx, Extent(spans)) ==>
                  after[Ravel(idx, Extent(spans))] ==
                    if HomeOf(spans, idx) == t then parts[i].At(OffsetIn(spans, idx))
                    else before[Ravel(idx, Extent(spans))]
    ensures FilledBelow(spans, parts, after, i + 1)
  {
    var g := ChunkGrid(spans);
    RavelUnravel(i, g);
    forall idx | InGrid(idx, Extent(spans)) && Ravel(HomeOf(spans, idx), g) < i + 1
      ensures forall pad :: after[Ravel(idx, Extent(spans))] == FilledAt(spans, parts, idx, pad)
    {
      if Ravel(HomeOf(spans, idx), g) == i {
        RavelInjective(HomeOf(spans, idx), Unravel(i, g), g);
      }
    }
  }

  lemma FilledEverywhere<T(!new)>(spans: seq<Span>, parts: seq<NdArray<T>>, data: seq<T>)
    requires ValidSpans(spans) && FilledBelow(spans, parts, data, Prod(ChunkGrid(spans)))
    ensures forall pad :: NdArray(Extent(spans), data) == Filled(spans, parts, pad)
  {
    var e := Extent(spans);
    forall pad ensures NdArray(e, data) == Filled(spans, parts, pad) {
      forall idx | InGrid(idx, e) ensures NdArray(e, data).At(idx) == Filled(spans, parts, pad).At(idx) {
        UnravelRavel(idx, e);
      }
      SameElements(NdArray(e, data), Filled(spans, parts, pad));
    }
  }
}
