/**
 Lazy reads of a query result: an index into the array becomes a window on each dimension, the
 engine runs the query through the windows, and the rows it returns are scattered into the
 requested region. That is what indexing the whole array would give, unless a window asks the
 engine for a NULL.
 */
module LazyWindows {
  import opened CoordLookups
  import opened CoordTables
  import opened EngineRows
  import opened Grid
  import opened NdArrays
  import opened Scatter
  import opened Wrappers

  // ---------------------------------------------------------------------
  // Indexers
  // ---------------------------------------------------------------------

  datatype Indexer =
    | Slice(start: Option<nat>, stop: Option<nat>, step: Option<nat>)
    | Position(k: nat)
    | Positions(ks: seq<nat>)

  /** Normalised to an axis of length `n`, and naming no position twice. */
  ghost predicate Normalised(k: Indexer, n: nat) {
    match k
    case Slice(_, _, step) => step != Some(0)
    case Position(p) => p < n
    case Positions(ks) => Distinct(ks) && forall i :: 0 <= i < |ks| ==> ks[i] < n
  }

  function SlicePositions(start: nat, stop: nat, step: nat): (ps: seq<nat>)
    requires step > 0
    ensures forall i :: 0 <= i < |ps| ==> start <= ps[i] < stop
    ensures Distinct(ps)
    ensures |ps| > 0 <==> start < stop
    decreases stop - start
  {
    if start >= stop then [] else [start] + SlicePositions(start + step, stop, step)
  }

  function StepOf(k: Indexer): nat
    requires k.Slice?
  {
    k.step.GetOr(1)
  }

  /** The positions an indexer selects, in order; slices are clipped to the axis. */
  function PositionsOf(k: Indexer, n: nat): (ps: seq<nat>)
    requires k.Slice? ==> StepOf(k) > 0
  {
    match k
    case Slice(start, stop, _) => SlicePositions(start.GetOr(0), Smaller(stop.GetOr(n), n), StepOf(k))
    case Position(p) => [p]
    case Positions(ks) => ks
  }

  lemma PositionsValid(k: Indexer, n: nat)
    requires Normalised(k, n)
    ensures Distinct(PositionsOf(k, n)) && forall i :: 0 <= i < |PositionsOf(k, n)| ==> PositionsOf(k, n)[i] < n
  {}

  predicate IsRun(ps: seq<nat>) {
    forall i :: 0 <= i < |ps| ==> ps[i] == ps[0] + i
  }

  lemma {:induction false} UnitSlice(start: nat, stop: nat)
    requires start <= stop
    ensures |SlicePositions(start, stop, 1)| == stop - start
    ensures forall i :: 0 <= i < stop - start ==> SlicePositions(start, stop, 1)[i] == start + i
    decreases stop - start
  {
    if start < stop { UnitSlice(start + 1, stop); }
  }

  /** Consecutive differences of one. */
  predicate DiffsAreOne(ks: seq<nat>) {
    forall i :: 1 <= i < |ks| ==> ks[i] == ks[i - 1] + 1
  }

  lemma {:induction false} DiffsMakeRun(ks: seq<nat>, i: nat)
    requires DiffsAreOne(ks) && i < |ks|
    ensures ks[i] == ks[0] + i
  {
    if i > 0 { DiffsMakeRun(ks, i - 1); }
  }

  predicate Contiguous(k: Indexer) {
    match k
    case Slice(_, _, _) => StepOf(k) == 1
    case Position(_) => false
    case Positions(ks) => |ks| > 1 && DiffsAreOne(ks)
  }

  /** The indexer selects the whole axis, so no window is needed. */
  predicate CoversAll(k: Indexer, n: nat) {
    match k
    case Slice(start, stop, _) => start.GetOr(0) == 0 && stop.GetOr(n) >= n && StepOf(k) == 1
    case Position(_) => false
    case Positions(ks) => |ks| == n && forall i :: 0 <= i < n ==> ks[i] == i
  }

  lemma ContiguousIsRun(k: Indexer, n: nat)
    requires Normalised(k, n) && Contiguous(k)
    ensures IsRun(PositionsOf(k, n))
  {
    match k
    case Slice(start, stop, _) =>
      var lo, hi := start.GetOr(0), Smaller(stop.GetOr(n), n);
      if lo <= hi { UnitSlice(lo, hi); }
    case Positions(ks) =>
      forall i | 0 <= i < |ks| ensures ks[i] == ks[0] + i { DiffsMakeRun(ks, i); }
  }

  lemma CoveringSelects(k: Indexer, n: nat, p: nat)
    requires Normalised(k, n) && CoversAll(k, n) && p < n
    ensures p in PositionsOf(k, n)
  {
    match k
    case Slice(_, _, _) =>
      UnitSlice(0, n);
      assert SlicePositions(0, n, 1)[p] == p;
    case Positions(ks) =>
      assert ks[p] == p;
  }

  // ---------------------------------------------------------------------
  // Windows
  // ---------------------------------------------------------------------

  /** One dimension's window: an inclusive range, or a list of values. */
  datatype DimSpec = RangeSpec(lo: Coord, hi: Coord) | ValuesSpec(vals: seq<Coord>)

  predicate Below(a: Coord, b: Coord) {
    a.Num? && b.Num? && a.v < b.v
  }

  predicate Rises(coords: seq<Coord>, i: nat)
    requires 0 < i < |coords|
  {
    Below(coords[i - 1], coords[i])
  }

  predicate Falls(coords: seq<Coord>, i: nat)
    requires 0 < i < |coords|
  {
    Below(coords[i], coords[i - 1])
  }

  predicate StrictlyMonotonic(coords: seq<Coord>) {
    || |coords| < 2
    || (forall i :: 1 <= i < |coords| ==> Rises(coords, i))
    || (forall i :: 1 <= i < |coords| ==> Falls(coords, i))
  }

  lemma {:induction false} RisesFar(coords: seq<Coord>, i: nat, j: nat)
    requires i < j < |coords| && forall i :: 1 <= i < |coords| ==> Rises(coords, i)
    ensures Below(coords[i], coords[j])
    decreases j - i
  {
    assert Rises(coords, j);
    if i < j - 1 { RisesFar(coords, i, j - 1); }
  }

  lemma {:induction false} FallsFar(coords: seq<Coord>, i: nat, j: nat)
    requires i < j < |coords| && forall i :: 1 <= i < |coords| ==> Falls(coords, i)
    ensures Below(coords[j], coords[i])
    decreases j - i
  {
    assert Falls(coords, j);
    if i < j - 1 { FallsFar(coords, i, j - 1); }
  }

  /** All the values before a position are on one side of it, and those after it on the other. */
  lemma MonotonicOrder(coords: seq<Coord>, i: nat, j: nat, k: nat)
    requires StrictlyMonotonic(coords) && i < j < k < |coords|
    ensures coords[i].Num? && coords[j].Num? && coords[k].Num?
    ensures || (Below(coords[i], coords[j]) && Below(coords[j], coords[k]))
            || (Below(coords[j], coords[i]) && Below(coords[k], coords[j]))
  {
    if forall i :: 1 <= i < |coords| ==> Rises(coords, i) {
      RisesFar(coords, i, j);
      RisesFar(coords, j, k);
    } else {
      FallsFar(coords, i, j);
      FallsFar(coords, j, k);
    }
  }

  predicate InSpec(spec: DimSpec, v: Coord) {
    match spec
    case RangeSpec(lo, hi) => !Before(v, lo) && !Before(hi, v)
    case ValuesSpec(vals) => v in vals
  }

  /** The window of some requested values; a NaN among them would make both bounds NaN. */
  function DimSpecFor(vals: seq<Coord>, contiguous: bool, monotonic: bool): DimSpec {
    if contiguous && monotonic && |vals| > 1 then
      if AllNum(vals) then RangeSpec(Num(Min(vals)), Num(Max(vals))) else RangeSpec(NaN, NaN)
    else ValuesSpec(vals)
  }

  function SpecOf(axis: Axis, k: Indexer): Option<DimSpec>
    requires k.Slice? ==> StepOf(k) > 0
    requires forall i :: 0 <= i < |PositionsOf(k, |axis.values|)| ==> PositionsOf(k, |axis.values|)[i] < |axis.values|
  {
    if CoversAll(k, |axis.values|) then None
    else Some(DimSpecFor(Gather(axis.values, PositionsOf(k, |axis.values|)), Contiguous(k),
                         StrictlyMonotonic(axis.values)))
  }

  /** Over a strictly monotonic axis, the values of a run of positions are exactly a value range. */
  lemma RangeExact(coords: seq<Coord>, ps: seq<nat>, q: nat)
    requires StrictlyMonotonic(coords) && IsRun(ps) && |ps| > 1 && q < |coords|
    requires forall i :: 0 <= i < |ps| ==> ps[i] < |coords|
    ensures InSpec(DimSpecFor(Gather(coords, ps), true, true), coords[q]) <==> q in ps
  {
    var vals := Gather(coords, ps);
    assert ps[1] < |coords| && ps[1] == ps[0] + 1;
    AllComparable(coords);
    var first, last := ps[0], ps[|ps| - 1];
    assert vals[0] == coords[first] && vals[|ps| - 1] == coords[last];
    if first <= q <= last {
      assert ps[q - first] == q;
      assert vals[q - first] == coords[q];
    } else {
      OutsideWindow(coords, ps, q);
    }
  }

  lemma AllComparable(coords: seq<Coord>)
    requires StrictlyMonotonic(coords) && |coords| > 1
    ensures AllNum(coords)
  {
    forall i | 0 <= i < |coords| ensures coords[i].Num? {
      if i > 0 {
        assert Rises(coords, i) || Falls(coords, i);
      } else {
        assert Rises(coords, 1) || Falls(coords, 1);
      }
    }
  }

  lemma OutsideWindow(coords: seq<Coord>, ps: seq<nat>, q: nat)
    requires StrictlyMonotonic(coords) && AllNum(coords) && IsRun(ps) && |ps| > 1 && q < |coords|
    requires forall i :: 0 <= i < |ps| ==> ps[i] < |coords|
    requires q < ps[0] || q > ps[|ps| - 1]
    ensures !InSpec(DimSpecFor(Gather(coords, ps), true, true), coords[q])
  {
    var vals := Gather(coords, ps);
    var lo, hi := Min(vals), Max(vals);
    var i :| 0 <= i < |vals| && vals[i] == Num(lo);
    var j :| 0 <= j < |vals| && vals[j] == Num(hi);
    var a, z := ps[0], ps[|ps| - 1];
    assert vals[0] == coords[a] && vals[|ps| - 1] == coords[z];
    if q < a {
      OneSide(coords, q, a, z, ps[i]);
      OneSide(coords, q, a, z, ps[j]);
    } else {
      OtherSide(coords, a, z, q, ps[i]);
      OtherSide(coords, a, z, q, ps[j]);
    }
  }

  /** Before a window, a value is below all of it or above all of it. */
  lemma OneSide(coords: seq<Coord>, q: nat, a: nat, z: nat, p: nat)
    requires StrictlyMonotonic(coords) && AllNum(coords) && q < a < z < |coords| && a <= p <= z
    ensures if Below(coords[a], coords[z]) then Below(coords[q], coords[p]) else Below(coords[p], coords[q])
  {
    MonotonicOrder(coords, q, a, z);
    if p > a { MonotonicOrder(coords, q, a, p); }
  }

  lemma OtherSide(coords: seq<Coord>, a: nat, z: nat, q: nat, p: nat)
    requires StrictlyMonotonic(coords) && AllNum(coords) && a < z < q < |coords| && a <= p <= z
    ensures if Below(coords[a], coords[z]) then Below(coords[p], coords[q]) else Below(coords[q], coords[p])
  {
    MonotonicOrder(coords, a, z, q);
    if p < z { MonotonicOrder(coords, p, z, q); }
  }

  function RequestedAxis(axis: Axis, k: Indexer): Axis
    requires k.Slice? ==> StepOf(k) > 0
    requires forall i :: 0 <= i < |PositionsOf(k, |axis.values|)| ==> PositionsOf(k, |axis.values|)[i] < |axis.values|
  {
    Axis(Gather(axis.values, PositionsOf(k, |axis.values|)), axis.numeric, axis.hashable)
  }

  /** A window admits exactly the requested values of the axis, and its absence means all are requested. */
  lemma WindowExact(axis: Axis, k: Indexer, v: Coord)
    requires Normalised(k, |axis.values|) && Distinct(axis.values) && v in axis.values
    ensures (forall i :: 0 <= i < |PositionsOf(k, |axis.values|)| ==> PositionsOf(k, |axis.values|)[i] < |axis.values|)
    ensures (SpecOf(axis, k).Some? ==> InSpec(SpecOf(axis, k).value, v)) <==> v in RequestedAxis(axis, k).values
  {
    var n := |axis.values|;
    PositionsValid(k, n);
    var ps := PositionsOf(k, n);
    var vals := Gather(axis.values, ps);
    var q :| 0 <= q < n && axis.values[q] == v;
    assert v in vals <==> q in ps by {
      if q in ps {
        var i :| 0 <= i < |ps| && ps[i] == q;
        assert vals[i] == v;
      }
      if v in vals {
        var i :| 0 <= i < |vals| && vals[i] == v;
        assert axis.values[ps[i]] == axis.values[q];
      }
    }
    if CoversAll(k, n) {
      CoveringSelects(k, n, q);
    } else if Contiguous(k) && StrictlyMonotonic(axis.values) && |ps| > 1 {
      ContiguousIsRun(k, n);
      RangeExact(axis.values, ps, q);
    }
  }

  lemma RequestedDistinct(axis: Axis, k: Indexer)
    requires Normalised(k, |axis.values|) && Distinct(axis.values)
    ensures (forall i :: 0 <= i < |PositionsOf(k, |axis.values|)| ==> PositionsOf(k, |axis.values|)[i] < |axis.values|)
    ensures Distinct(RequestedAxis(axis, k).values)
    ensures forall v :: v in RequestedAxis(axis, k).values ==> v in axis.values
  {
    PositionsValid(k, |axis.values|);
    var ps := PositionsOf(k, |axis.values|);
    forall i, j | 0 <= i < j < |ps| ensures axis.values[ps[i]] != axis.values[ps[j]] {
      assert ps[i] != ps[j];
    }
  }

  // ---------------------------------------------------------------------
  // The predicate sent to the engine
  // ---------------------------------------------------------------------

  datatype Pred =
    | GreaterOrEqual(d: nat, v: Coord)
    | LessOrEqual(d: nat, v: Coord)
    | Equals(d: nat, v: Coord)
    | And(left: Pred, right: Pred)
    | Or(left: Pred, right: Pred)

  /** Whether the predicate is TRUE on a row: a comparison with a NULL never is, and a NaN number equals itself. */
  predicate Accepts(p: Pred, keys: seq<Key>) {
    match p
    case GreaterOrEqual(d, v) => d < |keys| && keys[d].Known? && !Before(keys[d].c, v)
    case LessOrEqual(d, v) => d < |keys| && keys[d].Known? && !Before(v, keys[d].c)
    case Equals(d, v) => d < |keys| && keys[d] == Known(v)
    case And(a, b) => Accepts(a, keys) && Accepts(b, keys)
    case Or(a, b) => Accepts(a, keys) || Accepts(b, keys)
  }

  predicate AcceptsAll(p: Option<Pred>, keys: seq<Key>) {
    p.Some? ==> Accepts(p.value, keys)
  }

  /** A cell passes a window when it is a value in it. */
  predicate Passes(spec: DimSpec, key: Key) {
    key.Known? && InSpec(spec, key.c)
  }

  predicate UsableSpec(spec: DimSpec) {
    spec.ValuesSpec? ==> spec.vals != []
  }

  /** The predicate of one window: two comparisons, or a chain of equalities. */
  method SpecPredicate(d: nat, spec: DimSpec) returns (p: Pred)
    requires UsableSpec(spec)
    ensures forall keys: seq<Key> :: d < |keys| ==> (Accepts(p, keys) <==> Passes(spec, keys[d]))
  {
    match spec {
      case RangeSpec(lo, hi) =>
        p := And(GreaterOrEqual(d, lo), LessOrEqual(d, hi));
      case ValuesSpec(vals) =>
        p := Equals(d, vals[0]);
        for i := 1 to |vals|
          invariant forall keys: seq<Key> :: d < |keys| ==>
                      (Accepts(p, keys) <==> Passes(ValuesSpec(vals[..i]), keys[d]))
        {
          p := Or(p, Equals(d, vals[i]));
        }
        assert vals[..|vals|] == vals;
    }
  }

  /** The cells pass the windows of the first `n` dimensions. */
  predicate InWindows(specs: seq<Option<DimSpec>>, n: nat, keys: seq<Key>)
    requires n <= |specs| == |keys|
  {
    forall d :: 0 <= d < n && specs[d].Some? ==> Passes(specs[d].value, keys[d])
  }

  /** What `p` must be: TRUE exactly inside the windows. */
  ghost predicate Windows(p: Option<Pred>, specs: seq<Option<DimSpec>>, n: nat)
    requires n <= |specs|
  {
    forall keys: seq<Key> :: |keys| == |specs| ==> (AcceptsAll(p, keys) <==> InWindows(specs, n, keys))
  }

  method FetchPredicate(specs: seq<Option<DimSpec>>) returns (p: Option<Pred>)
    requires forall d :: 0 <= d < |specs| && specs[d].Some? ==> UsableSpec(specs[d].value)
    ensures Windows(p, specs, |specs|)
  {
    p := None;
    for d := 0 to |specs|
      invariant Windows(p, specs, d)
    {
      if specs[d].Some? {
        var q := SpecPredicate(d, specs[d].value);
        p := if p.None? then Some(q) else Some(And(p.value, q));
      }
    }
  }

  // ---------------------------------------------------------------------
  // Reading a region
  // ---------------------------------------------------------------------

  /** Running the query under a predicate. */
  type Fetch<T> = Option<Pred> -> seq<EngineBatch<T>>

  /** The engine returns each row of the result that satisfies the predicate once, in any order and batching. */
  ghost predicate Serves<T(!new)>(fetch: Fetch<T>, rows: seq<EngineRow<T>>) {
    forall p ::
      && Distinct(Flatten(fetch(p)))
      && forall row :: row in Flatten(fetch(p)) <==> row in rows && AcceptsAll(p, row.keys)
  }

  ghost predicate NormalisedKey(key: seq<Indexer>, axes: seq<Axis>) {
    |key| == |axes| && forall d :: 0 <= d < |axes| ==> Normalised(key[d], |axes[d].values|)
  }

  ghost predicate Usable(k: Indexer, n: nat) {
    && (k.Slice? ==> StepOf(k) > 0)
    && forall i :: 0 <= i < |PositionsOf(k, n)| ==> PositionsOf(k, n)[i] < n
  }

  lemma KeyUsable(key: seq<Indexer>, axes: seq<Axis>)
    requires NormalisedKey(key, axes)
    ensures forall d :: 0 <= d < |axes| ==> Usable(key[d], |axes[d].values|)
  {
    forall d | 0 <= d < |axes| ensures Usable(key[d], |axes[d].values|) {
      PositionsValid(key[d], |axes[d].values|);
    }
  }

  ghost predicate IsRequest(requested: seq<Axis>, specs: seq<Option<DimSpec>>, axes: seq<Axis>, key: seq<Indexer>,
                            n: nat)
  {
    && |requested| == |specs| == n <= |axes| == |key|
    && forall d :: 0 <= d < n ==>
         && Usable(key[d], |axes[d].values|)
         && requested[d] == RequestedAxis(axes[d], key[d])
         && specs[d] == SpecOf(axes[d], key[d])
  }

  /** The requested coordinates and the windows, dimension by dimension. */
  method BuildRequest(axes: seq<Axis>, key: seq<Indexer>) returns (requested: seq<Axis>, specs: seq<Option<DimSpec>>)
    requires NormalisedKey(key, axes)
    ensures IsRequest(requested, specs, axes, key, |axes|)
  {
    KeyUsable(key, axes);
    requested, specs := [], [];
    for d := 0 to |axes|
      invariant IsRequest(requested, specs, axes, key, d)
    {
      requested := requested + [RequestedAxis(axes[d], key[d])];
      specs := specs + [SpecOf(axes[d], key[d])];
    }
  }

  /** A dimension whose indexer does not cover its axis gets a window. */
  predicate Windowed(axes: seq<Axis>, key: seq<Indexer>, d: nat)
    requires |key| == |axes| && d < |axes|
  {
    !CoversAll(key[d], |axes[d].values|)
  }

  /** The row is not NULL on any dimension that has a window. */
  predicate KnownInWindows(axes: seq<Axis>, key: seq<Indexer>, keys: seq<Key>)
    requires |key| == |axes| == |keys|
  {
    forall d :: 0 <= d < |axes| && Windowed(axes, key, d) ==> keys[d].Known?
  }

  /** The windows together admit exactly the rows on the requested axes that are not NULL where there is a window. */
  lemma WindowsExact(requested: seq<Axis>, specs: seq<Option<DimSpec>>, axes: seq<Axis>, key: seq<Indexer>,
                     keys: seq<Key>)
    requires NormalisedKey(key, axes) && DistinctAxes(axes) && IsRequest(requested, specs, axes, key, |axes|)
    requires CoordsOn(CoordsOf(keys), axes)
    ensures InWindows(specs, |specs|, keys) <==> CoordsOn(CoordsOf(keys), requested) && KnownInWindows(axes, key, keys)
  {
    var coords := CoordsOf(keys);
    forall d | 0 <= d < |axes|
      ensures (specs[d].Some? ==> InSpec(specs[d].value, coords[d])) <==> coords[d] in requested[d].values
      ensures specs[d].Some? <==> Windowed(axes, key, d)
    {
      WindowExact(axes[d], key[d], coords[d]);
    }
  }

  lemma RequestedAxes(requested: seq<Axis>, specs: seq<Option<DimSpec>>, axes: seq<Axis>, key: seq<Indexer>)
    requires NormalisedKey(key, axes) && DistinctAxes(axes) && IsRequest(requested, specs, axes, key, |axes|)
    ensures DistinctAxes(requested)
    ensures forall coords :: CoordsOn(coords, requested) ==> CoordsOn(coords, axes)
  {
    forall d | 0 <= d < |axes|
      ensures Distinct(requested[d].values) && forall v :: v in requested[d].values ==> v in axes[d].values
    {
      RequestedDistinct(axes[d], key[d]);
    }
  }

  /** Row `(c, v)` is in a list of rows with distinct tuples exactly when the value at `c` is `v`. */
  lemma ValueIsMember<T>(rows: seq<ResultRow<T>>, coords: seq<Coord>, v: T)
    requires DistinctTuples(rows)
    ensures ValueAt(rows, coords) == Some(v) <==> ResultRow(coords, v) in rows
  {
    NoSuchRow(rows, coords);
    if ResultRow(coords, v) in rows {
      var i :| 0 <= i < |rows| && rows[i] == ResultRow(coords, v);
      ValueOfRow(rows, i);
    }
    if ValueAt(rows, coords).Some? {
      var i :| 0 <= i < |rows| && rows[i].coords == coords;
      ValueOfRow(rows, i);
    }
  }

  /** Lists with the same rows at some coordinates have the same value there. */
  lemma SameValue<T(!new)>(a: seq<ResultRow<T>>, b: seq<ResultRow<T>>, coords: seq<Coord>)
    requires DistinctTuples(a) && DistinctTuples(b)
    requires forall v: T :: ResultRow(coords, v) in a <==> ResultRow(coords, v) in b
    ensures ValueAt(a, coords) == ValueAt(b, coords)
  {
    match ValueAt(a, coords)
    case Some(v) =>
      ValueIsMember(a, coords, v);
      ValueIsMember(b, coords, v);
    case None =>
      if ValueAt(b, coords).Some? {
        ValueIsMember(b, coords, ValueAt(b, coords).value);
        ValueIsMember(a, coords, ValueAt(b, coords).value);
      }
  }

  lemma FetchedDistinct<T>(rows: seq<EngineRow<T>>, fetched: seq<EngineRow<T>>)
    requires DistinctTuples(Views(rows)) && Distinct(fetched) && forall row :: row in fetched ==> row in rows
    ensures DistinctTuples(Views(fetched))
  {
    forall i, j | 0 <= i < j < |fetched| ensures Views(fetched)[i].coords != Views(fetched)[j].coords {
      assert fetched[i] in fetched && fetched[j] in fetched;
      if CoordsOf(fetched[i].keys) == CoordsOf(fetched[j].keys) {
        SameView(rows, fetched[i], fetched[j]);
      }
    }
  }

  // ---------------------------------------------------------------------
  // Indexing the whole array
  // ---------------------------------------------------------------------

  ghost predicate Selects(key: seq<Indexer>, shape: seq<nat>) {
    |key| == |shape| && forall d :: 0 <= d < |shape| ==> Usable(key[d], shape[d])
  }

  /** Positions selected per dimension. */
  ghost function RegionShape(key: seq<Indexer>, shape: seq<nat>): (region: seq<nat>)
    requires Selects(key, shape)
    ensures |region| == |key|
  {
    seq(|key|, d requires 0 <= d < |key| => (assert Usable(key[d], shape[d]); |PositionsOf(key[d], shape[d])|))
  }

  /** The cell of the array behind a cell of the region. */
  ghost function SourceCell(key: seq<Indexer>, shape: seq<nat>, u: seq<nat>): (cell: seq<nat>)
    requires Selects(key, shape) && InGrid(u, RegionShape(key, shape))
    ensures InGrid(cell, shape)
  {
    var cell := seq(|key|, d requires 0 <= d < |key| =>
      (assert u[d] < RegionShape(key, shape)[d]; PositionsOf(key[d], shape[d])[u[d]]));
    assert InGrid(cell, shape) by {
      forall d | 0 <= d < |shape| ensures cell[d] < shape[d] {
        assert Usable(key[d], shape[d]) && u[d] < RegionShape(key, shape)[d];
      }
    }
    cell
  }

  /** Axes indexed by a single position are dropped. */
  function Drops(key: seq<Indexer>): (dropped: seq<bool>)
    ensures |dropped| == |key| && forall d :: 0 <= d < |key| ==> dropped[d] == key[d].Position?
  {
    seq(|key|, d requires 0 <= d < |key| => key[d].Position?)
  }

  /** The region of an array that an index selects, before its single-position axes are dropped. */
  ghost predicate IsRegion<T>(r: NdArray<T>, a: NdArray<T>, key: seq<Indexer>) {
    && a.Valid() && Selects(key, a.shape)
    && r.shape == RegionShape(key, a.shape) && r.Valid()
    && forall u :: InGrid(u, r.shape) ==> r.At(u) == a.At(SourceCell(key, a.shape, u))
  }

  /** `np.squeeze` of the axes indexed by a single position. */
  function Squeezed<T>(r: NdArray<T>, key: seq<Indexer>): NdArray<T>
    requires |key| == |r.shape|
  {
    NdArray(Undropped(r.shape, Drops(key)), r.data)
  }

  /** Indexing: the element at `u`, minus the dropped axes, is the one at the position each indexer names. */
  ghost predicate IsIndexed<T>(s: NdArray<T>, a: NdArray<T>, key: seq<Indexer>) {
    && a.Valid() && Selects(key, a.shape)
    && s.shape == Undropped(RegionShape(key, a.shape), Drops(key)) && |s.data| == Prod(RegionShape(key, a.shape))
    && forall u :: InGrid(u, RegionShape(key, a.shape)) ==>
         && InGrid(Undropped(u, Drops(key)), s.shape) && s.Valid()
         && s.At(Undropped(u, Drops(key))) == a.At(SourceCell(key, a.shape, u))
  }

  lemma SqueezedIsIndexed<T>(r: NdArray<T>, a: NdArray<T>, key: seq<Indexer>)
    requires r.Valid() && a.Valid() && Selects(key, a.shape) && r.shape == RegionShape(key, a.shape)
    ensures IsIndexed(Squeezed(r, key), a, key) <==> IsRegion(r, a, key)
  {
    forall d | 0 <= d < |key| && key[d].Position? ensures r.shape[d] == 1 {
      assert Usable(key[d], a.shape[d]);
    }
    forall u | InGrid(u, r.shape)
      ensures InGrid(Undropped(u, Drops(key)), Undropped(r.shape, Drops(key))) && Squeezed(r, key).Valid()
      ensures Squeezed(r, key).At(Undropped(u, Drops(key))) == r.At(u)
    {
      SqueezeKeepsOrder(Drops(key), r.shape, u);
      ProdUndropped(Drops(key), r.shape);
    }
  }

  // ---------------------------------------------------------------------
  // What an index reads
  // ---------------------------------------------------------------------

  /** The position that the `u`-th element along an axis of length `n` comes from. */
  function PositionAt(k: Indexer, u: nat): (p: nat)
    requires k.Positions? ==> u < |k.ks|
  {
    match k
    case Slice(start, _, step) =>
      (if start.Some? then start.value else 0) + u * (if step.Some? then step.value else 1)
    case Position(p) => p
    case Positions(ks) => ks[u]
  }

  /** Whether there is a `u`-th element: a slice has those before its clipped stop. */
  predicate Reaches(k: Indexer, n: nat, u: nat) {
    match k
    case Slice(_, stop, _) => PositionAt(k, u) < if stop.Some? && stop.value < n then stop.value else n
    case Position(_) => u == 0
    case Positions(ks) => u < |ks|
  }

  lemma {:induction false} SliceFormula(start: nat, stop: nat, step: nat, u: nat)
    requires step > 0
    ensures u < |SlicePositions(start, stop, step)| <==> start + u * step < stop
    ensures u < |SlicePositions(start, stop, step)| ==> SlicePositions(start, stop, step)[u] == start + u * step
    decreases stop - start
  {
    if start < stop {
      if u > 0 {
        SliceFormula(start + step, stop, step, u - 1);
        MulSucc(u - 1, step);
      }
    } else {
      assert u * step >= 0;
    }
  }

  /** A slice selects every step-th position from its start up to its clipped stop, and no other. */
  lemma SliceSelects(k: Indexer, n: nat, q: nat)
    requires k.Slice? && StepOf(k) > 0
    ensures var start := if k.start.Some? then k.start.value else 0;
            var step := if k.step.Some? then k.step.value else 1;
            q in PositionsOf(k, n) <==>
              start <= q < (if k.stop.Some? && k.stop.value < n then k.stop.value else n) && (q - start) % step == 0
  {
    var start, stop, step := k.start.GetOr(0), Smaller(k.stop.GetOr(n), n), StepOf(k);
    if q in PositionsOf(k, n) {
      var u :| 0 <= u < |PositionsOf(k, n)| && PositionsOf(k, n)[u] == q;
      SliceFormula(start, stop, step, u);
      DivModUnique(u, 0, step);
    }
    if start <= q < stop && (q - start) % step == 0 {
      var u := (q - start) / step;
      assert q - start == u * step;
      SliceFormula(start, stop, step, u);
    }
  }

  /** The positions of an indexer are those the formulas give, one for each element it has. */
  lemma PositionsFormula(k: Indexer, n: nat, u: nat)
    requires k.Slice? ==> StepOf(k) > 0
    ensures u < |PositionsOf(k, n)| <==> Reaches(k, n, u)
    ensures u < |PositionsOf(k, n)| ==> PositionsOf(k, n)[u] == PositionAt(k, u)
  {
    if k.Slice? { SliceFormula(k.start.GetOr(0), Smaller(k.stop.GetOr(n), n), StepOf(k), u); }
  }

  ghost predicate ReachesAll(key: seq<Indexer>, shape: seq<nat>, u: seq<nat>) {
    |u| == |key| == |shape| && forall d :: 0 <= d < |key| ==> Reaches(key[d], shape[d], u[d])
  }

  function PositionsAt(key: seq<Indexer>, shape: seq<nat>, u: seq<nat>): (p: seq<nat>)
    requires ReachesAll(key, shape, u)
    ensures |p| == |key| && forall d :: 0 <= d < |key| ==> p[d] == PositionAt(key[d], u[d])
  {
    seq(|key|, d requires 0 <= d < |key| => PositionAt(key[d], u[d]))
  }

  /**
   Outer indexing, from the array and the key alone: the axes indexed by single positions are
   dropped, the length of each other axis is its number of elements, and each element is the one
   of the array at the positions its indices name.
   */
  ghost predicate IsRead<T>(r: NdArray<T>, a: NdArray<T>, key: seq<Indexer>) {
    && r.Valid() && a.Valid() && |key| == |a.shape|
    && forall axes :: Remaining(axes, Drops(key)) ==> ReadsAlong(r, a, key, axes)
  }

  ghost predicate ReadsAlong<T>(r: NdArray<T>, a: NdArray<T>, key: seq<Indexer>, axes: seq<nat>)
    requires r.Valid() && a.Valid() && |key| == |a.shape| && Remaining(axes, Drops(key))
  {
    && |r.shape| == |axes|
    && (forall j :: 0 <= j < |axes| ==> HasLength(key[axes[j]], a.shape[axes[j]], r.shape[j]))
    && forall u :: ReachesAll(key, a.shape, u) ==> ElementIs(r, At(u, axes), a, PositionsAt(key, a.shape, u))
  }

  ghost predicate HasLength(k: Indexer, n: nat, length: nat) {
    forall u: nat :: u < length <==> Reaches(k, n, u)
  }

  ghost predicate ElementIs<T>(r: NdArray<T>, idx: seq<nat>, a: NdArray<T>, p: seq<nat>)
    requires r.Valid() && a.Valid()
  {
    InGrid(idx, r.shape) && InGrid(p, a.shape) && r.At(idx) == a.At(p)
  }

  lemma IndexedValid<T>(s: NdArray<T>, a: NdArray<T>, key: seq<Indexer>)
    requires IsIndexed(s, a, key)
    ensures s.Valid()
  {
    forall d | 0 <= d < |key| && Drops(key)[d] ensures RegionShape(key, a.shape)[d] == 1 {
      assert Usable(key[d], a.shape[d]);
    }
    ProdUndropped(Drops(key), RegionShape(key, a.shape));
  }

  /** What indexing gives is what the formulas say. */
  lemma IndexedIsRead<T>(s: NdArray<T>, a: NdArray<T>, key: seq<Indexer>)
    requires IsIndexed(s, a, key)
    ensures IsRead(s, a, key)
  {
    IndexedValid(s, a, key);
    forall axes | Remaining(axes, Drops(key)) ensures ReadsAlong(s, a, key, axes) {
      UndroppedAt(RegionShape(key, a.shape), Drops(key), axes);
      forall j | 0 <= j < |axes| ensures HasLength(key[axes[j]], a.shape[axes[j]], s.shape[j]) {
        assert Usable(key[axes[j]], a.shape[axes[j]]);
        forall u: nat ensures u < s.shape[j] <==> Reaches(key[axes[j]], a.shape[axes[j]], u) {
          PositionsFormula(key[axes[j]], a.shape[axes[j]], u);
        }
      }
      forall u | ReachesAll(key, a.shape, u) ensures ElementIs(s, At(u, axes), a, PositionsAt(key, a.shape, u)) {
        ElementRead(s, a, key, axes, u);
      }
    }
  }

  lemma ElementRead<T>(s: NdArray<T>, a: NdArray<T>, key: seq<Indexer>, axes: seq<nat>, u: seq<nat>)
    requires IsIndexed(s, a, key) && s.Valid() && Remaining(axes, Drops(key)) && ReachesAll(key, a.shape, u)
    ensures ElementIs(s, At(u, axes), a, PositionsAt(key, a.shape, u))
  {
    var region := RegionShape(key, a.shape);
    forall d | 0 <= d < |key|
      ensures u[d] < region[d] && PositionsOf(key[d], a.shape[d])[u[d]] == PositionAt(key[d], u[d])
    {
      assert Usable(key[d], a.shape[d]);
      PositionsFormula(key[d], a.shape[d], u[d]);
    }
    assert InGrid(u, region);
    assert SourceCell(key, a.shape, u) == PositionsAt(key, a.shape, u);
    UndroppedAt(u, Drops(key), axes);
  }

  lemma RequestShape(requested: seq<Axis>, specs: seq<Option<DimSpec>>, axes: seq<Axis>, key: seq<Indexer>, u: seq<nat>)
    requires IsRequest(requested, specs, axes, key, |axes|) && |key| == |axes|
    ensures Selects(key, AxisShape(axes)) && AxisShape(requested) == RegionShape(key, AxisShape(axes))
    ensures InGrid(u, AxisShape(requested)) ==>
              CoordsAt(requested, u) == CoordsAt(axes, SourceCell(key, AxisShape(axes), u))
  {
    forall d | 0 <= d < |axes| ensures Usable(key[d], AxisShape(axes)[d]) {
    }
  }

  /** A row is fetched when it is on the requested axes and not NULL where there is a window. */
  lemma FetchedRow<T(!new)>(fetch: Fetch<T>, rows: seq<EngineRow<T>>, p: Option<Pred>, requested: seq<Axis>,
                            specs: seq<Option<DimSpec>>, axes: seq<Axis>, key: seq<Indexer>, row: EngineRow<T>)
    requires Serves(fetch, rows) && OnAxes(Views(rows), axes) && row in rows
    requires NormalisedKey(key, axes) && DistinctAxes(axes) && IsRequest(requested, specs, axes, key, |axes|)
    requires Windows(p, specs, |specs|)
    ensures |row.keys| == |axes|
    ensures row in Flatten(fetch(p)) <==> CoordsOn(CoordsOf(row.keys), requested) && KnownInWindows(axes, key, row.keys)
  {
    var i :| 0 <= i < |rows| && rows[i] == row;
    assert CoordsOn(Views(rows)[i].coords, axes);
    WindowsExact(requested, specs, axes, key, row.keys);
    assert AcceptsAll(p, row.keys) <==> InWindows(specs, |specs|, row.keys);
  }

  /** What the region loses: a row that lies in it but is NULL on a dimension that has a window. */
  ghost predicate Lost<T>(row: EngineRow<T>, requested: seq<Axis>, axes: seq<Axis>, key: seq<Indexer>)
    requires |key| == |axes|
  {
    && CoordsOn(CoordsOf(row.keys), requested)
    && |row.keys| == |axes| && !KnownInWindows(axes, key, row.keys)
  }

  ghost predicate NoneLost<T>(rows: seq<EngineRow<T>>, requested: seq<Axis>, axes: seq<Axis>, key: seq<Indexer>)
    requires |key| == |axes|
  {
    forall i :: 0 <= i < |rows| ==> !Lost(rows[i], requested, axes, key)
  }

  /** The rows fetched through the windows have the values of all the rows, at every requested cell that loses none. */
  lemma FetchedValue<T(!new)>(fetch: Fetch<T>, rows: seq<EngineRow<T>>, p: Option<Pred>, requested: seq<Axis>,
                              specs: seq<Option<DimSpec>>, axes: seq<Axis>, key: seq<Indexer>, coords: seq<Coord>)
    requires Serves(fetch, rows) && DistinctTuples(Views(rows)) && OnAxes(Views(rows), axes)
    requires NormalisedKey(key, axes) && DistinctAxes(axes) && IsRequest(requested, specs, axes, key, |axes|)
    requires Windows(p, specs, |specs|) && CoordsOn(coords, requested)
    ensures (forall row :: row in rows && CoordsOf(row.keys) == coords ==> !Lost(row, requested, axes, key)) ==>
              ValueAt(Views(Flatten(fetch(p))), coords) == ValueAt(Views(rows), coords)
    ensures (exists row :: row in rows && CoordsOf(row.keys) == coords && Lost(row, requested, axes, key)) ==>
              ValueAt(Views(Flatten(fetch(p))), coords) == None && ValueAt(Views(rows), coords).Some?
  {
    var fetched := Flatten(fetch(p));
    FetchedDistinct(rows, fetched);
    forall row | row in rows && CoordsOf(row.keys) == coords
      ensures row in fetched <==> !Lost(row, requested, axes, key)
    {
      FetchedRow(fetch, rows, p, requested, specs, axes, key, row);
    }
    if exists row :: row in rows && CoordsOf(row.keys) == coords && Lost(row, requested, axes, key) {
      var row :| row in rows && CoordsOf(row.keys) == coords && Lost(row, requested, axes, key);
      LostValue(rows, fetched, row);
    } else {
      SameRows(rows, fetched, coords);
      SameValue(Views(fetched), Views(rows), coords);
    }
  }

  lemma SameRows<T(!new)>(rows: seq<EngineRow<T>>, fetched: seq<EngineRow<T>>, coords: seq<Coord>)
    requires forall row :: row in fetched ==> row in rows
    requires forall row :: row in rows && CoordsOf(row.keys) == coords ==> row in fetched
    ensures forall v: T :: ResultRow(coords, v) in Views(fetched) <==> ResultRow(coords, v) in Views(rows)
  {
    forall v: T ensures ResultRow(coords, v) in Views(fetched) <==> ResultRow(coords, v) in Views(rows) {
      if ResultRow(coords, v) in Views(fetched) {
        var i :| 0 <= i < |fetched| && Views(fetched)[i] == ResultRow(coords, v);
        assert fetched[i] in rows;
        var k :| 0 <= k < |rows| && rows[k] == fetched[i];
        assert Views(rows)[k] == ResultRow(coords, v);
      }
      if ResultRow(coords, v) in Views(rows) {
        var i :| 0 <= i < |rows| && Views(rows)[i] == ResultRow(coords, v);
        assert rows[i] in fetched;
        var k :| 0 <= k < |fetched| && fetched[k] == rows[i];
        assert Views(fetched)[k] == ResultRow(coords, v);
      }
    }
  }

  /** Without its row, a cell stays unwritten. */
  lemma LostValue<T>(rows: seq<EngineRow<T>>, fetched: seq<EngineRow<T>>, row: EngineRow<T>)
    requires DistinctTuples(Views(rows)) && row in rows && row !in fetched
    requires forall other :: other in fetched ==> other in rows
    ensures ValueAt(Views(fetched), CoordsOf(row.keys)) == None
    ensures ValueAt(Views(rows), CoordsOf(row.keys)).Some?
  {
    var coords := CoordsOf(row.keys);
    NoSuchRow(Views(fetched), coords);
    NoSuchRow(Views(rows), coords);
    var i :| 0 <= i < |rows| && rows[i] == row;
    assert Views(rows)[i].coords == coords;
    forall k | 0 <= k < |fetched| ensures Views(fetched)[k].coords != coords {
      assert fetched[k] in fetched;
      if CoordsOf(fetched[k].keys) == coords { SameView(rows, fetched[k], row); }
    }
  }

  /** Every fetched row lies in the requested region. */
  lemma FetchedOnAxes<T(!new)>(fetch: Fetch<T>, rows: seq<EngineRow<T>>, p: Option<Pred>, requested: seq<Axis>,
                               specs: seq<Option<DimSpec>>, axes: seq<Axis>, key: seq<Indexer>)
    requires Serves(fetch, rows) && OnAxes(Views(rows), axes)
    requires NormalisedKey(key, axes) && DistinctAxes(axes) && IsRequest(requested, specs, axes, key, |axes|)
    requires Windows(p, specs, |specs|)
    ensures OnAxes(Views(Flatten(fetch(p))), requested)
  {
    var fetched := Flatten(fetch(p));
    forall i | 0 <= i < |fetched| ensures CoordsOn(Views(fetched)[i].coords, requested) {
      assert fetched[i] in fetched;
      FetchedRow(fetch, rows, p, requested, specs, axes, key, fetched[i]);
    }
  }

  lemma SpecsUsable(requested: seq<Axis>, specs: seq<Option<DimSpec>>, axes: seq<Axis>, key: seq<Indexer>)
    requires IsRequest(requested, specs, axes, key, |axes|)
    requires forall d :: 0 <= d < |requested| ==> requested[d].values != []
    ensures forall d :: 0 <= d < |specs| && specs[d].Some? ==> UsableSpec(specs[d].value)
  {
    forall d | 0 <= d < |specs| && specs[d].Some? ensures UsableSpec(specs[d].value) {
      assert requested[d] == RequestedAxis(axes[d], key[d]);
    }
  }

  /** The region is the one of the whole array if and only if it has its value at every requested cell. */
  lemma RegionIsDense<T(!new)>(out: NdArray<Option<T>>, fetched: seq<ResultRow<T>>, rows: seq<ResultRow<T>>,
                               requested: seq<Axis>, specs: seq<Option<DimSpec>>, axes: seq<Axis>, key: seq<Indexer>,
                               dense: NdArray<Option<T>>)
    requires NormalisedKey(key, axes) && IsRequest(requested, specs, axes, key, |axes|)
    requires IsDense(out, fetched, requested) && IsDense(dense, rows, axes)
    ensures Selects(key, dense.shape) && out.shape == RegionShape(key, dense.shape)
    ensures IsRegion(out, dense, key) <==> SameValues(fetched, rows, requested)
  {
    RequestShape(requested, specs, axes, key, []);
    forall u | InGrid(u, out.shape)
      ensures CoordsOn(CoordsAt(requested, u), requested)
      ensures out.At(u) == ValueAt(fetched, CoordsAt(requested, u))
      ensures dense.At(SourceCell(key, dense.shape, u)) == ValueAt(rows, CoordsAt(requested, u))
    {
      RequestShape(requested, specs, axes, key, u);
      UnravelRavel(u, out.shape);
      UnravelRavel(SourceCell(key, dense.shape, u), dense.shape);
    }
    if IsRegion(out, dense, key) {
      forall coords | CoordsOn(coords, requested) ensures ValueAt(fetched, coords) == ValueAt(rows, coords) {
        var u := CellNamed(requested, coords);
        assert out.At(u) == dense.At(SourceCell(key, dense.shape, u));
      }
    }
  }

  ghost predicate SameValues<T>(a: seq<ResultRow<T>>, b: seq<ResultRow<T>>, requested: seq<Axis>) {
    forall coords :: CoordsOn(coords, requested) ==> ValueAt(a, coords) == ValueAt(b, coords)
  }

  /** A cell that coordinates on the axes name. */
  lemma CellNamed(axes: seq<Axis>, coords: seq<Coord>) returns (u: seq<nat>)
    requires CoordsOn(coords, axes)
    ensures InGrid(u, AxisShape(axes)) && CoordsAt(axes, u) == coords
  {
    u := [];
    for d := 0 to |axes|
      invariant |u| == d && forall e :: 0 <= e < d ==> u[e] < |axes[e].values| && axes[e].values[u[e]] == coords[e]
    {
      var k :| 0 <= k < |axes[d].values| && axes[d].values[k] == coords[d];
      u := u + [k];
    }
    assert CoordsAt(axes, u) == coords;
  }

  lemma {:induction false} ZeroProduct(shape: seq<nat>, d: nat)
    requires d < |shape| && shape[d] == 0
    ensures Prod(shape) == 0
  {
    if d > 0 { ZeroProduct(shape[1..], d - 1); }
  }

  lemma EmptyRegion<T>(requested: seq<Axis>, specs: seq<Option<DimSpec>>, axes: seq<Axis>, key: seq<Indexer>,
                       d: nat, dense: NdArray<Option<T>>)
    requires NormalisedKey(key, axes) && IsRequest(requested, specs, axes, key, |axes|)
    requires dense.shape == AxisShape(axes) && dense.Valid() && d < |requested| && requested[d].values == []
    ensures IsRegion(NdArray(AxisShape(requested), []), dense, key)
  {
    RequestShape(requested, specs, axes, key, []);
    ZeroProduct(AxisShape(requested), d);
  }

  ghost function RequestedAxesOf(axes: seq<Axis>, key: seq<Indexer>): (requested: seq<Axis>)
    requires |key| == |axes| && forall d :: 0 <= d < |axes| ==> Usable(key[d], |axes[d].values|)
  {
    seq(|axes|, d requires 0 <= d < |axes| => (assert Usable(key[d], |axes[d].values|); RequestedAxis(axes[d], key[d])))
  }

  /**
   The condition of a right read, on the rows and the index alone: no row of the requested region
   is NULL on a dimension that the index cuts.
   */
  ghost predicate LosesNothing<T>(rows: seq<EngineRow<T>>, axes: seq<Axis>, key: seq<Indexer>) {
    && |key| == |axes| && (forall d :: 0 <= d < |axes| ==> Usable(key[d], |axes[d].values|))
    && NoneLost(rows, RequestedAxesOf(axes, key), axes, key)
  }

  /**
   Reads the region an index selects. Whatever array the whole result makes, indexing that array
   gives the same thing if and only if the read loses no row to a NULL.
   */
  method RawGetItem<T(!new)>(fetch: Fetch<T>, ghost rows: seq<EngineRow<T>>, axes: seq<Axis>, key: seq<Indexer>)
    returns (r: NdArray<Option<T>>)
    requires Serves(fetch, rows) && DistinctTuples(Views(rows)) && OnAxes(Views(rows), axes) && DistinctAxes(axes)
    requires NormalisedKey(key, axes)
    ensures forall dense :: IsDense(dense, Views(rows), axes) ==>
              (IsIndexed(r, dense, key) <==> LosesNothing(rows, axes, key))
    ensures forall dense :: IsDense(dense, Views(rows), axes) && LosesNothing(rows, axes, key) ==> IsRead(r, dense, key)
  {
    var requested, specs := BuildRequest(axes, key);
    KeyUsable(key, axes);
    assert requested == RequestedAxesOf(axes, key);
    var region;
    if exists d :: 0 <= d < |requested| && requested[d].values == [] {
      region := NdArray(AxisShape(requested), []);
      ghost var d :| 0 <= d < |requested| && requested[d].values == [];
      ZeroProduct(AxisShape(requested), d);
      forall dense | IsDense(dense, Views(rows), axes)
        ensures IsRegion(region, dense, key) && NoneLost(rows, requested, axes, key)
      {
        EmptyRegion(requested, specs, axes, key, d, dense);
      }
    } else {
      region := FetchRegion(fetch, rows, axes, key, requested, specs);
    }
    r := Squeezed(region, key);
    forall dense | IsDense(dense, Views(rows), axes)
      ensures IsIndexed(r, dense, key) <==> LosesNothing(rows, axes, key)
    {
      RequestShape(requested, specs, axes, key, []);
      SqueezedIsIndexed(region, dense, key);
    }
    forall dense | IsDense(dense, Views(rows), axes) && LosesNothing(rows, axes, key) ensures IsRead(r, dense, key) {
      IndexedIsRead(r, dense, key);
    }
  }

  method FetchRegion<T(!new)>(fetch: Fetch<T>, ghost rows: seq<EngineRow<T>>, axes: seq<Axis>, ghost key: seq<Indexer>,
                              requested: seq<Axis>, specs: seq<Option<DimSpec>>)
    returns (region: NdArray<Option<T>>)
    requires Serves(fetch, rows) && DistinctTuples(Views(rows)) && OnAxes(Views(rows), axes) && DistinctAxes(axes)
    requires NormalisedKey(key, axes) && IsRequest(requested, specs, axes, key, |axes|)
    requires forall d :: 0 <= d < |requested| ==> requested[d].values != []
    ensures region.shape == AxisShape(requested) && region.Valid()
    ensures forall dense :: IsDense(dense, Views(rows), axes) ==>
              (IsRegion(region, dense, key) <==> NoneLost(rows, requested, axes, key))
  {
    SpecsUsable(requested, specs, axes, key);
    var p := FetchPredicate(specs);
    var batches := fetch(p);
    ghost var fetched := Views(Flatten(batches));
    FlattenViews(batches);
    FetchedOnAxes(fetch, rows, p, requested, specs, axes, key);
    RequestedAxes(requested, specs, axes, key);
    OnAxesPlaceable(fetched, requested);
    var out := ScatterBatches(ViewBatches(batches), requested);
    region := out.value;
    ScatterIsDense(region, fetched, requested);
    SameValuesExactly(fetch, rows, p, requested, specs, axes, key);
    forall dense | IsDense(dense, Views(rows), axes)
      ensures IsRegion(region, dense, key) <==> NoneLost(rows, requested, axes, key)
    {
      RegionIsDense(region, fetched, Views(rows), requested, specs, axes, key, dense);
    }
  }

  lemma SameValuesExactly<T(!new)>(fetch: Fetch<T>, rows: seq<EngineRow<T>>, p: Option<Pred>, requested: seq<Axis>,
                                   specs: seq<Option<DimSpec>>, axes: seq<Axis>, key: seq<Indexer>)
    requires Serves(fetch, rows) && DistinctTuples(Views(rows)) && OnAxes(Views(rows), axes)
    requires NormalisedKey(key, axes) && DistinctAxes(axes) && IsRequest(requested, specs, axes, key, |axes|)
    requires Windows(p, specs, |specs|)
    ensures SameValues(Views(Flatten(fetch(p))), Views(rows), requested) <==> NoneLost(rows, requested, axes, key)
  {
    if NoneLost(rows, requested, axes, key) {
      forall coords | CoordsOn(coords, requested)
        ensures ValueAt(Views(Flatten(fetch(p))), coords) == ValueAt(Views(rows), coords)
      {
        forall row | row in rows ensures !Lost(row, requested, axes, key) {
          var i :| 0 <= i < |rows| && rows[i] == row;
        }
        FetchedValue(fetch, rows, p, requested, specs, axes, key, coords);
      }
    } else {
      var i :| 0 <= i < |rows| && Lost(rows[i], requested, axes, key);
      assert rows[i] in rows;
      FetchedValue(fetch, rows, p, requested, specs, axes, key, CoordsOf(rows[i].keys));
    }
  }

  // ---------------------------------------------------------------------
  // When nothing is lost
  // ---------------------------------------------------------------------

  /** No window asks for the marker: each dimension is read whole or at positions that hold numbers. */
  ghost predicate AsksForNoMarker(axes: seq<Axis>, key: seq<Indexer>)
    requires |key| == |axes| && forall d :: 0 <= d < |axes| ==> Usable(key[d], |axes[d].values|)
  {
    forall d :: 0 <= d < |axes| && Windowed(axes, key, d) ==>
      (assert Usable(key[d], |axes[d].values|); NaN !in RequestedAxis(axes[d], key[d]).values)
  }

  /** Whatever the rows, such a read loses none. */
  lemma NumbersLoseNothing<T>(rows: seq<EngineRow<T>>, axes: seq<Axis>, key: seq<Indexer>)
    requires NormalisedKey(key, axes)
    ensures forall d :: 0 <= d < |axes| ==> Usable(key[d], |axes[d].values|)
    ensures AsksForNoMarker(axes, key) ==> LosesNothing(rows, axes, key)
  {
    KeyUsable(key, axes);
    if !LosesNothing(rows, axes, key) {
      var requested := RequestedAxesOf(axes, key);
      var i :| 0 <= i < |rows| && Lost(rows[i], requested, axes, key);
      var d :| 0 <= d < |axes| && Windowed(axes, key, d) && !rows[i].keys[d].Known?;
      assert CoordsOf(rows[i].keys)[d] == NaN && CoordsOf(rows[i].keys)[d] in requested[d].values;
      assert Usable(key[d], |axes[d].values|);
    }
  }

  const WITH_MARKER: seq<Axis> := [Axis([Num(0.0), NaN], true, true)]

  /** Two rows, one with a NULL dimension cell, on the axis their result makes. */
  function TwoRows<T>(a: T, b: T): seq<EngineRow<T>> {
    [EngineRow([Known(Num(0.0))], a), EngineRow([Missing], b)]
  }

  lemma TwoRowsServe<T>(a: T, b: T)
    ensures DistinctTuples(Views(TwoRows(a, b))) && OnAxes(Views(TwoRows(a, b)), WITH_MARKER)
    ensures DistinctAxes(WITH_MARKER)
  {
    var views := Views(TwoRows(a, b));
    assert WITH_MARKER[0].values[0] == Num(0.0) && WITH_MARKER[0].values[1] == NaN;
    assert views[0].coords[0] == Num(0.0) && views[1].coords[0] == NaN;
  }

  /** Read whole, that result is right; reading the position of the NULL alone loses its row. */
  lemma MarkerLost<T>(a: T, b: T)
    ensures DistinctTuples(Views(TwoRows(a, b))) && OnAxes(Views(TwoRows(a, b)), WITH_MARKER)
    ensures DistinctAxes(WITH_MARKER)
    ensures LosesNothing(TwoRows(a, b), WITH_MARKER, [Slice(None, None, None)])
    ensures NormalisedKey([Position(1)], WITH_MARKER) && !LosesNothing(TwoRows(a, b), WITH_MARKER, [Position(1)])
  {
    TwoRowsServe(a, b);
    KeyUsable([Slice(None, None, None)], WITH_MARKER);
    KeyUsable([Position(1)], WITH_MARKER);
    var requested := RequestedAxesOf(WITH_MARKER, [Position(1)]);
    assert requested[0].values[0] == NaN;
    assert Windowed(WITH_MARKER, [Position(1)], 0);
    assert Lost(TwoRows(a, b)[1], requested, WITH_MARKER, [Position(1)]);
  }
}
