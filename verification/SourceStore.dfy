/**
 The store behind the cached dataset: one chunk for every cell of every variable's chunk grid.
 Whatever a selection overlaps is one of them, so no read ever asks for a chunk that is not there.
 */
module SourceStore {
  import opened CachedVariable
  import opened Grid
  import opened Lru
  import opened NdArrays
  import opened QueryRuns

  type Source<T> = map<string, Variable<T>>

  ghost predicate ValidSource<T>(source: Source<T>) {
    forall name :: name in source ==> source[name].Valid()
  }

  // ---------------------------------------------------------------------
  // The chunks of a variable
  // ---------------------------------------------------------------------

  /** The selection of a whole variable. */
  function Everything<T>(v: Variable<T>): (key: seq<Indexer>)
    ensures Selects(key, v.values.shape)
  {
    seq(|v.values.shape|, d requires 0 <= d < |v.values.shape| => Slice(0, v.values.shape[d], 1))
  }

  /** The keys of its chunk grid, in order. */
  function ChunkKeys<T>(name: string, v: Variable<T>): (keys: seq<ChunkKey>)
    requires v.Valid()
  {
    KeysOf(name, Spans(v, Everything(v)))
  }

  /** A chunk that part of an axis overlaps is a chunk of the whole axis. */
  lemma AxisChunk(s: Span, t: nat)
    requires s.Valid() && t < s.Chunks()
    ensures var whole := Span(0, s.n, 1, s.c, s.n);
            && whole.Valid() && s.First() + t < whole.Chunks()
            && whole.Bounds(s.First() + t) == s.Bounds(t)
  {
    DivMonotone(s.hi - 1, s.n - 1, s.c);
    DivModUnique(0, 0, s.c);
  }

  lemma WholeSpans<T>(v: Variable<T>, key: seq<Indexer>, d: nat)
    requires v.Valid() && Selects(key, v.values.shape) && d < |key|
    ensures Spans(v, Everything(v))[d] == Span(0, v.values.shape[d], 1, v.chunkLens[d], v.values.shape[d])
    ensures Spans(v, key)[d].n == v.values.shape[d] && Spans(v, key)[d].c == v.chunkLens[d]
  {}

  /** What a selection reads is among the chunks of the variable. */
  lemma SelectionReadsChunks<T>(name: string, v: Variable<T>, key: seq<Indexer>, i: nat)
    requires v.Valid() && Selects(key, v.values.shape) && i < |KeysOf(name, Spans(v, key))|
    ensures KeysOf(name, Spans(v, key))[i] in ChunkKeys(name, v)
  {
    var spans, whole := Spans(v, key), Spans(v, Everything(v));
    var t := Unravel(i, ChunkGrid(spans));
    var w: seq<nat> := seq(|spans|, d requires 0 <= d < |spans| => spans[d].First() + t[d]);
    forall d | 0 <= d < |spans| ensures w[d] < ChunkGrid(whole)[d] && whole[d].Bounds(w[d]) == spans[d].Bounds(t[d]) {
      assert t[d] < ChunkGrid(spans)[d];
      WholeSpans(v, key, d);
      AxisChunk(spans[d], t[d]);
    }
    assert InGrid(w, ChunkGrid(whole));
    assert BoundsOf(whole, w) == BoundsOf(spans, t);
    UnravelRavel(w, ChunkGrid(whole));
    assert ChunkKeys(name, v)[Ravel(w, ChunkGrid(whole))] == KeysOf(name, spans)[i];
  }

  lemma ChunkKeyWithin<T>(name: string, v: Variable<T>, k: ChunkKey)
    requires v.Valid() && k in ChunkKeys(name, v)
    ensures k.name == name && Within(k.bounds, v.values.shape)
  {
    var spans := Spans(v, Everything(v));
    var i :| 0 <= i < |ChunkKeys(name, v)| && ChunkKeys(name, v)[i] == k;
    BoundsWithin(spans, Unravel(i, ChunkGrid(spans)), v.values.shape);
  }

  /** Different chunks of an axis start at different positions. */
  lemma StartsDiffer(s: Span, t: nat, u: nat)
    requires s.Valid() && t < u < s.Chunks()
    ensures s.Bounds(t).0 < s.Bounds(u).0
  {
    MulSucc(s.First() + t, s.c);
    MulMono(s.First() + t + 1, s.First() + u, s.c);
  }

  /** No selection reads a chunk twice. */
  lemma KeysDistinct(name: string, spans: seq<Span>)
    requires ValidSpans(spans)
    ensures Distinct(KeysOf(name, spans))
  {
    var g := ChunkGrid(spans);
    forall i, j | 0 <= i < j < Prod(g) ensures KeysOf(name, spans)[i] != KeysOf(name, spans)[j] {
      var t, u := Unravel(i, g), Unravel(j, g);
      RavelUnravel(i, g);
      RavelUnravel(j, g);
      assert t != u;
      var d :| 0 <= d < |spans| && t[d] != u[d];
      assert t[d] < g[d] && u[d] < g[d];
      if t[d] < u[d] { StartsDiffer(spans[d], t[d], u[d]); } else { StartsDiffer(spans[d], u[d], t[d]); }
      assert BoundsOf(spans, t)[d] != BoundsOf(spans, u)[d];
    }
  }

  // ---------------------------------------------------------------------
  // The store
  // ---------------------------------------------------------------------

  ghost predicate IsChunkOf<T>(source: Source<T>, k: ChunkKey)
    requires ValidSource(source)
  {
    k.name in source && k in ChunkKeys(k.name, source[k.name])
  }

  function StoreKeys<T(!new)>(source: Source<T>): (keys: set<ChunkKey>)
    requires ValidSource(source)
    ensures forall k :: k in keys <==> IsChunkOf(source, k)
  {
    var keys := set name, k | name in source && k in ChunkKeys(name, source[name]) :: k;
    assert forall k :: k in keys <==> IsChunkOf(source, k) by {
      forall k ensures k in keys <==> IsChunkOf(source, k) {
        if k in keys {
          var name :| name in source && k in ChunkKeys(name, source[name]);
          ChunkKeyWithin(name, source[name], k);
        }
      }
    }
    keys
  }

  function ChunkValues<T(!new)>(source: Source<T>, k: ChunkKey): (values: NdArray<T>)
    requires ValidSource(source) && IsChunkOf(source, k)
  {
    ChunkKeyWithin(k.name, source[k.name], k);
    Region(source[k.name].values, k.bounds)
  }

  /** `np.full` of a chunk's shape. */
  function FillValues<T>(fill: string -> T): ChunkKey -> NdArray<T> {
    (k: ChunkKey) => NdArray(Widths(k.bounds), seq(Prod(Widths(k.bounds)), _ => fill(k.name)))
  }

  /** Declared sizes: those of the values. */
  function SizesOf<T>(chunks: map<ChunkKey, NdArray<T>>, bytesOf: NdArray<T> -> nat): ChunkKey -> nat {
    (k: ChunkKey) => if k in chunks then bytesOf(chunks[k]) else 0
  }

  function ChunksOf<T(!new)>(source: Source<T>): map<ChunkKey, NdArray<T>>
    requires ValidSource(source)
  {
    map k | k in StoreKeys(source) :: ChunkValues(source, k)
  }

  function StoreOf<T(!new)>(source: Source<T>, fill: string -> T,
      bytesOf: NdArray<T> -> nat): Store<ChunkKey, NdArray<T>>
    requires ValidSource(source)
  {
    Store(ChunksOf(source), SizesOf(ChunksOf(source), bytesOf), FillValues(fill))
  }

  /** It serves every variable, whatever the chunking. */
  lemma StoreServes<T(!new)>(source: Source<T>, fill: string -> T, bytesOf: NdArray<T> -> nat, name: string)
    requires ValidSource(source) && name in source
    ensures Serves(StoreOf(source, fill, bytesOf), name, source[name])
  {
    var store, v := StoreOf(source, fill, bytesOf), source[name];
    forall key | Selects(key, v.values.shape)
      ensures forall i :: 0 <= i < |KeysOf(name, Spans(v, key))| ==> KeysOf(name, Spans(v, key))[i] in store.chunks
    {
      forall i | 0 <= i < |KeysOf(name, Spans(v, key))| ensures KeysOf(name, Spans(v, key))[i] in store.chunks {
        SelectionReadsChunks(name, v, key, i);
        ChunkKeyWithin(name, v, KeysOf(name, Spans(v, key))[i]);
      }
    }
  }

  /** And no selection overlaps more chunks than it has. */
  lemma SelectionBounded<T(!new)>(store: Store<ChunkKey, NdArray<T>>, name: string, v: Variable<T>, key: seq<Indexer>)
    requires Serves(store, name, v) && Selects(key, v.values.shape)
    ensures |KeysOf(name, Spans(v, key))| <= |store.chunks|
  {
    var keys := KeysOf(name, Spans(v, key));
    KeysDistinct(name, Spans(v, key));
    DistinctSize(keys);
    assert Elements(keys) <= store.chunks.Keys;
    SubsetSize(Elements(keys), store.chunks.Keys);
  }
}
