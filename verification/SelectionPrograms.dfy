/**
 Whole programs of selections: a query that reads variables one selection at a time is a program
 that reads chunks, so it may be run on the cache instead of on the source arrays.
 */
module SelectionPrograms {
  import opened CachedVariable
  import opened Grid
  import opened Lru
  import opened NdArrays
  import opened QueryRuns
  import opened SourceStore
  import opened Cache = ChunkCache

  // ---------------------------------------------------------------------
  // Programs of selections
  // ---------------------------------------------------------------------

  /** What a program of selections does next: read one selection of a variable, or end. */
  datatype SelectAction<R, E> = Select(name: string, key: seq<Indexer>) | End(outcome: Outcome<R, E>)

  /** An adaptive query over whole selections; `rank` bounds the selections still to come. */
  datatype SelectProgram<!T, R, E> =
    SelectProgram(step: seq<NdArray<T>> -> SelectAction<R, E>, rank: seq<NdArray<T>> -> nat)

  ghost predicate WellFormed<T(!new), R, E>(q: SelectProgram<T, R, E>, source: Source<T>) {
    && ValidSource(source)
    && (forall h, a :: q.step(h).Select? ==> q.rank(h + [a]) < q.rank(h))
    && (forall h :: q.step(h).Select? ==>
          && q.step(h).name in source && Selects(q.step(h).key, source[q.step(h).name].values.shape))
  }

  /** The query run on the source arrays themselves. */
  ghost function RunOnSource<T(!new), R, E>(q: SelectProgram<T, R, E>, source: Source<T>,
      h: seq<NdArray<T>>): Outcome<R, E>
    requires WellFormed(q, source)
    decreases q.rank(h)
  {
    match q.step(h)
    case End(o) => o
    case Select(name, key) => RunOnSource(q, source, h + [Selected(source[name], key)])
  }

  /** Selections completed, and the chunks read so far of the one under way. */
  datatype Progress<T> = Progress(done: seq<NdArray<T>>, parts: seq<NdArray<T>>)

  function KeysNext<T(!new), R, E>(q: SelectProgram<T, R, E>, source: Source<T>, done: seq<NdArray<T>>): seq<ChunkKey>
    requires WellFormed(q, source)
  {
    match q.step(done)
    case End(_) => []
    case Select(name, key) => KeysOf(name, Spans(source[name], key))
  }

  /** Complete every selection whose chunks have all been read. */
  function Settle<T(!new), R, E>(q: SelectProgram<T, R, E>, source: Source<T>, s: Progress<T>, pad: T): (r: Progress<T>)
    requires WellFormed(q, source)
    requires |s.parts| <= |KeysNext(q, source, s.done)|
    ensures |r.parts| <= |KeysNext(q, source, r.done)|
    ensures q.step(r.done).Select? ==> |r.parts| < |KeysNext(q, source, r.done)|
    decreases q.rank(s.done)
  {
    match q.step(s.done)
    case End(_) => s
    case Select(name, key) =>
      if |s.parts| < |KeysNext(q, source, s.done)| then s
      else Settle(q, source, Progress(s.done + [Assembled(source[name], key, s.parts, pad)], []), pad)
  }

  /** Where the query is after reading the chunks `h`, one at a time. */
  function Replay<T(!new), R, E>(q: SelectProgram<T, R, E>, source: Source<T>, h: seq<NdArray<T>>,
      pad: T): (r: Progress<T>)
    requires WellFormed(q, source)
    ensures |r.parts| <= |KeysNext(q, source, r.done)|
    ensures q.step(r.done).Select? ==> |r.parts| < |KeysNext(q, source, r.done)|
  {
    if h == [] then Settle(q, source, Progress([], []), pad)
    else
      var s := Replay(q, source, h[..|h| - 1], pad);
      if q.step(s.done).End? then s
      else Settle(q, source, Progress(s.done, s.parts + [h[|h| - 1]]), pad)
  }

  /** The next chunk read after the chunks `h`. */
  function NextRead<T(!new), R, E>(q: SelectProgram<T, R, E>, source: Source<T>, pad: T,
      h: seq<NdArray<T>>): Action<ChunkKey, R, E>
    requires WellFormed(q, source)
  {
    var s := Replay(q, source, h, pad);
    match q.step(s.done)
    case End(o) => Finish(o)
    case Select(_, _) => Read(KeysNext(q, source, s.done)[|s.parts|])
  }

  function ReadsLeft<T(!new), R, E>(q: SelectProgram<T, R, E>, source: Source<T>, pad: T, most: nat,
      h: seq<NdArray<T>>): nat
    requires WellFormed(q, source)
  {
    Remaining(q, source, Replay(q, source, h, pad), most)
  }

  /** The chunk program a query of selections becomes when every variable is read through the cache. */
  function Compile<T(!new), R, E>(q: SelectProgram<T, R, E>, source: Source<T>, pad: T,
      most: nat): Program<ChunkKey, NdArray<T>, R, E>
    requires WellFormed(q, source)
  {
    Program(
      (h: seq<NdArray<T>>) => NextRead(q, source, pad, h),
      (h: seq<NdArray<T>>) => ReadsLeft(q, source, pad, most, h))
  }

  /** Chunk reads still possible when no selection overlaps more than `most` chunks. */
  function Remaining<T(!new), R, E>(q: SelectProgram<T, R, E>, source: Source<T>, s: Progress<T>, most: nat): nat
    requires WellFormed(q, source)
    requires |s.parts| <= |KeysNext(q, source, s.done)|
  {
    q.rank(s.done) * (most + 1) + (|KeysNext(q, source, s.done)| - |s.parts|)
  }

  ghost predicate Bounded<T(!new), R, E>(q: SelectProgram<T, R, E>, source: Source<T>, most: nat)
    requires WellFormed(q, source)
  {
    forall h :: |KeysNext(q, source, h)| <= most
  }

  /** Completing selections never adds to the reads still possible. */
  lemma {:induction false} SettleShrinks<T(!new), R, E>(
    q: SelectProgram<T, R, E>, source: Source<T>, s: Progress<T>, pad: T, most: nat)
    requires WellFormed(q, source) && Bounded(q, source, most)
    requires |s.parts| <= |KeysNext(q, source, s.done)|
    ensures Remaining(q, source, Settle(q, source, s, pad), most) <= Remaining(q, source, s, most)
    decreases q.rank(s.done)
  {
    match q.step(s.done)
    case End(_) =>
    case Select(name, key) =>
      if |s.parts| == |KeysNext(q, source, s.done)| {
        var s' := Progress(s.done + [Assembled(source[name], key, s.parts, pad)], []);
        SettleShrinks(q, source, s', pad, most);
        assert |KeysNext(q, source, s'.done)| <= most;
        MulMono(q.rank(s'.done) + 1, q.rank(s.done), most + 1);
        MulSucc(q.rank(s'.done), most + 1);
      }
  }

  lemma ReplaySnoc<T(!new), R, E>(q: SelectProgram<T, R, E>, source: Source<T>, pad: T, h: seq<NdArray<T>>,
      v: NdArray<T>)
    requires WellFormed(q, source) && NextRead(q, source, pad, h).Read?
    ensures var s := Replay(q, source, h, pad);
            && |s.parts| < |KeysNext(q, source, s.done)|
            && Replay(q, source, h + [v], pad) == Settle(q, source, Progress(s.done, s.parts + [v]), pad)
  {
    var all := h + [v];
    assert all[..|all| - 1] == h && all[|all| - 1] == v;
  }

  lemma CompiledStep<T(!new), R, E>(q: SelectProgram<T, R, E>, source: Source<T>, pad: T, most: nat, h: seq<NdArray<T>>,
      v: NdArray<T>)
    requires WellFormed(q, source) && Bounded(q, source, most)
    requires NextRead(q, source, pad, h).Read?
    ensures ReadsLeft(q, source, pad, most, h + [v]) < ReadsLeft(q, source, pad, most, h)
  {
    ReplaySnoc(q, source, pad, h, v);
    var s := Replay(q, source, h, pad);
    SettleShrinks(q, source, Progress(s.done, s.parts + [v]), pad, most);
  }

  lemma CompiledTerminates<T(!new), R, E>(q: SelectProgram<T, R, E>, source: Source<T>, pad: T, most: nat)
    requires WellFormed(q, source) && Bounded(q, source, most)
    ensures Terminating(Compile(q, source, pad, most))
  {
    forall h, v | NextRead(q, source, pad, h).Read?
      ensures ReadsLeft(q, source, pad, most, h + [v]) < ReadsLeft(q, source, pad, most, h)
    {
      CompiledStep(q, source, pad, most, h, v);
    }
  }

  lemma NextReadServed<T(!new), R, E>(
    q: SelectProgram<T, R, E>, source: Source<T>, pad: T, store: Store<ChunkKey, NdArray<T>>, h: seq<NdArray<T>>)
    requires WellFormed(q, source)
    requires forall name :: name in source ==> Serves(store, name, source[name])
    requires NextRead(q, source, pad, h).Read?
    ensures NextRead(q, source, pad, h).key in store.chunks
  {
    var s := Replay(q, source, h, pad);
    var a := q.step(s.done);
    SeenShape(store, {}, a.name, source[a.name], a.key, |s.parts|);
  }

  lemma CompiledReads<T(!new), R, E>(
    q: SelectProgram<T, R, E>, source: Source<T>, pad: T, most: nat, store: Store<ChunkKey, NdArray<T>>)
    requires WellFormed(q, source)
    requires forall name :: name in source ==> Serves(store, name, source[name])
    ensures ReadsWithin(Compile(q, source, pad, most), store.chunks.Keys)
  {
    forall h | NextRead(q, source, pad, h).Read? ensures NextRead(q, source, pad, h).key in store.chunks {
      NextReadServed(q, source, pad, store, h);
    }
  }

  /** The parts read so far of the selection under way are the real chunks. */
  ghost predicate RealSoFar<T(!new), R, E>(
    q: SelectProgram<T, R, E>, source: Source<T>, store: Store<ChunkKey, NdArray<T>>, s: Progress<T>)
    requires WellFormed(q, source)
  {
    var keys := KeysNext(q, source, s.done);
    && |s.parts| <= |keys|
    && forall i :: 0 <= i < |s.parts| ==> keys[i] in store.chunks && s.parts[i] == store.chunks[keys[i]]
  }

  lemma {:induction false} SettleSource<T(!new), R, E>(
    q: SelectProgram<T, R, E>, source: Source<T>, store: Store<ChunkKey, NdArray<T>>, s: Progress<T>, pad: T)
    requires WellFormed(q, source)
    requires forall name :: name in source ==> Serves(store, name, source[name])
    requires RealSoFar(q, source, store, s)
    ensures var r := Settle(q, source, s, pad);
            && RealSoFar(q, source, store, r)
            && RunOnSource(q, source, r.done) == RunOnSource(q, source, s.done)
    decreases q.rank(s.done)
  {
    match q.step(s.done)
    case End(_) =>
    case Select(name, key) =>
      if |s.parts| == |KeysNext(q, source, s.done)| {
        SelectionDone(store, name, source[name], key, s.parts, pad);
        SettleSource(q, source, store, Progress(s.done + [Assembled(source[name], key, s.parts, pad)], []), pad);
      }
  }

  lemma SelectionDone<T(!new)>(
    store: Store<ChunkKey, NdArray<T>>, name: string, v: Variable<T>, key: seq<Indexer>, parts: seq<NdArray<T>>, pad: T)
    requires Serves(store, name, v) && Selects(key, v.values.shape)
    requires var keys := KeysOf(name, Spans(v, key));
             && |parts| == |keys|
             && forall i :: 0 <= i < |parts| ==> keys[i] in store.chunks && parts[i] == store.chunks[keys[i]]
    ensures Assembled(v, key, parts, pad) == Selected(v, key)
  {
    var spans := Spans(v, key);
    forall i | 0 <= i < |parts|
      ensures var b := BoundsOf(spans, Unravel(i, ChunkGrid(spans)));
              Within(b, v.values.shape) && parts[i] == Region(v.values, b)
    {
      SeenShape(store, store.chunks.Keys, name, v, key, i);
    }
    AssemblyIsSelection(v, key, parts, pad);
  }

  /**
   Reading whole selections through chunks does not change a query: the compiled program, run on
   the real chunks, ends exactly as the query does on the source arrays.
   */
  lemma {:induction false} CompiledRunsAlike<T(!new), R, E>(
    q: SelectProgram<T, R, E>, source: Source<T>, pad: T, most: nat, store: Store<ChunkKey, NdArray<T>>,
    h: seq<NdArray<T>>)
    requires WellFormed(q, source) && Bounded(q, source, most)
    requires forall name :: name in source ==> Serves(store, name, source[name])
    requires RealSoFar(q, source, store, Replay(q, source, h, pad))
    requires Terminating(Compile(q, source, pad, most))
    ensures Run(Compile(q, source, pad, most), store, store.chunks.Keys, h)
         == RunOnSource(q, source, Replay(q, source, h, pad).done)
    decreases ReadsLeft(q, source, pad, most, h)
  {
    if NextRead(q, source, pad, h).Read? {
      var v := store.chunks[NextRead(q, source, pad, h).key];
      OneChunkMore(q, source, pad, most, store, h);
      CompiledRunsAlike(q, source, pad, most, store, h + [v]);
    }
  }

  /** Reading one more real chunk changes neither end: not the compiled run's, nor the query's. */
  lemma OneChunkMore<T(!new), R, E>(
    q: SelectProgram<T, R, E>, source: Source<T>, pad: T, most: nat, store: Store<ChunkKey, NdArray<T>>,
    h: seq<NdArray<T>>)
    requires WellFormed(q, source) && Bounded(q, source, most)
    requires forall name :: name in source ==> Serves(store, name, source[name])
    requires RealSoFar(q, source, store, Replay(q, source, h, pad))
    requires Terminating(Compile(q, source, pad, most))
    requires NextRead(q, source, pad, h).Read?
    ensures NextRead(q, source, pad, h).key in store.chunks
    ensures var h' := h + [store.chunks[NextRead(q, source, pad, h).key]];
            var p := Compile(q, source, pad, most);
            && ReadsLeft(q, source, pad, most, h') < ReadsLeft(q, source, pad, most, h)
            && RealSoFar(q, source, store, Replay(q, source, h', pad))
            && Run(p, store, store.chunks.Keys, h) == Run(p, store, store.chunks.Keys, h')
            && RunOnSource(q, source, Replay(q, source, h', pad).done)
                == RunOnSource(q, source, Replay(q, source, h, pad).done)
  {
    var k := NextRead(q, source, pad, h).key;
    NextReadServed(q, source, pad, store, h);
    var s, v := Replay(q, source, h, pad), store.chunks[k];
    ReplaySnoc(q, source, pad, h, v);
    SettleSource(q, source, store, Progress(s.done, s.parts + [v]), pad);
    CompiledStep(q, source, pad, most, h, v);
    RunStep(Compile(q, source, pad, most), store, h, k);
  }

  lemma RunStep<K, V(!new), R, E>(p: Program<K, V, R, E>, st: Store<K, V>, h: seq<V>, k: K)
    requires Terminating(p) && p.step(h) == Read(k) && k in st.chunks
    ensures Run(p, st, st.chunks.Keys, h) == Run(p, st, st.chunks.Keys, h + [st.chunks[k]])
  {}

  /** No selection reads more chunks than the store has. */
  lemma StoreBounds<T(!new), R, E>(q: SelectProgram<T, R, E>, source: Source<T>, store: Store<ChunkKey, NdArray<T>>)
    requires WellFormed(q, source)
    requires forall name :: name in source ==> Serves(store, name, source[name])
    ensures Bounded(q, source, |store.chunks|)
  {
    forall h ensures |KeysNext(q, source, h)| <= |store.chunks| {
      var a := q.step(h);
      if a.Select? { SelectionBounded(store, a.name, source[a.name], a.key); }
    }
  }

  /**
   `query` over the cached dataset: when it answers, the answer is what the query yields on the
   source arrays; the fill values of earlier rounds leave no trace.
   */
  method QueryDataset<T(0, !new), R, E>(
    cache: ChunkCache<ChunkKey, NdArray<T>>, q: SelectProgram<T, R, E>, source: Source<T>, fill: string -> T, pad: T)
    returns (answer: Answer<R, E>, stats: QueryStats)
    requires cache.Valid() && WellFormed(q, source) && cache.store == StoreOf(source, fill, cache.bytesOf)
    modifies cache
    ensures cache.Valid()
    ensures answer.Ended? ==> answer.outcome == RunOnSource(q, source, [])
    ensures SumOf(cache.store.chunks.Keys, cache.store.sizeOf) <= cache.maxBytes ==> answer.Ended?
  {
    var most := |cache.store.chunks|;
    forall name | name in source ensures Serves(cache.store, name, source[name]) {
      StoreServes(source, fill, cache.bytesOf, name);
    }
    StoreBounds(q, source, cache.store);
    CompiledTerminates(q, source, pad, most);
    CompiledReads(q, source, pad, most, cache.store);
    SettleSource(q, source, cache.store, Progress([], []), pad);
    CompiledRunsAlike(q, source, pad, most, cache.store, []);
    ghost var retries, last;
    answer, stats, retries, last := cache.Query(Compile(q, source, pad, most));
  }

  /** From the source alone, for any chunking, budget and query: a new cache and two queries through it. */
  method QueryTwice<T(0, !new), R, E>(
    source: Source<T>, fill: string -> T, bytesOf: NdArray<T> -> nat, maxBytes: int,
    q: SelectProgram<T, R, E>, again: SelectProgram<T, R, E>, pad: T)
    returns (first: Answer<R, E>, second: Answer<R, E>)
    requires WellFormed(q, source) && WellFormed(again, source)
    ensures first.Ended? ==> first.outcome == RunOnSource(q, source, [])
    ensures second.Ended? ==> second.outcome == RunOnSource(again, source, [])
    ensures var store := StoreOf(source, fill, bytesOf);
            SumOf(store.chunks.Keys, store.sizeOf) <= maxBytes ==> first.Ended? && second.Ended?
  {
    var cache := new ChunkCache(StoreOf(source, fill, bytesOf), bytesOf, maxBytes);
    var stats;
    first, stats := QueryDataset(cache, q, source, fill, pad);
    second, stats := QueryDataset(cache, again, source, fill, pad);
  }
}
