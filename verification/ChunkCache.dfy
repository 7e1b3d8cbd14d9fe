/**
 The chunk cache itself: an ordered dict of decoded chunks with a byte budget, filled between
 runs of a query. Every method is proved against the orders of `Lru` and the rounds of `QueryRuns`.
 */
module ChunkCache {
  import opened Grid
  import opened Lru
  import opened QueryRuns
  import opened Wrappers

  /** What `query` gives back: the outcome of `run`, or the `MemoryError` with the bytes it names. */
  datatype Answer<R, E> = Ended(outcome: Outcome<R, E>) | OutOfMemory(needed: nat)

  datatype QueryStats = QueryStats(rounds: nat, chunksFetched: nat, missesPerRound: seq<nat>) {

    function Ran(misses: nat): QueryStats {
      QueryStats(rounds + 1, chunksFetched, missesPerRound + [misses])
    }

    function Fetched(count: nat): QueryStats {
      QueryStats(rounds, chunksFetched + count, missesPerRound)
    }
  }

  class ChunkCache<K(==, !new), V(!new)> {
    const store: Store<K, V>
    const bytesOf: V -> nat
    const maxBytes: int

    var order: seq<K>       // keys of the ordered dict, least recently used first
    var chunks: map<K, V>
    var nbytes: int
    var missing: set<K>

    ghost predicate Valid()
      reads this
    {
      && Settled(store, maxBytes, order)
      && chunks.Keys == Elements(order)
      && (forall k :: k in chunks ==> chunks[k] == store.chunks[k])
      && nbytes == SizeOf(order, store.sizeOf)
      && missing <= store.chunks.Keys && missing !! chunks.Keys
      && (forall k :: k in store.chunks ==> bytesOf(store.chunks[k]) == store.sizeOf(k))
    }

    constructor (store: Store<K, V>, bytesOf: V -> nat, maxBytes: int)
      requires forall k :: k in store.chunks ==> bytesOf(store.chunks[k]) == store.sizeOf(k)
      ensures Valid()
      ensures this.store == store && this.bytesOf == bytesOf && this.maxBytes == maxBytes
      ensures order == [] && missing == {}
    {
      this.store, this.bytesOf, this.maxBytes := store, bytesOf, maxBytes;
      order, chunks, nbytes, missing := [], map[], 0, {};
    }

    /** `_get`: a hit becomes most recent; a miss is recorded and served as fill values. */
    method Get(key: K) returns (v: V)
      requires Valid() && key in store.chunks
      modifies this`order, this`missing
      ensures Valid()
      ensures v == Lookup(store, chunks.Keys, key)
      ensures order == Touch(old(order), key)
      ensures missing == old(missing) + ({key} - chunks.Keys)
    {
      if key in chunks {
        TouchedSettles(store, maxBytes, order, [key]);
        assert TouchAll(order, [key]) == Touch(order, key);
        order := Without(order, key) + [key];
        return chunks[key];
      }
      missing := missing + {key};
      v := store.fill(key);
    }

    /** One completed load of `_fetch`: append, then evict the oldest while over budget. */
    method Fetch(key: K)
      requires Valid() && key in store.chunks && key !in chunks && key !in missing
      modifies this`order, this`chunks, this`nbytes
      ensures Valid()
      ensures order == Evict(old(order) + [key], store.sizeOf, maxBytes)
      ensures chunks.Keys <= old(chunks.Keys) + {key}
    {
      var values := store.chunks[key];
      chunks := chunks[key := values];
      order := order + [key];
      nbytes := nbytes + bytesOf(values);
      ghost var appended := order;
      AppendFacts(old(order), key, store.sizeOf);
      while nbytes > maxBytes && |order| > 1
        invariant Distinct(order)
        invariant chunks.Keys == Elements(order) <= Elements(appended)
        invariant forall k :: k in chunks ==> k in store.chunks && chunks[k] == store.chunks[k]
        invariant nbytes == SizeOf(order, store.sizeOf)
        invariant Evict(order, store.sizeOf, maxBytes) == Evict(appended, store.sizeOf, maxBytes)
        decreases |order|
      {
        TailFacts(order);
        var oldest := order[0];
        assert oldest in Elements(order);
        nbytes := nbytes - bytesOf(chunks[oldest]);
        chunks := chunks - {oldest};
        order := order[1..];
      }
    }

    /** `fill`: load everything recorded as missing; the loads complete in any order. */
    method Fill() returns (count: nat, ghost arrivals: seq<K>)
      requires Valid()
      modifies this
      ensures Valid() && missing == {}
      ensures Distinct(arrivals) && Elements(arrivals) == old(missing)
      ensures order == Filled(old(order), arrivals, store.sizeOf, maxBytes)
      ensures count == |arrivals| == |old(missing)|
    {
      var pending := missing;
      count := |pending|;
      missing := {};
      arrivals := [];
      ghost var start := order;
      assert start + [] == start;
      while pending != {}
        invariant Valid() && missing == {}
        invariant pending <= old(missing) && pending !! chunks.Keys
        invariant Distinct(arrivals) && Elements(arrivals) == old(missing) - pending
        invariant |arrivals| + |pending| == |old(missing)|
        invariant order == Filled(start, arrivals, store.sizeOf, maxBytes)
        decreases pending
      {
        var key :| key in pending;
        Fetch(key);
        FilledSnoc(start, arrivals, key, store.sizeOf, maxBytes);
        pending := pending - {key};
        AppendFacts(arrivals, key, store.sizeOf);
        arrivals := arrivals + [key];
      }
    }

    /** `_nbytes_of`: declared bytes of a set of keys. */
    method BytesOf(keys: set<K>) returns (total: nat)
      ensures total == SumOf(keys, store.sizeOf)
    {
      var rest := keys;
      total := 0;
      while rest != {}
        invariant total + SumOf(rest, store.sizeOf) == SumOf(keys, store.sizeOf)
        decreases rest
      {
        var k :| k in rest;
        SumRemove(rest, k, store.sizeOf);
        total := total + store.sizeOf(k);
        rest := rest - {k};
      }
    }

    /** One call of `run`: its reads are served from the cache. */
    method Call<R, E>(p: Program<K, V, R, E>) returns (outcome: Outcome<R, E>)
      requires Valid() && Terminating(p) && ReadsWithin(p, store.chunks.Keys)
      modifies this`order, this`missing
      ensures Valid()
      ensures outcome == Run(p, store, Elements(old(order)), [])
      ensures order == TouchAll(old(order), Used(p, store, old(order)))
      ensures missing == old(missing) + Misses(p, store, old(order))
    {
      outcome := Continue(p, []);
    }

    /** The rest of a call of `run`, from the values read so far. */
    method Continue<R, E>(p: Program<K, V, R, E>, history: seq<V>) returns (outcome: Outcome<R, E>)
      requires Valid() && Terminating(p) && ReadsWithin(p, store.chunks.Keys)
      modifies this`order, this`missing
      ensures Valid()
      ensures outcome == Run(p, store, chunks.Keys, history)
      ensures order == TouchAll(old(order), KeysRead(p, store, chunks.Keys, history))
      ensures missing == old(missing) + (Elements(KeysRead(p, store, chunks.Keys, history)) - chunks.Keys)
      decreases p.rank(history)
    {
      match p.step(history)
      case Finish(o) =>
        outcome := o;
      case Read(key) =>
        var v := Get(key);
        ReadStep(p, store, chunks.Keys, history, key);
        outcome := Continue(p, history + [v]);
    }

    /** The tests and the error of a round that missed something: does the query give up, and with what? */
    method GiveUp<R, E>(fetched: set<K>) returns (answer: Option<Answer<R, E>>)
      ensures answer.Some? <==> SumOf(missing, store.sizeOf) > maxBytes || missing * fetched != {}
      ensures answer.Some? ==> answer.value == OutOfMemory(SumOf(fetched + missing, store.sizeOf))
    {
      var missingBytes := BytesOf(missing);
      if missingBytes > maxBytes || missing * fetched != {} {
        var needed := BytesOf(fetched + missing);
        return Some(OutOfMemory(needed));
      }
      return None;
    }

    /**
     One pass of the loop of `query`, after the completed rounds `retries`: it ends the query, or
     it fills the cache and `round` records how.
     */
    method Pass<R, E>(p: Program<K, V, R, E>, fetched: set<K>, ghost start: seq<K>, ghost retries: seq<Round<K>>)
      returns (answer: Option<Answer<R, E>>, missed: set<K>, count: nat, ghost round: Round<K>)
      requires Valid() && missing == {} && Terminating(p) && ReadsWithin(p, store.chunks.Keys)
      requires Settled(store, maxBytes, start)
      requires Retries(p, store, maxBytes, start, retries)
      requires order == Reached(p, store, maxBytes, start, retries)
      requires fetched == FetchedIn(retries)
      modifies this
      ensures Valid()
      ensures missed == Misses(p, store, old(order))
      ensures answer.Some? ==> Concluded(p, store, maxBytes, retries, old(order), chunks.Keys, answer.value)
      ensures answer.None? ==>
                && missing == {}
                && Retried(p, store, maxBytes, fetched, round)
                && round.order == old(order)
                && order == After(p, store, maxBytes, round)
                && count == |round.arrivals| == |missed|
    {
      ghost var last := order;
      count := 0;
      round := Round(last, []);
      var outcome := Call(p);
      missed := missing;
      assert missed == Misses(p, store, last);
      if missing == {} {
        EndedWell(p, store, maxBytes, start, retries, outcome);
        return Some(Ended(outcome)), missed, count, round;
      }
      answer := GiveUp(fetched);
      if answer.Some? {
        assert GivesUp(p, store, maxBytes, FetchedIn(retries), last);
        GaveUp(p, store, maxBytes, start, retries, chunks.Keys, answer.value.needed);
        return;
      }
      ghost var arrivals;
      count, arrivals := Fill();
      round := Round(last, arrivals);
    }

    /**
     `query`: run until a round misses nothing. The answer is the outcome on the source itself;
     running out of memory means the touched chunks alone exceed the budget. `retries` is the
     history of the rounds that faulted, `last` the cache the final round started from.
     */
    method Query<R, E>(p: Program<K, V, R, E>)
      returns (answer: Answer<R, E>, stats: QueryStats, ghost retries: seq<Round<K>>, ghost last: seq<K>)
      requires Valid() && Terminating(p) && ReadsWithin(p, store.chunks.Keys)
      modifies this
      ensures Valid()
      ensures Retries(p, store, maxBytes, old(order), retries)
      ensures last == Reached(p, store, maxBytes, old(order), retries)
      ensures Concluded(p, store, maxBytes, retries, last, chunks.Keys, answer)
      ensures stats == StatsOf(retries).Ran(|Misses(p, store, last)|) && stats.rounds <= |store.chunks| + 1
    {
      ghost var start := order;
      var fetched: set<K> := {};
      stats := QueryStats(0, 0, []);
      retries := [];
      missing := {};
      while true
        invariant Valid() && missing == {}
        invariant Retries(p, store, maxBytes, start, retries)
        invariant order == Reached(p, store, maxBytes, start, retries)
        invariant fetched == FetchedIn(retries)
        invariant stats == StatsOf(retries)
        decreases store.chunks.Keys - fetched
      {
        last := order;
        RetriesBounded(p, store, maxBytes, start, retries);
        StatsCount(p, store, maxBytes, start, retries);
        var end, missed, count, round := Pass(p, fetched, start, retries);
        stats := stats.Ran(|missed|);
        if end.Some? {
          return end.value, stats, retries, last;
        }
        RoundAppended(p, store, maxBytes, start, retries, round);
        RetriesBounded(p, store, maxBytes, start, retries + [round]);
        StatsAppended(retries, round);
        retries := retries + [round];
        fetched := fetched + missed;
        stats := stats.Fetched(count);
      }
    }
  }

  /**
   What a finished query promises: the source's own outcome with all its chunks still cached, or
   a loop that gave up because the chunks it touched, and so the whole store, exceed the budget.
   */
  ghost predicate Concluded<K(!new), V(!new), R, E>(
    p: Program<K, V, R, E>, st: Store<K, V>, maxBytes: int, retries: seq<Round<K>>, last: seq<K>,
    cached: set<K>, answer: Answer<R, E>)
    requires Terminating(p)
  {
    match answer
    case Ended(outcome) =>
      var needed := Elements(KeysRead(p, st, st.chunks.Keys, []));
      && outcome == SourceRun(p, st)
      && Misses(p, st, last) == {}
      && needed <= cached
      && (|needed| <= 1 || SumOf(needed, st.sizeOf) <= maxBytes)
    case OutOfMemory(bytes) =>
      && GivesUp(p, st, maxBytes, FetchedIn(retries), last)
      && bytes == SumOf(FetchedIn(retries) + Misses(p, st, last), st.sizeOf)
      && SumOf(TouchedIn(p, st, retries) + Elements(Used(p, st, last)), st.sizeOf) > maxBytes
      && SumOf(st.chunks.Keys, st.sizeOf) > maxBytes
  }

  lemma EndedWell<K(!new), V(!new), R, E>(
    p: Program<K, V, R, E>, st: Store<K, V>, maxBytes: int, start: seq<K>, retries: seq<Round<K>>,
    outcome: Outcome<R, E>)
    requires Terminating(p) && ReadsWithin(p, st.chunks.Keys)
    requires Settled(st, maxBytes, start)
    requires Retries(p, st, maxBytes, start, retries)
    requires var last := Reached(p, st, maxBytes, start, retries);
             Misses(p, st, last) == {} && outcome == Run(p, st, Elements(last), [])
    ensures var last := Reached(p, st, maxBytes, start, retries);
            Concluded(p, st, maxBytes, retries, last, Elements(last), Ended(outcome))
  {
    WorkingSetInvariant(p, st, maxBytes, start, retries);
    Exactness(p, st, maxBytes, Reached(p, st, maxBytes, start, retries));
  }

  lemma GaveUp<K(!new), V(!new), R, E>(
    p: Program<K, V, R, E>, st: Store<K, V>, maxBytes: int, start: seq<K>, retries: seq<Round<K>>,
    cached: set<K>, bytes: nat)
    requires Terminating(p) && ReadsWithin(p, st.chunks.Keys)
    requires Settled(st, maxBytes, start)
    requires Retries(p, st, maxBytes, start, retries)
    requires GivesUp(p, st, maxBytes, FetchedIn(retries), Reached(p, st, maxBytes, start, retries))
    requires var last := Reached(p, st, maxBytes, start, retries);
             bytes == SumOf(FetchedIn(retries) + Misses(p, st, last), st.sizeOf)
    ensures var last := Reached(p, st, maxBytes, start, retries);
            Concluded<K, V, R, E>(p, st, maxBytes, retries, last, cached, OutOfMemory(bytes))
  {
    WorkingSet(p, st, maxBytes, start, retries);
    WorkingSetInvariant(p, st, maxBytes, start, retries);
    var last := Reached(p, st, maxBytes, start, retries);
    KeysReadWithin(p, st, Elements(last), []);
    SumMonotone(TouchedIn(p, st, retries) + Elements(Used(p, st, last)), st.chunks.Keys, st.sizeOf);
  }

  /** The bookkeeping of the completed rounds of a query. */
  ghost function StatsOf<K(!new)>(retries: seq<Round<K>>): QueryStats {
    if retries == [] then QueryStats(0, 0, [])
    else
      var count := |retries[|retries| - 1].arrivals|;
      StatsOf(retries[..|retries| - 1]).Ran(count).Fetched(count)
  }

  /** What the bookkeeping says: one entry a round, and every chunk counted was a distinct fetch. */
  lemma {:induction false} StatsCount<K(!new), V(!new), R, E>(
    p: Program<K, V, R, E>, st: Store<K, V>, maxBytes: int, start: seq<K>, retries: seq<Round<K>>)
    requires Terminating(p) && Retries(p, st, maxBytes, start, retries)
    ensures StatsOf(retries).rounds == |StatsOf(retries).missesPerRound| == |retries|
    ensures StatsOf(retries).chunksFetched == |FetchedIn(retries)|
    decreases |retries|
  {
    if retries != [] {
      var init, last := retries[..|retries| - 1], retries[|retries| - 1];
      StatsCount(p, st, maxBytes, start, init);
      DistinctSize(last.arrivals);
      var a, b := FetchedIn(init), Elements(last.arrivals);
      assert a !! b && |a + b| == |a| + |b|;
    }
  }

  lemma {:induction false} StatsAt<K(!new)>(retries: seq<Round<K>>, k: nat)
    requires k < |retries|
    ensures |StatsOf(retries).missesPerRound| == |retries|
    ensures StatsOf(retries).missesPerRound[k] == |retries[k].arrivals|
  {
    var n := |retries| - 1;
    if k < n {
      StatsAt(retries[..n], k);
    } else if n > 0 {
      StatsAt(retries[..n], 0);
    }
  }

  /** What a retried round recorded: it loaded each chunk it missed, once. */
  ghost predicate LoadedMisses<K(!new), V(!new), R, E>(p: Program<K, V, R, E>, st: Store<K, V>, r: Round<K>)
    requires Terminating(p)
  {
    Distinct(r.arrivals) && Elements(r.arrivals) == Misses(p, st, r.order)
  }

  ghost predicate EachLoaded<K(!new), V(!new), R, E>(p: Program<K, V, R, E>, st: Store<K, V>, retries: seq<Round<K>>)
    requires Terminating(p)
  {
    retries == [] || (EachLoaded(p, st, retries[..|retries| - 1]) && LoadedMisses(p, st, retries[|retries| - 1]))
  }

  lemma {:induction false} RetriesLoaded<K(!new), V(!new), R, E>(
    p: Program<K, V, R, E>, st: Store<K, V>, maxBytes: int, start: seq<K>, retries: seq<Round<K>>)
    requires Terminating(p) && Retries(p, st, maxBytes, start, retries)
    ensures EachLoaded(p, st, retries)
    decreases |retries|
  {
    if retries != [] { RetriesLoaded(p, st, maxBytes, start, retries[..|retries| - 1]); }
  }

  lemma {:induction false} LoadedAt<K(!new), V(!new), R, E>(
    p: Program<K, V, R, E>, st: Store<K, V>, retries: seq<Round<K>>, k: nat)
    requires Terminating(p) && EachLoaded(p, st, retries) && k < |retries|
    ensures LoadedMisses(p, st, retries[k])
    decreases |retries|
  {
    if k < |retries| - 1 { LoadedAt(p, st, retries[..|retries| - 1], k); }
  }

  /** The entry of each round is the number of chunks it missed. */
  lemma StatsEntries<K(!new), V(!new), R, E>(
    p: Program<K, V, R, E>, st: Store<K, V>, maxBytes: int, start: seq<K>, retries: seq<Round<K>>, k: nat)
    requires Terminating(p) && Retries(p, st, maxBytes, start, retries) && k < |retries|
    ensures |StatsOf(retries).missesPerRound| == |retries|
    ensures StatsOf(retries).missesPerRound[k] == |Misses(p, st, retries[k].order)|
  {
    StatsAt(retries, k);
    RetriesLoaded(p, st, maxBytes, start, retries);
    LoadedAt(p, st, retries, k);
    DistinctSize(retries[k].arrivals);
  }

  lemma {:induction false} AppendSize<K(!new)>(order: seq<K>, k: K, sizeOf: K -> nat)
    ensures SizeOf(order + [k], sizeOf) == SizeOf(order, sizeOf) + sizeOf(k)
  {
    if order == [] {
      assert order + [k] == [k];
    } else {
      AppendSize(order[1..], k, sizeOf);
      assert (order + [k])[1..] == order[1..] + [k];
    }
  }

  lemma AppendFacts<K(!new)>(order: seq<K>, k: K, sizeOf: K -> nat)
    requires Distinct(order) && k !in Elements(order)
    ensures Distinct(order + [k]) && Elements(order + [k]) == Elements(order) + {k}
    ensures SizeOf(order + [k], sizeOf) == SizeOf(order, sizeOf) + sizeOf(k)
  {
    AppendSize(order, k, sizeOf);
  }

  lemma TailFacts<K(!new)>(order: seq<K>)
    requires Distinct(order) && order != []
    ensures Distinct(order[1..]) && Elements(order[1..]) == Elements(order) - {order[0]}
  {
    assert order == [order[0]] + order[1..];
    assert order[0] !in order[1..];
  }

  lemma {:induction false} FilledSnoc<K(!new)>(
    order: seq<K>, arrivals: seq<K>, k: K, sizeOf: K -> nat, maxBytes: int)
    ensures Filled(order, arrivals + [k], sizeOf, maxBytes)
         == Evict(Filled(order, arrivals, sizeOf, maxBytes) + [k], sizeOf, maxBytes)
    decreases |arrivals|
  {
    if arrivals == [] {
      assert arrivals + [k] == [k];
      assert Filled(order, [k], sizeOf, maxBytes)
          == Filled(Evict(order + [k], sizeOf, maxBytes), [k][1..], sizeOf, maxBytes);
    } else {
      FilledSnoc(Evict(order + [arrivals[0]], sizeOf, maxBytes), arrivals[1..], k, sizeOf, maxBytes);
      assert (arrivals + [k])[1..] == arrivals[1..] + [k];
    }
  }

  lemma {:induction false} TouchAllSnoc<K(!new)>(order: seq<K>, uses: seq<K>, k: K)
    ensures TouchAll(order, uses + [k]) == Touch(TouchAll(order, uses), k)
    decreases |uses|
  {
    if uses == [] {
      assert uses + [k] == [k];
      assert TouchAll(order, [k]) == TouchAll(Touch(order, k), [k][1..]);
    } else {
      TouchAllSnoc(Touch(order, uses[0]), uses[1..], k);
      assert (uses + [k])[1..] == uses[1..] + [k];
    }
  }

  lemma ReadStep<K(!new), V(!new), R, E>(p: Program<K, V, R, E>, st: Store<K, V>, cached: set<K>, h: seq<V>, k: K)
    requires Terminating(p) && p.step(h) == Read(k)
    ensures var h' := h + [Lookup(st, cached, k)];
            && p.rank(h') < p.rank(h)
            && KeysRead(p, st, cached, h) == [k] + KeysRead(p, st, cached, h')
            && Run(p, st, cached, h) == Run(p, st, cached, h')
  {}

  lemma RoundAppended<K(!new), V(!new), R, E>(
    p: Program<K, V, R, E>, st: Store<K, V>, maxBytes: int, start: seq<K>, rounds: seq<Round<K>>, r: Round<K>)
    requires Terminating(p)
    requires Retries(p, st, maxBytes, start, rounds)
    requires r.order == Reached(p, st, maxBytes, start, rounds)
    requires Retried(p, st, maxBytes, FetchedIn(rounds), r)
    ensures Retries(p, st, maxBytes, start, rounds + [r])
    ensures Reached(p, st, maxBytes, start, rounds + [r]) == After(p, st, maxBytes, r)
    ensures FetchedIn(rounds + [r]) == FetchedIn(rounds) + Elements(r.arrivals)
    ensures Elements(r.arrivals) !! FetchedIn(rounds) && Elements(r.arrivals) != {}
  {
    NewArrivals(p, st, maxBytes, FetchedIn(rounds), r);
    var all := rounds + [r];
    assert all[..|all| - 1] == rounds && all[|all| - 1] == r;
  }

  lemma NewArrivals<K(!new), V(!new), R, E>(
    p: Program<K, V, R, E>, st: Store<K, V>, maxBytes: int, fetched: set<K>, r: Round<K>)
    requires Terminating(p)
    requires Retried(p, st, maxBytes, fetched, r)
    ensures Elements(r.arrivals) !! fetched && Elements(r.arrivals) != {}
  {
    var missing := Misses(p, st, r.order);
    forall k | k in missing ensures k !in fetched {
      assert missing * fetched == {};
      assert k !in missing * fetched;
    }
  }

  lemma StatsAppended<K(!new)>(rounds: seq<Round<K>>, r: Round<K>)
    ensures StatsOf(rounds + [r]) == StatsOf(rounds).Ran(|r.arrivals|).Fetched(|r.arrivals|)
  {
    var all := rounds + [r];
    assert all[..|all| - 1] == rounds && all[|all| - 1] == r;
  }
}
