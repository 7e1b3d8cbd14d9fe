/**
 A query against the chunk cache as a whole run: adaptive reads, the rounds of the retry
 loop as a trace of states, and the two theorems about any such trace.
 */
module QueryRuns {
  import opened Grid
  import opened Lru

  datatype Outcome<R, E> = Returned(value: R) | Raised(error: E)

  /** The next thing a program does after the values it has read so far. */
  datatype Action<K, R, E> = Read(key: K) | Finish(outcome: Outcome<R, E>)

  /**
   A deterministic adaptive program: each read may depend on every earlier value, and so may
   the result or the exception it ends with. `rank` bounds the reads still to come.
   */
  datatype Program<!K, !V, R, E> = Program(step: seq<V> -> Action<K, R, E>, rank: seq<V> -> nat)

  ghost predicate Terminating<K, V(!new), R, E>(p: Program<K, V, R, E>) {
    forall h, v :: p.step(h).Read? ==> p.rank(h + [v]) < p.rank(h)
  }

  ghost predicate ReadsWithin<K, V(!new), R, E>(p: Program<K, V, R, E>, keys: set<K>) {
    forall h :: p.step(h).Read? ==> p.step(h).key in keys
  }

  /** The remote store: the real chunks, their declared sizes, and the placeholder of each. */
  datatype Store<!K, V> = Store(chunks: map<K, V>, sizeOf: K -> nat, fill: K -> V)

  /** What a read sees when exactly `cached` is in memory. */
  function Lookup<K, V>(st: Store<K, V>, cached: set<K>, k: K): V {
    if k in cached && k in st.chunks then st.chunks[k] else st.fill(k)
  }

  /** The keys read, in order, from history `h` on. */
  function KeysRead<K, V(!new), R, E>(p: Program<K, V, R, E>, st: Store<K, V>, cached: set<K>, h: seq<V>): seq<K>
    requires Terminating(p)
    decreases p.rank(h)
  {
    match p.step(h)
    case Finish(_) => []
    case Read(k) => [k] + KeysRead(p, st, cached, h + [Lookup(st, cached, k)])
  }

  /** How the program ends, from history `h` on. */
  function Run<K, V(!new), R, E>(p: Program<K, V, R, E>, st: Store<K, V>, cached: set<K>, h: seq<V>): Outcome<R, E>
    requires Terminating(p)
    decreases p.rank(h)
  {
    match p.step(h)
    case Finish(o) => o
    case Read(k) => Run(p, st, cached, h + [Lookup(st, cached, k)])
  }

  /** How the program ends when every chunk is read from the source itself. */
  ghost function SourceRun<K, V(!new), R, E>(p: Program<K, V, R, E>, st: Store<K, V>): Outcome<R, E>
    requires Terminating(p)
  {
    Run(p, st, st.chunks.Keys, [])
  }

  /** A run without a miss is the run on the source: same reads, same result or exception. */
  lemma {:induction false} HitsAreSource<K, V(!new), R, E>(
    p: Program<K, V, R, E>, st: Store<K, V>, cached: set<K>, h: seq<V>)
    requires Terminating(p) && cached <= st.chunks.Keys
    requires forall k :: k in KeysRead(p, st, cached, h) ==> k in cached
    ensures Run(p, st, cached, h) == Run(p, st, st.chunks.Keys, h)
    ensures KeysRead(p, st, cached, h) == KeysRead(p, st, st.chunks.Keys, h)
    decreases p.rank(h)
  {
    match p.step(h)
    case Finish(_) =>
    case Read(k) =>
      var h' := h + [Lookup(st, cached, k)];
      assert KeysRead(p, st, cached, h) == [k] + KeysRead(p, st, cached, h');
      assert k in KeysRead(p, st, cached, h);
      HitsAreSource(p, st, cached, h');
  }

  lemma {:induction false} KeysReadWithin<K(!new), V(!new), R, E>(
    p: Program<K, V, R, E>, st: Store<K, V>, cached: set<K>, h: seq<V>)
    requires Terminating(p) && ReadsWithin(p, st.chunks.Keys)
    ensures Elements(KeysRead(p, st, cached, h)) <= st.chunks.Keys
    decreases p.rank(h)
  {
    match p.step(h)
    case Finish(_) =>
    case Read(k) => KeysReadWithin(p, st, cached, h + [Lookup(st, cached, k)]);
  }

  // ---------------------------------------------------------------------
  // Rounds
  // ---------------------------------------------------------------------

  /**
   One pass of the retry loop: the LRU order when `run` starts, and the sequence in which the
   loads of its missing chunks then complete (nothing after the last round).
   */
  datatype Round<K> = Round(order: seq<K>, arrivals: seq<K>)

  function Used<K(!new), V(!new), R, E>(p: Program<K, V, R, E>, st: Store<K, V>, order: seq<K>): seq<K>
    requires Terminating(p)
  {
    KeysRead(p, st, set k | k in order, [])
  }

  ghost function Misses<K(!new), V(!new), R, E>(p: Program<K, V, R, E>, st: Store<K, V>, order: seq<K>): set<K>
    requires Terminating(p)
  {
    Elements(Used(p, st, order)) - Elements(order)
  }

  /** Everything read in any round. */
  ghost function TouchedIn<K(!new), V(!new), R, E>(p: Program<K, V, R, E>, st: Store<K, V>,
      rounds: seq<Round<K>>): set<K>
    requires Terminating(p)
  {
    if rounds == [] then {}
    else TouchedIn(p, st, rounds[..|rounds| - 1]) + Elements(Used(p, st, rounds[|rounds| - 1].order))
  }

  /** Everything fetched in any round. */
  ghost function FetchedIn<K(!new)>(rounds: seq<Round<K>>): set<K> {
    if rounds == [] then {}
    else FetchedIn(rounds[..|rounds| - 1]) + Elements(rounds[|rounds| - 1].arrivals)
  }

  /** The order left behind by a round. */
  ghost function After<K(!new), V(!new), R, E>(
    p: Program<K, V, R, E>, st: Store<K, V>, maxBytes: int, r: Round<K>): seq<K>
    requires Terminating(p)
  {
    Filled(TouchAll(r.order, Used(p, st, r.order)), r.arrivals, st.sizeOf, maxBytes)
  }

  /** The retry loop gives up after a round that started with this order. */
  ghost predicate GivesUp<K(!new), V(!new), R, E>(
    p: Program<K, V, R, E>, st: Store<K, V>, maxBytes: int, fetched: set<K>, order: seq<K>)
    requires Terminating(p)
  {
    var missing := Misses(p, st, order);
    missing != {} && (SumOf(missing, st.sizeOf) > maxBytes || missing * fetched != {})
  }

  /** What holds of the cache between operations. */
  ghost predicate Settled<K(!new), V>(st: Store<K, V>, maxBytes: int, order: seq<K>) {
    && Distinct(order)
    && Elements(order) <= st.chunks.Keys
    && (|order| <= 1 || SizeOf(order, st.sizeOf) <= maxBytes)
  }

  /** Round `r` missed something, did not give up, and loaded exactly what it missed, each chunk once. */
  ghost predicate Retried<K(!new), V(!new), R, E>(
    p: Program<K, V, R, E>, st: Store<K, V>, maxBytes: int, fetched: set<K>, r: Round<K>)
    requires Terminating(p)
  {
    && Misses(p, st, r.order) != {}
    && !GivesUp(p, st, maxBytes, fetched, r.order)
    && Distinct(r.arrivals) && Elements(r.arrivals) == Misses(p, st, r.order)
  }

  /** Completed rounds of the loop: each was retried and the next starts where it left the cache. */
  ghost predicate Retries<K(!new), V(!new), R, E>(
    p: Program<K, V, R, E>, st: Store<K, V>, maxBytes: int, start: seq<K>, rounds: seq<Round<K>>)
    requires Terminating(p)
  {
    rounds == [] || (
      var init, last := rounds[..|rounds| - 1], rounds[|rounds| - 1];
      && Retries(p, st, maxBytes, start, init)
      && last.order == Reached(p, st, maxBytes, start, init)
      && Retried(p, st, maxBytes, FetchedIn(init), last))
  }

  /** The order after those rounds. */
  ghost function Reached<K(!new), V(!new), R, E>(
    p: Program<K, V, R, E>, st: Store<K, V>, maxBytes: int, start: seq<K>, rounds: seq<Round<K>>): seq<K>
    requires Terminating(p)
  {
    if rounds == [] then start else After(p, st, maxBytes, rounds[|rounds| - 1])
  }

  /**
   The invariant of the loop. After any number of retries from any starting cache and any
   completion orders, touched chunks are the recent suffix of the LRU order; and whatever was
   fetched is still there unless the touched chunks alone are over budget.
   */
  lemma {:induction false} WorkingSetInvariant<K(!new), V(!new), R, E>(
    p: Program<K, V, R, E>, st: Store<K, V>, maxBytes: int, start: seq<K>, rounds: seq<Round<K>>)
    requires Terminating(p) && ReadsWithin(p, st.chunks.Keys)
    requires Settled(st, maxBytes, start)
    requires Retries(p, st, maxBytes, start, rounds)
    ensures var order := Reached(p, st, maxBytes, start, rounds);
            var touched := TouchedIn(p, st, rounds);
            && Settled(st, maxBytes, order)
            && RecentSuffix(order, touched)
            && FetchedIn(rounds) <= touched <= st.chunks.Keys
            && (SumOf(touched, st.sizeOf) > maxBytes || FetchedIn(rounds) <= Elements(order))
    decreases |rounds|
  {
    if rounds == [] {
    } else {
      var init, last := rounds[..|rounds| - 1], rounds[|rounds| - 1];
      WorkingSetInvariant(p, st, maxBytes, start, init);
      var before, touched := TouchedIn(p, st, init), TouchedIn(p, st, rounds);
      var used := Used(p, st, last.order);
      var order := TouchAll(last.order, used);
      KeysReadWithin(p, st, Elements(last.order), []);
      TouchAllKeys(last.order, used);
      TouchAllSuffix(last.order, before, used);
      TouchedSettles(st, maxBytes, last.order, used);
      FilledKeeps(order, touched, last.arrivals, st.sizeOf, maxBytes);
      SumMonotone(before, touched, st.sizeOf);
    }
  }

  /** Reads only reorder the cache, so its size does not change. */
  lemma TouchedSettles<K(!new), V>(st: Store<K, V>, maxBytes: int, order: seq<K>, used: seq<K>)
    requires Settled(st, maxBytes, order)
    ensures Settled(st, maxBytes, TouchAll(order, used))
    ensures SizeOf(TouchAll(order, used), st.sizeOf) == SizeOf(order, st.sizeOf)
  {
    TouchAllKeys(order, used);
    var after := TouchAll(order, used);
    SizeIsSum(order, st.sizeOf);
    SizeIsSum(after, st.sizeOf);
    DistinctSize(order);
    DistinctSize(after);
  }

  /**
   Working-set theorem: when the loop gives up, the chunks it touched over all its rounds do
   not fit the budget, whatever the starting cache and whatever the completion orders.
   */
  lemma WorkingSet<K(!new), V(!new), R, E>(
    p: Program<K, V, R, E>, st: Store<K, V>, maxBytes: int, start: seq<K>, rounds: seq<Round<K>>)
    requires Terminating(p) && ReadsWithin(p, st.chunks.Keys)
    requires Settled(st, maxBytes, start)
    requires Retries(p, st, maxBytes, start, rounds)
    requires GivesUp(p, st, maxBytes, FetchedIn(rounds), Reached(p, st, maxBytes, start, rounds))
    ensures var last := Reached(p, st, maxBytes, start, rounds);
            SumOf(TouchedIn(p, st, rounds) + Elements(Used(p, st, last)), st.sizeOf) > maxBytes
  {
    WorkingSetInvariant(p, st, maxBytes, start, rounds);
    var last := Reached(p, st, maxBytes, start, rounds);
    var touched := TouchedIn(p, st, rounds);
    var missing := Misses(p, st, last);
    SumMonotone(touched, touched + Elements(Used(p, st, last)), st.sizeOf);
    SumMonotone(missing, touched + Elements(Used(p, st, last)), st.sizeOf);
    if missing * FetchedIn(rounds) != {} {
      var k :| k in missing * FetchedIn(rounds);
      assert k !in Elements(last);
    }
  }

  /**
   Exactness: a round without a miss ends as the source does, whatever earlier rounds saw, and
   then everything the program reads on the source is cached at once.
   */
  lemma Exactness<K(!new), V(!new), R, E>(p: Program<K, V, R, E>, st: Store<K, V>, maxBytes: int, order: seq<K>)
    requires Terminating(p) && Settled(st, maxBytes, order)
    requires Misses(p, st, order) == {}
    ensures Run(p, st, Elements(order), []) == SourceRun(p, st)
    ensures Elements(KeysRead(p, st, st.chunks.Keys, [])) <= Elements(order)
    ensures var needed := Elements(KeysRead(p, st, st.chunks.Keys, []));
            |needed| <= 1 || SumOf(needed, st.sizeOf) <= maxBytes
  {
    var used := KeysRead(p, st, Elements(order), []);
    forall k | k in used ensures k in Elements(order) {
      assert k in Misses(p, st, order) || k in Elements(order);
    }
    HitsAreSource(p, st, Elements(order), []);
    SizeIsSum(order, st.sizeOf);
    DistinctSize(order);
    var needed := Elements(used);
    assert needed <= Elements(order);
    SumMonotone(needed, Elements(order), st.sizeOf);
    SubsetSize(needed, Elements(order));
  }

  /**
   Termination: every retry fetches chunks never fetched before, so there are at most as many
   retries as the source has chunks.
   */
  lemma {:induction false} RetriesBounded<K(!new), V(!new), R, E>(
    p: Program<K, V, R, E>, st: Store<K, V>, maxBytes: int, start: seq<K>, rounds: seq<Round<K>>)
    requires Terminating(p) && ReadsWithin(p, st.chunks.Keys)
    requires Retries(p, st, maxBytes, start, rounds)
    ensures |rounds| <= |FetchedIn(rounds)| <= |st.chunks|
    ensures FetchedIn(rounds) <= st.chunks.Keys
    decreases |rounds|
  {
    if rounds != [] {
      var init, last := rounds[..|rounds| - 1], rounds[|rounds| - 1];
      RetriesBounded(p, st, maxBytes, start, init);
      KeysReadWithin(p, st, Elements(last.order), []);
      var old', new' := FetchedIn(init), Elements(last.arrivals);
      assert old' !! new';
      assert FetchedIn(rounds) == old' + new' && |old' + new'| == |old'| + |new'|;
    }
    SubsetSize(FetchedIn(rounds), st.chunks.Keys);
    assert |st.chunks.Keys| == |st.chunks|;
  }
}
