/** The bounded window of loads a scan keeps in flight ahead of its consumer. */
module Prefetch {
  import opened Grid
  import opened Wrappers

  datatype Load<B> = Load(block: B, estimate: nat)

  function Estimates<B>(loads: seq<Load<B>>): nat {
    if loads == [] then 0 else loads[0].estimate + Estimates(loads[1..])
  }

  function Blocks<B>(loads: seq<Load<B>>): (bs: seq<B>)
    ensures |bs| == |loads|
  {
    seq(|loads|, i requires 0 <= i < |loads| => loads[i].block)
  }

  /** The batches of some blocks, in block order. */
  function Batches<B, R>(load: B -> seq<R>, blocks: seq<B>): seq<R> {
    if blocks == [] then [] else Batches(load, blocks[..|blocks| - 1]) + load(blocks[|blocks| - 1])
  }

  /** The first `n` elements, or all of them. */
  function Take<R>(s: seq<R>, n: nat): (r: seq<R>)
    ensures r <= s && |r| <= n && (|r| < n ==> r == s)
  {
    if |s| <= n then s else s[..n]
  }

  lemma {:induction false} EstimatesSnoc<B>(loads: seq<Load<B>>, l: Load<B>)
    ensures Estimates(loads + [l]) == Estimates(loads) + l.estimate
  {
    if loads == [] {
      assert [] + [l] == [l];
      assert Estimates([l]) == l.estimate + Estimates([l][1..]);
    } else {
      EstimatesSnoc(loads[1..], l);
      assert (loads + [l])[1..] == loads[1..] + [l];
    }
  }

  lemma BatchesSnoc<B, R>(load: B -> seq<R>, blocks: seq<B>, b: B)
    ensures Batches(load, blocks + [b]) == Batches(load, blocks) + load(b)
  {
    assert (blocks + [b])[..|blocks + [b]| - 1] == blocks;
  }

  lemma {:induction false} BatchesGrow<B, R>(load: B -> seq<R>, blocks: seq<B>, i: nat)
    requires i <= |blocks|
    ensures Batches(load, blocks[..i]) <= Batches(load, blocks)
    decreases |blocks| - i
  {
    if i == |blocks| {
      assert blocks[..i] == blocks;
    } else {
      BatchesGrow(load, blocks, i + 1);
      assert blocks[..i + 1] == blocks[..i] + [blocks[i]];
      BatchesSnoc(load, blocks[..i], blocks[i]);
    }
  }

  lemma TakePrefix<R>(a: seq<R>, b: seq<R>, n: nat)
    requires a <= b && |a| >= n
    ensures Take(a, n) == Take(b, n)
  {}

  /** After an admission loop: one pending load, or a window that is neither full nor over budget. */
  predicate Admitted(pending: nat, inflight: nat, prefetch: nat, budget: Option<nat>) {
    pending <= 1 || (pending < prefetch && (budget.Some? ==> inflight <= budget.value))
  }

  /** One scan: a generator whose consumer takes `demand` batches and then closes it. */
  class Scan<B, R> {
    const load: B -> seq<R>
    const estimate: B -> nat
    const prefetch: nat
    const budget: Option<nat>
    const demand: nat

    var pending: seq<Load<B>>
    var inflight: int
    var out: seq<R>
    ghost var submitted: seq<B>
    ghost var drained: nat     // blocks of `submitted` whose results have been handed over
    ghost var widest: nat      // most loads ever pending

    ghost predicate Valid()
      reads this
    {
      && drained <= |submitted|
      && Blocks(pending) == submitted[drained..]
      && (forall i :: 0 <= i < |pending| ==> pending[i].estimate == estimate(pending[i].block))
      && inflight == Estimates(pending)
      && out == Take(Batches(load, submitted[..drained]), demand)
      && |pending| <= widest <= Larger(prefetch, 3)
    }

    /** The consumer still wants batches. */
    predicate Wanted()
      reads this
    {
      |out| < demand
    }

    constructor (load: B -> seq<R>, estimate: B -> nat, prefetch: nat, budget: Option<nat>, demand: nat)
      ensures Valid() && submitted == [] && drained == 0 && out == [] && pending == []
      ensures this.load == load && this.estimate == estimate && this.prefetch == prefetch
      ensures this.budget == budget && this.demand == demand
    {
      this.load, this.estimate, this.prefetch, this.budget, this.demand := load, estimate, prefetch, budget, demand;
      pending, inflight, out := [], 0, [];
      submitted, drained, widest := [], 0, 0;
    }

    /** `submit`: a load goes to the back of the window. */
    method Submit(block: B)
      requires Valid() && |pending| < Larger(prefetch, 3)
      modifies this`pending, this`inflight, this`submitted, this`widest
      ensures Valid()
      ensures pending == old(pending) + [Load(block, estimate(block))]
      ensures submitted == old(submitted) + [block]
    {
      var l := Load(block, estimate(block));
      EstimatesSnoc(pending, l);
      pending := pending + [l];
      inflight := inflight + l.estimate;
      submitted := submitted + [block];
      widest := Larger(widest, |pending|);
      assert submitted[..drained] == old(submitted)[..drained];
      assert submitted[drained..] == old(submitted)[drained..] + [block];
    }

    /** `drain_one`: the oldest load's batches are yielded until the consumer has enough. */
    method DrainOne()
      requires Valid() && pending != [] && Wanted()
      modifies this`pending, this`inflight, this`out, this`drained
      ensures Valid()
      ensures pending == old(pending)[1..] && drained == old(drained) + 1
    {
      var oldest := pending[0];
      assert oldest.block == submitted[drained];
      pending := pending[1..];
      inflight := inflight - oldest.estimate;
      assert submitted[..drained + 1] == submitted[..drained] + [oldest.block];
      BatchesSnoc(load, submitted[..drained], oldest.block);
      var batches := load(oldest.block);
      out := out + Take(batches, demand - |out|);
      drained := drained + 1;
    }

    /** `yield from load(block)`, without the pool. */
    method LoadDirectly(block: B)
      requires Valid() && pending == [] && Wanted()
      modifies this
      ensures Valid() && pending == []
      ensures submitted == old(submitted) + [block] && drained == |submitted|
    {
      Submit(block);
      DrainOne();
    }

    /** The admission loop after a submission: it drains the oldest loads up to the first window it may stop at. */
    method Admit()
      requires Valid() && prefetch > 1
      modifies this`pending, this`inflight, this`out, this`drained
      ensures Valid()
      ensures !Wanted() || Admitted(|pending|, inflight, prefetch, budget)
      ensures old(drained) <= drained <= old(drained) + |old(pending)|
      ensures pending == old(pending)[drained - old(drained)..]
      ensures forall k :: 0 <= k < drained - old(drained) ==> !WindowAdmitted(old(pending)[k..])
    {
      while Wanted() && |pending| > 1 && (|pending| >= prefetch || (budget.Some? && inflight > budget.value))
        invariant Valid()
        invariant old(drained) <= drained <= old(drained) + |old(pending)|
        invariant pending == old(pending)[drained - old(drained)..]
        invariant forall k :: 0 <= k < drained - old(drained) ==> !WindowAdmitted(old(pending)[k..])
        decreases |pending|
      {
        assert !WindowAdmitted(pending);
        DrainOne();
      }
    }

    /** Whether the admission loop stops at this window. */
    predicate WindowAdmitted(window: seq<Load<B>>) {
      Admitted(|window|, Estimates(window), prefetch, budget)
    }

    /**
     `generate` over the blocks: whatever the window, budget and estimates, the batches handed over
     are the first `demand` of all blocks' batches in block order; blocks are submitted in order,
     each at most once, and never more than the window beyond those handed over.
     */
    method Generate(blocks: seq<B>)
      requires Valid() && submitted == [] && pending == []
      modifies this
      ensures Valid()
      ensures out == Take(Batches(load, blocks), demand)
      ensures submitted <= blocks
      ensures |submitted| <= drained + Larger(prefetch, 3)
      ensures Wanted() ==> submitted == blocks && drained == |blocks|
    {
      if demand == 0 || blocks == [] { return; }
      if prefetch <= 1 || |blocks| == 1 {
        Directly(blocks);
        return;
      }
      Submit(blocks[0]);
      Submit(blocks[1]);
      for i := 2 to |blocks|
        invariant Valid() && submitted == blocks[..i]
        invariant Wanted()
        invariant (|pending| == 2 && i == 2) || Admitted(|pending|, inflight, prefetch, budget)
      {
        assert blocks[..i + 1] == blocks[..i] + [blocks[i]];
        Submit(blocks[i]);
        Admit();
        if !Wanted() {
          Enough(blocks, i + 1);
          return;
        }
      }
      assert blocks[..|blocks|] == blocks;
      while pending != [] && Wanted()
        invariant Valid() && submitted == blocks
        decreases |pending|
      {
        DrainOne();
      }
      if Wanted() {
        assert submitted[..drained] == blocks;
      } else {
        assert blocks[..|blocks|] == blocks;
        Enough(blocks, |blocks|);
      }
    }

    /** The path without the pool: one load at a time. */
    method Directly(blocks: seq<B>)
      requires Valid() && submitted == [] && pending == [] && Wanted()
      modifies this
      ensures Valid()
      ensures out == Take(Batches(load, blocks), demand)
      ensures submitted <= blocks && drained == |submitted|
      ensures Wanted() ==> submitted == blocks
    {
      for i := 0 to |blocks|
        invariant Valid() && pending == [] && Wanted()
        invariant submitted == blocks[..i] && drained == i
      {
        assert blocks[..i + 1] == blocks[..i] + [blocks[i]];
        LoadDirectly(blocks[i]);
        if !Wanted() {
          Enough(blocks, i + 1);
          return;
        }
      }
      assert blocks[..|blocks|] == blocks;
    }

    /** A consumer that has its batches has the first ones of the whole stream. */
    lemma Enough(blocks: seq<B>, i: nat)
      requires Valid() && i <= |blocks| && submitted == blocks[..i] && !Wanted()
      ensures out == Take(Batches(load, blocks), demand)
    {
      var got := Batches(load, submitted[..drained]);
      assert submitted[..drained] == blocks[..drained];
      BatchesGrow(load, blocks, drained);
      TakePrefix(got, Batches(load, blocks), demand);
    }
  }
}
