/**
 The least-recently-used order of the chunk cache as a value: keys from the oldest to the
 most recent, how a read and an arrival change it, and what eviction can and cannot remove.
 */
module Lru {
  import opened Grid

  /** Total size of a finite set of keys. */
  ghost function SumOf<K(!new)>(keys: set<K>, sizeOf: K -> nat): nat {
    if keys == {} then 0
    else var k :| k in keys; sizeOf(k) + SumOf(keys - {k}, sizeOf)
  }

  lemma {:induction false} SumRemove<K(!new)>(keys: set<K>, k: K, sizeOf: K -> nat)
    requires k in keys
    ensures SumOf(keys, sizeOf) == sizeOf(k) + SumOf(keys - {k}, sizeOf)
    decreases keys
  {
    var c :| c in keys && SumOf(keys, sizeOf) == sizeOf(c) + SumOf(keys - {c}, sizeOf);
    if c != k {
      SumRemove(keys - {c}, k, sizeOf);
      SumRemove(keys - {k}, c, sizeOf);
      assert keys - {c} - {k} == keys - {k} - {c};
    }
  }

  lemma {:induction false} SumMonotone<K(!new)>(a: set<K>, b: set<K>, sizeOf: K -> nat)
    requires a <= b
    ensures SumOf(a, sizeOf) <= SumOf(b, sizeOf)
    decreases b
  {
    if a != b {
      var k :| k in b && k !in a;
      SumRemove(b, k, sizeOf);
      SumMonotone(a, b - {k}, sizeOf);
    }
  }

  /** Bytes held by the keys of an order. */
  function SizeOf<K(!new)>(order: seq<K>, sizeOf: K -> nat): nat {
    if order == [] then 0 else sizeOf(order[0]) + SizeOf(order[1..], sizeOf)
  }

  lemma {:induction false} SizeIsSum<K(!new)>(order: seq<K>, sizeOf: K -> nat)
    requires Distinct(order)
    ensures SizeOf(order, sizeOf) == SumOf(Elements(order), sizeOf)
  {
    if order == [] {
      assert Elements(order) == {};
    } else {
      var k, rest := order[0], order[1..];
      SizeIsSum(rest, sizeOf);
      assert k !in rest;
      assert Elements(order) - {k} == Elements(rest) by {
        forall x ensures x in Elements(order) - {k} <==> x in Elements(rest) {
          if x in order && x != k { var i :| 0 <= i < |order| && order[i] == x; assert rest[i - 1] == x; }
        }
      }
      SumRemove(Elements(order), k, sizeOf);
    }
  }

  // ---------------------------------------------------------------------
  // Reads
  // ---------------------------------------------------------------------

  function Without<K(==,!new)>(order: seq<K>, k: K): (r: seq<K>)
    ensures forall x :: x in r <==> x in order && x != k
    ensures |r| <= |order|
  {
    if order == [] then []
    else if order[0] == k then Without(order[1..], k)
    else [order[0]] + Without(order[1..], k)
  }

  lemma {:induction false} WithoutDistinct<K(!new)>(order: seq<K>, k: K)
    requires Distinct(order)
    ensures Distinct(Without(order, k))
  {
    if order != [] {
      WithoutDistinct(order[1..], k);
      assert forall j :: 0 <= j < |order[1..]| ==> order[1..][j] == order[j + 1];
      assert order[0] !in order[1..];
      var rest := Without(order[1..], k);
      assert order[0] !in rest;
    }
  }

  /** `get`: a hit moves to the recent end; a miss changes nothing. */
  function Touch<K(==,!new)>(order: seq<K>, k: K): (r: seq<K>)
    ensures forall x :: x in r <==> x in order
  {
    if k in order then Without(order, k) + [k] else order
  }

  function TouchAll<K(==,!new)>(order: seq<K>, uses: seq<K>): seq<K>
    decreases |uses|
  {
    if uses == [] then order else TouchAll(Touch(order, uses[0]), uses[1..])
  }

  lemma {:induction false} TouchAllKeys<K(!new)>(order: seq<K>, uses: seq<K>)
    requires Distinct(order)
    ensures Distinct(TouchAll(order, uses))
    ensures Elements(TouchAll(order, uses)) == Elements(order)
    decreases |uses|
  {
    if uses != [] {
      WithoutDistinct(order, uses[0]);
      TouchAllKeys(Touch(order, uses[0]), uses[1..]);
    }
  }

  // ---------------------------------------------------------------------
  // Arrivals and eviction
  // ---------------------------------------------------------------------

  /** Drop the oldest keys while the total is over budget, always keeping one. */
  function Evict<K(!new)>(order: seq<K>, sizeOf: K -> nat, maxBytes: int): seq<K> {
    if SizeOf(order, sizeOf) > maxBytes && |order| > 1 then Evict(order[1..], sizeOf, maxBytes) else order
  }

  lemma {:induction false} EvictIsSuffix<K(!new)>(order: seq<K>, sizeOf: K -> nat, maxBytes: int) returns (i: nat)
    ensures i <= |order| && Evict(order, sizeOf, maxBytes) == order[i..]
    ensures order != [] ==> i < |order|
    ensures SizeOf(order[i..], sizeOf) <= maxBytes || |order[i..]| <= 1
    ensures i > 0 ==> SizeOf(order[i - 1..], sizeOf) > maxBytes
  {
    if SizeOf(order, sizeOf) > maxBytes && |order| > 1 {
      var j := EvictIsSuffix(order[1..], sizeOf, maxBytes);
      i := j + 1;
      assert order[1..][j..] == order[i..];
      if j > 0 { assert order[1..][j - 1..] == order[i - 1..]; } else { assert order[0..] == order; }
    } else {
      i := 0;
      assert order[0..] == order;
    }
  }

  /** The order after loads complete in the sequence `arrivals`. */
  function Filled<K(!new)>(order: seq<K>, arrivals: seq<K>, sizeOf: K -> nat, maxBytes: int): seq<K>
    decreases |arrivals|
  {
    if arrivals == [] then order
    else Filled(Evict(order + [arrivals[0]], sizeOf, maxBytes), arrivals[1..], sizeOf, maxBytes)
  }

  // ---------------------------------------------------------------------
  // The working set is the recent suffix
  // ---------------------------------------------------------------------

  /** Every key from the first touched one on is touched. */
  ghost predicate RecentSuffix<K(!new)>(order: seq<K>, touched: set<K>) {
    forall i, j :: 0 <= i <= j < |order| && order[i] in touched ==> order[j] in touched
  }

  lemma {:induction false} WithoutSuffix<K(!new)>(order: seq<K>, touched: set<K>, k: K)
    requires RecentSuffix(order, touched)
    ensures RecentSuffix(Without(order, k), touched)
  {
    if order != [] {
      var rest := order[1..];
      assert RecentSuffix(rest, touched) by {
        forall i, j | 0 <= i <= j < |rest| && rest[i] in touched ensures rest[j] in touched {
          assert order[i + 1] == rest[i] && order[j + 1] == rest[j];
        }
      }
      WithoutSuffix(rest, touched, k);
      var r, t := Without(order, k), Without(rest, k);
      if order[0] in touched {
        forall x | x in order ensures x in touched {
          var j :| 0 <= j < |order| && order[j] == x;
        }
        forall j | 0 <= j < |r| ensures r[j] in touched { assert r[j] in r; }
      } else if order[0] != k {
        assert r == [order[0]] + t;
        forall i, j | 0 <= i <= j < |r| && r[i] in touched ensures r[j] in touched {
          assert t[i - 1] in touched && t[j - 1] in touched;
        }
      }
    }
  }

  lemma TouchSuffix<K(!new)>(order: seq<K>, touched: set<K>, k: K)
    requires RecentSuffix(order, touched)
    ensures RecentSuffix(Touch(order, k), touched + {k})
  {
    WithoutSuffix(order, touched, k);
    if k in order {
      var r := Without(order, k);
      forall i, j | 0 <= i <= j < |r + [k]| && (r + [k])[i] in touched + {k}
        ensures (r + [k])[j] in touched + {k}
      {
        if i < |r| { assert r[i] in Without(order, k); }
      }
    }
  }

  lemma {:induction false} TouchAllSuffix<K(!new)>(order: seq<K>, touched: set<K>, uses: seq<K>)
    requires RecentSuffix(order, touched)
    ensures RecentSuffix(TouchAll(order, uses), touched + Elements(uses))
    decreases |uses|
  {
    if uses == [] {
      assert touched + Elements(uses) == touched;
    } else {
      TouchSuffix(order, touched, uses[0]);
      TouchAllSuffix(Touch(order, uses[0]), touched + {uses[0]}, uses[1..]);
      assert touched + Elements(uses) == touched + {uses[0]} + Elements(uses[1..]);
    }
  }

  /** An arrival either keeps every touched key, or the touched keys alone exceed the budget. */
  lemma ArrivalKeeps<K(!new)>(order: seq<K>, touched: set<K>, k: K, sizeOf: K -> nat, maxBytes: int)
    requires Distinct(order) && k !in order && k in touched
    requires RecentSuffix(order, touched)
    ensures var after := Evict(order + [k], sizeOf, maxBytes);
            && Distinct(after) && RecentSuffix(after, touched)
            && Elements(after) <= Elements(order) + {k}
            && (|after| <= 1 || SizeOf(after, sizeOf) <= maxBytes)
            && (SumOf(touched, sizeOf) > maxBytes || Elements(order) * touched + {k} <= Elements(after))
  {
    var all := order + [k];
    var i := EvictIsSuffix(all, sizeOf, maxBytes);
    var after := all[i..];
    forall x | x in after ensures x in order || x == k {
      var j :| 0 <= j < |after| && after[j] == x;
      assert all[i + j] == x;
    }
    forall a, b | 0 <= a <= b < |after| && after[a] in touched ensures after[b] in touched {
      assert all[i + a] in touched;
    }
    assert Distinct(after) by {
      forall a, b | 0 <= a < b < |after| ensures after[a] != after[b] {
        assert all[i + a] != all[i + b];
      }
    }
    if i > 0 && exists j :: 0 <= j < i && all[j] in touched {
      var tail := all[i - 1..];
      assert Elements(tail) <= touched by {
        var j :| 0 <= j < i && all[j] in touched;
        forall x | x in tail ensures x in touched {
          var t :| 0 <= t < |tail| && tail[t] == x;
          assert all[i - 1 + t] == x;
        }
      }
      assert Distinct(tail) by {
        forall a, b | 0 <= a < b < |tail| ensures tail[a] != tail[b] {
          assert all[i - 1 + a] != all[i - 1 + b];
        }
      }
      SizeIsSum(tail, sizeOf);
      SumMonotone(Elements(tail), touched, sizeOf);
    } else {
      forall x | x in Elements(order) * touched + {k} ensures x in after {
        assert x in all;
        var j :| 0 <= j < |all| && all[j] == x;
        assert j >= i;
        assert after[j - i] == x;
      }
    }
  }

  /** The same over any number of completions, in whatever order they happen. */
  lemma {:induction false} FilledKeeps<K(!new)>(
    order: seq<K>, touched: set<K>, arrivals: seq<K>, sizeOf: K -> nat, maxBytes: int)
    requires Distinct(order) && Distinct(arrivals)
    requires Elements(arrivals) !! Elements(order) && Elements(arrivals) <= touched
    requires RecentSuffix(order, touched)
    requires |order| <= 1 || SizeOf(order, sizeOf) <= maxBytes
    ensures var after := Filled(order, arrivals, sizeOf, maxBytes);
            && Distinct(after) && RecentSuffix(after, touched)
            && Elements(after) <= Elements(order) + Elements(arrivals)
            && (|after| <= 1 || SizeOf(after, sizeOf) <= maxBytes)
            && (SumOf(touched, sizeOf) > maxBytes || Elements(order) * touched + Elements(arrivals) <= Elements(after))
    decreases |arrivals|
  {
    if arrivals != [] {
      var k, rest := arrivals[0], arrivals[1..];
      assert k in arrivals && k in Elements(arrivals) && k !in Elements(order);
      ArrivalKeeps(order, touched, k, sizeOf, maxBytes);
      var next := Evict(order + [k], sizeOf, maxBytes);
      assert k !in rest;
      assert Elements(arrivals) == Elements(rest) + {k};
      FilledKeeps(next, touched, rest, sizeOf, maxBytes);
    }
  }
}
