/**
 Shared arithmetic of labelled grids: row-major (C order) index arithmetic, the
 product of per-dimension choices, and boxes of index vectors.
 */
module Grid {

  // ---------------------------------------------------------------------
  // Nonlinear facts
  // ---------------------------------------------------------------------

  lemma DivModUnique(q: nat, r: nat, p: nat)
    requires r < p
    ensures (q * p + r) / p == q && (q * p + r) % p == r
  {
    var n := q * p + r;
    var q', r' := n / p, n % p;
    assert n == p * q' + r' && 0 <= r' < p;
    if q' < q {
      MulMono(q' + 1, q, p);
      assert false;
    } else if q < q' {
      MulMono(q + 1, q', p);
      assert false;
    }
  }

  lemma MulMono(a: nat, b: nat, c: nat)
    requires a <= b
    ensures a * c <= b * c
  {}

  lemma MulSucc(a: nat, b: nat)
    ensures (a + 1) * b == a * b + b
  {}

  lemma DigitBound(q: nat, n: nat, r: nat, p: nat)
    requires q < n && r < p
    ensures 0 <= q * p + r < n * p
  {
    MulMono(q + 1, n, p);
    MulSucc(q, p);
  }

  lemma DivBound(i: nat, n: nat, p: nat)
    requires i < n * p
    ensures p > 0 && i / p < n && i % p < p && i == (i / p) * p + i % p
  {
    if i / p >= n { MulMono(n, i / p, p); }
  }

  /** A quotient is the number whose multiples bracket the dividend. */
  lemma QuotientBounds(p: nat, q: nat, c: nat)
    requires c > 0
    ensures q * c <= p < (q + 1) * c <==> p / c == q
    ensures q <= p / c ==> q * c <= p
  {
    var d, r := p / c, p % c;
    assert p == d * c + r;
    MulSucc(q, c);
    if q * c <= p < (q + 1) * c {
      assert p == q * c + (p - q * c);
      DivModUnique(q, p - q * c, c);
    }
    if q <= d { MulMono(q, d, c); }
  }

  // ---------------------------------------------------------------------
  // Small functions on numbers and sequences
  // ---------------------------------------------------------------------

  function Smaller(a: nat, b: nat): nat {
    if a <= b then a else b
  }

  function Larger(a: nat, b: nat): nat {
    if a >= b then a else b
  }

  predicate AllPositive(ns: seq<nat>) {
    forall d :: 0 <= d < |ns| ==> ns[d] > 0
  }

  /** The groups one after the other. */
  function Flatten<T>(groups: seq<seq<T>>): seq<T> {
    if groups == [] then [] else Flatten(groups[..|groups| - 1]) + groups[|groups| - 1]
  }

  lemma FlattenSnoc<T>(groups: seq<seq<T>>, group: seq<T>)
    ensures Flatten(groups + [group]) == Flatten(groups) + group
  {
    assert (groups + [group])[..|groups + [group]| - 1] == groups;
  }

  // ---------------------------------------------------------------------
  // Row-major indices
  // ---------------------------------------------------------------------

  function Prod(shape: seq<nat>): nat {
    if shape == [] then 1 else shape[0] * Prod(shape[1..])
  }

  /** The lengths of half-open extents, one on each axis. */
  function Widths(bounds: seq<(nat, nat)>): (s: seq<nat>)
    ensures |s| == |bounds|
  {
    seq(|bounds|, d requires 0 <= d < |bounds| =>
      if bounds[d].0 <= bounds[d].1 then bounds[d].1 - bounds[d].0 else 0)
  }

  predicate InGrid(idx: seq<nat>, shape: seq<nat>) {
    |idx| == |shape| && forall d :: 0 <= d < |shape| ==> idx[d] < shape[d]
  }

  /** Position of an index vector in the C-order flattening. */
  function Ravel(idx: seq<nat>, shape: seq<nat>): (i: nat)
    requires InGrid(idx, shape)
    ensures i < Prod(shape)
  {
    if shape == [] then 0
    else
      var rest := Ravel(idx[1..], shape[1..]);
      DigitBound(idx[0], shape[0], rest, Prod(shape[1..]));
      idx[0] * Prod(shape[1..]) + rest
  }

  /** Index vector of a position in the C-order flattening. */
  function Unravel(i: nat, shape: seq<nat>): (idx: seq<nat>)
    requires i < Prod(shape)
    ensures InGrid(idx, shape)
  {
    if shape == [] then []
    else
      var p := Prod(shape[1..]);
      DivBound(i, shape[0], p);
      [i / p] + Unravel(i % p, shape[1..])
  }

  lemma {:induction false} RavelUnravel(i: nat, shape: seq<nat>)
    requires i < Prod(shape)
    ensures Ravel(Unravel(i, shape), shape) == i
  {
    if shape != [] {
      var p := Prod(shape[1..]);
      DivBound(i, shape[0], p);
      RavelUnravel(i % p, shape[1..]);
      assert Unravel(i, shape)[1..] == Unravel(i % p, shape[1..]);
    }
  }

  lemma {:induction false} UnravelRavel(idx: seq<nat>, shape: seq<nat>)
    requires InGrid(idx, shape)
    ensures Unravel(Ravel(idx, shape), shape) == idx
  {
    if shape != [] {
      var p := Prod(shape[1..]);
      UnravelRavel(idx[1..], shape[1..]);
      DivModUnique(idx[0], Ravel(idx[1..], shape[1..]), p);
      assert idx == [idx[0]] + idx[1..];
    }
  }

  lemma RavelInjective(a: seq<nat>, b: seq<nat>, shape: seq<nat>)
    requires InGrid(a, shape) && InGrid(b, shape)
    requires Ravel(a, shape) == Ravel(b, shape)
    ensures a == b
  {
    UnravelRavel(a, shape);
    UnravelRavel(b, shape);
  }

  lemma {:induction false} ProdConcat(a: seq<nat>, b: seq<nat>)
    ensures Prod(a + b) == Prod(a) * Prod(b)
  {
    if a == [] {
      assert a + b == b;
    } else {
      ProdConcat(a[1..], b);
      assert (a + b)[1..] == a[1..] + b;
      MulAssoc(a[0], Prod(a[1..]), Prod(b));
    }
  }

  lemma MulAssoc(a: int, b: int, c: int)
    ensures a * (b * c) == (a * b) * c
  {}

  lemma {:induction false} ProdPositive(shape: seq<nat>)
    requires forall d :: 0 <= d < |shape| ==> shape[d] > 0
    ensures Prod(shape) > 0
  {
    if shape != [] {
      ProdPositive(shape[1..]);
      MulMono(1, shape[0], Prod(shape[1..]));
    }
  }

  /** Dividing by the stride and reducing modulo the length reads one digit of the index. */
  lemma {:induction false} UnravelDigit(i: nat, shape: seq<nat>, k: nat)
    requires i < Prod(shape) && k < |shape|
    ensures shape[k] > 0 && Prod(shape[k + 1..]) > 0
    ensures Unravel(i, shape)[k] == (i / Prod(shape[k + 1..])) % shape[k]
  {
    var p := Prod(shape[1..]);
    DivBound(i, shape[0], p);
    if k == 0 {
      DivModUnique(0, i / p, shape[0]);
    } else {
      UnravelDigit(i % p, shape[1..], k - 1);
      assert shape[1..][k..] == shape[k + 1..];
      var q := Prod(shape[k + 1..]);
      var s := shape[k];
      assert shape[1..] == shape[1..k] + [s] + shape[k + 1..];
      ProdConcat(shape[1..k] + [s], shape[k + 1..]);
      ProdConcat(shape[1..k], [s]);
      assert Prod([s]) == s * Prod([]) == s;
      var o := Prod(shape[1..k]);
      assert p == o * s * q;
      DigitOfSum(i / p, o, s, q, i % p);
    }
  }

  /** Adding a multiple of `o * s * q` does not change the digit of weight `q` and base `s`. */
  lemma DigitOfSum(a: nat, o: nat, s: nat, q: nat, b: nat)
    requires s > 0 && q > 0
    ensures ((a * (o * s * q) + b) / q) % s == (b / q) % s
  {
    var m := a * o;
    assert a * (o * s * q) == (m * s) * q by {
      MulAssoc(a, o * s, q);
      MulAssoc(a, o, s);
    }
    DivAddMultiple(m * s, b, q);
    ModAddMultiple(m, b / q, s);
  }

  lemma DivAddMultiple(n: nat, b: nat, q: nat)
    requires q > 0
    ensures (n * q + b) / q == n + b / q
  {
    DivModUnique(n + b / q, b % q, q);
    assert n * q + b == (n + b / q) * q + b % q;
  }

  lemma ModAddMultiple(n: nat, d: nat, s: nat)
    requires s > 0
    ensures (n * s + d) % s == d % s
  {
    DivModUnique(n + d / s, d % s, s);
    assert n * s + d == (n + d / s) * s + d % s;
  }

  // ---------------------------------------------------------------------
  // Products of sequences, in the order of nested loops
  // ---------------------------------------------------------------------

  ghost predicate Distinct<T>(s: seq<T>) {
    forall i, j :: 0 <= i < j < |s| ==> s[i] != s[j]
  }

  function Lens<T>(lists: seq<seq<T>>): (lens: seq<nat>)
    ensures |lens| == |lists|
  {
    seq(|lists|, d requires 0 <= d < |lists| => |lists[d]|)
  }

  function Pick<T>(lists: seq<seq<T>>, idx: seq<nat>): (c: seq<T>)
    requires InGrid(idx, Lens(lists))
    ensures |c| == |lists| && forall d :: 0 <= d < |c| ==> c[d] == lists[d][idx[d]]
  {
    seq(|lists|, d requires 0 <= d < |lists| => lists[d][idx[d]])
  }

  /** All choices of one element per list, the last list varying fastest. */
  function Product<T>(lists: seq<seq<T>>): (cs: seq<seq<T>>)
    ensures |cs| == Prod(Lens(lists))
    ensures forall i :: 0 <= i < |cs| ==> cs[i] == Pick(lists, Unravel(i, Lens(lists)))
  {
    seq(Prod(Lens(lists)), i requires 0 <= i < Prod(Lens(lists)) => Pick(lists, Unravel(i, Lens(lists))))
  }

  ghost predicate Chooses<T>(c: seq<T>, lists: seq<seq<T>>) {
    |c| == |lists| && forall d :: 0 <= d < |c| ==> c[d] in lists[d]
  }

  lemma ProductMembers<T>(lists: seq<seq<T>>, c: seq<T>)
    ensures c in Product(lists) <==> Chooses(c, lists)
  {
    var cs := Product(lists);
    if c in cs {
      var i :| 0 <= i < |cs| && cs[i] == c;
    }
    if Chooses(c, lists) {
      var i := ProductIndex(lists, c);
    }
  }

  lemma ProductIndex<T>(lists: seq<seq<T>>, c: seq<T>) returns (i: nat)
    requires Chooses(c, lists)
    ensures i < |Product(lists)| && Product(lists)[i] == c
  {
    var idx := seq(|lists|, d requires 0 <= d < |lists| => IndexOf(lists[d], c[d]));
    i := Ravel(idx, Lens(lists));
    UnravelRavel(idx, Lens(lists));
    assert Pick(lists, idx) == c;
  }

  ghost function IndexOf<T>(s: seq<T>, x: T): (i: nat)
    requires x in s
    ensures i < |s| && s[i] == x
  {
    var i :| 0 <= i < |s| && s[i] == x;
    i
  }

  lemma ProductDistinct<T>(lists: seq<seq<T>>)
    requires forall d :: 0 <= d < |lists| ==> Distinct(lists[d])
    ensures Distinct(Product(lists))
  {
    var lens := Lens(lists);
    forall i, j | 0 <= i < j < |Product(lists)| ensures Product(lists)[i] != Product(lists)[j] {
      var a, b := Unravel(i, lens), Unravel(j, lens);
      if Pick(lists, a) == Pick(lists, b) {
        forall d | 0 <= d < |lists| ensures a[d] == b[d] {
          assert lists[d][a[d]] == Pick(lists, a)[d] == lists[d][b[d]];
          assert Distinct(lists[d]);
        }
        assert a == b;
        RavelUnravel(i, lens);
        RavelUnravel(j, lens);
        assert false;
      }
    }
  }

  // ---------------------------------------------------------------------
  // Boxes of index vectors
  // ---------------------------------------------------------------------

  ghost function Prepend(heads: set<nat>, tails: set<seq<nat>>): set<seq<nat>> {
    set a, r | a in heads && r in tails :: [a] + r
  }

  lemma PrependMember(x: seq<nat>, heads: set<nat>, tails: set<seq<nat>>)
    ensures x in Prepend(heads, tails) <==> |x| > 0 && x[0] in heads && x[1..] in tails
  {
    if x in Prepend(heads, tails) {
      var a, r :| a in heads && r in tails && x == [a] + r;
      assert x[1..] == r;
    }
    if |x| > 0 && x[0] in heads && x[1..] in tails {
      assert x == [x[0]] + x[1..];
    }
  }

  /** The index vectors whose component `d` is in `axes[d]`. */
  ghost function Box(axes: seq<set<nat>>): set<seq<nat>> {
    if axes == [] then {[]} else Prepend(axes[0], Box(axes[1..]))
  }

  ghost predicate InBox(row: seq<nat>, axes: seq<set<nat>>) {
    |row| == |axes| && forall d :: 0 <= d < |axes| ==> row[d] in axes[d]
  }

  lemma {:induction false} BoxMember(row: seq<nat>, axes: seq<set<nat>>)
    ensures row in Box(axes) <==> InBox(row, axes)
    decreases |axes|
  {
    if axes != [] {
      PrependMember(row, axes[0], Box(axes[1..]));
      if |row| > 0 {
        BoxMember(row[1..], axes[1..]);
        if InBox(row[1..], axes[1..]) && row[0] in axes[0] {
          forall d | 0 <= d < |axes| ensures row[d] in axes[d] {
            if d > 0 { assert row[1..][d - 1] in axes[1..][d - 1]; }
          }
        }
      }
    }
  }

  function Sizes(axes: seq<set<nat>>): (s: seq<nat>)
    ensures |s| == |axes|
  {
    seq(|axes|, d requires 0 <= d < |axes| => |axes[d]|)
  }

  lemma {:induction false} BoxSize(axes: seq<set<nat>>)
    ensures |Box(axes)| == Prod(Sizes(axes))
  {
    if axes != [] {
      BoxSize(axes[1..]);
      assert Sizes(axes)[1..] == Sizes(axes[1..]);
      PrependSize(axes[0], Box(axes[1..]));
    }
  }

  lemma PrependSplit(a: nat, heads: set<nat>, tails: set<seq<nat>>)
    requires a in heads
    ensures Prepend(heads, tails) == Prepend({a}, tails) + Prepend(heads - {a}, tails)
    ensures Prepend({a}, tails) !! Prepend(heads - {a}, tails)
  {
    forall x ensures x in Prepend(heads, tails) <==> x in Prepend({a}, tails) + Prepend(heads - {a}, tails)
      ensures !(x in Prepend({a}, tails) && x in Prepend(heads - {a}, tails))
    {
      PrependMember(x, heads, tails);
      PrependMember(x, {a}, tails);
      PrependMember(x, heads - {a}, tails);
    }
  }

  lemma {:induction false} PrependSize(heads: set<nat>, tails: set<seq<nat>>)
    ensures |Prepend(heads, tails)| == |heads| * |tails|
    decreases heads
  {
    if heads == {} {
      assert Prepend(heads, tails) == {};
    } else {
      var a :| a in heads;
      PrependSize(heads - {a}, tails);
      PrependGrows(a, heads, tails);
      MulSucc(|heads - {a}|, |tails|);
      assert |heads| == |heads - {a}| + 1;
    }
  }

  lemma PrependGrows(a: nat, heads: set<nat>, tails: set<seq<nat>>)
    requires a in heads
    ensures |Prepend(heads, tails)| == |Prepend(heads - {a}, tails)| + |tails|
  {
    LayerSize(a, tails);
    PrependSplit(a, heads, tails);
    var layer, others := Prepend({a}, tails), Prepend(heads - {a}, tails);
    assert |layer + others| == |layer| + |others|;
  }

  lemma {:induction false} LayerSize(a: nat, tails: set<seq<nat>>)
    ensures |Prepend({a}, tails)| == |tails|
    decreases tails
  {
    if tails == {} {
      assert Prepend({a}, tails) == {};
    } else {
      var t :| t in tails;
      LayerSize(a, tails - {t});
      forall x ensures x in Prepend({a}, tails) <==> x in Prepend({a}, tails - {t}) + {[a] + t} {
        PrependMember(x, {a}, tails);
        PrependMember(x, {a}, tails - {t});
        assert ([a] + t)[1..] == t;
        if |x| > 0 { assert x == [x[0]] + x[1..]; }
      }
      PrependMember([a] + t, {a}, tails - {t});
      assert ([a] + t)[1..] == t;
      assert Prepend({a}, tails) == Prepend({a}, tails - {t}) + {[a] + t};
    }
  }

  predicate InRange(i: nat, lo: nat, hi: nat) {
    lo <= i < hi
  }

  /** The naturals from `lo` up to but excluding `hi`. */
  ghost function Range(lo: nat, hi: nat): set<nat> {
    set i {:trigger InRange(i, lo, hi)} | lo <= i < hi && InRange(i, lo, hi)
  }

  lemma {:induction false} RangeSize(lo: nat, hi: nat)
    requires lo <= hi
    ensures |Range(lo, hi)| == hi - lo
    decreases hi - lo
  {
    if lo < hi {
      RangeSize(lo, hi - 1);
      assert Range(lo, hi) == Range(lo, hi - 1) + {hi - 1};
    } else {
      assert Range(lo, hi) == {};
    }
  }

  lemma SubsetSize<T>(a: set<T>, b: set<T>)
    requires a <= b
    ensures |a| <= |b|
  {
    assert b == a + (b - a);
  }

  ghost function Elements<T(!new)>(s: seq<T>): set<T> {
    set x | x in s
  }

  /** A sequence without repetition has as many elements as entries. */
  lemma {:induction false} DistinctSize<T(!new)>(s: seq<T>)
    requires Distinct(s)
    ensures |Elements(s)| == |s|
  {
    if s == [] {
      assert Elements(s) == {};
    } else {
      DistinctSize(s[1..]);
      assert s[0] !in s[1..];
      assert s == [s[0]] + s[1..];
      assert Elements(s) == {s[0]} + Elements(s[1..]);
    }
  }

  // ---------------------------------------------------------------------
  // Dropped axes
  // ---------------------------------------------------------------------

  /** An index vector or a shape without the dropped axes. */
  function Undropped(u: seq<nat>, dropped: seq<bool>): (v: seq<nat>)
    requires |dropped| == |u|
  {
    if u == [] then []
    else if dropped[0] then Undropped(u[1..], dropped[1..])
    else [u[0]] + Undropped(u[1..], dropped[1..])
  }

  /** Dropping axes of length one moves no element. */
  lemma {:induction false} SqueezeKeepsOrder(dropped: seq<bool>, shape: seq<nat>, u: seq<nat>)
    requires |dropped| == |shape| && InGrid(u, shape)
    requires forall d :: 0 <= d < |dropped| && dropped[d] ==> shape[d] == 1
    ensures InGrid(Undropped(u, dropped), Undropped(shape, dropped))
    ensures Ravel(Undropped(u, dropped), Undropped(shape, dropped)) == Ravel(u, shape)
  {
    if shape != [] {
      SqueezeKeepsOrder(dropped[1..], shape[1..], u[1..]);
      ProdUndropped(dropped[1..], shape[1..]);
      if !dropped[0] {
        assert Undropped(u, dropped)[1..] == Undropped(u[1..], dropped[1..]);
        assert Undropped(shape, dropped)[1..] == Undropped(shape[1..], dropped[1..]);
      }
    }
  }

  lemma {:induction false} ProdUndropped(dropped: seq<bool>, shape: seq<nat>)
    requires |dropped| == |shape|
    requires forall d :: 0 <= d < |dropped| && dropped[d] ==> shape[d] == 1
    ensures Prod(Undropped(shape, dropped)) == Prod(shape)
  {
    if shape != [] {
      ProdUndropped(dropped[1..], shape[1..]);
      if !dropped[0] { assert Undropped(shape, dropped)[1..] == Undropped(shape[1..], dropped[1..]); }
    }
  }

  /** Exactly the axes that are not dropped, in order. */
  ghost predicate Remaining(axes: seq<nat>, dropped: seq<bool>) {
    && (forall j, k :: 0 <= j < k < |axes| ==> axes[j] < axes[k])
    && (forall j :: 0 <= j < |axes| ==> axes[j] < |dropped| && !dropped[axes[j]])
    && (forall d :: 0 <= d < |dropped| && !dropped[d] ==> d in axes)
  }

  /** The entries of a vector at some axes. */
  function At(u: seq<nat>, axes: seq<nat>): (v: seq<nat>)
    requires forall j :: 0 <= j < |axes| ==> axes[j] < |u|
    ensures |v| == |axes| && forall j :: 0 <= j < |axes| ==> v[j] == u[axes[j]]
  {
    seq(|axes|, j requires 0 <= j < |axes| => u[axes[j]])
  }

  lemma {:induction false} UndroppedSnoc(u: seq<nat>, dropped: seq<bool>, x: nat, drop: bool)
    requires |dropped| == |u|
    ensures Undropped(u + [x], dropped + [drop]) == Undropped(u, dropped) + if drop then [] else [x]
  {
    if u == [] {
      assert u + [x] == [x] && dropped + [drop] == [drop];
    } else {
      assert (u + [x])[1..] == u[1..] + [x] && (dropped + [drop])[1..] == dropped[1..] + [drop];
      UndroppedSnoc(u[1..], dropped[1..], x, drop);
    }
  }

  /** Without its last axis, a grid keeps the other remaining ones. */
  lemma RemainingInit(axes: seq<nat>, dropped: seq<bool>)
    requires Remaining(axes, dropped) && dropped != []
    ensures var n := |dropped| - 1;
            if dropped[n] then Remaining(axes, dropped[..n])
            else axes != [] && axes[|axes| - 1] == n && Remaining(axes[..|axes| - 1], dropped[..n])
  {
    var n := |dropped| - 1;
    if !dropped[n] {
      var k :| 0 <= k < |axes| && axes[k] == n;
      var last := axes[|axes| - 1];
      assert last < |dropped| && (axes[k] < last || k == |axes| - 1);
    }
  }

  /** Undropped entries are those at the remaining axes. */
  lemma {:induction false} UndroppedAt(u: seq<nat>, dropped: seq<bool>, axes: seq<nat>)
    requires |dropped| == |u| && Remaining(axes, dropped)
    ensures Undropped(u, dropped) == At(u, axes)
  {
    if u == [] {
      assert |axes| == 0;
    } else {
      var n := |u| - 1;
      RemainingInit(axes, dropped);
      UndroppedSnoc(u[..n], dropped[..n], u[n], dropped[n]);
      assert u == u[..n] + [u[n]] && dropped == dropped[..n] + [dropped[n]];
      UndroppedAt(u[..n], dropped[..n], if dropped[n] then axes else axes[..|axes| - 1]);
    }
  }

  /** There are such axes. */
  lemma {:induction false} RemainingExist(dropped: seq<bool>) returns (axes: seq<nat>)
    ensures Remaining(axes, dropped)
  {
    axes := [];
    for d := 0 to |dropped|
      invariant Remaining(axes, dropped[..d])
    {
      if !dropped[d] { axes := axes + [d]; }
      forall e | 0 <= e < d + 1 && !dropped[..d + 1][e] ensures e in axes {
        if e < d { assert !dropped[..d][e]; }
      }
    }
    assert dropped[..|dropped|] == dropped;
  }
}
