/** Shared vocabulary: optional values, integer extremes, and the total of a finite map of reals. */
module Prelude {

  datatype Option<+T> = None | Some(value: T)

  function Min(a: int, b: int): int { if a < b then a else b }

  function Max(a: int, b: int): int { if a < b then b else a }

  ghost predicate NoDuplicates<T>(s: seq<T>) { forall i, j :: 0 <= i < j < |s| ==> s[i] != s[j] }

  /** The whole numbers from `lo` up to `hi`, which is left out. */
  ghost function Instants(lo: int, hi: int): (ts: set<int>)
    ensures forall t :: t in ts <==> lo <= t < hi
    ensures |ts| == Max(hi - lo, 0)
    decreases hi - lo
  {
    if hi <= lo then {} else Instants(lo, hi - 1) + {hi - 1}
  }

  /** A non-empty set of integers has a member to start from. */
  lemma SomeMember(s: set<int>)
    requires s != {}
    ensures exists x :: x in s
  {
    assert (forall x :: x !in s) ==> s == {};
  }

  function MaxR(a: real, b: real): (r: real)
    ensures a <= r && b <= r && (r == a || r == b)
  {
    if a < b then b else a
  }

  function MinR(a: real, b: real): real { if a < b then a else b }

  /** A product of reals, named so that proofs can use its laws instead of arithmetic. */
  function Scale(rate: real, x: real): real { rate * x }

  lemma ScaleAdd(rate: real, a: real, b: real)
    ensures Scale(rate, a + b) == Scale(rate, a) + Scale(rate, b)
    ensures Scale(rate, 0.0) == 0.0
  {
  }

  /** `x` added `n` times. */
  ghost function Times(n: nat, x: real): real {
    if n == 0 then 0.0 else Times(n - 1, x) + x
  }

  lemma {:induction false} TimesIsProduct(n: nat, x: real)
    ensures Times(n, x) == n as real * x
  {
    if n > 0 {
      TimesIsProduct(n - 1, x);
      var m := (n - 1) as real;
      assert n as real == m + 1.0;
      assert (m + 1.0) * x == m * x + x;
    }
  }

  /** The value at `k`, or zero when the map has no entry: every real-valued tally is read this way. */
  function At<K>(m: map<K, real>, k: K): real {
    if k in m then m[k] else 0.0
  }

  /** Adds `x` to the entry at `k`, creating it at zero first. */
  function AddTo<K>(m: map<K, real>, k: K, x: real): map<K, real> {
    m[k := At(m, k) + x]
  }

  lemma AddsAt<K>(m: map<K, real>, k: K, x: real, j: K)
    ensures At(AddTo(m, k, x), j) == At(m, j) + if j == k then x else 0.0
  {
  }

  /** The sum of a finite map's values, in no particular order. */
  ghost function MapSum<K>(m: map<K, real>): real
    decreases |m|
  {
    if m == map[] then 0.0
    else
      var k :| k in m;
      assert (m - {k}).Keys == m.Keys - {k};
      m[k] + MapSum(m - {k})
  }

  /** Any entry may be taken out first, so the sum does not depend on the order. */
  lemma {:induction false} MapSumRemove<K>(m: map<K, real>, k: K)
    requires k in m
    ensures MapSum(m) == m[k] + MapSum(m - {k})
    decreases |m|
  {
    var first :| first in m && MapSum(m) == m[first] + MapSum(m - {first});
    if first != k {
      assert (m - {first}).Keys == m.Keys - {first} && (m - {k}).Keys == m.Keys - {k};
      MapSumRemove(m - {first}, k);
      MapSumRemove(m - {k}, first);
      assert m - {first} - {k} == m - {k} - {first};
    }
  }

  lemma MapSumUpdate<K>(m: map<K, real>, k: K, v: real)
    ensures MapSum(m[k := v]) == MapSum(m) - At(m, k) + v
  {
    MapSumRemove(m[k := v], k);
    assert m[k := v] - {k} == m - {k};
    if k in m {
      MapSumRemove(m, k);
    } else {
      assert m - {k} == m;
    }
  }

  /** The sum of `f` over the entries of a finite map. */
  ghost function Tally<K, V>(m: map<K, V>, f: (K, V) -> real): real {
    MapSum(map k | k in m :: f(k, m[k]))
  }

  lemma TallyAdd<K, V>(m: map<K, V>, k: K, v: V, f: (K, V) -> real)
    requires k !in m
    ensures Tally(m[k := v], f) == Tally(m, f) + f(k, v)
  {
    var a := map j | j in m :: f(j, m[j]);
    var m' := m[k := v];
    assert (map j | j in m' :: f(j, m'[j])) == a[k := f(k, v)];
    MapSumUpdate(a, k, f(k, v));
  }

  /** The entries of `m` whose keys are in `keys`. */
  ghost function Only<K, V>(m: map<K, V>, keys: set<K>): map<K, V> {
    map k | k in m && k in keys :: m[k]
  }

  lemma TallyOnly<K, V>(m: map<K, V>, done: set<K>, k: K, f: (K, V) -> real)
    requires k in m && k !in done
    ensures Tally(Only(m, done + {k}), f) == Tally(Only(m, done), f) + f(k, m[k])
  {
    assert Only(m, done + {k}) == Only(m, done)[k := m[k]];
    TallyAdd(Only(m, done), k, m[k], f);
  }

  /** The elements of `xs` that satisfy `keep`, in order. */
  function Filter<T(!new)>(xs: seq<T>, keep: T -> bool): (kept: seq<T>)
    ensures forall x :: x in kept <==> x in xs && keep(x)
  {
    if xs == [] then []
    else Filter(xs[..|xs| - 1], keep) + if keep(xs[|xs| - 1]) then [xs[|xs| - 1]] else []
  }

  /** The sum of `f` over a sequence. */
  function SumOver<T>(xs: seq<T>, f: T -> real): real {
    if xs == [] then 0.0 else SumOver(xs[..|xs| - 1], f) + f(xs[|xs| - 1])
  }

  lemma SumAppend<T>(xs: seq<T>, x: T, f: T -> real)
    ensures SumOver(xs + [x], f) == SumOver(xs, f) + f(x)
  {
    assert (xs + [x])[..|xs|] == xs;
  }

  function CountOver<T>(xs: seq<T>, p: T -> bool): nat {
    if xs == [] then 0 else CountOver(xs[..|xs| - 1], p) + if p(xs[|xs| - 1]) then 1 else 0
  }

  lemma {:induction false} CountFront<T>(x: T, xs: seq<T>, p: T -> bool)
    ensures CountOver([x] + xs, p) == CountOver(xs, p) + if p(x) then 1 else 0
  {
    if xs == [] {
      assert [x] + xs == [x] && [x][..0] == [];
    } else {
      var n := |xs| - 1;
      CountFront(x, xs[..n], p);
      assert ([x] + xs)[..n + 1] == [x] + xs[..n];
    }
  }

  lemma Prefix<T>(xs: seq<T>, i: nat)
    requires i < |xs|
    ensures xs[..i + 1][..i] == xs[..i] && xs[..i + 1][i] == xs[i] && xs[..|xs|] == xs
  {
  }

  lemma OnlyAdds<K, V>(m: map<K, V>, done: set<K>, k: K)
    requires k in m && k !in done
    ensures k !in Only(m, done)
    ensures Only(m, done + {k}) == Only(m, done)[k := m[k]]
  {
  }

  lemma OnlyEnds<K, V>(m: map<K, V>)
    ensures Only(m, {}) == map[] && Only(m, m.Keys) == m
  {
  }

  lemma OnlyLess<K, V>(m: map<K, V>, keys: set<K>, k: K)
    ensures Only(m, keys) - {k} == Only(m, keys - {k})
  {
  }

  lemma OnlyAll<K, V>(m: map<K, V>, keys: set<K>)
    requires m.Keys <= keys
    ensures Only(m, keys) == m
  {
  }

  /** Adds up a map's values one entry at a time. */
  method SumValues<K(==)>(m: map<K, real>) returns (total: real)
    ensures total == MapSum(m)
  {
    total := 0.0;
    var left := m;
    while left != map[]
      invariant MapSum(m) == total + MapSum(left)
      decreases |left|
    {
      var k :| k in left;
      MapSumRemove(left, k);
      assert (left - {k}).Keys == left.Keys - {k};
      total, left := total + left[k], left - {k};
    }
  }

  lemma AddToSum<K>(m: map<K, real>, k: K, x: real)
    ensures MapSum(AddTo(m, k, x)) == MapSum(m) + x
  {
    MapSumUpdate(m, k, At(m, k) + x);
  }

  function Mapped<T, R>(xs: seq<T>, f: T -> R): (rs: seq<R>)
    ensures |rs| == |xs| && forall i :: 0 <= i < |xs| ==> rs[i] == f(xs[i])
  {
    if xs == [] then [] else Mapped(xs[..|xs| - 1], f) + [f(xs[|xs| - 1])]
  }
}
