/** The coefficient maps of an expression (`ExprImpl::m_linear` and `m_quad`)
    and the per-key update rule every mutating operation of miplib/expr.cpp
    applies: look the key up, insert it when absent, otherwise add to its
    coefficient and erase the entry when the sum is exactly 0.

    `SumMap` gives a map its meaning under a valuation of the keys; the lemmas
    show that each map operation acts on that meaning as the matching
    arithmetic operation. */
module TermMaps {

  /** The coefficient of a key; an absent key has coefficient 0. */
  function Coeff<K(!new)>(m: map<K, real>, k: K): real {
    if k in m then m[k] else 0.0
  }

  /** No stored coefficient is 0. */
  ghost predicate NoZero<K(!new)>(m: map<K, real>) {
    forall k | k in m :: m[k] != 0.0
  }

  /** Two maps without stored zeros are equal when all coefficients agree. */
  lemma EqualByCoeff<K(!new)>(m: map<K, real>, n: map<K, real>)
    requires NoZero(m) && NoZero(n)
    requires forall k :: Coeff(m, k) == Coeff(n, k)
    ensures m == n
  {
    forall k | k in m
      ensures k in n && m[k] == n[k]
    {
      assert Coeff(m, k) == Coeff(n, k);
    }
    forall k | k in n
      ensures k in m
    {
      assert Coeff(m, k) == Coeff(n, k);
    }
  }

  /** One step of the source's accumulation loops: add `d` to the coefficient
      of `k`, inserting `k` when absent and erasing it when the sum is 0. */
  function Accumulate<K(!new)>(m: map<K, real>, k: K, d: real): (r: map<K, real>)
    ensures forall j | j != k :: j in r <==> j in m
    ensures forall j | j != k && j in m :: r[j] == m[j]
    ensures Coeff(r, k) == Coeff(m, k) + d
    ensures k !in m ==> k in r
    ensures NoZero(m) && d != 0.0 ==> NoZero(r)
  {
    if k !in m then m[k := d]
    else if m[k] + d == 0.0 then m - {k}
    else m[k := m[k] + d]
  }

  /** `ExprImpl::operator+=(ExprImpl)` on one of the two maps: every key of `n`
      is accumulated into `m`. */
  function AddTerms<K(!new)>(m: map<K, real>, n: map<K, real>): (r: map<K, real>)
    ensures forall k :: Coeff(r, k) == Coeff(m, k) + Coeff(n, k)
    ensures r.Keys <= m.Keys + n.Keys
    ensures NoZero(m) && NoZero(n) ==> NoZero(r)
  {
    map k | k in m.Keys + n.Keys && (k !in m || k !in n || m[k] + n[k] != 0.0)
      :: Coeff(m, k) + Coeff(n, k)
  }

  /** The loop form of `AddTerms`: processing any one key of `n` first and the
      rest afterwards gives the same map, so the iteration order of the source's
      unordered map does not matter. */
  lemma AddTermsStep<K(!new)>(m: map<K, real>, n: map<K, real>, k: K)
    requires k in n
    ensures AddTerms(m, n) == AddTerms(Accumulate(m, k, n[k]), n - {k})
  {
    var lhs, rhs := AddTerms(m, n), AddTerms(Accumulate(m, k, n[k]), n - {k});
    forall j
      ensures j in lhs <==> j in rhs
      ensures j in lhs ==> lhs[j] == rhs[j]
    {
      if j == k {
        assert Coeff(rhs, j) == Coeff(m, j) + Coeff(n, j);
      }
    }
  }

  /** `ExprImpl::operator*=(double)` on one map, for a nonzero factor. */
  function ScaleTerms<K(!new)>(m: map<K, real>, c: real): (r: map<K, real>)
    ensures r.Keys == m.Keys
    ensures forall k :: Coeff(r, k) == c * Coeff(m, k)
    ensures NoZero(m) && c != 0.0 ==> NoZero(r)
  {
    map k | k in m :: Scaled(m[k], c)
  }
  /** Adding the negation of `n` and then `n` gives back `m`. */
  lemma AddNegThenAdd<K(!new)>(m: map<K, real>, n: map<K, real>)
    requires NoZero(m) && NoZero(n)
    ensures AddTerms(AddTerms(m, ScaleTerms(n, -1.0)), n) == m
  {
    var s := AddTerms(m, ScaleTerms(n, -1.0));
    EqualByCoeff(AddTerms(s, n), m);
  }

  /** Subtracting `n` from `m` leaves no term exactly when the two maps are
      equal. */
  lemma AddNegEmptyIff<K(!new)>(m: map<K, real>, n: map<K, real>)
    requires NoZero(m) && NoZero(n)
    ensures |AddTerms(m, ScaleTerms(n, -1.0))| == 0 <==> m == n
  {
    var d := AddTerms(m, ScaleTerms(n, -1.0));
    if |d| == 0 {
      assert forall k :: Coeff(d, k) == 0.0;
      EqualByCoeff(m, n);
    }
    if m == n {
      EqualByCoeff(d, map[]);
    }
  }

  /** One coefficient times the factor. */
  function Scaled(x: real, c: real): real {
    x * c
  }

  /** The distribution of the left operand's original constant over a term map
      of the right operand in `ExprImpl::operator*=(ExprImpl)`: like
      accumulating `cst * n[k]`, except that an absent key is inserted only when
      `cst` is nonzero. */
  function AddScaledTerms<K(!new)>(m: map<K, real>, n: map<K, real>, cst: real): (r: map<K, real>)
    ensures forall k :: Coeff(r, k) == Coeff(m, k) + cst * Coeff(n, k)
    ensures r.Keys <= m.Keys + n.Keys
    ensures NoZero(m) && NoZero(n) ==> NoZero(r)
  {
    map k | k in m.Keys + n.Keys && (if k in m then k !in n || m[k] + cst * n[k] != 0.0 else cst != 0.0)
      :: Coeff(m, k) + cst * Coeff(n, k)
  }

  /** With a nonzero constant the guarded distribution is plain accumulation of
      the scaled map; with a zero constant it leaves a map without zeros alone. */
  lemma AddScaledTermsCases<K(!new)>(m: map<K, real>, n: map<K, real>, cst: real)
    ensures cst != 0.0 ==> AddScaledTerms(m, n, cst) == AddTerms(m, ScaleTerms(n, cst))
    ensures cst == 0.0 && NoZero(m) ==> AddScaledTerms(m, n, cst) == m
  {
    var r := AddScaledTerms(m, n, cst);
    if cst != 0.0 {
      var s := AddTerms(m, ScaleTerms(n, cst));
      forall k
        ensures k in r <==> k in s
        ensures k in r ==> r[k] == s[k]
      {
        assert Coeff(ScaleTerms(n, cst), k) == cst * Coeff(n, k);
      }
    } else if NoZero(m) {
      forall k
        ensures k in r <==> k in m
        ensures k in r ==> r[k] == m[k]
      {
      }
    }
  }

  // ---------------------------------------------------------------------------
  // Meaning of a term map: the sum, over its keys, of a weight of the key and
  // its coefficient. For an expression the weight is the coefficient times the
  // value of the term's variables (`Weight`). The sum lemmas are stated for an
  // abstract weight, so that their proofs need no arithmetic on products.

  ghost predicate AddsAt<K>(w: (K, real) -> real, k: K, a: real, b: real) {
    w(k, a + b) == w(k, a) + w(k, b)
  }

  /** The weight is additive in the coefficient. */
  ghost predicate Additive<K(!new)>(w: (K, real) -> real) {
    forall k, a, b :: AddsAt(w, k, a, b)
  }

  ghost predicate TimesAt<K>(v: (K, real) -> real, w: (K, real) -> real, c: real, k: K, a: real) {
    v(k, a) == c * w(k, a)
  }

  /** The weight `v` is `c` times the weight `w`. */
  ghost predicate Times<K(!new)>(v: (K, real) -> real, w: (K, real) -> real, c: real) {
    forall k, a :: TimesAt(v, w, c, k, a)
  }

  /** The weight of a term: its coefficient times the value of its key. */
  ghost function Weight<K>(g: K -> real): (K, real) -> real {
    (k: K, a: real) => a * g(k)
  }

  /** The weight of a term whose coefficient was first multiplied by `c`. */
  ghost function ScaledWeight<K>(w: (K, real) -> real, c: real): (K, real) -> real {
    (k: K, a: real) => w(k, a * c)
  }

  lemma WeightLinear<K(!new)>(g: K -> real, c: real)
    ensures Additive(Weight(g))
    ensures Times(ScaledWeight(Weight(g), c), Weight(g), c)
  {
    forall k, a, b
      ensures AddsAt(Weight(g), k, a, b)
    {
      assert (a + b) * g(k) == a * g(k) + b * g(k);
    }
    forall k, a
      ensures TimesAt(ScaledWeight(Weight(g), c), Weight(g), c, k, a)
    {
      assert a * c * g(k) == c * (a * g(k));
    }
  }

  /** The sum of the weights of a map's terms. */
  ghost function SumMap<K(!new)>(m: map<K, real>, w: (K, real) -> real): real {
    SumFrom(m, w)
  }

  /** The recursion behind `SumMap`: an empty map sums to 0, any other map
      takes one step. */
  ghost function SumFrom<K(!new)>(m: map<K, real>, w: (K, real) -> real): real
    decreases m.Keys, 1
  {
    if m.Keys == {} then 0.0 else SumStep(m, w)
  }

  /** Take out some key and sum the rest. */
  ghost function SumStep<K(!new)>(m: map<K, real>, w: (K, real) -> real): real
    requires m.Keys != {}
    decreases m.Keys, 0
  {
    var k :| k in m.Keys;
    w(k, m[k]) + SumFrom(m - {k}, w)
  }

  /** The sum may be split at any key, not only at the one its definition picks. */
  lemma {:induction false} SumMapRemove<K(!new)>(m: map<K, real>, w: (K, real) -> real, k: K)
    requires k in m
    ensures SumMap(m, w) == w(k, m[k]) + SumMap(m - {k}, w)
    decreases m.Keys
  {
    assert SumFrom(m, w) == SumStep(m, w);
    var j :| j in m.Keys && SumFrom(m, w) == w(j, m[j]) + SumFrom(m - {j}, w);
    if j != k {
      var mj, mk := m - {j}, m - {k};
      assert k in mj && mj[k] == m[k];
      assert j in mk && mk[j] == m[j];
      SumMapRemove(mj, w, k);
      SumMapRemove(mk, w, j);
      assert mj - {k} == mk - {j};
    }
  }

  lemma SumMapEmpty<K(!new)>(w: (K, real) -> real)
    ensures SumMap(map[], w) == 0.0
  {
    var e: map<K, real> := map[];
    assert e.Keys == {};
  }

  lemma SumMapSingleton<K(!new)>(k: K, c: real, w: (K, real) -> real)
    ensures SumMap(map[k := c], w) == w(k, c)
  {
    SumMapRemove(map[k := c], w, k);
    assert map[k := c] - {k} == map[];
    SumMapEmpty(w);
  }

  lemma SumMapUpdate<K(!new)>(m: map<K, real>, w: (K, real) -> real, k: K, c: real)
    ensures SumMap(m[k := c], w) == w(k, c) + SumMap(m - {k}, w)
  {
    SumMapRemove(m[k := c], w, k);
    assert m[k := c] - {k} == m - {k};
  }

  lemma SumMapAccumulate<K(!new)>(m: map<K, real>, k: K, d: real, w: (K, real) -> real)
    requires Additive(w)
    ensures SumMap(Accumulate(m, k, d), w) == SumMap(m, w) + w(k, d)
  {
    var r := Accumulate(m, k, d);
    if k !in m {
      SumMapUpdate(m, w, k, d);
      assert m - {k} == m;
    } else {
      SumMapRemove(m, w, k);
      assert AddsAt(w, k, m[k], d);
      if m[k] + d == 0.0 {
        assert AddsAt(w, k, 0.0, 0.0);
        assert r == m - {k};
      } else {
        SumMapUpdate(m, w, k, m[k] + d);
      }
    }
  }

  /** Coefficient-wise addition does not depend on the order of the operands. */
  lemma AddTermsCommutative<K(!new)>(m: map<K, real>, n: map<K, real>)
    requires NoZero(m) && NoZero(n)
    ensures AddTerms(m, n) == AddTerms(n, m)
  {
    EqualByCoeff(AddTerms(m, n), AddTerms(n, m));
  }

  lemma AddTermsAssociative<K(!new)>(m: map<K, real>, n: map<K, real>, o: map<K, real>)
    requires NoZero(m) && NoZero(n) && NoZero(o)
    ensures AddTerms(AddTerms(m, n), o) == AddTerms(m, AddTerms(n, o))
  {
    var l, r := AddTerms(AddTerms(m, n), o), AddTerms(m, AddTerms(n, o));
    forall k
      ensures Coeff(l, k) == Coeff(r, k)
    {
      assert Coeff(l, k) == Coeff(AddTerms(m, n), k) + Coeff(o, k);
      assert Coeff(r, k) == Coeff(m, k) + Coeff(AddTerms(n, o), k);
    }
    EqualByCoeff(l, r);
  }

  /** Accumulating `d` at one key is adding the one-term map `{k: d}`. */
  lemma AccumulateIsAddTerms<K(!new)>(m: map<K, real>, k: K, d: real)
    requires NoZero(m) && d != 0.0
    ensures Accumulate(m, k, d) == AddTerms(m, map[k := d])
  {
    var l, r := Accumulate(m, k, d), AddTerms(m, map[k := d]);
    forall j
      ensures Coeff(l, j) == Coeff(r, j)
    {
      assert Coeff(map[k := d], j) == if j == k then d else 0.0;
    }
    EqualByCoeff(l, r);
  }

  /** Scaling a one-term map scales its term. */
  lemma ScaleSingle<K(!new)>(k: K, d: real, c: real)
    ensures ScaleTerms(map[k := d], c) == map[k := Scaled(d, c)]
  {
  }

  lemma AddTermsEmpty<K(!new)>(m: map<K, real>, n: map<K, real>)
    requires n.Keys == {}
    ensures AddTerms(m, n) == m
  {
    var r := AddTerms(m, n);
    forall j
      ensures j in r <==> j in m
      ensures j in r ==> r[j] == m[j]
    {
      assert j !in n;
    }
  }

  lemma {:induction false} SumMapAddTerms<K(!new)>(m: map<K, real>, n: map<K, real>, w: (K, real) -> real)
    requires Additive(w)
    ensures SumMap(AddTerms(m, n), w) == SumMap(m, w) + SumMap(n, w)
    decreases n.Keys
  {
    if n.Keys == {} {
      AddTermsEmpty(m, n);
      assert SumMap(n, w) == 0.0;
    } else {
      var k :| k in n.Keys;
      AddTermsStep(m, n, k);
      SumMapAddTerms(Accumulate(m, k, n[k]), n - {k}, w);
      SumMapAccumulate(m, k, n[k], w);
      SumMapRemove(n, w, k);
    }
  }

  lemma ScaleTermsRemove<K(!new)>(m: map<K, real>, c: real, k: K)
    ensures ScaleTerms(m, c) - {k} == ScaleTerms(m - {k}, c)
  {
    var l, r := ScaleTerms(m, c) - {k}, ScaleTerms(m - {k}, c);
    forall j
      ensures j in l <==> j in r
      ensures j in l ==> l[j] == r[j]
    {
    }
  }

  /** Scaling the coefficients is weighting the original ones by the scaled
      weight. */
  lemma {:induction false} SumMapScale<K(!new)>(m: map<K, real>, c: real, w: (K, real) -> real)
    ensures SumMap(ScaleTerms(m, c), w) == SumMap(m, ScaledWeight(w, c))
    decreases m.Keys
  {
    var s := ScaleTerms(m, c);
    if m.Keys == {} {
      assert s.Keys == {};
    } else {
      var k :| k in m.Keys;
      SumMapRemove(m, ScaledWeight(w, c), k);
      SumMapRemove(s, w, k);
      ScaleTermsRemove(m, c, k);
      SumMapScale(m - {k}, c, w);
    }
  }

  /** A weight `c` times another gives `c` times the sum. */
  lemma {:induction false} SumMapTimes<K(!new)>(m: map<K, real>, v: (K, real) -> real, w: (K, real) -> real, c: real)
    requires Times(v, w, c)
    ensures SumMap(m, v) == c * SumMap(m, w)
    decreases m.Keys
  {
    if m.Keys == {} {
    } else {
      var k :| k in m.Keys;
      SumMapRemove(m, v, k);
      SumMapRemove(m, w, k);
      SumMapTimes(m - {k}, v, w, c);
      assert TimesAt(v, w, c, k, m[k]);
      MulAdd(c, w(k, m[k]), SumMap(m - {k}, w), v(k, m[k]), SumMap(m - {k}, v));
    }
  }

  /** `c*x + c*y == c*(x + y)`, stated for named values. */
  lemma MulAdd(c: real, x: real, y: real, cx: real, cy: real)
    requires cx == c * x && cy == c * y
    ensures cx + cy == c * (x + y)
  {
  }

  lemma SumMapScaleWeight<K(!new)>(m: map<K, real>, c: real, g: K -> real)
    ensures SumMap(ScaleTerms(m, c), Weight(g)) == c * SumMap(m, Weight(g))
  {
    SumMapScale(m, c, Weight(g));
    WeightLinear(g, c);
    SumMapTimes(m, ScaledWeight(Weight(g), c), Weight(g), c);
  }

  lemma SumMapAddScaled<K(!new)>(m: map<K, real>, n: map<K, real>, cst: real, g: K -> real)
    requires cst != 0.0 || NoZero(m)
    ensures SumMap(AddScaledTerms(m, n, cst), Weight(g)) == SumMap(m, Weight(g)) + cst * SumMap(n, Weight(g))
  {
    AddScaledTermsCases(m, n, cst);
    if cst != 0.0 {
      WeightLinear(g, cst);
      SumMapAddTerms(m, ScaleTerms(n, cst), Weight(g));
      SumMapScaleWeight(n, cst, g);
    }
  }

  // ---------------------------------------------------------------------------
  // Listing a map in an iteration order, and rebuilding it from the listing.

  /** `order` lists every key of `keys` exactly once: one possible iteration
      order of an unordered map with these keys. */
  ghost predicate Enumerates<K>(order: seq<K>, keys: set<K>) {
    && (forall i, j | 0 <= i < j < |order| :: order[i] != order[j])
    && (forall i | 0 <= i < |order| :: order[i] in keys)
    && (forall k | k in keys :: k in order)
  }

  /** The coefficients of the listed keys, in the listed order. */
  function Lookups<K(!new)>(m: map<K, real>, order: seq<K>): (r: seq<real>)
    requires forall i | 0 <= i < |order| :: order[i] in m
    ensures |r| == |order|
    ensures forall i | 0 <= i < |order| :: r[i] == m[order[i]]
  {
    seq(|order|, i requires 0 <= i < |order| => m[order[i]])
  }

  /** The map that pairs each listed key with the coefficient at the same
      position; a later position wins. */
  function Zip<K(!new)>(keys: seq<K>, coeffs: seq<real>): map<K, real>
    requires |keys| == |coeffs|
    decreases |keys|
  {
    if |keys| == 0 then map[]
    else Zip(keys[..|keys| - 1], coeffs[..|keys| - 1])[keys[|keys| - 1] := coeffs[|keys| - 1]]
  }

  /** Zipping the keys with their own coefficients restores the map restricted
      to those keys. */
  lemma {:induction false} ZipLookups<K(!new)>(m: map<K, real>, order: seq<K>)
    requires forall i | 0 <= i < |order| :: order[i] in m
    ensures Zip(order, Lookups(m, order)) == map k | k in m && k in order :: m[k]
    decreases |order|
  {
    if |order| > 0 {
      var n := |order| - 1;
      var front := order[..n];
      assert Lookups(m, order)[..n] == Lookups(m, front);
      ZipLookups(m, front);
      var l := Zip(order, Lookups(m, order));
      var r := map k | k in m && k in order :: m[k];
      forall k
        ensures k in l <==> k in r
        ensures k in l ==> l[k] == r[k]
      {
        assert k in order <==> k in front || k == order[n] by {
          assert order == front + [order[n]];
        }
      }
    }
  }

  /** Listing a map in any iteration order and zipping the listing back gives
      the map. */
  lemma {:induction false} ListingRoundTrip<K(!new)>(m: map<K, real>, order: seq<K>)
    requires Enumerates(order, m.Keys)
    ensures Zip(order, Lookups(m, order)) == m
  {
    ZipLookups(m, order);
  }

  /** A listing of every key exactly once is as long as the map. */
  lemma {:induction false} EnumerationSize<K>(order: seq<K>, keys: set<K>)
    requires Enumerates(order, keys)
    ensures |order| == |keys|
    decreases |order|
  {
    if |order| > 0 {
      var n := |order| - 1;
      var x := order[n];
      var front := order[..n];
      assert Enumerates(front, keys - {x}) by {
        forall k | k in keys - {x}
          ensures k in front
        {
          var i :| 0 <= i < |order| && order[i] == k;
          assert i != n;
        }
      }
      EnumerationSize(front, keys - {x});
    } else {
      assert keys == {} by {
        forall k | k in keys
          ensures false
        {
        }
      }
    }
  }
}
