/** What every backend hands to its vendor library: an expression listed
    through the accessors `linear_vars`, `linear_coeffs`, `quad_vars_1`,
    `quad_vars_2` and `quad_coeffs` (miplib/expr.cpp), as parallel arrays.
    The vendor library computes the value of a listing position by position;
    this module proves that the listing loses nothing (it rebuilds the
    expression) and that its value plus the constant is the value of the
    expression. */
module Rows {
  import opened Variables
  import opened TermMaps
  import opened Expressions

  /** The parallel arrays of a listed expression, without its constant. */
  datatype Terms = Terms(vars: seq<Var>, coeffs: seq<real>, qvars1: seq<Var>, qvars2: seq<Var>, qcoeffs: seq<real>)

  /** The arrays pair up: the lengths the vendor calls are given agree. */
  predicate WellFormed(t: Terms) {
    |t.vars| == |t.coeffs| && |t.qvars1| == |t.qvars2| == |t.qcoeffs|
  }

  /** The arrays of an expression, in the iteration orders `lo` of its
      linear map and `qo` of its quadratic map. */
  function ListTerms(e: Expr, lo: seq<Var>, qo: seq<VarPair>): (t: Terms)
    requires Enumerates(lo, e.linear.Keys) && Enumerates(qo, e.quad.Keys)
    ensures WellFormed(t)
    ensures |t.vars| == |e.linear| && |t.qcoeffs| == |e.quad|
  {
    Terms(LinearVars(e, lo), LinearCoeffs(e, lo), QuadVars1(e, qo), QuadVars2(e, qo), QuadCoeffs(e, qo))
  }

  /** The expression a listing describes, given the constant beside it. */
  function Rebuild(constant: real, t: Terms): Expr
    requires WellFormed(t)
  {
    Expr(constant, Zip(t.vars, t.coeffs), Zip(PairUp(t.qvars1, t.qvars2), t.qcoeffs))
  }

  /** The listing loses nothing: rebuilding it gives back the expression. */
  lemma {:induction false} ListTermsRoundTrip(e: Expr, lo: seq<Var>, qo: seq<VarPair>)
    requires Enumerates(lo, e.linear.Keys) && Enumerates(qo, e.quad.Keys)
    ensures Rebuild(e.constant, ListTerms(e, lo, qo)) == e
  {
    LinearAccessorsRoundTrip(e, lo);
    QuadAccessorsRoundTrip(e, qo);
  }

  // ---------------------------------------------------------------------------
  // Value of a listing

  /** The position-by-position sum of a listing under the weight `w`. */
  ghost function ListSum<K>(keys: seq<K>, coeffs: seq<real>, w: (K, real) -> real): real
    requires |keys| == |coeffs|
    decreases |keys|
  {
    if |keys| == 0 then 0.0
    else ListSum(keys[..|keys| - 1], coeffs[..|keys| - 1], w) + w(keys[|keys| - 1], coeffs[|keys| - 1])
  }

  /** The value of a listing under an assignment: linear terms, then the
      products of the quadratic terms. */
  ghost function TermsValue(t: Terms, a: Var -> real): real
    requires WellFormed(t)
  {
    ListSum(t.vars, t.coeffs, Weight(a)) + ListSum(PairUp(t.qvars1, t.qvars2), t.qcoeffs, Weight(PairValue(a)))
  }

  /** The map restricted to the listed keys. */
  ghost function Restrict<K(!new)>(m: map<K, real>, order: seq<K>): map<K, real> {
    map k | k in m && k in order :: m[k]
  }

  /** Listing distinct keys of a map and summing position by position gives
      the sum of the map restricted to those keys. */
  lemma {:induction false} ListSumLookups<K(!new)>(m: map<K, real>, order: seq<K>, w: (K, real) -> real)
    requires forall i | 0 <= i < |order| :: order[i] in m
    requires forall i, j | 0 <= i < j < |order| :: order[i] != order[j]
    ensures ListSum(order, Lookups(m, order), w) == SumMap(Restrict(m, order), w)
    decreases |order|
  {
    if |order| == 0 {
      assert Restrict(m, order) == map[];
      SumMapEmpty(w);
    } else {
      var n := |order| - 1;
      var front := order[..n];
      assert Lookups(m, order)[..n] == Lookups(m, front);
      ListSumLookups(m, front, w);
      RestrictSnoc(m, order);
      SumMapUpdate(Restrict(m, front), w, order[n], m[order[n]]);
    }
  }

  /** Restricting to one more, new, key adds that key's term. */
  lemma RestrictSnoc<K(!new)>(m: map<K, real>, order: seq<K>)
    requires |order| > 0 && order[|order| - 1] in m
    requires forall i, j | 0 <= i < j < |order| :: order[i] != order[j]
    ensures Restrict(m, order) == Restrict(m, order[..|order| - 1])[order[|order| - 1] := m[order[|order| - 1]]]
    ensures Restrict(m, order[..|order| - 1]) - {order[|order| - 1]} == Restrict(m, order[..|order| - 1])
  {
    var n := |order| - 1;
    var front, last := order[..n], order[n];
    assert order == front + [last];
    assert last !in front;
  }

  /** Listing a whole map in an iteration order and summing position by
      position gives the sum of the map. */
  lemma {:induction false} ListingSum<K(!new)>(m: map<K, real>, order: seq<K>, w: (K, real) -> real)
    requires Enumerates(order, m.Keys)
    ensures ListSum(order, Lookups(m, order), w) == SumMap(m, w)
  {
    ListSumLookups(m, order, w);
    assert Restrict(m, order) == m;
  }

  /** The constant plus the value of the listing is the value of the
      expression, whatever the iteration orders. */
  lemma {:induction false} ListTermsValue(e: Expr, lo: seq<Var>, qo: seq<VarPair>, a: Var -> real)
    requires Enumerates(lo, e.linear.Keys) && Enumerates(qo, e.quad.Keys)
    ensures e.constant + TermsValue(ListTerms(e, lo, qo), a) == Eval(e, a)
  {
    var t := ListTerms(e, lo, qo);
    assert t.coeffs == Lookups(e.linear, lo);
    ListingSum(e.linear, lo, Weight(a));
    QuadAccessorsRoundTrip(e, qo);
    assert t.qcoeffs == Lookups(e.quad, qo);
    ListingSum(e.quad, qo, Weight(PairValue(a)));
  }

  /** A linear expression lists no quadratic terms. */
  lemma {:induction false} LinearListsNoQuad(e: Expr, lo: seq<Var>, qo: seq<VarPair>)
    requires Enumerates(lo, e.linear.Keys) && Enumerates(qo, e.quad.Keys)
    requires IsLinear(e)
    ensures ListTerms(e, lo, qo).qvars1 == [] && ListTerms(e, lo, qo).qcoeffs == []
  {
  }

  // ---------------------------------------------------------------------------
  // Negated coefficients

  /** The listing with every coefficient negated, as SCIP's second indicator
      constraint for an equation is built. */
  function NegateTerms(t: Terms): (r: Terms)
    requires WellFormed(t)
    ensures WellFormed(r) && r.vars == t.vars && r.qvars1 == t.qvars1 && r.qvars2 == t.qvars2
    ensures |r.coeffs| == |t.coeffs| && forall i | 0 <= i < |t.coeffs| :: r.coeffs[i] == -t.coeffs[i]
    ensures |r.qcoeffs| == |t.qcoeffs| && forall i | 0 <= i < |t.qcoeffs| :: r.qcoeffs[i] == -t.qcoeffs[i]
  {
    Terms(t.vars, Negated(t.coeffs), t.qvars1, t.qvars2, Negated(t.qcoeffs))
  }

  function Negated(s: seq<real>): (r: seq<real>)
    ensures |r| == |s| && forall i | 0 <= i < |s| :: r[i] == -s[i]
  {
    seq(|s|, i requires 0 <= i < |s| => -s[i])
  }

  /** Negating every coefficient of a listing negates its sum, for a weight
      that is additive in the coefficient. */
  lemma {:induction false} ListSumNegated<K(!new)>(keys: seq<K>, coeffs: seq<real>, w: (K, real) -> real)
    requires |keys| == |coeffs| && Additive(w)
    ensures ListSum(keys, Negated(coeffs), w) == -ListSum(keys, coeffs, w)
    decreases |keys|
  {
    if |keys| > 0 {
      var n := |keys| - 1;
      assert Negated(coeffs)[..n] == Negated(coeffs[..n]);
      ListSumNegated(keys[..n], coeffs[..n], w);
      assert AddsAt(w, keys[n], coeffs[n], -coeffs[n]);
      assert AddsAt(w, keys[n], 0.0, 0.0);
    }
  }

  /** Negating every coefficient negates the value of the listing. */
  lemma {:induction false} NegateTermsValue(t: Terms, a: Var -> real)
    requires WellFormed(t)
    ensures TermsValue(NegateTerms(t), a) == -TermsValue(t, a)
  {
    WeightsLinear(a);
    ListSumNegated(t.vars, t.coeffs, Weight(a));
    ListSumNegated(PairUp(t.qvars1, t.qvars2), t.qcoeffs, Weight(PairValue(a)));
  }
}
