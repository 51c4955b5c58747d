/** `ExprImpl::operator*=(ExprImpl)` as the source runs it: the degree checks,
    then loops over the operands' term maps, accumulating one term at a time.
    The iteration orders of the unordered maps are parameters. For an operand
    that does not share the target's implementation, whatever the orders are,
    the result is the closed form `Products.Mul`.

    `Expr`'s copy constructor shares the implementation, so in `x *= x`, or
    `x *= y` after `Expr y = x`, the operand is the target itself, and the
    loops read coefficients the target has already changed. That case is
    modelled on its own at the end of this module. */
module InPlaceProduct {
  import opened Wrappers
  import opened Errors
  import opened Variables
  import opened TermMaps
  import opened Expressions
  import opened Products

  /** One iteration of the loops that distribute the left operand's original
      constant `cst` over a term map of the right operand: an absent key is
      inserted only for a nonzero constant, a present key is updated and erased
      when it reaches 0. */
  function DistributeStep<K(!new)>(m: map<K, real>, k: K, c1: real, cst: real): (r: map<K, real>)
    ensures Coeff(r, k) == Coeff(m, k) + cst * c1
    ensures forall j | j != k :: Coeff(r, j) == Coeff(m, j) && (j in r <==> j in m)
    ensures NoZero(m) && c1 != 0.0 ==> NoZero(r)
  {
    if k !in m then
      if cst != 0.0 then m[k := cst * c1] else m
    else if m[k] + cst * c1 == 0.0 then m - {k}
    else m[k := m[k] + cst * c1]
  }

  /** Loop bookkeeping: `rest` holds the terms of `n` whose keys are listed
      from position `i` of `order` on. */
  ghost predicate Remaining<K>(rest: map<K, real>, n: map<K, real>, order: seq<K>, i: nat) {
    && i <= |order|
    && (forall k | k in rest :: k in n && rest[k] == n[k])
    && (forall j | i <= j < |order| :: order[j] in rest)
    && |rest| == |order| - i
  }

  /** At the start every term remains. */
  lemma RemainingStart<K>(n: map<K, real>, order: seq<K>)
    requires Enumerates(order, n.Keys)
    ensures Remaining(n, n, order, 0)
  {
    EnumerationSize(order, n.Keys);
  }

  /** Visiting the key at position `i` removes its term. */
  lemma RemainingStep<K>(rest: map<K, real>, n: map<K, real>, order: seq<K>, i: nat)
    requires Enumerates(order, n.Keys) && Remaining(rest, n, order, i) && i < |order|
    ensures order[i] in rest && rest[order[i]] == n[order[i]]
    ensures Remaining(rest - {order[i]}, n, order, i + 1)
  {
    var k := order[i];
    assert (rest - {k}).Keys == rest.Keys - {k};
    forall j | i + 1 <= j < |order|
      ensures order[j] in rest - {k}
    {
      assert order[j] != order[i];
    }
  }

  /** After the last position no term remains. */
  lemma RemainingDone<K>(rest: map<K, real>, n: map<K, real>, order: seq<K>)
    requires Remaining(rest, n, order, |order|)
    ensures rest == map[]
  {
  }

  /** The distribution loop's invariant: what is done plus what remains is the
      closed form. */
  ghost predicate DistributedSoFar<K(!new)>(r: map<K, real>, rest: map<K, real>, m: map<K, real>, n: map<K, real>, cst: real) {
    forall k :: Coeff(r, k) + cst * Coeff(rest, k) == Coeff(m, k) + cst * Coeff(n, k)
  }

  /** Visiting `k` keeps the distribution loop's invariant at the key `j`. */
  lemma DistributeInvariantAt<K(!new)>(r: map<K, real>, r2: map<K, real>, rest: map<K, real>,
                                       m: map<K, real>, n: map<K, real>, cst: real, k: K, c1: real, j: K)
    requires k in rest && rest[k] == c1
    requires Coeff(r, j) + cst * Coeff(rest, j) == Coeff(m, j) + cst * Coeff(n, j)
    requires j == k ==> Coeff(r2, j) == Coeff(r, j) + cst * c1
    requires j != k ==> Coeff(r2, j) == Coeff(r, j)
    ensures Coeff(r2, j) + cst * Coeff(rest - {k}, j) == Coeff(m, j) + cst * Coeff(n, j)
  {
    if j == k {
      assert Coeff(rest, j) == rest[k] && Coeff(rest - {k}, j) == 0.0;
    } else {
      assert Coeff(rest - {k}, j) == Coeff(rest, j);
    }
  }

  /** Visiting `k` keeps the distribution loop's invariant, for any `r2`
      whose coefficients are those of `DistributeStep`. */
  lemma DistributeInvariant<K(!new)>(r: map<K, real>, r2: map<K, real>, rest: map<K, real>,
                                     m: map<K, real>, n: map<K, real>, cst: real, k: K, c1: real)
    requires k in rest && rest[k] == c1 && DistributedSoFar(r, rest, m, n, cst)
    requires Coeff(r2, k) == Coeff(r, k) + cst * c1
    requires forall j | j != k :: Coeff(r2, j) == Coeff(r, j)
    ensures DistributedSoFar(r2, rest - {k}, m, n, cst)
  {
    forall j
      ensures Coeff(r2, j) + cst * Coeff(rest - {k}, j) == Coeff(m, j) + cst * Coeff(n, j)
    {
      DistributeInvariantAt(r, r2, rest, m, n, cst, k, c1, j);
    }
  }

  /** When nothing remains, the loop has built the closed form. */
  lemma DistributeDone<K(!new)>(r: map<K, real>, m: map<K, real>, n: map<K, real>, cst: real)
    requires NoZero(r) && NoZero(m) && NoZero(n) && DistributedSoFar(r, map[], m, n, cst)
    ensures r == AddScaledTerms(m, n, cst)
  {
    forall k
      ensures Coeff(r, k) == Coeff(AddScaledTerms(m, n, cst), k)
    {
      assert Coeff(r, k) + cst * Coeff(map[], k) == Coeff(m, k) + cst * Coeff(n, k);
    }
    EqualByCoeff(r, AddScaledTerms(m, n, cst));
  }

  /** Everything the distribution loop keeps. */
  ghost predicate DistributeState<K(!new)>(r: map<K, real>, rest: map<K, real>, m: map<K, real>, n: map<K, real>,
                                           order: seq<K>, i: nat, cst: real) {
    Remaining(rest, n, order, i) && NoZero(r) && DistributedSoFar(r, rest, m, n, cst)
  }

  /** One iteration of the distribution loop keeps its state. */
  lemma DistributeKeeps<K(!new)>(r: map<K, real>, rest: map<K, real>, m: map<K, real>, n: map<K, real>,
                                 order: seq<K>, i: nat, cst: real)
    requires NoZero(n) && Enumerates(order, n.Keys)
    requires DistributeState(r, rest, m, n, order, i, cst) && i < |order|
    ensures order[i] in n
    ensures DistributeState(DistributeStep(r, order[i], n[order[i]], cst), rest - {order[i]}, m, n, order, i + 1, cst)
  {
    var k := order[i];
    RemainingStep(rest, n, order, i);
    var r2 := DistributeStep(r, k, n[k], cst);
    DistributeInvariant(r, r2, rest, m, n, cst, k, n[k]);
  }

  /** The distribution loop over `n`, visited in `order`. */
  method Distribute<K(!new)>(m: map<K, real>, n: map<K, real>, order: seq<K>, cst: real) returns (r: map<K, real>)
    requires NoZero(m) && NoZero(n) && Enumerates(order, n.Keys)
    ensures r == AddScaledTerms(m, n, cst)
  {
    RemainingStart(n, order);
    r := m;
    ghost var rest := n;
    var i := 0;
    while i < |order|
      invariant DistributeState(r, rest, m, n, order, i, cst)
      decreases |order| - i
    {
      DistributeKeeps(r, rest, m, n, order, i, cst);
      r := DistributeStep(r, order[i], n[order[i]], cst);
      rest := rest - {order[i]};
      i := i + 1;
    }
    RemainingDone(rest, n, order);
    DistributeDone(r, m, n, cst);
  }

  /** The inner cross loop's invariant, for the row of `u` with coefficient
      `c`. */
  ghost predicate RowSoFar(r: map<VarPair, real>, rest: map<Var, real>, q: map<VarPair, real>,
                           u: Var, c: real, fl: map<Var, real>) {
    forall p :: Coeff(r, p) + CrossCoeff(Row(u, c), rest, p) == Coeff(q, p) + CrossCoeff(Row(u, c), fl, p)
  }

  lemma RowInvariant(r: map<VarPair, real>, rest: map<Var, real>, q: map<VarPair, real>,
                     u: Var, c: real, fl: map<Var, real>, w: Var)
    requires w in rest && RowSoFar(r, rest, q, u, c, fl)
    ensures RowSoFar(Accumulate(r, Ordered(VarPair(u, w)), Scaled(c, rest[w])), rest - {w}, q, u, c, fl)
  {
    var r2 := Accumulate(r, Ordered(VarPair(u, w)), Scaled(c, rest[w]));
    forall p
      ensures Coeff(r2, p) + CrossCoeff(Row(u, c), rest - {w}, p) == Coeff(q, p) + CrossCoeff(Row(u, c), fl, p)
    {
      CrossCoeffRowStep(u, c, rest, w, p);
      assert Coeff(r, p) + CrossCoeff(Row(u, c), rest, p) == Coeff(q, p) + CrossCoeff(Row(u, c), fl, p);
    }
  }

  /** Everything the inner cross loop keeps. */
  ghost predicate RowState(r: map<VarPair, real>, rest: map<Var, real>, q: map<VarPair, real>,
                           u: Var, c: real, fl: map<Var, real>, order: seq<Var>, i: nat) {
    Remaining(rest, fl, order, i) && NoZero(r) && RowSoFar(r, rest, q, u, c, fl)
  }

  /** One iteration of the inner cross loop keeps its state. */
  lemma RowKeeps(r: map<VarPair, real>, rest: map<Var, real>, q: map<VarPair, real>,
                 u: Var, c: real, fl: map<Var, real>, order: seq<Var>, i: nat)
    requires NoZero(fl) && c != 0.0 && Enumerates(order, fl.Keys)
    requires RowState(r, rest, q, u, c, fl, order, i) && i < |order|
    ensures order[i] in fl
    ensures RowState(Accumulate(r, Ordered(VarPair(u, order[i])), Scaled(c, fl[order[i]])),
                     rest - {order[i]}, q, u, c, fl, order, i + 1)
  {
    var w := order[i];
    RemainingStep(rest, fl, order, i);
    assert Scaled(c, fl[w]) != 0.0;
    RowInvariant(r, rest, q, u, c, fl, w);
  }

  /** When nothing remains, the row has been added. */
  lemma RowDone(r: map<VarPair, real>, q: map<VarPair, real>, u: Var, c: real, fl: map<Var, real>)
    requires RowSoFar(r, map[], q, u, c, fl)
    ensures forall p :: Coeff(r, p) == Coeff(q, p) + CrossCoeff(Row(u, c), fl, p)
  {
    forall p
      ensures Coeff(r, p) == Coeff(q, p) + CrossCoeff(Row(u, c), fl, p)
    {
      assert Coeff(r, p) + CrossCoeff(Row(u, c), map[], p) == Coeff(q, p) + CrossCoeff(Row(u, c), fl, p);
    }
  }

  /** The inner cross loop: the products of the left term `u` with
      coefficient `c` and every term of `fl`, visited in `order`, each
      accumulated at its canonical key. */
  method AccumulateRow(q: map<VarPair, real>, u: Var, c: real, fl: map<Var, real>, order: seq<Var>)
    returns (r: map<VarPair, real>)
    requires NoZero(q) && NoZero(fl) && c != 0.0 && Enumerates(order, fl.Keys)
    ensures NoZero(r)
    ensures forall p :: Coeff(r, p) == Coeff(q, p) + CrossCoeff(Row(u, c), fl, p)
  {
    RemainingStart(fl, order);
    r := q;
    ghost var rest := fl;
    var i := 0;
    while i < |order|
      invariant RowState(r, rest, q, u, c, fl, order, i)
      decreases |order| - i
    {
      RowKeeps(r, rest, q, u, c, fl, order, i);
      r := Accumulate(r, Ordered(VarPair(u, order[i])), Scaled(c, fl[order[i]]));
      rest := rest - {order[i]};
      i := i + 1;
    }
    RemainingDone(rest, fl, order);
    RowDone(r, q, u, c, fl);
  }

  /** The outer cross loop's invariant. */
  ghost predicate CrossSoFar(r: map<VarPair, real>, rest: map<Var, real>, q: map<VarPair, real>,
                             el: map<Var, real>, fl: map<Var, real>) {
    forall p :: Coeff(r, p) + CrossCoeff(rest, fl, p) == Coeff(q, p) + CrossCoeff(el, fl, p)
  }

  lemma CrossInvariant(r: map<VarPair, real>, r2: map<VarPair, real>, rest: map<Var, real>,
                       q: map<VarPair, real>, el: map<Var, real>, fl: map<Var, real>, u: Var)
    requires u in rest && CrossSoFar(r, rest, q, el, fl)
    requires forall p :: Coeff(r2, p) == Coeff(r, p) + CrossCoeff(Row(u, rest[u]), fl, p)
    ensures CrossSoFar(r2, rest - {u}, q, el, fl)
  {
    forall p
      ensures Coeff(r2, p) + CrossCoeff(rest - {u}, fl, p) == Coeff(q, p) + CrossCoeff(el, fl, p)
    {
      CrossCoeffSplit(rest, fl, u, p);
      assert Coeff(r, p) + CrossCoeff(rest, fl, p) == Coeff(q, p) + CrossCoeff(el, fl, p);
    }
  }

  /** When no left term remains, the loop has added the closed-form product. */
  lemma CrossDone(r: map<VarPair, real>, q: map<VarPair, real>, el: map<Var, real>, fl: map<Var, real>)
    requires NoZero(r) && NoZero(q) && CrossSoFar(r, map[], q, el, fl)
    ensures r == AddTerms(q, Cross(el, fl))
  {
    forall p
      ensures Coeff(r, p) == Coeff(AddTerms(q, Cross(el, fl)), p)
    {
      assert Coeff(r, p) + CrossCoeff(map[], fl, p) == Coeff(q, p) + CrossCoeff(el, fl, p);
    }
    EqualByCoeff(r, AddTerms(q, Cross(el, fl)));
  }

  /** The nested cross loop over the left operand's original linear terms, in
      `eOrder`, and the right operand's, in `fOrder`. */
  method AccumulateCross(q: map<VarPair, real>, el: map<Var, real>, fl: map<Var, real>,
                         eOrder: seq<Var>, fOrder: seq<Var>) returns (r: map<VarPair, real>)
    requires NoZero(q) && NoZero(el) && NoZero(fl)
    requires Enumerates(eOrder, el.Keys) && Enumerates(fOrder, fl.Keys)
    ensures r == AddTerms(q, Cross(el, fl))
  {
    RemainingStart(el, eOrder);
    r := q;
    ghost var rest := el;
    var i := 0;
    while i < |eOrder|
      invariant Remaining(rest, el, eOrder, i)
      invariant NoZero(r)
      invariant CrossSoFar(r, rest, q, el, fl)
    {
      var u := eOrder[i];
      RemainingStep(rest, el, eOrder, i);
      var r2 := AccumulateRow(r, u, el[u], fl, fOrder);
      CrossInvariant(r, r2, rest, q, el, fl, u);
      r := r2;
      rest := rest - {u};
      i := i + 1;
    }
    RemainingDone(rest, el, eOrder);
    CrossDone(r, q, el, fl);
  }

  /** The loops of `ExprImpl::operator*=(ExprImpl)` once the degree checks
      have passed: back up the constant and the linear terms, scale by the
      right constant, distribute the backed-up constant over the right term
      maps, then accumulate the products of the linear terms. `fLinear`,
      `fQuad` and `eLinear` are the iteration orders of the right operand's
      maps and of the backed-up linear map. */
  method MultiplyTerms(e: Expr, f: Expr, fLinear: seq<Var>, fQuad: seq<VarPair>, eLinear: seq<Var>)
    returns (r: Expr)
    requires Valid(e) && Valid(f)
    requires Enumerates(fLinear, f.linear.Keys) && Enumerates(fQuad, f.quad.Keys)
    requires Enumerates(eLinear, e.linear.Keys)
    ensures r == MulTerms(e, f)
  {
    var constant, linear := e.constant, e.linear;
    var scaledLinear, scaledQuad := ScaleOrClear(e.linear, f.constant), ScaleOrClear(e.quad, f.constant);
    var lin := Distribute(scaledLinear, f.linear, fLinear, constant);
    var quad := Distribute(scaledQuad, f.quad, fQuad, constant);
    quad := AccumulateCross(quad, linear, f.linear, eLinear, fLinear);
    r := Expr(e.constant * f.constant, lin, quad);
  }

  /** `ExprImpl::operator*=(ExprImpl)`: the quartic check, the cubic check,
      then the loops. */
  method Multiply(e: Expr, f: Expr, fLinear: seq<Var>, fQuad: seq<VarPair>, eLinear: seq<Var>)
    returns (r: Result<Expr, Error>)
    requires Valid(e) && Valid(f)
    requires Enumerates(fLinear, f.linear.Keys) && Enumerates(fQuad, f.quad.Keys)
    requires Enumerates(eLinear, e.linear.Keys)
    ensures r == Mul(e, f)
  {
    if |e.quad| != 0 && |f.quad| != 0 {
      return Err(QuarticExpression);
    }
    if (|e.quad| != 0 && |f.linear| != 0) || (|e.linear| != 0 && |f.quad| != 0) {
      return Err(CubicExpression);
    }
    var p := MultiplyTerms(e, f, fLinear, fQuad, eLinear);
    r := Ok(p);
  }

  // ---------------------------------------------------------------------------
  // An operand sharing the target's implementation

  /** A nonzero coefficient `x` grown by `c·x` stays nonzero unless `c` is -1. */
  lemma GrowthNonzero(x: real, c: real)
    requires x != 0.0 && c != -1.0
    ensures x + c * x != 0.0
  {
    assert x + c * x == x * (1.0 + c);
  }

  /** The state of the loop over the operand's linear terms when the operand
      is the target: the keys are unchanged, the visited ones have grown by
      `cst` times themselves, and the others are untouched. */
  ghost predicate SharedSoFar(r: map<Var, real>, m: map<Var, real>, order: seq<Var>, i: nat, cst: real) {
    && i <= |order|
    && r.Keys == m.Keys && NoZero(r)
    && (forall j | 0 <= j < |order| :: order[j] in m)
    && (forall j | 0 <= j < i :: r[order[j]] == m[order[j]] + cst * m[order[j]])
    && (forall j | i <= j < |order| :: r[order[j]] == m[order[j]])
  }

  /** One visit reads the target's current coefficient of its own key, which
      is still the original one. */
  lemma SharedKeeps(r: map<Var, real>, m: map<Var, real>, order: seq<Var>, i: nat, cst: real)
    requires NoZero(m) && Enumerates(order, m.Keys) && cst != -1.0
    requires SharedSoFar(r, m, order, i, cst) && i < |order|
    ensures order[i] in r
    ensures SharedSoFar(DistributeStep(r, order[i], r[order[i]], cst), m, order, i + 1, cst)
  {
    var v := order[i];
    assert r[v] == m[v];
    GrowthNonzero(m[v], cst);
    var r2 := DistributeStep(r, v, r[v], cst);
    assert r2 == r[v := m[v] + cst * m[v]];
    forall j | 0 <= j < |order| && j != i
      ensures r2[order[j]] == r[order[j]]
    {
      assert order[j] != v;
    }
  }

  /** At the end every key has grown: the closed form. */
  lemma SharedDone(r: map<Var, real>, m: map<Var, real>, order: seq<Var>, cst: real)
    requires NoZero(m) && Enumerates(order, m.Keys)
    requires SharedSoFar(r, m, order, |order|, cst)
    ensures r == AddScaledTerms(m, m, cst)
  {
    var a := AddScaledTerms(m, m, cst);
    forall k
      ensures Coeff(r, k) == Coeff(a, k)
    {
      assert Coeff(a, k) == Coeff(m, k) + cst * Coeff(m, k);
      if k in m {
        var j :| 0 <= j < |order| && order[j] == k;
        assert r[k] == m[k] + cst * m[k];
      } else {
        assert k !in r;
      }
    }
    EqualByCoeff(r, a);
  }

  /** The loop over the operand's linear terms when the operand is the target:
      each visit reads the coefficient the target holds at that moment, which
      is the key's own, not yet visited, so it becomes `c + cst·c`. With
      `cst = -1` the loop would erase the entry it stands on, which the
      source's range-for does not allow; that case is excluded. */
  method DistributeShared(m: map<Var, real>, order: seq<Var>, cst: real) returns (r: map<Var, real>)
    requires NoZero(m) && Enumerates(order, m.Keys) && cst != -1.0
    ensures r.Keys == m.Keys
    ensures r == AddScaledTerms(m, m, cst)
  {
    r := m;
    var i := 0;
    while i < |order|
      invariant SharedSoFar(r, m, order, i, cst)
      decreases |order| - i
    {
      SharedKeeps(r, m, order, i, cst);
      r := DistributeStep(r, order[i], r[order[i]], cst);
      i := i + 1;
    }
    SharedDone(r, m, order, cst);
  }

  /** `x *= x` in closed form, as the loops run it on a shared
      implementation. The quartic check fails for a quadratic `x`, and the
      cubic check can then never fire. Scaling the target by the operand's
      constant `k` scales the operand too. The distribution loop therefore
      turns each scaled coefficient `c` into `c + k·c`, and the cross loop
      multiplies the backed-up linear terms by those. The constant -1 is
      excluded, as in `DistributeShared`. */
  function SharedProductAsWritten(e: Expr): Result<Expr, Error>
    requires e.constant != -1.0
  {
    if |e.quad| != 0 then Err(QuarticExpression)
    else
      var s := Scale(e, e.constant);
      var lin := AddScaledTerms(s.linear, s.linear, e.constant);
      Ok(Expr(s.constant, lin, AddTerms(s.quad, Cross(e.linear, lin))))
  }

  /** `ExprImpl::operator*=(ExprImpl)` with the target as its own operand.
      `order` is the iteration order of the target's linear map. The scaling
      keeps that map's entries in place, and a zero factor empties it. */
  method MultiplyShared(e: Expr, order: seq<Var>) returns (r: Result<Expr, Error>)
    requires Valid(e) && Enumerates(order, e.linear.Keys) && e.constant != -1.0
    ensures r == SharedProductAsWritten(e)
  {
    // The quartic check sees the same quadratic map on both sides.
    if |e.quad| != 0 {
      return Err(QuarticExpression);
    }
    var constant, linear := e.constant, e.linear;
    var s := Scale(e, e.constant);
    var sOrder := if constant == 0.0 then [] else order;
    var lin := DistributeShared(s.linear, sOrder, constant);
    var quad := AccumulateCross(s.quad, linear, lin, order, sOrder);
    r := Ok(Expr(s.constant, lin, quad));
  }

  /** As written, `x *= x` for `x = v` gives 0: the scaling by the constant 0
      clears the operand too. The intended result is `v·v`. */
  lemma SharedSquareVanishes(v: Var)
    ensures SharedProductAsWritten(FromVar(v)) == Ok(Const(0.0))
    ensures Mul(FromVar(v), FromVar(v)) == Ok(VarTimesVar(v, v))
  {
    var lin := AddScaledTerms<Var>(map[], map[], 0.0);
    EqualByCoeff(lin, map[]);
    var cross := Cross(FromVar(v).linear, map[]);
    EqualByCoeff(cross, map[]);
    AddTermsEmpty<VarPair>(map[], map[]);
    VarTimesVarIsMul(v, v);
  }

  /** The distributed linear map of `(v + 2) *= (v + 2)`, on a shared
      implementation and on a separate copy. */
  lemma ShiftedLinearTerms(v: Var)
    ensures AddScaledTerms(map[v := 2.0], map[v := 2.0], 2.0) == map[v := 6.0]
    ensures AddScaledTerms(map[v := 2.0], map[v := 1.0], 2.0) == map[v := 4.0]
  {
    EqualByCoeff(AddScaledTerms(map[v := 2.0], map[v := 2.0], 2.0), map[v := 6.0]);
    EqualByCoeff(AddScaledTerms(map[v := 2.0], map[v := 1.0], 2.0), map[v := 4.0]);
  }

  /** A single square term added to no quadratic terms. */
  lemma SquareTerm(v: Var, c: real)
    requires c != 0.0
    ensures AddTerms(map[], Cross(map[v := 1.0], map[v := c])) == map[VarPair(v, v) := c]
  {
    assert Ordered(VarPair(v, v)) == VarPair(v, v);
    CrossSingle(v, 1.0, v, c);
    AddTermsEmpty(map[VarPair(v, v) := c], map[]);
    AddTermsCommutative<VarPair>(map[], map[VarPair(v, v) := c]);
  }

  /** Scaling `v + 2` by its own constant, map by map. */
  lemma ShiftedScaled(v: Var)
    ensures ScaleOrClear(map[v := 1.0], 2.0) == map[v := 2.0]
    ensures ScaleOrClear<VarPair>(map[], 2.0) == map[]
    ensures AddScaledTerms<VarPair>(map[], map[], 2.0) == map[]
  {
    EqualByCoeff(ScaleOrClear(map[v := 1.0], 2.0), map[v := 2.0]);
    EqualByCoeff(ScaleOrClear<VarPair>(map[], 2.0), map[]);
    EqualByCoeff(AddScaledTerms<VarPair>(map[], map[], 2.0), map[]);
  }

  /** The square of `v + 2`, as `Products.Mul` computes it: `v·v + 4 v + 4`. */
  lemma ShiftedSquare(v: Var)
    ensures Mul(VarPlusConst(v, 2.0), VarPlusConst(v, 2.0)) == Ok(Expr(4.0, map[v := 4.0], map[VarPair(v, v) := 1.0]))
  {
    var e := VarPlusConst(v, 2.0);
    assert e == Expr(2.0, map[v := 1.0], map[]);
    ShiftedScaled(v);
    ShiftedLinearTerms(v);
    SquareTerm(v, 1.0);
  }

  /** As written, `x *= x` for `x = v + 2` gives `6 v·v + 6 v + 4`, which is
      not the square `v·v + 4 v + 4`. */
  lemma SharedShiftedSquare(v: Var)
    ensures SharedProductAsWritten(VarPlusConst(v, 2.0)) == Ok(Expr(4.0, map[v := 6.0], map[VarPair(v, v) := 6.0]))
    ensures SharedProductAsWritten(VarPlusConst(v, 2.0)) != Mul(VarPlusConst(v, 2.0), VarPlusConst(v, 2.0))
  {
    var e := VarPlusConst(v, 2.0);
    assert e == Expr(2.0, map[v := 1.0], map[]);
    ScaleParts(e, 2.0);
    ShiftedScaled(v);
    var s := Scale(e, 2.0);
    assert s == Expr(4.0, map[v := 2.0], map[]);
    ShiftedLinearTerms(v);
    var lin := AddScaledTerms(s.linear, s.linear, 2.0);
    assert lin == map[v := 6.0];
    SquareTerm(v, 6.0);
    assert SharedProductAsWritten(e) == Ok(Expr(4.0, lin, AddTerms(s.quad, Cross(e.linear, lin))));
    ShiftedSquare(v);
  }
}
