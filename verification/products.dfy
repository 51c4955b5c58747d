/** Multiplication of two expressions, `ExprImpl::operator*=(ExprImpl)` of
    miplib/expr.cpp, and the operators built on it.

    The source multiplies in place: it scales the left operand by the right
    constant, distributes the left operand's original constant over the right
    term maps, and accumulates every product of a left and a right linear term
    into the quadratic map under the canonical key `ordered({v1, v2})`. Here the
    result is given in closed form (`Cross`, `MulTerms`), `Multiply` performs
    the source's loops, and the two are proved to agree. */
module Products {
  import opened Wrappers
  import opened Errors
  import opened Variables
  import opened TermMaps
  import opened Expressions

  // ---------------------------------------------------------------------------
  // Linear times linear

  /** The coefficient of the key `p` in the product of the linear maps `el` and
      `fl`: the sum of `el[u] * fl[w]` over the pairs `(u, w)` that `Ordered`
      sends to `p`. A pair with a smaller first index keeps its order; a pair
      without swaps, so the key `(x, y)` collects `(x, y)` when the index of `x`
      is below that of `y`, and `(y, x)` when it is not above. */
  function CrossCoeff(el: map<Var, real>, fl: map<Var, real>, p: VarPair): real {
    (if p.first.index < p.second.index then Scaled(Coeff(el, p.first), Coeff(fl, p.second)) else 0.0)
    + (if p.first.index <= p.second.index then Scaled(Coeff(el, p.second), Coeff(fl, p.first)) else 0.0)
  }

  /** The keys the source's nested loop visits. */
  function CrossKeys(el: map<Var, real>, fl: map<Var, real>): set<VarPair> {
    set u, w | u in el && w in fl :: Ordered(VarPair(u, w))
  }

  /** Only visited keys can receive a nonzero coefficient. */
  lemma CrossKeysCover(el: map<Var, real>, fl: map<Var, real>)
    ensures forall p | CrossCoeff(el, fl, p) != 0.0 :: p in CrossKeys(el, fl)
  {
    forall p | CrossCoeff(el, fl, p) != 0.0
      ensures p in CrossKeys(el, fl)
    {
      if p.first.index < p.second.index && Scaled(Coeff(el, p.first), Coeff(fl, p.second)) != 0.0 {
        assert Ordered(VarPair(p.first, p.second)) == p;
      } else {
        assert p.first in fl && p.second in el;
        assert Ordered(VarPair(p.second, p.first)) == p;
      }
    }
  }

  /** The quadratic terms produced from two linear maps, with the terms whose
      contributions cancel erased. */
  function Cross(el: map<Var, real>, fl: map<Var, real>): (r: map<VarPair, real>)
    ensures forall p :: Coeff(r, p) == CrossCoeff(el, fl, p)
    ensures NoZero(r)
  {
    CrossKeysCover(el, fl);
    map p | p in CrossKeys(el, fl) && CrossCoeff(el, fl, p) != 0.0 :: CrossCoeff(el, fl, p)
  }

  /** One left term times the right map. */
  function Row(u: Var, c: real): map<Var, real> {
    map[u := c]
  }

  /** Coefficient by coefficient, the product splits into the row of one left
      term and the product of the others. */
  lemma CrossCoeffSplit(el: map<Var, real>, fl: map<Var, real>, u: Var, p: VarPair)
    requires u in el
    ensures CrossCoeff(el, fl, p) == CrossCoeff(el - {u}, fl, p) + CrossCoeff(Row(u, el[u]), fl, p)
  {
    assert Coeff(el, p.first) == Coeff(el - {u}, p.first) + Coeff(Row(u, el[u]), p.first);
    assert Coeff(el, p.second) == Coeff(el - {u}, p.second) + Coeff(Row(u, el[u]), p.second);
  }

  /** Splitting off one left term splits the product into its row and the rest. */
  lemma CrossSplit(el: map<Var, real>, fl: map<Var, real>, u: Var)
    requires u in el
    ensures Cross(el, fl) == AddTerms(Cross(el - {u}, fl), Cross(Row(u, el[u]), fl))
  {
    var l, r := Cross(el, fl), AddTerms(Cross(el - {u}, fl), Cross(Row(u, el[u]), fl));
    forall p
      ensures Coeff(l, p) == Coeff(r, p)
    {
      CrossCoeffSplit(el, fl, u, p);
    }
    EqualByCoeff(l, r);
  }

  /** Coefficient by coefficient, one more right term adds its product with
      the row at the canonical key and nowhere else. */
  lemma CrossCoeffRowStep(u: Var, c: real, fl: map<Var, real>, w: Var, p: VarPair)
    requires w in fl
    ensures CrossCoeff(Row(u, c), fl, p)
         == CrossCoeff(Row(u, c), fl - {w}, p) + (if p == Ordered(VarPair(u, w)) then Scaled(c, fl[w]) else 0.0)
  {
  }

  /** One step of the inner loop: the row's product with one more right term
      is the product without it, accumulated at the canonical key. */
  lemma CrossRowStep(u: Var, c: real, fl: map<Var, real>, w: Var)
    requires w in fl && c != 0.0 && fl[w] != 0.0
    ensures Cross(Row(u, c), fl)
         == Accumulate(Cross(Row(u, c), fl - {w}), Ordered(VarPair(u, w)), Scaled(c, fl[w]))
  {
    var k := Ordered(VarPair(u, w));
    var l, r := Cross(Row(u, c), fl), Accumulate(Cross(Row(u, c), fl - {w}), k, Scaled(c, fl[w]));
    assert Scaled(c, fl[w]) != 0.0;
    forall p
      ensures Coeff(l, p) == Coeff(r, p)
    {
      CrossCoeffRowStep(u, c, fl, w, p);
    }
    EqualByCoeff(l, r);
  }

  lemma CrossEmpty(el: map<Var, real>, fl: map<Var, real>)
    requires el == map[] || fl == map[]
    ensures Cross(el, fl) == map[]
  {
    var r := Cross(el, fl);
    forall p | p in r
      ensures false
    {
    }
  }

  /** A row of zero contributes nothing. */
  lemma CrossZeroRow(u: Var, fl: map<Var, real>)
    ensures Cross(Row(u, 0.0), fl) == map[]
  {
    var r := Cross(Row(u, 0.0), fl);
    forall p | p in r
      ensures false
    {
    }
  }

  /** The weight, in the row of `u` with coefficient `c`, of the right term
      `w` with coefficient `d`: the weight of the quadratic term it produces. */
  ghost function RowWeight(a: Var -> real, u: Var, c: real): (Var, real) -> real {
    (w: Var, d: real) => Weight(PairValue(a))(Ordered(VarPair(u, w)), Scaled(c, d))
  }

  /** The value of one row, term by term. */
  lemma {:induction false} SumRow(u: Var, c: real, fl: map<Var, real>, a: Var -> real)
    requires c != 0.0 && NoZero(fl)
    ensures SumMap(Cross(Row(u, c), fl), Weight(PairValue(a))) == SumMap(fl, RowWeight(a, u, c))
    decreases fl.Keys
  {
    if fl.Keys == {} {
      assert fl == map[];
      CrossEmpty(Row(u, c), fl);
      SumMapEmpty(Weight(PairValue(a)));
      SumMapEmpty(RowWeight(a, u, c));
    } else {
      var w :| w in fl.Keys;
      CrossRowStep(u, c, fl, w);
      WeightsLinear(a);
      SumMapAccumulate(Cross(Row(u, c), fl - {w}), Ordered(VarPair(u, w)), Scaled(c, fl[w]), Weight(PairValue(a)));
      SumRow(u, c, fl - {w}, a);
      SumMapRemove(fl, RowWeight(a, u, c), w);
    }
  }

  /** Each row weight is the left term's value times the right term's. */
  lemma RowWeightTimes(a: Var -> real, u: Var, c: real)
    ensures Times(RowWeight(a, u, c), Weight(a), c * a(u))
  {
    var k := c * a(u);
    forall w: Var, d: real
      ensures TimesAt(RowWeight(a, u, c), Weight(a), k, w, d)
    {
      RowWeightAt(a, u, c, w, d);
    }
  }

  lemma RowWeightAt(a: Var -> real, u: Var, c: real, w: Var, d: real)
    ensures TimesAt(RowWeight(a, u, c), Weight(a), c * a(u), w, d)
  {
    var p := Ordered(VarPair(u, w));
    assert RowWeight(a, u, c)(w, d) == Weight(PairValue(a))(p, Scaled(c, d));
    assert Weight(PairValue(a))(p, Scaled(c, d)) == Scaled(c, d) * PairValue(a)(p);
    PairValueOrdered(a, VarPair(u, w));
    RowWeightArith(a(u), a(w), c, d, PairValue(a)(p), RowWeight(a, u, c)(w, d));
  }

  lemma RowWeightArith(x: real, y: real, c: real, d: real, xy: real, r: real)
    requires xy == x * y && r == Scaled(c, d) * xy
    ensures r == c * x * (d * y)
  {
  }

  /** Summed over the right map, the row weights give the left term's value
      times the right sum. */
  lemma SumRowWeight(u: Var, c: real, fl: map<Var, real>, a: Var -> real)
    ensures SumMap(fl, RowWeight(a, u, c)) == c * a(u) * SumMap(fl, Weight(a))
  {
    RowWeightTimes(a, u, c);
    SumMapTimes(fl, RowWeight(a, u, c), Weight(a), c * a(u));
  }

  /** The value of one row: the left term's value times the right sum. */
  lemma EvalRow(u: Var, c: real, fl: map<Var, real>, a: Var -> real)
    requires NoZero(fl)
    ensures SumMap(Cross(Row(u, c), fl), Weight(PairValue(a))) == c * a(u) * SumMap(fl, Weight(a))
  {
    if c == 0.0 {
      CrossZeroRow(u, fl);
      SumMapEmpty(Weight(PairValue(a)));
      ZeroTimes(c, a(u), SumMap(fl, Weight(a)));
    } else {
      SumRow(u, c, fl, a);
      SumRowWeight(u, c, fl, a);
    }
  }

  lemma ZeroTimes(c: real, x: real, y: real)
    requires c == 0.0
    ensures c * x * y == 0.0
  {
  }

  /** The weight of a left term: the value of its row. */
  ghost function CrossWeight(a: Var -> real, fl: map<Var, real>): (Var, real) -> real {
    (u: Var, c: real) => SumMap(Cross(Row(u, c), fl), Weight(PairValue(a)))
  }

  /** The value of the product, row by row. */
  lemma {:induction false} SumCross(el: map<Var, real>, fl: map<Var, real>, a: Var -> real)
    requires NoZero(el) && NoZero(fl)
    ensures SumMap(Cross(el, fl), Weight(PairValue(a))) == SumMap(el, CrossWeight(a, fl))
    decreases el.Keys
  {
    if el.Keys == {} {
      assert el == map[];
      CrossEmpty(el, fl);
      SumMapEmpty(Weight(PairValue(a)));
      SumMapEmpty(CrossWeight(a, fl));
    } else {
      var u :| u in el.Keys;
      CrossSplit(el, fl, u);
      WeightsLinear(a);
      SumMapAddTerms(Cross(el - {u}, fl), Cross(Row(u, el[u]), fl), Weight(PairValue(a)));
      SumCross(el - {u}, fl, a);
      SumMapRemove(el, CrossWeight(a, fl), u);
    }
  }

  /** Each row's value is the left term's value times the right sum. */
  lemma CrossWeightTimes(a: Var -> real, fl: map<Var, real>)
    requires NoZero(fl)
    ensures Times(CrossWeight(a, fl), Weight(a), SumMap(fl, Weight(a)))
  {
    var s := SumMap(fl, Weight(a));
    forall u, c
      ensures TimesAt(CrossWeight(a, fl), Weight(a), s, u, c)
    {
      CrossWeightAt(a, fl, u, c);
    }
  }

  lemma CrossWeightAt(a: Var -> real, fl: map<Var, real>, u: Var, c: real)
    requires NoZero(fl)
    ensures TimesAt(CrossWeight(a, fl), Weight(a), SumMap(fl, Weight(a)), u, c)
  {
    CrossWeightValue(a, fl, u, c);
    CrossWeightFactor(a, fl, u, c);
  }

  lemma CrossWeightValue(a: Var -> real, fl: map<Var, real>, u: Var, c: real)
    requires NoZero(fl)
    ensures CrossWeight(a, fl)(u, c) == c * a(u) * SumMap(fl, Weight(a))
  {
    EvalRow(u, c, fl, a);
  }

  lemma CrossWeightFactor(a: Var -> real, fl: map<Var, real>, u: Var, c: real)
    requires CrossWeight(a, fl)(u, c) == c * a(u) * SumMap(fl, Weight(a))
    ensures CrossWeight(a, fl)(u, c) == SumMap(fl, Weight(a)) * Weight(a)(u, c)
  {
    WeightAt(a, u, c);
    CrossWeightArith(c, a(u), SumMap(fl, Weight(a)), Weight(a)(u, c), CrossWeight(a, fl)(u, c));
  }

  lemma WeightAt(a: Var -> real, u: Var, c: real)
    ensures Weight(a)(u, c) == c * a(u)
  {
  }

  lemma CrossWeightArith(c: real, x: real, s: real, cx: real, r: real)
    requires r == c * x * s && cx == c * x
    ensures r == s * cx
  {
  }

  /** The product of two linear maps has the product of their values. */
  lemma EvalCross(el: map<Var, real>, fl: map<Var, real>, a: Var -> real)
    requires NoZero(el) && NoZero(fl)
    ensures SumMap(Cross(el, fl), Weight(PairValue(a))) == SumMap(el, Weight(a)) * SumMap(fl, Weight(a))
  {
    SumCross(el, fl, a);
    SumCrossWeight(el, fl, a);
  }

  /** Summed over the left map, the row values give the product of the sums. */
  lemma SumCrossWeight(el: map<Var, real>, fl: map<Var, real>, a: Var -> real)
    requires NoZero(fl)
    ensures SumMap(el, CrossWeight(a, fl)) == SumMap(el, Weight(a)) * SumMap(fl, Weight(a))
  {
    CrossWeightTimes(a, fl);
    SumMapTimes(el, CrossWeight(a, fl), Weight(a), SumMap(fl, Weight(a)));
    Commute(SumMap(el, CrossWeight(a, fl)), SumMap(fl, Weight(a)), SumMap(el, Weight(a)));
  }

  lemma Commute(r: real, x: real, y: real)
    requires r == x * y
    ensures r == y * x
  {
  }

  // ---------------------------------------------------------------------------
  // Expression times expression

  /** Both operands have quadratic terms. */
  predicate Quartic(e: Expr, f: Expr) {
    |e.quad| != 0 && |f.quad| != 0
  }

  /** One operand has quadratic terms and the other linear terms. */
  predicate Cubic(e: Expr, f: Expr) {
    (|e.quad| != 0 && |f.linear| != 0) || (|e.linear| != 0 && |f.quad| != 0)
  }

  /** A term map under `ExprImpl::operator*=(double)`: cleared by a zero
      factor, each coefficient scaled otherwise. */
  function ScaleOrClear<K(!new)>(m: map<K, real>, c: real): (r: map<K, real>)
    ensures forall k :: Coeff(r, k) == c * Coeff(m, k)
    ensures NoZero(m) ==> NoZero(r)
  {
    if c == 0.0 then map[] else ScaleTerms(m, c)
  }

  /** `ScaleOrClear` is what `Scale` does to each term map. */
  lemma ScaleParts(e: Expr, c: real)
    ensures Scale(e, c).linear == ScaleOrClear(e.linear, c)
    ensures Scale(e, c).quad == ScaleOrClear(e.quad, c)
  {
  }

  /** The product once both degree checks have passed, with the products of
      the linear terms given as `cross`: `e` scaled by the right constant,
      plus the left constant times the right term maps (a key absent on the
      left is inserted only for a nonzero left constant), plus `cross`. */
  function MulWith(e: Expr, f: Expr, cross: map<VarPair, real>): Expr {
    Expr(e.constant * f.constant,
         AddScaledTerms(ScaleOrClear(e.linear, f.constant), f.linear, e.constant),
         AddTerms(AddScaledTerms(ScaleOrClear(e.quad, f.constant), f.quad, e.constant), cross))
  }

  /** The product once both degree checks have passed. */
  function MulTerms(e: Expr, f: Expr): Expr {
    MulWith(e, f, Cross(e.linear, f.linear))
  }

  /** `ExprImpl::operator*=(ExprImpl)` and `Expr::operator*(Expr)`: the
      quartic check comes first, then the cubic check. */
  function Mul(e: Expr, f: Expr): (r: Result<Expr, Error>)
    ensures r.Err? <==> Quartic(e, f) || Cubic(e, f)
    ensures Quartic(e, f) ==> r == Err(QuarticExpression)
    ensures !Quartic(e, f) && Cubic(e, f) ==> r == Err(CubicExpression)
    ensures r.Ok? && Valid(e) && Valid(f) ==> Valid(r.value)
  {
    if Quartic(e, f) then Err(QuarticExpression)
    else if Cubic(e, f) then Err(CubicExpression)
    else Ok(MulTerms(e, f))
  }

  /** Scaling or clearing scales the value of a term map; `vm` names the
      value of `m`. */
  lemma SumScaleOrClear<K(!new)>(m: map<K, real>, c: real, g: K -> real, vm: real)
    requires vm == SumMap(m, Weight(g))
    ensures SumMap(ScaleOrClear(m, c), Weight(g)) == c * vm
  {
    if c == 0.0 {
      SumMapEmpty(Weight(g));
      ZeroProduct(c, vm);
    } else {
      SumMapScaleWeight(m, c, g);
    }
  }

  /** `SumMapAddScaled` for named values `vm` and `vn` of `m` and `n`. */
  lemma SumAddScaled<K(!new)>(m: map<K, real>, n: map<K, real>, d: real, g: K -> real, vm: real, vn: real)
    requires d != 0.0 || NoZero(m)
    requires vm == SumMap(m, Weight(g)) && vn == SumMap(n, Weight(g))
    ensures SumMap(AddScaledTerms(m, n, d), Weight(g)) == vm + d * vn
  {
    SumMapAddScaled(m, n, d, g);
  }

  /** The value of `m` scaled by `c` with `d` times `n` distributed into it;
      `vm` and `vn` name the values of `m` and `n`. */
  lemma SumDistribute<K(!new)>(m: map<K, real>, n: map<K, real>, c: real, d: real, g: K -> real, vm: real, vn: real)
    requires NoZero(m)
    requires vm == SumMap(m, Weight(g)) && vn == SumMap(n, Weight(g))
    ensures SumMap(AddScaledTerms(ScaleOrClear(m, c), n, d), Weight(g)) == c * vm + d * vn
  {
    SumScaleOrClear(m, c, g, vm);
    SumAddScaled(ScaleOrClear(m, c), n, d, g, c * vm, vn);
  }

  /** The same with a third map, of value `x`, added at the end. */
  lemma SumDistributePlus<K(!new)>(m: map<K, real>, n: map<K, real>, o: map<K, real>, c: real, d: real, g: K -> real,
                                   vm: real, vn: real, x: real)
    requires NoZero(m)
    requires vm == SumMap(m, Weight(g)) && vn == SumMap(n, Weight(g)) && x == SumMap(o, Weight(g))
    ensures SumMap(AddTerms(AddScaledTerms(ScaleOrClear(m, c), n, d), o), Weight(g)) == c * vm + d * vn + x
  {
    WeightLinear(g, c);
    SumMapAddTerms(AddScaledTerms(ScaleOrClear(m, c), n, d), o, Weight(g));
    SumDistribute(m, n, c, d, g, vm, vn);
  }

  lemma ZeroProduct(c: real, x: real)
    requires c == 0.0
    ensures c * x == 0.0
  {
  }

  /** The expansion of `(k + l + q) * (k2 + l2 + q2)` when the terms of degree
      above 2 vanish. */
  lemma Expand(k: real, l: real, q: real, k2: real, l2: real, q2: real, lin: real, quad: real)
    requires q == 0.0 || (l2 == 0.0 && q2 == 0.0)
    requires l == 0.0 || q2 == 0.0
    requires lin == k2 * l + k * l2
    requires quad == k2 * q + k * q2 + l * l2
    ensures k * k2 + lin + quad == (k + l + q) * (k2 + l2 + q2)
  {
  }

  /** The value of a map without keys is 0. */
  lemma SumEmpty<K(!new)>(m: map<K, real>, g: K -> real)
    requires |m| == 0
    ensures SumMap(m, Weight(g)) == 0.0
  {
    assert m == map[];
    SumMapEmpty(Weight(g));
  }

  /** The value of an expression when the variables have the values `g` and
      the pairs the values `h`; `Eval` is the case `h == PairValue(g)`. The
      expansion of a product is proved for any `h`. */
  ghost function EvalWith(e: Expr, g: Var -> real, h: VarPair -> real): real {
    e.constant + SumMap(e.linear, Weight(g)) + SumMap(e.quad, Weight(h))
  }

  /** The degree checks make the value of every product of degree above 2
      vanish; `el`, `eq`, `fl` and `fq` name the values of the term maps. */
  lemma DegreeFacts(e: Expr, f: Expr, g: Var -> real, h: VarPair -> real, el: real, eq: real, fl: real, fq: real)
    requires !Quartic(e, f) && !Cubic(e, f)
    requires el == SumMap(e.linear, Weight(g)) && eq == SumMap(e.quad, Weight(h))
    requires fl == SumMap(f.linear, Weight(g)) && fq == SumMap(f.quad, Weight(h))
    ensures eq == 0.0 || (fl == 0.0 && fq == 0.0)
    ensures el == 0.0 || fq == 0.0
  {
    if |e.quad| != 0 {
      SumEmpty(f.linear, g);
      SumEmpty(f.quad, h);
    } else {
      SumEmpty(e.quad, h);
    }
    if |e.linear| != 0 {
      SumEmpty(f.quad, h);
    } else {
      SumEmpty(e.linear, g);
    }
  }

  /** An expression whose parts have the values of the expanded product of
      `e` and `f` has the product of their values, when the terms of degree
      above 2 vanish. The values of the term maps are passed by name; `x` is
      the value of the products of the linear terms. */
  lemma EvalFromParts(e: Expr, f: Expr, r: Expr, g: Var -> real, h: VarPair -> real,
                      el: real, eq: real, fl: real, fq: real, rl: real, rq: real, x: real)
    requires el == SumMap(e.linear, Weight(g)) && eq == SumMap(e.quad, Weight(h))
    requires fl == SumMap(f.linear, Weight(g)) && fq == SumMap(f.quad, Weight(h))
    requires rl == SumMap(r.linear, Weight(g)) && rq == SumMap(r.quad, Weight(h))
    requires eq == 0.0 || (fl == 0.0 && fq == 0.0)
    requires el == 0.0 || fq == 0.0
    requires x == el * fl
    requires r.constant == e.constant * f.constant
    requires rl == f.constant * el + e.constant * fl
    requires rq == f.constant * eq + e.constant * fq + x
    ensures EvalWith(r, g, h) == EvalWith(e, g, h) * EvalWith(f, g, h)
  {
    Expand(e.constant, el, eq, f.constant, fl, fq, rl, rq);
  }

  /** The value of the linear map of the product built from a map `cross`;
      the values of the operands' linear maps are passed by name. */
  lemma SumMulWithLinear(e: Expr, f: Expr, cross: map<VarPair, real>, g: Var -> real, el: real, fl: real)
    requires Valid(e)
    requires el == SumMap(e.linear, Weight(g)) && fl == SumMap(f.linear, Weight(g))
    ensures SumMap(MulWith(e, f, cross).linear, Weight(g)) == f.constant * el + e.constant * fl
  {
    SumDistribute(e.linear, f.linear, f.constant, e.constant, g, el, fl);
  }

  /** The value of the quadratic map of the product built from a map `cross`
      of value `x`; the values of the operands' quadratic maps are passed by
      name. */
  lemma SumMulWithQuad(e: Expr, f: Expr, cross: map<VarPair, real>, h: VarPair -> real, eq: real, fq: real, x: real)
    requires Valid(e)
    requires eq == SumMap(e.quad, Weight(h)) && fq == SumMap(f.quad, Weight(h))
    requires x == SumMap(cross, Weight(h))
    ensures SumMap(MulWith(e, f, cross).quad, Weight(h)) == f.constant * eq + e.constant * fq + x
  {
    SumDistributePlus(e.quad, f.quad, cross, f.constant, e.constant, h, eq, fq, x);
  }

  /** Built from a map `cross` whose value `x` is the product of the values of
      the linear maps, the product has the product of the values, when the
      degree checks pass. The values of the term maps are passed by name. */
  lemma EvalMulWith(e: Expr, f: Expr, cross: map<VarPair, real>, g: Var -> real, h: VarPair -> real,
                    el: real, eq: real, fl: real, fq: real, x: real)
    requires Valid(e) && !Quartic(e, f) && !Cubic(e, f)
    requires el == SumMap(e.linear, Weight(g)) && eq == SumMap(e.quad, Weight(h))
    requires fl == SumMap(f.linear, Weight(g)) && fq == SumMap(f.quad, Weight(h))
    requires x == SumMap(cross, Weight(h)) && x == el * fl
    ensures EvalWith(MulWith(e, f, cross), g, h) == EvalWith(e, g, h) * EvalWith(f, g, h)
  {
    var r := MulWith(e, f, cross);
    SumMulWithLinear(e, f, cross, g, el, fl);
    SumMulWithQuad(e, f, cross, h, eq, fq, x);
    DegreeFacts(e, f, g, h, el, eq, fl, fq);
    EvalFromParts(e, f, r, g, h, el, eq, fl, fq,
                  SumMap(r.linear, Weight(g)), SumMap(r.quad, Weight(h)), x);
  }

  /** `EvalMulWith` at the pair values of the assignment, for any map `cross`
      whose value is the product of the values of the linear maps. */
  lemma EvalMulWithPairs(e: Expr, f: Expr, cross: map<VarPair, real>, a: Var -> real)
    requires Valid(e) && Valid(f) && !Quartic(e, f) && !Cubic(e, f)
    requires SumMap(cross, Weight(PairValue(a))) == SumMap(e.linear, Weight(a)) * SumMap(f.linear, Weight(a))
    ensures EvalWith(MulWith(e, f, cross), a, PairValue(a))
         == EvalWith(e, a, PairValue(a)) * EvalWith(f, a, PairValue(a))
  {
    EvalMulWith(e, f, cross, a, PairValue(a),
                SumMap(e.linear, Weight(a)), SumMap(e.quad, Weight(PairValue(a))),
                SumMap(f.linear, Weight(a)), SumMap(f.quad, Weight(PairValue(a))),
                SumMap(cross, Weight(PairValue(a))));
  }

  /** The product built from the closed-form cross terms has the product of
      the values, for `h` the pair values of `g`. */
  lemma EvalMulCross(e: Expr, f: Expr, a: Var -> real)
    requires Valid(e) && Valid(f) && !Quartic(e, f) && !Cubic(e, f)
    ensures EvalWith(MulWith(e, f, Cross(e.linear, f.linear)), a, PairValue(a))
         == EvalWith(e, a, PairValue(a)) * EvalWith(f, a, PairValue(a))
  {
    EvalCross(e.linear, f.linear, a);
    EvalMulWithPairs(e, f, Cross(e.linear, f.linear), a);
  }

  /** `Eval` is `EvalWith` at the pair values of the assignment. */
  lemma EvalIsEvalWith(e: Expr, a: Var -> real)
    ensures Eval(e, a) == EvalWith(e, a, PairValue(a))
  {
  }

  /** A product relation between the `EvalWith` values at the pair values
      of `a` is one between the `Eval` values. */
  lemma EvalProductTransfer(e: Expr, f: Expr, r: Expr, a: Var -> real)
    requires Eval(r, a) == EvalWith(r, a, PairValue(a))
    requires Eval(e, a) == EvalWith(e, a, PairValue(a))
    requires Eval(f, a) == EvalWith(f, a, PairValue(a))
    requires EvalWith(r, a, PairValue(a)) == EvalWith(e, a, PairValue(a)) * EvalWith(f, a, PairValue(a))
    ensures Eval(r, a) == Eval(e, a) * Eval(f, a)
  {
  }

  /** When the degree checks pass, the product means the product of the values. */
  lemma EvalMulTerms(e: Expr, f: Expr, a: Var -> real)
    requires Valid(e) && Valid(f) && !Quartic(e, f) && !Cubic(e, f)
    ensures Eval(MulTerms(e, f), a) == Eval(e, a) * Eval(f, a)
  {
    var r := MulTerms(e, f);
    EvalMulCross(e, f, a);
    EvalIsEvalWith(r, a);
    EvalIsEvalWith(e, a);
    EvalIsEvalWith(f, a);
    EvalProductTransfer(e, f, r, a);
  }

  /** A successful multiplication denotes the product of the operands'
      denotations under every assignment. */
  lemma EvalMul(e: Expr, f: Expr, a: Var -> real)
    requires Valid(e) && Valid(f) && Mul(e, f).Ok?
    ensures Eval(Mul(e, f).value, a) == Eval(e, a) * Eval(f, a)
  {
    EvalMulTerms(e, f, a);
  }

  // ---------------------------------------------------------------------------
  // The product coefficient by coefficient

  /** The constants multiply; a linear coefficient is the right constant times
      the left coefficient plus the left constant times the right one; a
      quadratic coefficient has in addition the products of linear terms that
      `Ordered` files under its key. */
  lemma MulTermsCoeffs(e: Expr, f: Expr)
    ensures MulTerms(e, f).constant == e.constant * f.constant
    ensures forall v :: Coeff(MulTerms(e, f).linear, v) == f.constant * Coeff(e.linear, v) + e.constant * Coeff(f.linear, v)
    ensures forall p ::
      Coeff(MulTerms(e, f).quad, p) == f.constant * Coeff(e.quad, p) + e.constant * Coeff(f.quad, p) + CrossCoeff(e.linear, f.linear, p)
  {
    var cross := Cross(e.linear, f.linear);
    MulWithCoeffs(e, f, cross);
    forall p
      ensures Coeff(MulTerms(e, f).quad, p) == f.constant * Coeff(e.quad, p) + e.constant * Coeff(f.quad, p) + CrossCoeff(e.linear, f.linear, p)
    {
      assert Coeff(cross, p) == CrossCoeff(e.linear, f.linear, p);
    }
  }

  /** `MulTermsCoeffs` for any map of cross products. */
  lemma MulWithCoeffs(e: Expr, f: Expr, cross: map<VarPair, real>)
    ensures MulWith(e, f, cross).constant == e.constant * f.constant
    ensures forall v :: Coeff(MulWith(e, f, cross).linear, v) == f.constant * Coeff(e.linear, v) + e.constant * Coeff(f.linear, v)
    ensures forall p ::
      Coeff(MulWith(e, f, cross).quad, p) == f.constant * Coeff(e.quad, p) + e.constant * Coeff(f.quad, p) + Coeff(cross, p)
  {
    MulWithLinearCoeffs(e, f, cross);
    MulWithQuadCoeffs(e, f, cross);
  }

  lemma MulWithLinearCoeffs(e: Expr, f: Expr, cross: map<VarPair, real>)
    ensures forall v :: Coeff(MulWith(e, f, cross).linear, v) == f.constant * Coeff(e.linear, v) + e.constant * Coeff(f.linear, v)
  {
    forall v
      ensures Coeff(MulWith(e, f, cross).linear, v) == f.constant * Coeff(e.linear, v) + e.constant * Coeff(f.linear, v)
    {
      MulWithLinearCoeff(e, f, cross, v);
    }
  }

  lemma MulWithLinearCoeff(e: Expr, f: Expr, cross: map<VarPair, real>, v: Var)
    ensures Coeff(MulWith(e, f, cross).linear, v) == f.constant * Coeff(e.linear, v) + e.constant * Coeff(f.linear, v)
  {
    DistributedCoeff(e.linear, f.linear, f.constant, e.constant, v);
  }

  lemma MulWithQuadCoeffs(e: Expr, f: Expr, cross: map<VarPair, real>)
    ensures forall p ::
      Coeff(MulWith(e, f, cross).quad, p) == f.constant * Coeff(e.quad, p) + e.constant * Coeff(f.quad, p) + Coeff(cross, p)
  {
    forall p
      ensures Coeff(MulWith(e, f, cross).quad, p) == f.constant * Coeff(e.quad, p) + e.constant * Coeff(f.quad, p) + Coeff(cross, p)
    {
      MulWithQuadCoeff(e, f, cross, p);
    }
  }

  lemma MulWithQuadCoeff(e: Expr, f: Expr, cross: map<VarPair, real>, p: VarPair)
    ensures Coeff(MulWith(e, f, cross).quad, p) == f.constant * Coeff(e.quad, p) + e.constant * Coeff(f.quad, p) + Coeff(cross, p)
  {
    var dq := AddScaledTerms(ScaleOrClear(e.quad, f.constant), f.quad, e.constant);
    DistributedCoeff(e.quad, f.quad, f.constant, e.constant, p);
    assert Coeff(MulWith(e, f, cross).quad, p) == Coeff(dq, p) + Coeff(cross, p);
  }

  /** One coefficient of a scaled map with another map distributed into it. */
  lemma DistributedCoeff<K(!new)>(m: map<K, real>, n: map<K, real>, c: real, cst: real, k: K)
    ensures Coeff(AddScaledTerms(ScaleOrClear(m, c), n, cst), k) == c * Coeff(m, k) + cst * Coeff(n, k)
  {
    var s := ScaleOrClear(m, c);
    assert Coeff(s, k) == c * Coeff(m, k);
  }

  /** Over a coherent set of variables the products of linear terms do not
      depend on which operand is on the left: two records with equal indices
      are then one variable, so an index tie is a square. */
  lemma CrossCoeffSymmetric(el: map<Var, real>, fl: map<Var, real>, p: VarPair)
    requires Coherent(el.Keys + fl.Keys)
    ensures CrossCoeff(el, fl, p) == CrossCoeff(fl, el, p)
  {
    var x, y := p.first, p.second;
    if x.index == y.index && x != y {
      assert !(x in el.Keys + fl.Keys && y in el.Keys + fl.Keys);
    }
  }

  /** Multiplication is commutative for operands over a coherent set of
      variables, errors included. */
  lemma MulCommutative(e: Expr, f: Expr)
    requires Valid(e) && Valid(f) && Coherent(e.linear.Keys + f.linear.Keys)
    ensures Mul(e, f) == Mul(f, e)
  {
    if !Quartic(e, f) && !Cubic(e, f) {
      MulTermsCommutative(e, f);
    }
  }

  lemma MulTermsCommutative(e: Expr, f: Expr)
    requires Valid(e) && Valid(f) && Coherent(e.linear.Keys + f.linear.Keys)
    ensures MulTerms(e, f) == MulTerms(f, e)
  {
    MulTermsLinearSwap(e, f);
    MulTermsQuadSwap(e, f);
  }

  lemma MulTermsLinearSwap(e: Expr, f: Expr)
    requires Valid(e) && Valid(f)
    ensures MulTerms(e, f).linear == MulTerms(f, e).linear
  {
    MulWithLinearSwap(e, f, Cross(e.linear, f.linear), Cross(f.linear, e.linear));
  }

  lemma MulWithLinearSwap(e: Expr, f: Expr, c1: map<VarPair, real>, c2: map<VarPair, real>)
    requires Valid(e) && Valid(f)
    ensures MulWith(e, f, c1).linear == MulWith(f, e, c2).linear
  {
    var l, r := MulWith(e, f, c1).linear, MulWith(f, e, c2).linear;
    forall v
      ensures Coeff(l, v) == Coeff(r, v)
    {
      MulWithLinearCoeff(e, f, c1, v);
      MulWithLinearCoeff(f, e, c2, v);
    }
    EqualByCoeff(l, r);
  }

  lemma MulTermsQuadSwap(e: Expr, f: Expr)
    requires Valid(e) && Valid(f) && Coherent(e.linear.Keys + f.linear.Keys)
    ensures MulTerms(e, f).quad == MulTerms(f, e).quad
  {
    CrossSymmetric(e.linear, f.linear);
    MulWithQuadSwap(e, f, Cross(e.linear, f.linear));
  }

  /** Over a coherent set of variables the products of linear terms are the
      same map whichever operand is on the left. */
  lemma CrossSymmetric(el: map<Var, real>, fl: map<Var, real>)
    requires Coherent(el.Keys + fl.Keys)
    ensures Cross(el, fl) == Cross(fl, el)
  {
    forall p
      ensures Coeff(Cross(el, fl), p) == Coeff(Cross(fl, el), p)
    {
      CrossCoeffSymmetric(el, fl, p);
    }
    EqualByCoeff(Cross(el, fl), Cross(fl, el));
  }

  lemma MulWithQuadSwap(e: Expr, f: Expr, cross: map<VarPair, real>)
    requires Valid(e) && Valid(f) && NoZero(cross)
    ensures MulWith(e, f, cross).quad == MulWith(f, e, cross).quad
  {
    var l, r := MulWith(e, f, cross).quad, MulWith(f, e, cross).quad;
    forall p
      ensures Coeff(l, p) == Coeff(r, p)
    {
      MulWithQuadCoeff(e, f, cross, p);
      MulWithQuadCoeff(f, e, cross, p);
    }
    EqualByCoeff(l, r);
  }

  lemma MulTermsQuadCoeff(e: Expr, f: Expr, p: VarPair)
    ensures Coeff(MulTerms(e, f).quad, p) == f.constant * Coeff(e.quad, p) + e.constant * Coeff(f.quad, p) + CrossCoeff(e.linear, f.linear, p)
  {
    MulWithQuadCoeff(e, f, Cross(e.linear, f.linear), p);
  }

  /** Products of expressions without stored zeros store no zeros. */
  lemma MulTermsValid(e: Expr, f: Expr)
    requires Valid(e) && Valid(f)
    ensures Valid(MulTerms(e, f))
  {
  }

  /** One term times one term lands, with the product of the coefficients,
      under the canonical key of the two variables, whatever their indices. */
  lemma CrossCoeffSingle(u: Var, c: real, w: Var, d: real)
    ensures CrossCoeff(map[u := c], map[w := d], Ordered(VarPair(u, w))) == c * d
  {
  }

  /** The only key of the product of two one-term maps. */
  lemma CrossSingle(u: Var, c: real, w: Var, d: real)
    requires c != 0.0 && d != 0.0
    ensures Cross(map[u := c], map[w := d]) == map[Ordered(VarPair(u, w)) := c * d]
  {
    var k := Ordered(VarPair(u, w));
    CrossCoeffSingle(u, c, w, d);
    forall p
      ensures Coeff(Cross(map[u := c], map[w := d]), p) == Coeff(map[k := c * d], p)
    {
      if p != k {
        assert p !in CrossKeys(map[u := c], map[w := d]);
      }
    }
    EqualByCoeff(Cross(map[u := c], map[w := d]), map[k := c * d]);
  }

  /** Two linear expressions without constant multiply to the products of
      their terms and nothing else. */
  lemma LinearProduct(e: Expr, f: Expr)
    requires e.constant == 0.0 && f.constant == 0.0 && e.quad == map[] && f.quad == map[]
    ensures Mul(e, f) == Ok(Expr(0.0, map[], Cross(e.linear, f.linear)))
  {
    AddScaledTermsCases<Var>(map[], f.linear, 0.0);
    AddScaledTermsCases<VarPair>(map[], map[], 0.0);
    AddTermsEmpty(Cross(e.linear, f.linear), map[]);
    AddTermsCommutative(map[], Cross(e.linear, f.linear));
  }

  // ---------------------------------------------------------------------------
  // The forms with a variable operand

  /** `ExprImpl::operator*=(Var)` and `Expr::operator*(Var)`: multiplication
      by `Expr(v)`, which fails exactly when the expression has quadratic
      terms, with the cubic error. */
  function MulVar(e: Expr, v: Var): (r: Result<Expr, Error>)
    ensures r.Err? <==> |e.quad| != 0
    ensures r.Err? ==> r.error == CubicExpression
  {
    Mul(e, FromVar(v))
  }

  /** The free `v1 * v2`, written as the single quadratic term with
      coefficient 1 under the canonical key of the two variables;
      `VarTimesVarIsMul` shows that this is what `Expr(v1) * v2` builds. */
  function VarTimesVar(v1: Var, v2: Var): Expr {
    Expr(0.0, map[], map[Ordered(VarPair(v1, v2)) := 1.0])
  }

  lemma VarTimesVarIsMul(v1: Var, v2: Var)
    ensures MulVar(FromVar(v1), v2) == Ok(VarTimesVar(v1, v2))
  {
    LinearProduct(FromVar(v1), FromVar(v2));
    CrossSingle(v1, 1.0, v2, 1.0);
  }

  /** The free `v * e`: `Expr(v) * e`, which fails exactly when `e` has
      quadratic terms. */
  function VarTimes(v: Var, e: Expr): (r: Result<Expr, Error>)
    ensures r.Err? <==> |e.quad| != 0
    ensures r.Err? ==> r.error == CubicExpression
  {
    Mul(FromVar(v), e)
  }

  /** The variable forms mean multiplication by the value of `Expr(v)`,
      which `EvalFromVar` shows to be the value of `v`. */
  lemma EvalMulVar(e: Expr, v: Var, a: Var -> real)
    requires Valid(e) && |e.quad| == 0
    ensures MulVar(e, v).Ok?
    ensures Eval(MulVar(e, v).value, a) == Eval(e, a) * Eval(FromVar(v), a)
  {
    EvalMul(e, FromVar(v), a);
  }

  lemma EvalVarTimes(v: Var, e: Expr, a: Var -> real)
    requires Valid(e) && |e.quad| == 0
    ensures VarTimes(v, e).Ok?
    ensures Eval(VarTimes(v, e).value, a) == Eval(FromVar(v), a) * Eval(e, a)
  {
    EvalMul(FromVar(v), e, a);
  }

  lemma EvalVarTimesVar(v1: Var, v2: Var, a: Var -> real)
    ensures Eval(VarTimesVar(v1, v2), a) == a(v1) * a(v2)
  {
    var k := Ordered(VarPair(v1, v2));
    SumMapEmpty(Weight(a));
    SumMapSingleton(k, 1.0, Weight(PairValue(a)));
    PairValueOrdered(a, VarPair(v1, v2));
  }

  /** `v1 * v2` and `v2 * v1` build the same expression, since `Ordered`
      canonicalises the key. */
  lemma VarTimesVarCoalesces(v1: Var, v2: Var)
    requires !IsSame(v1, v2) || v1 == v2
    ensures VarTimesVar(v1, v2) == VarTimesVar(v2, v1)
  {
    OrderedSymmetric(v1, v2);
  }

  // ---------------------------------------------------------------------------
  // The unit tests of multiplication, for handles of distinct variables in
  // any allocation order

  /** `(v1 + v2) * (v1 - v2)` is `v1 v1 - v2 v2`: the cross terms cancel and
      their key is erased. */
  lemma DifferenceOfSquares(v1: Var, v2: Var)
    requires !IsSame(v1, v2)
    ensures Mul(VarPlusVar(v1, v2), VarMinusVar(v1, v2))
      == Ok(Expr(0.0, map[], map[VarPair(v1, v1) := 1.0, VarPair(v2, v2) := -1.0]))
  {
    SumOfTwo(v1, v2);
    DifferenceOfTwo(v1, v2);
    LinearProduct(Expr(0.0, map[v1 := 1.0, v2 := 1.0], map[]), Expr(0.0, map[v1 := 1.0, v2 := -1.0], map[]));
    SquaresCross(v1, v2);
  }

  lemma SumOfTwo(v1: Var, v2: Var)
    requires v1 != v2
    ensures VarPlusVar(v1, v2) == Expr(0.0, map[v1 := 1.0, v2 := 1.0], map[])
  {
    EqualByCoeff(VarPlusVar(v1, v2).linear, map[v1 := 1.0, v2 := 1.0]);
  }

  lemma DifferenceOfTwo(v1: Var, v2: Var)
    requires v1 != v2
    ensures VarMinusVar(v1, v2) == Expr(0.0, map[v1 := 1.0, v2 := -1.0], map[])
  {
    EqualByCoeff(VarMinusVar(v1, v2).linear, map[v1 := 1.0, v2 := -1.0]);
  }

  lemma SquaresCross(v1: Var, v2: Var)
    requires !IsSame(v1, v2)
    ensures Cross(map[v1 := 1.0, v2 := 1.0], map[v1 := 1.0, v2 := -1.0])
         == map[VarPair(v1, v1) := 1.0, VarPair(v2, v2) := -1.0]
  {
    var el, fl := map[v1 := 1.0, v2 := 1.0], map[v1 := 1.0, v2 := -1.0];
    var expected := map[VarPair(v1, v1) := 1.0, VarPair(v2, v2) := -1.0];
    forall p
      ensures Coeff(Cross(el, fl), p) == Coeff(expected, p)
    {
      SquaresCoeff(v1, v2, p);
    }
    EqualByCoeff(Cross(el, fl), expected);
  }

  /** `(v1 + v2) * (v2 + v3)` is `v1 v2 + v1 v3 + v2 v2 + v2 v3`. */
  lemma SumsProduct(v1: Var, v2: Var, v3: Var)
    requires !IsSame(v1, v2) && !IsSame(v1, v3) && !IsSame(v2, v3)
    ensures Mul(VarPlusVar(v1, v2), VarPlusVar(v2, v3))
      == Ok(Expr(0.0, map[], map[Ordered(VarPair(v1, v2)) := 1.0, Ordered(VarPair(v1, v3)) := 1.0, VarPair(v2, v2) := 1.0, Ordered(VarPair(v2, v3)) := 1.0]))
  {
    SumOfTwo(v1, v2);
    SumOfTwo(v2, v3);
    LinearProduct(Expr(0.0, map[v1 := 1.0, v2 := 1.0], map[]), Expr(0.0, map[v2 := 1.0, v3 := 1.0], map[]));
    SumsCross(v1, v2, v3);
  }

  lemma SumsCross(v1: Var, v2: Var, v3: Var)
    requires !IsSame(v1, v2) && !IsSame(v1, v3) && !IsSame(v2, v3)
    ensures Cross(map[v1 := 1.0, v2 := 1.0], map[v2 := 1.0, v3 := 1.0])
         == map[Ordered(VarPair(v1, v2)) := 1.0, Ordered(VarPair(v1, v3)) := 1.0, VarPair(v2, v2) := 1.0, Ordered(VarPair(v2, v3)) := 1.0]
  {
    var el, fl := map[v1 := 1.0, v2 := 1.0], map[v2 := 1.0, v3 := 1.0];
    var expected := map[Ordered(VarPair(v1, v2)) := 1.0, Ordered(VarPair(v1, v3)) := 1.0, VarPair(v2, v2) := 1.0, Ordered(VarPair(v2, v3)) := 1.0];
    forall p
      ensures Coeff(Cross(el, fl), p) == Coeff(expected, p)
    {
      SumsCoeff(v1, v2, v3, p);
    }
    EqualByCoeff(Cross(el, fl), expected);
  }

  /** `(1 v1 + 2 v2) * (3 v2 + 4 v3)` is `3 v1 v2 + 4 v1 v3 + 6 v2 v2 + 8 v2 v3`. */
  lemma WeightedProduct(v1: Var, v2: Var, v3: Var)
    requires !IsSame(v1, v2) && !IsSame(v1, v3) && !IsSame(v2, v3)
    ensures Mul(Add(VarTimesConst(v1, 1.0), VarTimesConst(v2, 2.0)), Add(VarTimesConst(v2, 3.0), VarTimesConst(v3, 4.0)))
      == Ok(Expr(0.0, map[], map[Ordered(VarPair(v1, v2)) := 3.0, Ordered(VarPair(v1, v3)) := 4.0, VarPair(v2, v2) := 6.0, Ordered(VarPair(v2, v3)) := 8.0]))
  {
    WeightedSum(v1, 1.0, v2, 2.0);
    WeightedSum(v2, 3.0, v3, 4.0);
    LinearProduct(Expr(0.0, map[v1 := 1.0, v2 := 2.0], map[]), Expr(0.0, map[v2 := 3.0, v3 := 4.0], map[]));
    WeightedCross(v1, v2, v3);
  }

  /** `c1 v1 + c2 v2` for two different variables and nonzero weights. */
  lemma WeightedSum(v1: Var, c1: real, v2: Var, c2: real)
    requires v1 != v2 && c1 != 0.0 && c2 != 0.0
    ensures Add(VarTimesConst(v1, c1), VarTimesConst(v2, c2)) == Expr(0.0, map[v1 := c1, v2 := c2], map[])
  {
    ScaledVar(v1, c1);
    ScaledVar(v2, c2);
    var l := AddTerms(map[v1 := c1], map[v2 := c2]);
    EqualByCoeff(l, map[v1 := c1, v2 := c2]);
    AddTermsEmpty<VarPair>(map[], map[]);
  }

  /** `c v` for a nonzero weight is the one term `v` with coefficient `c`. */
  lemma ScaledVar(v: Var, c: real)
    requires c != 0.0
    ensures VarTimesConst(v, c) == Expr(0.0, map[v := c], map[])
  {
    ScaleSingle(v, 1.0, c);
  }

  lemma WeightedCross(v1: Var, v2: Var, v3: Var)
    requires !IsSame(v1, v2) && !IsSame(v1, v3) && !IsSame(v2, v3)
    ensures Cross(map[v1 := 1.0, v2 := 2.0], map[v2 := 3.0, v3 := 4.0])
         == map[Ordered(VarPair(v1, v2)) := 3.0, Ordered(VarPair(v1, v3)) := 4.0, VarPair(v2, v2) := 6.0, Ordered(VarPair(v2, v3)) := 8.0]
  {
    var el, fl := map[v1 := 1.0, v2 := 2.0], map[v2 := 3.0, v3 := 4.0];
    var expected := map[Ordered(VarPair(v1, v2)) := 3.0, Ordered(VarPair(v1, v3)) := 4.0, VarPair(v2, v2) := 6.0, Ordered(VarPair(v2, v3)) := 8.0];
    forall p
      ensures Coeff(Cross(el, fl), p) == Coeff(expected, p)
    {
      WeightedCoeff(v1, v2, v3, p);
    }
    EqualByCoeff(Cross(el, fl), expected);
  }

  /** The coefficient of a two-term map. */
  lemma CoeffOfTwo<K(!new)>(k1: K, c1: real, k2: K, c2: real, x: K)
    requires k1 != k2
    ensures Coeff(map[k1 := c1, k2 := c2], x) == (if x == k1 then c1 else if x == k2 then c2 else 0.0)
  {
  }

  /** `DifferenceOfSquares` at one key. */
  lemma SquaresCoeff(v1: Var, v2: Var, p: VarPair)
    requires !IsSame(v1, v2)
    ensures CrossCoeff(map[v1 := 1.0, v2 := 1.0], map[v1 := 1.0, v2 := -1.0], p)
         == Coeff(map[VarPair(v1, v1) := 1.0, VarPair(v2, v2) := -1.0], p)
  {
    var x, y := p.first, p.second;
    var el, fl := map[v1 := 1.0, v2 := 1.0], map[v1 := 1.0, v2 := -1.0];
    CoeffOfTwo(VarPair(v1, v1), 1.0, VarPair(v2, v2), -1.0, p);
    CoeffOfTwo(v1, 1.0, v2, 1.0, x);
    CoeffOfTwo(v1, 1.0, v2, 1.0, y);
    CoeffOfTwo(v1, 1.0, v2, -1.0, x);
    CoeffOfTwo(v1, 1.0, v2, -1.0, y);
    if x == v1 && y == v1 {
    } else if x == v1 && y == v2 {
    } else if x == v2 && y == v1 {
    } else if x == v2 && y == v2 {
    } else if x != v1 && x != v2 {
      assert Coeff(el, x) == 0.0 && Coeff(fl, x) == 0.0;
    } else {
      assert Coeff(el, y) == 0.0 && Coeff(fl, y) == 0.0;
    }
  }

  /** `SumsProduct` at one key. */
  lemma SumsCoeff(v1: Var, v2: Var, v3: Var, p: VarPair)
    requires !IsSame(v1, v2) && !IsSame(v1, v3) && !IsSame(v2, v3)
    ensures CrossCoeff(map[v1 := 1.0, v2 := 1.0], map[v2 := 1.0, v3 := 1.0], p)
         == Coeff(map[Ordered(VarPair(v1, v2)) := 1.0, Ordered(VarPair(v1, v3)) := 1.0, VarPair(v2, v2) := 1.0, Ordered(VarPair(v2, v3)) := 1.0], p)
  {
    var x, y := p.first, p.second;
    var el, fl := map[v1 := 1.0, v2 := 1.0], map[v2 := 1.0, v3 := 1.0];
    var expected := map[Ordered(VarPair(v1, v2)) := 1.0, Ordered(VarPair(v1, v3)) := 1.0, VarPair(v2, v2) := 1.0, Ordered(VarPair(v2, v3)) := 1.0];
    assert Coeff(el, v3) == 0.0 && Coeff(fl, v1) == 0.0;
    CoeffOfThree(v1, 1.0, v2, 1.0, v3, 0.0, x);
    CoeffOfThree(v1, 1.0, v2, 1.0, v3, 0.0, y);
    CoeffOfThree(v1, 0.0, v2, 1.0, v3, 1.0, x);
    CoeffOfThree(v1, 0.0, v2, 1.0, v3, 1.0, y);
    if x in {v1, v2, v3} && y in {v1, v2, v3} {
      if p in expected {
      } else {
        assert CrossCoeff(el, fl, p) == 0.0;
      }
    } else if x !in {v1, v2, v3} {
      assert Coeff(el, x) == 0.0 && Coeff(fl, x) == 0.0;
    } else {
      assert Coeff(el, y) == 0.0 && Coeff(fl, y) == 0.0;
    }
  }

  /** The coefficient of a three-term map. */
  lemma CoeffOfThree<K(!new)>(k1: K, c1: real, k2: K, c2: real, k3: K, c3: real, x: K)
    requires k1 != k2 && k1 != k3 && k2 != k3
    ensures Coeff(map[k1 := c1, k2 := c2, k3 := c3], x)
         == (if x == k1 then c1 else if x == k2 then c2 else if x == k3 then c3 else 0.0)
  {
  }

  /** `WeightedProduct` at one key. */
  lemma WeightedCoeff(v1: Var, v2: Var, v3: Var, p: VarPair)
    requires !IsSame(v1, v2) && !IsSame(v1, v3) && !IsSame(v2, v3)
    ensures CrossCoeff(map[v1 := 1.0, v2 := 2.0], map[v2 := 3.0, v3 := 4.0], p)
         == Coeff(map[Ordered(VarPair(v1, v2)) := 3.0, Ordered(VarPair(v1, v3)) := 4.0, VarPair(v2, v2) := 6.0, Ordered(VarPair(v2, v3)) := 8.0], p)
  {
    var x, y := p.first, p.second;
    var el, fl := map[v1 := 1.0, v2 := 2.0], map[v2 := 3.0, v3 := 4.0];
    var expected := map[Ordered(VarPair(v1, v2)) := 3.0, Ordered(VarPair(v1, v3)) := 4.0, VarPair(v2, v2) := 6.0, Ordered(VarPair(v2, v3)) := 8.0];
    assert Coeff(el, v3) == 0.0 && Coeff(fl, v1) == 0.0;
    CoeffOfThree(v1, 1.0, v2, 2.0, v3, 0.0, x);
    CoeffOfThree(v1, 1.0, v2, 2.0, v3, 0.0, y);
    CoeffOfThree(v1, 0.0, v2, 3.0, v3, 4.0, x);
    CoeffOfThree(v1, 0.0, v2, 3.0, v3, 4.0, y);
    if x in {v1, v2, v3} && y in {v1, v2, v3} {
      if p in expected {
      } else {
        assert CrossCoeff(el, fl, p) == 0.0;
      }
    } else if x !in {v1, v2, v3} {
      assert Coeff(el, x) == 0.0 && Coeff(fl, x) == 0.0;
    } else {
      assert Coeff(el, y) == 0.0 && Coeff(fl, y) == 0.0;
    }
  }

  /** `v1 * v2 * v3` groups as `(v1 * v2) * v3` and fails with the cubic
      error. */
  lemma ThreeVariablesFail(v1: Var, v2: Var, v3: Var)
    ensures MulVar(VarTimesVar(v1, v2), v3) == Err(CubicExpression)
  {
  }

  /** `(v1 + 2) * (v2 + 2) * v3` fails with the cubic error: the first
      product has the quadratic term `v1 v2`. */
  lemma ShiftedProductFails(v1: Var, v2: Var, v3: Var)
    ensures Mul(VarPlusConst(v1, 2.0), VarPlusConst(v2, 2.0)).Ok?
    ensures MulVar(Mul(VarPlusConst(v1, 2.0), VarPlusConst(v2, 2.0)).value, v3) == Err(CubicExpression)
  {
    var p := Mul(VarPlusConst(v1, 2.0), VarPlusConst(v2, 2.0)).value;
    var k := Ordered(VarPair(v1, v2));
    MulTermsCoeffs(VarPlusConst(v1, 2.0), VarPlusConst(v2, 2.0));
    CrossCoeffSingle(v1, 1.0, v2, 1.0);
    assert Coeff(p.quad, k) == 1.0;
  }

  /** `v1 * v1 * v1 * v1` groups as `((v1 * v1) * v1) * v1`, so the error
      raised is the cubic one of the second multiplication; the quartic error
      needs two quadratic operands, as in `(v1 * v1) * (v1 * v1)`. */
  lemma FourthPowerFails(v1: Var)
    ensures MulVar(VarTimesVar(v1, v1), v1) == Err(CubicExpression)
    ensures Mul(VarTimesVar(v1, v1), VarTimesVar(v1, v1)) == Err(QuarticExpression)
  {
  }

}
