/** The expression algebra of miplib/expr.hpp and miplib/expr.cpp, apart from
    multiplication of two expressions (module `Products`) and printing (module
    `Printing`).

    An expression is a constant plus a linear and a quadratic term map. The
    source keeps these in an `ExprImpl` behind a shared pointer and mutates it
    through compound assignment; here an expression is an immutable value and
    each operator is a function from operands to result. Its meaning is `Eval`,
    the value of the polynomial under an assignment of reals to variables. */
module Expressions {
  import opened Wrappers
  import opened Errors
  import opened Variables
  import opened TermMaps

  datatype Expr = Expr(constant: real, linear: map<Var, real>, quad: map<VarPair, real>)

  /** No stored coefficient is 0: every operation erases a coefficient that
      reaches exactly 0, so all expressions built by the operations below
      satisfy this. */
  ghost predicate Valid(e: Expr) {
    NoZero(e.linear) && NoZero(e.quad)
  }

  // ---------------------------------------------------------------------------
  // Meaning

  /** The value of a quadratic key: the product of its two variables. */
  ghost function PairValue(a: Var -> real): VarPair -> real {
    (p: VarPair) => a(p.first) * a(p.second)
  }

  /** The value of the expression under the assignment `a`. */
  ghost function Eval(e: Expr, a: Var -> real): real {
    e.constant + SumMap(e.linear, Weight(a)) + SumMap(e.quad, Weight(PairValue(a)))
  }

  /** Both term weights are additive in the coefficient. */
  lemma {:induction false} WeightsLinear(a: Var -> real)
    ensures Additive(Weight(a))
    ensures Additive(Weight(PairValue(a)))
  {
    WeightLinear(a, 0.0);
    WeightLinear(PairValue(a), 0.0);
  }

  /** A canonicalised key has the value of the pair it came from. */
  lemma {:induction false} PairValueOrdered(a: Var -> real, p: VarPair)
    ensures PairValue(a)(Ordered(p)) == PairValue(a)(p)
  {
  }

  // ---------------------------------------------------------------------------
  // Constructors and classifiers

  /** `Expr(double c)`: a constant expression. */
  function Const(c: real): (r: Expr)
    ensures IsConstant(r) && r.constant == c
    ensures Valid(r)
  {
    Expr(c, map[], map[])
  }

  /** `Expr(Var v)`: the variable with coefficient 1. */
  function FromVar(v: Var): (r: Expr)
    ensures IsLinear(r) && !IsConstant(r)
    ensures r.constant == 0.0 && r.linear.Keys == {v} && Coeff(r.linear, v) == 1.0
    ensures Valid(r)
  {
    Expr(0.0, map[v := 1.0], map[])
  }

  lemma {:induction false} EvalConst(c: real, a: Var -> real)
    ensures Eval(Const(c), a) == c
  {
    SumMapEmpty(Weight(a));
    SumMapEmpty(Weight(PairValue(a)));
  }

  lemma {:induction false} EvalFromVar(v: Var, a: Var -> real)
    ensures Eval(FromVar(v), a) == a(v)
  {
    SumMapSingleton(v, 1.0, Weight(a));
    SumMapEmpty(Weight(PairValue(a)));
  }

  /** `Expr::is_constant`. */
  predicate IsConstant(e: Expr) {
    |e.linear| == 0 && |e.quad| == 0
  }

  /** `Expr::is_linear`: no quadratic terms (constants included). */
  predicate IsLinear(e: Expr) {
    |e.quad| == 0
  }

  /** `Expr::is_quadratic`. */
  predicate IsQuadratic(e: Expr) {
    |e.quad| != 0
  }

  /** The classifiers nest as the source documents, and a constant expression
      means its constant under every assignment. */
  lemma {:induction false} ClassifierRelations(e: Expr, a: Var -> real)
    ensures IsConstant(e) ==> IsLinear(e)
    ensures IsQuadratic(e) <==> !IsLinear(e)
    ensures IsConstant(e) ==> Eval(e, a) == e.constant
    ensures IsLinear(e) ==> Eval(e, a) == e.constant + SumMap(e.linear, Weight(a))
  {
    if IsLinear(e) {
      assert e.quad.Keys == {};
      SumMapEmpty(Weight(PairValue(a)));
      assert e.quad == map[];
    }
    if IsConstant(e) {
      assert e.linear.Keys == {};
      SumMapEmpty(Weight(a));
      assert e.linear == map[];
    }
  }

  // ---------------------------------------------------------------------------
  // Addition

  /** `ExprImpl::operator+=(double)`: only the constant changes. */
  function AddConst(e: Expr, c: real): (r: Expr)
    ensures r.linear == e.linear && r.quad == e.quad
    ensures r.constant == e.constant + c
  {
    e.(constant := e.constant + c)
  }

  lemma {:induction false} EvalAddConst(e: Expr, c: real, a: Var -> real)
    ensures Eval(AddConst(e, c), a) == Eval(e, a) + c
  {
  }

  /** `ExprImpl::operator+=(Var)`: the coefficient of `v` grows by 1, the key
      is inserted when absent and erased when it reaches 0; nothing else
      changes. */
  function AddVar(e: Expr, v: Var): (r: Expr)
    ensures r.constant == e.constant && r.quad == e.quad
    ensures Coeff(r.linear, v) == Coeff(e.linear, v) + 1.0
    ensures forall u | u != v :: (u in r.linear <==> u in e.linear) && Coeff(r.linear, u) == Coeff(e.linear, u)
    ensures Valid(e) ==> Valid(r)
  {
    e.(linear := Accumulate(e.linear, v, 1.0))
  }

  /** `ExprImpl::operator-=(Var)`: as `AddVar` with -1. */
  function SubVar(e: Expr, v: Var): (r: Expr)
    ensures r.constant == e.constant && r.quad == e.quad
    ensures Coeff(r.linear, v) == Coeff(e.linear, v) - 1.0
    ensures forall u | u != v :: (u in r.linear <==> u in e.linear) && Coeff(r.linear, u) == Coeff(e.linear, u)
    ensures Valid(e) ==> Valid(r)
  {
    e.(linear := Accumulate(e.linear, v, -1.0))
  }

  lemma {:induction false} EvalAddVar(e: Expr, v: Var, a: Var -> real)
    ensures Eval(AddVar(e, v), a) == Eval(e, a) + a(v)
    ensures Eval(SubVar(e, v), a) == Eval(e, a) - a(v)
  {
    WeightsLinear(a);
    SumMapAccumulate(e.linear, v, 1.0, Weight(a));
    SumMapAccumulate(e.linear, v, -1.0, Weight(a));
  }

  /** `ExprImpl::operator+=(ExprImpl)`: the constants add, and key by key the
      coefficients add, a key whose sum is exactly 0 being erased. */
  function Add(e: Expr, f: Expr): (r: Expr)
    ensures r.constant == e.constant + f.constant
    ensures forall v :: Coeff(r.linear, v) == Coeff(e.linear, v) + Coeff(f.linear, v)
    ensures forall p :: Coeff(r.quad, p) == Coeff(e.quad, p) + Coeff(f.quad, p)
    ensures r.linear.Keys <= e.linear.Keys + f.linear.Keys
    ensures r.quad.Keys <= e.quad.Keys + f.quad.Keys
    ensures Valid(e) && Valid(f) ==> Valid(r)
  {
    Expr(e.constant + f.constant, AddTerms(e.linear, f.linear), AddTerms(e.quad, f.quad))
  }

  lemma {:induction false} EvalAdd(e: Expr, f: Expr, a: Var -> real)
    ensures Eval(Add(e, f), a) == Eval(e, a) + Eval(f, a)
  {
    WeightsLinear(a);
    SumMapAddTerms(e.linear, f.linear, Weight(a));
    SumMapAddTerms(e.quad, f.quad, Weight(PairValue(a)));
  }

  /** Adding a variable in place is adding the expression `Expr(v)`. */
  lemma {:induction false} AddVarIsAdd(e: Expr, v: Var)
    requires Valid(e)
    ensures AddVar(e, v) == Add(e, FromVar(v))
  {
    AccumulateIsAddTerms(e.linear, v, 1.0);
    AddTermsEmpty(e.quad, map[]);
  }

  lemma {:induction false} AddCommutative(e: Expr, f: Expr)
    requires Valid(e) && Valid(f)
    ensures Add(e, f) == Add(f, e)
  {
    AddTermsCommutative(e.linear, f.linear);
    AddTermsCommutative(e.quad, f.quad);
  }

  lemma {:induction false} AddAssociative(e: Expr, f: Expr, g: Expr)
    requires Valid(e) && Valid(f) && Valid(g)
    ensures Add(Add(e, f), g) == Add(e, Add(f, g))
  {
    AddTermsAssociative(e.linear, f.linear, g.linear);
    AddTermsAssociative(e.quad, f.quad, g.quad);
  }

  /** The constant 0 is a unit for addition. */
  lemma {:induction false} AddZero(e: Expr)
    requires Valid(e)
    ensures Add(e, Const(0.0)) == e
  {
    EqualByCoeff(Add(e, Const(0.0)).linear, e.linear);
    EqualByCoeff(Add(e, Const(0.0)).quad, e.quad);
  }

  // ---------------------------------------------------------------------------
  // Scaling, negation, subtraction, division by a constant

  /** `ExprImpl::operator*=(double)`: by 0 both term maps are cleared and the
      constant becomes 0; otherwise every coefficient and the constant are
      multiplied by `c`. */
  function Scale(e: Expr, c: real): (r: Expr)
    ensures c == 0.0 ==> r == Const(0.0)
    ensures c != 0.0 ==> r.linear.Keys == e.linear.Keys && r.quad.Keys == e.quad.Keys
    ensures c != 0.0 ==> forall v | v in e.linear :: r.linear[v] == e.linear[v] * c
    ensures c != 0.0 ==> forall p | p in e.quad :: r.quad[p] == e.quad[p] * c
    ensures r.constant == e.constant * c
    ensures Valid(e) ==> Valid(r)
  {
    if c == 0.0 then Const(0.0)
    else Expr(e.constant * c, ScaleTerms(e.linear, c), ScaleTerms(e.quad, c))
  }

  /** `(k + x + y) * c` split into its parts, for named values. */
  lemma {:induction false} ScaleSum(k: real, x: real, y: real, c: real, cx: real, cy: real, ev: real)
    requires cx == c * x && cy == c * y && ev == k + x + y
    ensures k * c + cx + cy == c * ev
  {
  }

  /** Scaling by 0 yields the constant 0. */
  lemma {:induction false} EvalScaleZero(e: Expr, c: real, a: Var -> real)
    requires c == 0.0
    ensures Eval(Scale(e, c), a) == c * Eval(e, a)
  {
    EvalConst(0.0, a);
  }

  /** An expression whose constant and term-map values are those of `e`
      times `c` has `c` times the value of `e`. */
  lemma {:induction false} EvalFromScaledParts(e: Expr, s: Expr, c: real, a: Var -> real)
    requires s.constant == e.constant * c
    requires SumMap(s.linear, Weight(a)) == c * SumMap(e.linear, Weight(a))
    requires SumMap(s.quad, Weight(PairValue(a))) == c * SumMap(e.quad, Weight(PairValue(a)))
    ensures Eval(s, a) == c * Eval(e, a)
  {
    ScaleSum(e.constant, SumMap(e.linear, Weight(a)), SumMap(e.quad, Weight(PairValue(a))), c,
             SumMap(s.linear, Weight(a)), SumMap(s.quad, Weight(PairValue(a))), Eval(e, a));
  }

  /** Scaling the constant and both term maps by `c` scales the value. */
  lemma {:induction false} EvalScaledParts(e: Expr, c: real, a: Var -> real)
    ensures Eval(Expr(e.constant * c, ScaleTerms(e.linear, c), ScaleTerms(e.quad, c)), a) == c * Eval(e, a)
  {
    SumMapScaleWeight(e.linear, c, a);
    SumMapScaleWeight(e.quad, c, PairValue(a));
    EvalFromScaledParts(e, Expr(e.constant * c, ScaleTerms(e.linear, c), ScaleTerms(e.quad, c)), c, a);
  }

  lemma {:induction false} EvalScaleNonzero(e: Expr, c: real, a: Var -> real)
    requires c != 0.0
    ensures Eval(Scale(e, c), a) == c * Eval(e, a)
  {
    assert Scale(e, c) == Expr(e.constant * c, ScaleTerms(e.linear, c), ScaleTerms(e.quad, c));
    EvalScaledParts(e, c, a);
  }

  /** Scaling an expression scales its value. */
  lemma {:induction false} EvalScale(e: Expr, c: real, a: Var -> real)
    ensures Eval(Scale(e, c), a) == c * Eval(e, a)
  {
    if c == 0.0 {
      EvalScaleZero(e, c, a);
    } else {
      EvalScaleNonzero(e, c, a);
    }
  }

  /** `Expr::operator-()`: a scaled copy by -1. */
  function Neg(e: Expr): Expr {
    Scale(e, -1.0)
  }

  /** `Expr::operator-(Expr)` and `Expr::operator-=(Expr)`: adding the
      negation. */
  function Sub(e: Expr, f: Expr): Expr {
    Add(e, Neg(f))
  }

  /** `Expr::operator-(Var)`: adding the negated variable. */
  function MinusVar(e: Expr, v: Var): Expr {
    Add(e, Neg(FromVar(v)))
  }

  lemma {:induction false} EvalNeg(e: Expr, a: Var -> real)
    ensures Eval(Neg(e), a) == -Eval(e, a)
  {
    EvalScale(e, -1.0, a);
  }

  lemma {:induction false} EvalSub(e: Expr, f: Expr, a: Var -> real)
    ensures Eval(Sub(e, f), a) == Eval(e, a) - Eval(f, a)
  {
    EvalNeg(f, a);
    EvalAdd(e, Neg(f), a);
  }

  /** Negation only flips signs: the stored keys stay the same. */
  lemma {:induction false} NegCoefficients(e: Expr)
    ensures Neg(e).constant == -e.constant
    ensures forall v :: Coeff(Neg(e).linear, v) == -Coeff(e.linear, v)
    ensures forall p :: Coeff(Neg(e).quad, p) == -Coeff(e.quad, p)
    ensures Neg(Neg(e)) == e
  {
    var n := Neg(e);
    assert n.linear == ScaleTerms(e.linear, -1.0);
    assert n.quad == ScaleTerms(e.quad, -1.0);
    var nn := Neg(n);
    forall v | v in e.linear
      ensures nn.linear[v] == e.linear[v]
    {
    }
    forall p | p in e.quad
      ensures nn.quad[p] == e.quad[p]
    {
    }
    assert nn.linear == e.linear;
    assert nn.quad == e.quad;
  }

  /** `e - v` built by the binary operator equals `e -= v` in place. */
  lemma {:induction false} MinusVarIsSubVar(e: Expr, v: Var)
    requires Valid(e)
    ensures MinusVar(e, v) == SubVar(e, v)
  {
    ScaleSingle(v, 1.0, -1.0);
    assert Neg(FromVar(v)) == Expr(0.0, map[v := -1.0], map[]);
    AccumulateIsAddTerms(e.linear, v, -1.0);
    AddTermsEmpty(e.quad, map[]);
  }

  /** `e -= f` and `e - f` leave an expression equal to `e` after adding `f`
      back. */
  lemma {:induction false} SubThenAdd(e: Expr, f: Expr)
    requires Valid(e) && Valid(f)
    ensures Valid(Sub(e, f))
    ensures Add(Sub(e, f), f) == e
  {
    AddNegThenAdd(e.linear, f.linear);
    AddNegThenAdd(e.quad, f.quad);
  }

  /** `e - f` has no terms exactly when `e` and `f` have the same terms, so
      the difference of two expressions is constant only when they differ by
      a constant. */
  lemma {:induction false} SubConstantIff(e: Expr, f: Expr)
    requires Valid(e) && Valid(f)
    ensures IsConstant(Sub(e, f)) <==> e.linear == f.linear && e.quad == f.quad
  {
    assert Neg(f).linear == ScaleTerms(f.linear, -1.0);
    assert Neg(f).quad == ScaleTerms(f.quad, -1.0);
    AddNegEmptyIff(e.linear, f.linear);
    AddNegEmptyIff(e.quad, f.quad);
  }

  /** `Expr::operator/(double)` and `ExprImpl::operator/=`: multiplication by
      `1/c`. */
  function DivConst(e: Expr, c: real): (r: Expr)
    requires c != 0.0
    ensures r.constant == e.constant / c
    ensures r.linear.Keys == e.linear.Keys && r.quad.Keys == e.quad.Keys
  {
    Scale(e, 1.0 / c)
  }

  /** An expression worth `1/c` times the value of `e` is worth the value of
      `e` divided by `c`. */
  lemma {:induction false} EvalReciprocal(e: Expr, s: Expr, c: real, a: Var -> real)
    requires c != 0.0 && Eval(s, a) == (1.0 / c) * Eval(e, a)
    ensures Eval(s, a) == Eval(e, a) / c
  {
  }

  lemma {:induction false} EvalDivConst(e: Expr, c: real, a: Var -> real)
    requires c != 0.0
    ensures Eval(DivConst(e, c), a) == Eval(e, a) / c
  {
    assert DivConst(e, c) == Scale(e, 1.0 / c);
    EvalScale(e, 1.0 / c, a);
    EvalReciprocal(e, Scale(e, 1.0 / c), c, a);
  }

  /** `Expr::operator/(Expr)`: dividing by an expression that has terms is an
      error; dividing by a constant expression divides by its constant. */
  function DivExpr(e: Expr, d: Expr): (r: Result<Expr, Error>)
    requires !IsConstant(d) || d.constant != 0.0
    ensures r.Err? <==> !IsConstant(d)
    ensures r.Err? ==> r.error == NonConstantDivisor
    ensures r.Ok? ==> r.value == DivConst(e, d.constant)
  {
    if !IsConstant(d) then Err(NonConstantDivisor) else Ok(DivConst(e, d.constant))
  }

  lemma {:induction false} EvalDivExpr(e: Expr, d: Expr, a: Var -> real)
    requires IsConstant(d) && d.constant != 0.0
    ensures DivExpr(e, d).Ok?
    ensures Eval(DivExpr(e, d).value, a) == Eval(e, a) / Eval(d, a)
  {
    EvalDivConst(e, d.constant, a);
    ClassifierRelations(d, a);
  }

  // ---------------------------------------------------------------------------
  // The free operators with a variable or a scalar operand (expr.hpp). Each
  // one converts its variable with `Expr(v)` and reduces to a member form.

  /** `-v`. */
  function VarNeg(v: Var): Expr {
    Neg(FromVar(v))
  }

  /** `v + c` and `c + v`. */
  function VarPlusConst(v: Var, c: real): Expr {
    AddConst(FromVar(v), c)
  }

  /** `c + e`. */
  function ConstPlus(c: real, e: Expr): Expr {
    AddConst(e, c)
  }

  /** `v1 + v2`. */
  function VarPlusVar(v1: Var, v2: Var): Expr {
    AddVar(FromVar(v1), v2)
  }

  /** `v + e`. */
  function VarPlus(v: Var, e: Expr): Expr {
    Add(FromVar(v), e)
  }

  /** `v - c`. */
  function VarMinusConst(v: Var, c: real): Expr {
    AddConst(FromVar(v), -c)
  }

  /** `c - v`, that is `c + (-v)`. */
  function ConstMinusVar(c: real, v: Var): Expr {
    ConstPlus(c, VarNeg(v))
  }

  /** `c - e`, that is `c + (-e)`. */
  function ConstMinus(c: real, e: Expr): Expr {
    ConstPlus(c, Neg(e))
  }

  /** `v1 - v2`. */
  function VarMinusVar(v1: Var, v2: Var): Expr {
    Add(FromVar(v1), VarNeg(v2))
  }

  /** `v - e`. */
  function VarMinus(v: Var, e: Expr): Expr {
    Add(FromVar(v), Neg(e))
  }

  /** `v * c` and `c * v`. */
  function VarTimesConst(v: Var, c: real): Expr {
    Scale(FromVar(v), c)
  }

  /** `c * e`. */
  function ConstTimes(c: real, e: Expr): Expr {
    Scale(e, c)
  }

  /** `v / c`. */
  function VarDivConst(v: Var, c: real): Expr
    requires c != 0.0
  {
    DivConst(FromVar(v), c)
  }

  /** `v / e`. */
  function VarDiv(v: Var, e: Expr): Result<Expr, Error>
    requires !IsConstant(e) || e.constant != 0.0
  {
    DivExpr(FromVar(v), e)
  }

  /** The free operators on variables and scalars mean the arithmetic they
      are written with. */
  lemma {:induction false} EvalVarOperators(v: Var, v2: Var, c: real, a: Var -> real)
    ensures Eval(VarNeg(v), a) == -a(v)
    ensures Eval(VarPlusConst(v, c), a) == a(v) + c
    ensures Eval(VarPlusVar(v, v2), a) == a(v) + a(v2)
    ensures Eval(VarMinusConst(v, c), a) == a(v) - c
    ensures Eval(VarMinusVar(v, v2), a) == a(v) - a(v2)
  {
    EvalFromVar(v, a);
    assert Eval(VarNeg(v), a) == -a(v) by {
      EvalNeg(FromVar(v), a);
    }
    assert Eval(VarPlusVar(v, v2), a) == a(v) + a(v2) by {
      EvalAddVar(FromVar(v), v2, a);
    }
    assert Eval(VarMinusVar(v, v2), a) == a(v) - a(v2) by {
      EvalFromVar(v2, a);
      EvalNeg(FromVar(v2), a);
      EvalAdd(FromVar(v), VarNeg(v2), a);
    }
  }

  lemma {:induction false} EvalVarTimesConst(v: Var, c: real, a: Var -> real)
    ensures Eval(VarTimesConst(v, c), a) == c * a(v)
  {
    EvalFromVar(v, a);
    EvalScale(FromVar(v), c, a);
    ScaleEqual(c, Eval(FromVar(v), a), a(v));
  }

  /** Equal values scaled by the same factor stay equal. */
  lemma ScaleEqual(c: real, x: real, y: real)
    requires x == y
    ensures c * x == c * y
  {
  }

  /** The free operators with an expression operand mean the arithmetic they
      are written with. */
  lemma {:induction false} EvalExprOperators(v: Var, c: real, e: Expr, a: Var -> real)
    ensures Eval(ConstPlus(c, e), a) == c + Eval(e, a)
    ensures Eval(VarPlus(v, e), a) == a(v) + Eval(e, a)
    ensures Eval(ConstMinusVar(c, v), a) == c - a(v)
    ensures Eval(ConstMinus(c, e), a) == c - Eval(e, a)
    ensures Eval(VarMinus(v, e), a) == a(v) - Eval(e, a)
    ensures Eval(ConstTimes(c, e), a) == c * Eval(e, a)
  {
    EvalFromVar(v, a);
    assert Eval(VarPlus(v, e), a) == a(v) + Eval(e, a) by {
      EvalAdd(FromVar(v), e, a);
    }
    assert Eval(ConstMinusVar(c, v), a) == c - a(v) by {
      EvalNeg(FromVar(v), a);
    }
    assert Eval(ConstMinus(c, e), a) == c - Eval(e, a) by {
      EvalNeg(e, a);
    }
    assert Eval(VarMinus(v, e), a) == a(v) - Eval(e, a) by {
      EvalNeg(e, a);
      EvalAdd(FromVar(v), Neg(e), a);
    }
    assert Eval(ConstTimes(c, e), a) == c * Eval(e, a) by {
      EvalScale(e, c, a);
    }
  }

  /** The scalar-on-the-left forms are the scalar-on-the-right member forms,
      and `c - v` adds the negated variable to the constant. */
  lemma {:induction false} ScalarLeftForms(v: Var, c: real, e: Expr)
    ensures ConstPlus(c, e) == AddConst(e, c)
    ensures ConstTimes(c, e) == Scale(e, c)
    ensures ConstMinusVar(c, v).constant == c
    ensures ConstMinusVar(c, v).linear == map[v := -1.0] && ConstMinusVar(c, v).quad == map[]
  {
    NegCoefficients(FromVar(v));
    var n := VarNeg(v);
    assert n.linear.Keys == {v};
    assert n.linear[v] == -1.0;
    assert n.linear == map[v := -1.0];
  }

  // ---------------------------------------------------------------------------
  // must_be_binary

  /** `Expr::must_be_binary`, branch by branch: a constant must be 0 or 1;
      otherwise there must be exactly one term, all its variables binary, with
      (constant, coefficient) equal to (1, -1) or (0, 1). The single key is
      read through a quantifier over the one-element map. */
  predicate MustBeBinary(e: Expr) {
    if IsConstant(e) then e.constant == 0.0 || e.constant == 1.0
    else if |e.linear| > 1 then false
    else if |e.quad| > 1 then false
    else if |e.linear| + |e.quad| > 1 then false
    else if IsLinear(e) then
      forall v | v in e.linear ::
        v.vtype == Binary && ((e.constant == 1.0 && e.linear[v] == -1.0) || (e.constant == 0.0 && e.linear[v] == 1.0))
    else
      forall p | p in e.quad ::
        p.first.vtype == Binary && p.second.vtype == Binary
        && ((e.constant == 1.0 && e.quad[p] == -1.0) || (e.constant == 0.0 && e.quad[p] == 1.0))
  }

  /** The term of a one-term shape that `MustBeBinary` accepts. */
  predicate BinaryTerm(constant: real, coeff: real) {
    (coeff == 1.0 && constant == 0.0) || (coeff == -1.0 && constant == 1.0)
  }

  /** `MustBeBinary` holds exactly for the constants 0 and 1, `v`, `1 - v`,
      `v1*v2` and `1 - v1*v2` over binary variables. */
  lemma {:induction false} MustBeBinaryIff(e: Expr)
    ensures MustBeBinary(e) <==>
      (IsConstant(e) && (e.constant == 0.0 || e.constant == 1.0))
      || (exists v :: e.linear.Keys == {v} && e.quad == map[]
            && v.vtype == Binary && BinaryTerm(e.constant, e.linear[v]))
      || (exists p :: e.quad.Keys == {p} && e.linear == map[]
            && p.first.vtype == Binary && p.second.vtype == Binary && BinaryTerm(e.constant, e.quad[p]))
  {
    if !IsConstant(e) && |e.linear| + |e.quad| == 1 {
      if |e.linear| == 1 {
        var v := SingleKey(e.linear);
        assert e.quad.Keys == {};
        assert e.quad == map[];
        if MustBeBinary(e) {
          assert v in e.linear;
        }
      } else {
        var p := SingleKey(e.quad);
        assert e.linear.Keys == {};
        assert e.linear == map[];
        if MustBeBinary(e) {
          assert p in e.quad;
        }
      }
    } else if !IsConstant(e) {
      forall v | e.linear.Keys == {v} && e.quad == map[]
        ensures false
      {
      }
      forall p | e.quad.Keys == {p} && e.linear == map[]
        ensures false
      {
      }
    } else {
      assert e.linear.Keys == {} && e.quad.Keys == {};
    }
  }

  /** The one key of a one-element map, and the map rebuilt from it. */
  lemma SingleKey<K>(m: map<K, real>) returns (k: K)
    requires |m| == 1
    ensures m.Keys == {k} && m == map[k := m[k]]
  {
    k :| k in m;
    var rest := m.Keys - {k};
    assert |rest| == |m.Keys| - 1 == 0;
    assert m.Keys == {k};
  }

  /** An assignment that gives every binary variable the value 0 or 1. */
  ghost predicate RespectsBinary(a: Var -> real) {
    forall v: Var :: v.vtype == Binary ==> a(v) == 0.0 || a(v) == 1.0
  }

  /** `MustBeBinarySound` for the shapes `v` and `1 - v`. */
  lemma {:induction false} BinaryLinearSound(e: Expr, a: Var -> real)
    requires MustBeBinary(e) && RespectsBinary(a) && IsLinear(e) && !IsConstant(e)
    ensures Eval(e, a) == 0.0 || Eval(e, a) == 1.0
  {
    var v := SingleKey(e.linear);
    ClassifierRelations(e, a);
    SumMapSingleton(v, e.linear[v], Weight(a));
    assert a(v) == 0.0 || a(v) == 1.0;
  }

  /** An expression made of a constant and one quadratic term, in a shape
      `MustBeBinary` accepts, is worth 0 or 1 when both variables are. */
  lemma {:induction false} BinaryOneQuadTerm(e: Expr, p: VarPair, c: real, a: Var -> real)
    requires e.linear == map[] && e.quad == map[p := c] && BinaryTerm(e.constant, c)
    requires a(p.first) == 0.0 || a(p.first) == 1.0
    requires a(p.second) == 0.0 || a(p.second) == 1.0
    ensures Eval(e, a) == 0.0 || Eval(e, a) == 1.0
  {
    SumMapEmpty(Weight(a));
    SumMapSingleton(p, c, Weight(PairValue(a)));
    BinaryProduct(a(p.first), a(p.second));
  }

  /** `MustBeBinarySound` for the shapes `v1*v2` and `1 - v1*v2`. */
  lemma {:induction false} BinaryQuadSound(e: Expr, a: Var -> real)
    requires MustBeBinary(e) && RespectsBinary(a) && IsQuadratic(e)
    ensures Eval(e, a) == 0.0 || Eval(e, a) == 1.0
  {
    var p := SingleKey(e.quad);
    assert e.linear.Keys == {};
    assert e.linear == map[];
    assert a(p.first) == 0.0 || a(p.first) == 1.0;
    assert a(p.second) == 0.0 || a(p.second) == 1.0;
    BinaryOneQuadTerm(e, p, e.quad[p], a);
  }

  /** What `must_be_binary` guarantees: under every assignment that respects
      the binary variables, the expression's value is 0 or 1. */
  lemma {:induction false} MustBeBinarySound(e: Expr, a: Var -> real)
    requires MustBeBinary(e) && RespectsBinary(a)
    ensures Eval(e, a) == 0.0 || Eval(e, a) == 1.0
  {
    if IsConstant(e) {
      ClassifierRelations(e, a);
    } else if IsLinear(e) {
      BinaryLinearSound(e, a);
    } else {
      BinaryQuadSound(e, a);
    }
  }

  /** The product of two 0/1 values is 0 or 1. */
  lemma BinaryProduct(x: real, y: real)
    requires x == 0.0 || x == 1.0
    requires y == 0.0 || y == 1.0
    ensures x * y == 0.0 || x * y == 1.0
  {
  }

  // ---------------------------------------------------------------------------
  // Accessors. The source lists a term map in the iteration order of its
  // `std::unordered_map`, which nothing specifies; `order` stands for that
  // order, and one order serves all accessors of the same map.

  /** `Expr::linear_vars`. */
  function LinearVars(e: Expr, order: seq<Var>): (r: seq<Var>)
    requires Enumerates(order, e.linear.Keys)
    ensures |r| == |e.linear|
    ensures forall v :: v in r <==> v in e.linear
  {
    EnumerationSize(order, e.linear.Keys);
    order
  }

  /** `Expr::linear_coeffs`: position by position, the coefficients of
      `linear_vars`. */
  function LinearCoeffs(e: Expr, order: seq<Var>): (r: seq<real>)
    requires Enumerates(order, e.linear.Keys)
    ensures |r| == |order| == |e.linear|
    ensures forall i | 0 <= i < |r| :: r[i] == e.linear[order[i]]
  {
    EnumerationSize(order, e.linear.Keys);
    Lookups(e.linear, order)
  }

  /** `Expr::quad_coeffs`. */
  function QuadCoeffs(e: Expr, order: seq<VarPair>): (r: seq<real>)
    requires Enumerates(order, e.quad.Keys)
    ensures |r| == |order| == |e.quad|
    ensures forall i | 0 <= i < |r| :: r[i] == e.quad[order[i]]
  {
    EnumerationSize(order, e.quad.Keys);
    Lookups(e.quad, order)
  }

  /** `Expr::quad_vars_1`: the first variable of each quadratic key. */
  function QuadVars1(e: Expr, order: seq<VarPair>): (r: seq<Var>)
    requires Enumerates(order, e.quad.Keys)
    ensures |r| == |order| == |e.quad|
    ensures forall i | 0 <= i < |r| :: r[i] == order[i].first
  {
    EnumerationSize(order, e.quad.Keys);
    seq(|order|, i requires 0 <= i < |order| => order[i].first)
  }

  /** `Expr::quad_vars_2`: the second variable of each quadratic key. */
  function QuadVars2(e: Expr, order: seq<VarPair>): (r: seq<Var>)
    requires Enumerates(order, e.quad.Keys)
    ensures |r| == |order| == |e.quad|
    ensures forall i | 0 <= i < |r| :: r[i] == order[i].second
  {
    EnumerationSize(order, e.quad.Keys);
    seq(|order|, i requires 0 <= i < |order| => order[i].second)
  }

  /** Position by position pairs of two variable listings. */
  function PairUp(firsts: seq<Var>, seconds: seq<Var>): (r: seq<VarPair>)
    requires |firsts| == |seconds|
    ensures |r| == |firsts|
    ensures forall i | 0 <= i < |r| :: r[i].first == firsts[i] && r[i].second == seconds[i]
  {
    seq(|firsts|, i requires 0 <= i < |firsts| => VarPair(firsts[i], seconds[i]))
  }

  /** The linear accessors lose nothing: zipping `linear_vars` with
      `linear_coeffs` gives back the linear map. */
  lemma {:induction false} LinearAccessorsRoundTrip(e: Expr, order: seq<Var>)
    requires Enumerates(order, e.linear.Keys)
    ensures Zip(LinearVars(e, order), LinearCoeffs(e, order)) == e.linear
  {
    ListingRoundTrip(e.linear, order);
  }

  /** The quadratic accessors lose nothing: pairing `quad_vars_1` with
      `quad_vars_2` position by position gives the keys of `quad_coeffs`, and
      zipping them gives back the quadratic map. */
  lemma {:induction false} QuadAccessorsRoundTrip(e: Expr, order: seq<VarPair>)
    requires Enumerates(order, e.quad.Keys)
    ensures PairUp(QuadVars1(e, order), QuadVars2(e, order)) == order
    ensures Zip(PairUp(QuadVars1(e, order), QuadVars2(e, order)), QuadCoeffs(e, order)) == e.quad
  {
    var ps := PairUp(QuadVars1(e, order), QuadVars2(e, order));
    assert |ps| == |order|;
    forall i | 0 <= i < |order|
      ensures ps[i] == order[i]
    {
    }
    assert ps == order;
    ListingRoundTrip(e.quad, order);
  }
}
