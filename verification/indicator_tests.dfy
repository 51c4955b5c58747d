/** The indicator-constraint scenarios of test/unit/solver.cpp, for the
    Gurobi and SCIP factories. `z1` and `z2` are two distinct variables,
    allocated in either order, both binary except where a scenario says
    otherwise. Each scenario forms its constraints with the front-end
    operators and hands the pair to `create_indicator_constr`, which rejects
    it with the error named or accepts it; since this happens when the
    indicator constraint is formed, it does not depend on the indicator
    policy. Every scenario comes out the same under the source's rule for
    the activating value and under the corrected one. */
module IndicatorTests {
  import opened Wrappers
  import opened Errors
  import opened Variables
  import opened TermMaps
  import opened Expressions
  import opened Products
  import opened Constraints
  import opened ConstraintTests
  import opened NativeIndicators

  predicate IndicatorTestVars(z1: Var, z2: Var) {
    !IsSame(z1, z2) && z1.vtype == Binary && z2.vtype == Binary
  }

  // ---------------------------------------------------------------------------
  // The formed constraints

  /** `z1 == 0`, stored as `z1 = 0`. */
  function ZeroImplicant(z1: Var): Constr {
    Constr(Expr(0.0, map[z1 := 1.0], map[]), Equal, None)
  }

  /** `z2 >= 1`, stored as `1 - z2 <= 0`. */
  function AtLeastOne(z2: Var): Constr {
    Constr(Expr(1.0, map[z2 := -1.0], map[]), LessEqual, None)
  }

  /** `z1 + z2 == 2`, stored as `z1 + z2 - 2 = 0`. */
  function SumImplicant(z1: Var, z2: Var): Constr {
    Constr(Expr(-2.0, map[z1 := 1.0, z2 := 1.0], map[]), Equal, None)
  }

  /** `z1 * z2 == 0`, stored as `z1 z2 = 0` under the canonical key. */
  function ProductImplicant(z1: Var, z2: Var): Constr {
    Constr(Expr(0.0, map[], map[Ordered(VarPair(z1, z2)) := 1.0]), Equal, None)
  }

  /** `z2 * z1 >= 1`, stored as `1 - z1 z2 <= 0` under the canonical key. */
  function ProductImplicand(z1: Var, z2: Var): Constr {
    Constr(Expr(1.0, map[], map[Ordered(VarPair(z1, z2)) := -1.0]), LessEqual, None)
  }

  /** `z1 + z2 == 2` stores `z1 + z2 - 2`. */
  lemma SumEqualsTwo(z1: Var, z2: Var)
    requires z1 != z2
    ensures Eq(VarPlusVar(z1, z2), Const(2.0)) == Ok(SumImplicant(z1, z2))
  {
    var s := VarPlusVar(z1, z2);
    EqualByCoeff(s.linear, map[z1 := 1.0, z2 := 1.0]);
    SubConst(s, 2.0);
  }

  /** `z1 * z2 == 0` stores `z1 z2`. */
  lemma ProductEqualsZero(z1: Var, z2: Var)
    ensures Eq(VarTimesVar(z1, z2), Const(0.0)) == Ok(ProductImplicant(z1, z2))
  {
    var p := Expr(0.0, map[], map[Ordered(VarPair(z1, z2)) := 1.0]);
    assert VarTimesVar(z1, z2) == p;
    assert Ordered(VarPair(z1, z2)) in p.quad;
    ProductMinusZero(z1, z2);
    assert Eq(p, Const(0.0)) == Ok(Constr(Sub(p, Const(0.0)), Equal, None));
  }

  lemma ProductMinusZero(z1: Var, z2: Var)
    ensures Sub(VarTimesVar(z1, z2), Const(0.0)) == Expr(0.0, map[], map[Ordered(VarPair(z1, z2)) := 1.0])
  {
    var p := Expr(0.0, map[], map[Ordered(VarPair(z1, z2)) := 1.0]);
    assert VarTimesVar(z1, z2) == p;
    assert Valid(p);
    SubConst(p, 0.0);
  }

  /** `z2 * z1 >= 1` stores `1 - z1 z2`: the two orders share one key. */
  lemma SwappedProductAtLeastOne(z1: Var, z2: Var)
    requires !IsSame(z1, z2)
    ensures GreaterEq(VarTimesVar(z2, z1), Const(1.0)) == Ok(ProductImplicand(z1, z2))
  {
    VarTimesVarCoalesces(z2, z1);
    ConstantMinusProduct(1.0, z1, z2);
  }

  // ---------------------------------------------------------------------------
  // The factory on those constraints

  /** `(z1 == 0) << (z2 >= 1)`, with `z2` an integer variable: the
      implicant `1 - z2 <= 0` is not an equation. */
  lemma InequationImplicantRejected(b: BackendName, z1: Var, z2: Var)
    requires z1.vtype == Binary && z2.vtype == Integer
    ensures var ic := ImpliedBy(ZeroImplicant(z1), AtLeastOne(z2));
      CheckAsWritten(b, ic, [z2]) == Err(IndicatorNeedsEquation(b)) && CheckIndicator(b, ic, [z2]) == CheckAsWritten(b, ic, [z2])
    ensures Eq(FromVar(z1), Const(0.0)) == Ok(ZeroImplicant(z1))
    ensures GreaterEq(FromVar(z2), Const(1.0)) == Ok(AtLeastOne(z2))
  {
    VarEqualsZero(z1);
    VarAtLeastOne(z2);
  }

  /** `(z1 + z2 == 2) >> (z2 >= 1)`: the implicant has two variables. */
  lemma TwoVariableImplicantRejected(b: BackendName, z1: Var, z2: Var)
    requires IndicatorTestVars(z1, z2)
    ensures SumImplicant(z1, z2).expr.linear.Keys == {z1, z2}
    ensures var ic := Implies(SumImplicant(z1, z2), AtLeastOne(z2));
      CheckAsWritten(b, ic, [z1, z2]) == Err(IndicatorNeedsSingleVariable(b)) &&
      CheckIndicator(b, ic, [z1, z2]) == CheckAsWritten(b, ic, [z1, z2])
    ensures Eq(VarPlusVar(z1, z2), Const(2.0)) == Ok(SumImplicant(z1, z2))
    ensures GreaterEq(FromVar(z2), Const(1.0)) == Ok(AtLeastOne(z2))
  {
    var m := map[z1 := 1.0, z2 := 1.0];
    assert m.Keys == {z1, z2};
    assert |m| == 2;
    SumEqualsTwo(z1, z2);
    VarAtLeastOne(z2);
  }

  /** `(z1 == 0) >> (z2 * z1 >= 1)`: the implicant is accepted, with
      activating value 0, but the implicand is quadratic. */
  lemma QuadraticImplicandRejected(b: BackendName, z1: Var, z2: Var)
    requires IndicatorTestVars(z1, z2)
    ensures var ic := Implies(ZeroImplicant(z1), ProductImplicand(z1, z2));
      CheckAsWritten(b, ic, [z1]) == Err(IndicatorNeedsLinearImplicand(b)) && CheckIndicator(b, ic, [z1]) == CheckAsWritten(b, ic, [z1])
    ensures Eq(FromVar(z1), Const(0.0)) == Ok(ZeroImplicant(z1))
    ensures GreaterEq(VarTimesVar(z2, z1), Const(1.0)) == Ok(ProductImplicand(z1, z2))
  {
    VarEqualsZero(z1);
    SwappedProductAtLeastOne(z1, z2);
  }

  /** `(z1 * z2 == 0) >> (z2 >= 1)`: the implicant is quadratic. */
  lemma QuadraticImplicantRejected(b: BackendName, z1: Var, z2: Var)
    requires IndicatorTestVars(z1, z2)
    ensures var ic := Implies(ProductImplicant(z1, z2), AtLeastOne(z2));
      CheckAsWritten(b, ic, []) == Err(IndicatorNeedsLinearImplicant(b)) && CheckIndicator(b, ic, []) == CheckAsWritten(b, ic, [])
    ensures Eq(VarTimesVar(z1, z2), Const(0.0)) == Ok(ProductImplicant(z1, z2))
    ensures GreaterEq(FromVar(z2), Const(1.0)) == Ok(AtLeastOne(z2))
  {
    ProductEqualsZero(z1, z2);
    VarAtLeastOne(z2);
  }

  /** `(z1 == 0) >> (z2 >= 1)`, with both sides linear, is accepted and
      switched on by `z1 = 0`. */
  lemma LinearIndicatorAccepted(b: BackendName, z1: Var, z2: Var)
    requires IndicatorTestVars(z1, z2)
    ensures var ic := Implies(ZeroImplicant(z1), AtLeastOne(z2));
      CheckAsWritten(b, ic, [z1]) == Ok(Activation(z1, 0)) && CheckIndicator(b, ic, [z1]) == CheckAsWritten(b, ic, [z1])
    ensures Eq(FromVar(z1), Const(0.0)) == Ok(ZeroImplicant(z1))
    ensures GreaterEq(FromVar(z2), Const(1.0)) == Ok(AtLeastOne(z2))
  {
    VarEqualsZero(z1);
    VarAtLeastOne(z2);
  }
}
