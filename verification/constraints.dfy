/** Constraint formation (miplib/constr.hpp, miplib/constr.cpp). A constraint
    is an expression related to 0 by `<=` or `=`; the comparison operators
    fold `e1 ◁ e2` into `e1 - e2 ◁ 0`. An indicator constraint pairs an
    implicant with an implicand. This module gives the values the front end
    builds and hands to the solver's factory (`create_constr`,
    `create_indicator_constr`); each backend module models its own factory.
    Gurobi's `create_constr` accepts every constraint built here, while
    SCIP's and lp_solve's also fail for one whose expression is constant
    (`Scip.Compare`, `Lpsolve.Compare`). */
module Constraints {
  import opened Wrappers
  import opened Errors
  import opened Variables
  import opened TermMaps
  import opened Expressions
  import opened Printing

  /** `Constr::Type`: there are exactly two relations. */
  datatype ConstrType = LessEqual | Equal

  /** The fields that `detail::IConstr` stores; the accessors `expr()`,
      `type()` and `name()` return them unchanged. */
  datatype Constr = Constr(expr: Expr, ctype: ConstrType, name: Option<string>)

  /** The fields that `detail::IIndicatorConstr` stores. */
  datatype IndicatorConstr = IndicatorConstr(implicant: Constr, implicand: Constr, name: Option<string>)

  // ---------------------------------------------------------------------------
  // Meaning

  /** The constraint `expr ◁ 0` is satisfied by the assignment `a`. */
  ghost predicate Holds(c: Constr, a: Var -> real) {
    match c.ctype
    case LessEqual => Eval(c.expr, a) <= 0.0
    case Equal => Eval(c.expr, a) == 0.0
  }

  /** The indicator constraint is satisfied: the implicand holds whenever the
      implicant does. */
  ghost predicate IndicatorHolds(ic: IndicatorConstr, a: Var -> real) {
    Holds(ic.implicant, a) ==> Holds(ic.implicand, a)
  }

  // ---------------------------------------------------------------------------
  // Comparison operators

  /** The front end's part of `operator<=` and `operator==`: comparing two
      constant expressions is an error (neither has a solver to attach the
      constraint to); otherwise the constraint is `e1 - e2 ◁ 0`, unnamed.
      This is the whole of forming a comparison with Gurobi; the factories of
      SCIP and lp_solve then refuse a constant `e1 - e2` as well. */
  function Relate(ctype: ConstrType, e1: Expr, e2: Expr): (r: Result<Constr, Error>)
    ensures r.Err? <==> IsConstant(e1) && IsConstant(e2)
    ensures r.Err? ==> r.error == ConstantConstraint
    ensures r.Ok? ==> r.value.ctype == ctype && r.value.name == None
  {
    if !IsConstant(e1) || !IsConstant(e2) then Ok(Constr(Sub(e1, e2), ctype, None))
    else Err(ConstantConstraint)
  }

  /** `e1 <= e2`. */
  function LessEq(e1: Expr, e2: Expr): Result<Constr, Error> {
    Relate(LessEqual, e1, e2)
  }

  /** `e1 == e2`. */
  function Eq(e1: Expr, e2: Expr): Result<Constr, Error> {
    Relate(Equal, e1, e2)
  }

  /** `e1 >= e2`, which the header implements as `e2 <= e1`. */
  function GreaterEq(e1: Expr, e2: Expr): Result<Constr, Error> {
    LessEq(e2, e1)
  }

  /** A formed constraint means the comparison it was written with. */
  lemma {:induction false} RelateMeaning(ctype: ConstrType, e1: Expr, e2: Expr, a: Var -> real)
    requires !IsConstant(e1) || !IsConstant(e2)
    ensures Relate(ctype, e1, e2).Ok?
    ensures Holds(Relate(ctype, e1, e2).value, a) <==>
      (if ctype == LessEqual then Eval(e1, a) <= Eval(e2, a) else Eval(e1, a) == Eval(e2, a))
  {
    EvalSub(e1, e2, a);
  }

  lemma {:induction false} LessEqMeaning(e1: Expr, e2: Expr, a: Var -> real)
    requires !IsConstant(e1) || !IsConstant(e2)
    ensures LessEq(e1, e2).Ok? && LessEq(e1, e2).value.ctype == LessEqual
    ensures Holds(LessEq(e1, e2).value, a) <==> Eval(e1, a) <= Eval(e2, a)
  {
    RelateMeaning(LessEqual, e1, e2, a);
  }

  lemma {:induction false} EqMeaning(e1: Expr, e2: Expr, a: Var -> real)
    requires !IsConstant(e1) || !IsConstant(e2)
    ensures Eq(e1, e2).Ok? && Eq(e1, e2).value.ctype == Equal
    ensures Holds(Eq(e1, e2).value, a) <==> Eval(e1, a) == Eval(e2, a)
  {
    RelateMeaning(Equal, e1, e2, a);
  }

  lemma {:induction false} GreaterEqMeaning(e1: Expr, e2: Expr, a: Var -> real)
    requires !IsConstant(e1) || !IsConstant(e2)
    ensures GreaterEq(e1, e2).Ok? && GreaterEq(e1, e2).value.ctype == LessEqual
    ensures Holds(GreaterEq(e1, e2).value, a) <==> Eval(e1, a) >= Eval(e2, a)
  {
    RelateMeaning(LessEqual, e2, e1, a);
  }

  /** The stored expression is the difference of the sides: adding the
      right-hand side back gives the left-hand side. */
  lemma {:induction false} RelateDifference(ctype: ConstrType, e1: Expr, e2: Expr)
    requires Valid(e1) && Valid(e2)
    requires !IsConstant(e1) || !IsConstant(e2)
    ensures Relate(ctype, e1, e2).Ok?
    ensures Valid(Relate(ctype, e1, e2).value.expr)
    ensures Add(Relate(ctype, e1, e2).value.expr, e2) == e1
  {
    SubThenAdd(e1, e2);
  }

  /** Subtracting a constant expression only moves the constant. */
  lemma {:induction false} SubConst(e: Expr, c: real)
    requires Valid(e)
    ensures Sub(e, Const(c)) == AddConst(e, -c)
  {
    var noLinear: map<Var, real> := map[];
    var noQuad: map<VarPair, real> := map[];
    assert ScaleTerms(noLinear, -1.0) == map[];
    assert ScaleTerms(noQuad, -1.0) == map[];
    assert Neg(Const(c)) == Const(-c);
    EqualByCoeff(Sub(e, Const(c)).linear, e.linear);
    EqualByCoeff(Sub(e, Const(c)).quad, e.quad);
  }

  // ---------------------------------------------------------------------------
  // Negation

  /** `operator!(Expr)`: only an expression that must be binary can be
      negated, and its negation is `e == 0`. That comparison is itself an
      error for the constants 0 and 1. */
  function Negate(e: Expr): (r: Result<Constr, Error>)
    ensures r.Err? <==> !MustBeBinary(e) || IsConstant(e)
    ensures r.Err? ==> r.error == (if MustBeBinary(e) then ConstantConstraint else NonBinaryNegation)
    ensures r.Ok? ==> r.value.ctype == Equal && r.value.name == None
  {
    if !MustBeBinary(e) then Err(NonBinaryNegation) else Eq(e, Const(0.0))
  }

  /** A negation stores the expression itself. */
  lemma {:induction false} NegateExpression(e: Expr)
    requires Valid(e) && Negate(e).Ok?
    ensures Negate(e).value == Constr(e, Equal, None)
  {
    SubConst(e, 0.0);
  }

  /** Under an assignment that respects the binary variables, the negation
      holds exactly when the expression is not 1. */
  lemma {:induction false} NegateMeaning(e: Expr, a: Var -> real)
    requires Negate(e).Ok? && RespectsBinary(a)
    ensures Holds(Negate(e).value, a) <==> Eval(e, a) != 1.0
  {
    EqMeaning(e, Const(0.0), a);
    EvalConst(0.0, a);
    MustBeBinarySound(e, a);
  }

  // ---------------------------------------------------------------------------
  // Indicator constraints

  /** The pair `implicant -> implicand`, unnamed, that `operator>>` and
      `operator<<` hand to the solver's `create_indicator_constr`. */
  function Implies(implicant: Constr, implicand: Constr): (r: IndicatorConstr)
    ensures r.implicant == implicant && r.implicand == implicand && r.name == None
  {
    IndicatorConstr(implicant, implicand, None)
  }

  /** `implicand << implicant`: the same pair, written the other way round. */
  function ImpliedBy(implicand: Constr, implicant: Constr): (r: IndicatorConstr)
    ensures r == Implies(implicant, implicand)
  {
    IndicatorConstr(implicant, implicand, None)
  }

  /** `implicant >> implicand` and `implicand << implicant` find the solver
      through the implicand's expression, and `ExprImpl::solver` fails for
      a constant expression. */
  function Indicate(implicant: Constr, implicand: Constr): (r: Result<IndicatorConstr, Error>)
    ensures r.Err? <==> IsConstant(implicand.expr)
    ensures r.Err? ==> r.error == NoSolver
    ensures r.Ok? ==> r.value.implicant == implicant && r.value.implicand == implicand && r.value.name == None
  {
    if IsConstant(implicand.expr) then Err(NoSolver) else Ok(Implies(implicant, implicand))
  }

  /** The front end accepts `x <= x` and stores the constant 0, so no
      indicator constraint can have it as its implicand. Only Gurobi's
      factory goes on to form it (`Gurobi.SelfComparisonForms`); SCIP's and
      lp_solve's refuse it (`Scip.SelfComparisonFails`). */
  lemma {:induction false} SelfComparisonHasNoSolver(x: Var, implicant: Constr)
    ensures LessEq(FromVar(x), FromVar(x)).Ok?
    ensures IsConstant(LessEq(FromVar(x), FromVar(x)).value.expr)
    ensures Indicate(implicant, LessEq(FromVar(x), FromVar(x)).value) == Err(NoSolver)
  {
    var d := Sub(FromVar(x), FromVar(x));
    NegCoefficients(FromVar(x));
    EqualByCoeff(d.linear, map[]);
    EqualByCoeff(d.quad, map[]);
  }

  /** `Expr >> Constr`: the implicant is `implicant == 1`, which is an error
      for a constant implicant; then the solver is found as for
      `Constr >> Constr`. */
  function ExprImplies(implicant: Expr, implicand: Constr): (r: Result<IndicatorConstr, Error>)
    ensures r.Err? <==> IsConstant(implicant) || IsConstant(implicand.expr)
    ensures r.Err? ==> r.error == (if IsConstant(implicant) then ConstantConstraint else NoSolver)
    ensures r.Ok? ==> r.value.implicand == implicand && r.value.implicant.ctype == Equal && r.value.name == None
  {
    var p :- Eq(implicant, Const(1.0));
    Indicate(p, implicand)
  }

  /** `Constr << Expr`: the same as `Expr >> Constr`. */
  function ImpliedByExpr(implicand: Constr, implicant: Expr): (r: Result<IndicatorConstr, Error>)
    ensures r == ExprImplies(implicant, implicand)
  {
    var p :- Eq(implicant, Const(1.0));
    Indicate(p, implicand)
  }

  /** An expression implicant is taken as "the expression is 1". */
  lemma {:induction false} ExprImpliesMeaning(implicant: Expr, implicand: Constr, a: Var -> real)
    requires !IsConstant(implicant) && !IsConstant(implicand.expr)
    ensures ExprImplies(implicant, implicand).Ok?
    ensures IndicatorHolds(ExprImplies(implicant, implicand).value, a) <==>
      (Eval(implicant, a) == 1.0 ==> Holds(implicand, a))
  {
    EqMeaning(implicant, Const(1.0), a);
    EvalConst(1.0, a);
  }

  // ---------------------------------------------------------------------------
  // Text

  /** The relation and right-hand side that `operator<<(ostream, Constr)`
      writes after the expression. */
  function RelationText(t: ConstrType): string {
    if t == LessEqual then " <= 0" else " = 0"
  }

  /** `operator<<(ostream, Constr)`, given the hash maps' iteration orders. */
  function ConstrText(c: Constr, quadOrder: seq<VarPair>, linearOrder: seq<Var>, num: real -> string): string
    requires Enumerates(quadOrder, c.expr.quad.Keys) && Enumerates(linearOrder, c.expr.linear.Keys)
  {
    ToText(c.expr, quadOrder, linearOrder, num) + RelationText(c.ctype)
  }

  /** `operator<<(ostream, IndicatorConstr)`: implicant, arrow, implicand. */
  function IndicatorText(ic: IndicatorConstr, q1: seq<VarPair>, l1: seq<Var>, q2: seq<VarPair>, l2: seq<Var>,
                         num: real -> string): string
    requires Enumerates(q1, ic.implicant.expr.quad.Keys) && Enumerates(l1, ic.implicant.expr.linear.Keys)
    requires Enumerates(q2, ic.implicand.expr.quad.Keys) && Enumerates(l2, ic.implicand.expr.linear.Keys)
  {
    ConstrText(ic.implicant, q1, l1, num) + " -> " + ConstrText(ic.implicand, q2, l2, num)
  }

  /** Reading the relation back from the end of a printed constraint. */
  function RelationOfText(s: string): (r: Option<ConstrType>)
    ensures r == Some(LessEqual) ==> |s| >= 5 && s[|s| - 5..] == " <= 0"
    ensures r == Some(Equal) ==> |s| >= 4 && s[|s| - 4..] == " = 0"
  {
    if |s| >= 5 && s[|s| - 5..] == " <= 0" then Some(LessEqual)
    else if |s| >= 4 && s[|s| - 4..] == " = 0" then Some(Equal)
    else None
  }

  /** The printed relation identifies the constraint's type. */
  lemma {:induction false} ConstrTextRelation(c: Constr, quadOrder: seq<VarPair>, linearOrder: seq<Var>, num: real -> string)
    requires Enumerates(quadOrder, c.expr.quad.Keys) && Enumerates(linearOrder, c.expr.linear.Keys)
    ensures RelationOfText(ConstrText(c, quadOrder, linearOrder, num)) == Some(c.ctype)
  {
    var t := ToText(c.expr, quadOrder, linearOrder, num);
    var s := ConstrText(c, quadOrder, linearOrder, num);
    var rel := RelationText(c.ctype);
    assert s == t + rel;
    assert s[|s| - |rel|..] == rel;
    if c.ctype == Equal && |s| >= 5 {
      assert s[|s| - 4] == rel[0] == ' ';
      assert s[|s| - 5..][1] == s[|s| - 4];
    }
  }

  /** The text does not depend on the hash maps' iteration orders. */
  lemma {:induction false} ConstrTextOrderIndependent(c: Constr, q1: seq<VarPair>, l1: seq<Var>, q2: seq<VarPair>, l2: seq<Var>,
                                                      num: real -> string)
    requires Enumerates(q1, c.expr.quad.Keys) && Enumerates(l1, c.expr.linear.Keys)
    requires Enumerates(q2, c.expr.quad.Keys) && Enumerates(l2, c.expr.linear.Keys)
    requires DistinctIds(c.expr)
    ensures ConstrText(c, q1, l1, num) == ConstrText(c, q2, l2, num)
  {
    ToTextOrderIndependent(c.expr, q1, l1, q2, l2, num);
  }

  /** The text of an indicator constraint does not depend on the hash maps'
      iteration orders on either side of the arrow. */
  lemma {:induction false} IndicatorTextOrderIndependent(ic: IndicatorConstr,
                                                         q1: seq<VarPair>, l1: seq<Var>, q2: seq<VarPair>, l2: seq<Var>,
                                                         r1: seq<VarPair>, m1: seq<Var>, r2: seq<VarPair>, m2: seq<Var>,
                                                         num: real -> string)
    requires Enumerates(q1, ic.implicant.expr.quad.Keys) && Enumerates(l1, ic.implicant.expr.linear.Keys)
    requires Enumerates(q2, ic.implicand.expr.quad.Keys) && Enumerates(l2, ic.implicand.expr.linear.Keys)
    requires Enumerates(r1, ic.implicant.expr.quad.Keys) && Enumerates(m1, ic.implicant.expr.linear.Keys)
    requires Enumerates(r2, ic.implicand.expr.quad.Keys) && Enumerates(m2, ic.implicand.expr.linear.Keys)
    requires DistinctIds(ic.implicant.expr) && DistinctIds(ic.implicand.expr)
    ensures IndicatorText(ic, q1, l1, q2, l2, num) == IndicatorText(ic, r1, m1, r2, m2, num)
  {
    ConstrTextOrderIndependent(ic.implicant, q1, l1, r1, m1, num);
    ConstrTextOrderIndependent(ic.implicand, q2, l2, r2, m2, num);
  }
}
