/** The decision rules of the Gurobi backend (miplib/gurobi/solver.cpp):
    the bounds a new variable is given, which kind of constraint an
    expression becomes, the row a constraint is posted as, the native
    indicator constraint, and the status map of `solve`. The Gurobi model is
    a record of the rows and indicator constraints posted so far. */
module Gurobi {
  import opened Wrappers
  import opened Errors
  import opened Variables
  import opened TermMaps
  import opened Expressions
  import opened Constraints
  import opened Dispatch
  import opened Rows
  import opened NativeIndicators

  // ---------------------------------------------------------------------------
  // Variables

  /** A bound given by the caller, or the infinite default. */
  function BoundOr(given: Option<real>, default: Bound): (r: Bound)
    ensures given.Some? ==> r == Finite(given.value)
    ensures given.None? ==> r == default
  {
    match given
    case Some(x) => Finite(x)
    case None => default
  }

  /** `create_var`: the bounds passed to `addVar`. Continuous and integer
      variables take the given bounds, a missing one becoming `∓GRB_INFINITY`;
      a binary variable accepts only absent bounds or `0` and `1`, and is
      created with `[0, 1]`. */
  function CreateVarBounds(vtype: VarType, lb: Option<real>, ub: Option<real>): (r: Result<(Bound, Bound), Error>)
    ensures r.Err? <==> vtype == Binary && (lb.GetOr(0.0) != 0.0 || ub.GetOr(1.0) != 1.0)
    ensures r.Err? ==> r.error == BinaryBoundsNot01
    ensures r.Ok? && vtype == Binary ==> r.value == (Finite(0.0), Finite(1.0))
    ensures vtype != Binary ==> r == Ok((BoundOr(lb, NegInfinity), BoundOr(ub, PosInfinity)))
  {
    match vtype
    case Continuous => Ok((BoundOr(lb, NegInfinity), BoundOr(ub, PosInfinity)))
    case Binary =>
      if lb.GetOr(0.0) != 0.0 || ub.GetOr(1.0) != 1.0 then Err(BinaryBoundsNot01)
      else Ok((Finite(0.0), Finite(1.0)))
    case Integer => Ok((BoundOr(lb, NegInfinity), BoundOr(ub, PosInfinity)))
  }

  /** A variable created with the bounds `create_var` chose reports exactly
      those bounds through `GurobiVar::lb` and `GurobiVar::ub`. */
  lemma {:induction false} CreatedVarReportsBounds(index: nat, vtype: VarType, lb: Option<real>, ub: Option<real>, name: Option<string>)
    requires CreateVarBounds(vtype, lb, ub).Ok?
    ensures var v := Var(index, vtype, CreateVarBounds(vtype, lb, ub).value.0, CreateVarBounds(vtype, lb, ub).value.1, name);
      ReportedLb(v) == v.lb && ReportedUb(v) == v.ub
  {
  }

  /** A given finite bound survives creation: only missing bounds are
      defaulted, and a binary variable's accepted bounds are already 0 and 1. */
  lemma {:induction false} GivenBoundsKept(vtype: VarType, lb: real, ub: real)
    requires CreateVarBounds(vtype, Some(lb), Some(ub)).Ok?
    ensures CreateVarBounds(vtype, Some(lb), Some(ub)).value == (Finite(lb), Finite(ub))
  {
  }

  // ---------------------------------------------------------------------------
  // Constraints

  /** The two constraint classes of the Gurobi backend. */
  datatype ConstrKind = LinConstr | QuadConstr

  /** `create_constr`: a linear expression makes a linear constraint, a
      quadratic one a quadratic constraint. The error branch of the source is
      unreachable, since every expression is one or the other. */
  function CreateConstr(e: Expr): (r: Result<ConstrKind, Error>)
    ensures r.Ok?
    ensures r.value == LinConstr <==> IsLinear(e)
  {
    if IsLinear(e) then Ok(LinConstr)
    else if IsQuadratic(e) then Ok(QuadConstr)
    else Err(UnsupportedConstraint)
  }

  /** Gurobi's factory never consults the expression's solver, so `x <= x`
      is formed, as a linear constraint on the constant 0. */
  lemma {:induction false} SelfComparisonForms(x: Var)
    ensures LessEq(FromVar(x), FromVar(x)).Ok?
    ensures CreateConstr(LessEq(FromVar(x), FromVar(x)).value.expr) == Ok(LinConstr)
  {
    SelfComparisonHasNoSolver(x, LessEq(FromVar(x), FromVar(x)).value);
  }

  /** The sense characters `GRB_LESS_EQUAL` and `GRB_EQUAL`. */
  datatype GrbSense = GrbLessEqual | GrbEqual

  /** A posted row: the expression `constant + terms` (what `as_grb_lin_expr`
      and `as_grb_quad_expr` build), a sense and a right-hand side. */
  datatype GrbRow = GrbRow(kind: ConstrKind, constant: real, terms: Terms, sense: GrbSense, rhs: real)

  /** A posted native indicator: when `binVar` takes `binVal`, the row holds. */
  datatype GrbIndicator = GrbIndicator(binVar: Var, binVal: int, row: GrbRow)

  /** The Gurobi model: the rows and native indicators posted so far. */
  datatype GrbModel = GrbModel(rows: seq<GrbRow>, indicators: seq<GrbIndicator>)

  ghost predicate RowHolds(r: GrbRow, a: Var -> real)
    requires WellFormed(r.terms)
  {
    match r.sense
    case GrbLessEqual => r.constant + TermsValue(r.terms, a) <= r.rhs
    case GrbEqual => r.constant + TermsValue(r.terms, a) == r.rhs
  }

  ghost predicate IndicatorRowHolds(ind: GrbIndicator, a: Var -> real)
    requires WellFormed(ind.row.terms)
  {
    a(ind.binVar) == ind.binVal as real ==> RowHolds(ind.row, a)
  }

  /** The sense of a constraint type: `<=` for `LessEqual`, `=` otherwise. */
  function SenseOf(t: ConstrType): (r: GrbSense)
    ensures r == GrbEqual <==> t.Equal?
  {
    if t == LessEqual then GrbLessEqual else GrbEqual
  }

  /** The row `add(Constr)` posts for `expr ◁ 0`: the listed expression with
      its constant on the left, the sense of the type, and right-hand side 0.
      `lo` and `qo` are the iteration orders of the expression's maps. */
  function RowOf(c: Constr, lo: seq<Var>, qo: seq<VarPair>): (r: GrbRow)
    requires Enumerates(lo, c.expr.linear.Keys) && Enumerates(qo, c.expr.quad.Keys)
    ensures WellFormed(r.terms) && r.rhs == 0.0 && r.constant == c.expr.constant
    ensures r.kind == LinConstr <==> IsLinear(c.expr)
  {
    GrbRow(CreateConstr(c.expr).value, c.expr.constant, ListTerms(c.expr, lo, qo), SenseOf(c.ctype), 0.0)
  }

  /** The posted row holds exactly when the constraint does. */
  lemma {:induction false} RowOfMeaning(c: Constr, lo: seq<Var>, qo: seq<VarPair>, a: Var -> real)
    requires Enumerates(lo, c.expr.linear.Keys) && Enumerates(qo, c.expr.quad.Keys)
    ensures RowHolds(RowOf(c, lo, qo), a) <==> Holds(c, a)
  {
    ListTermsValue(c.expr, lo, qo, a);
  }

  /** The posted row describes the constraint's expression exactly. */
  lemma {:induction false} RowOfRoundTrip(c: Constr, lo: seq<Var>, qo: seq<VarPair>)
    requires Enumerates(lo, c.expr.linear.Keys) && Enumerates(qo, c.expr.quad.Keys)
    ensures Rebuild(RowOf(c, lo, qo).constant, RowOf(c, lo, qo).terms) == c.expr
  {
    ListTermsRoundTrip(c.expr, lo, qo);
  }

  /** `add(Constr)`: append the row; the source keeps no record of earlier
      posts, so posting the same constraint again appends it again. */
  function AddConstr(m: GrbModel, c: Constr, lo: seq<Var>, qo: seq<VarPair>): (r: GrbModel)
    requires Enumerates(lo, c.expr.linear.Keys) && Enumerates(qo, c.expr.quad.Keys)
    ensures |r.rows| == |m.rows| + 1 && r.rows[..|m.rows|] == m.rows
    ensures r.indicators == m.indicators
  {
    GrbModel(m.rows + [RowOf(c, lo, qo)], m.indicators)
  }

  /** After `add(Constr)` the model's rows hold exactly when the earlier rows
      and the new constraint do. */
  lemma {:induction false} AddConstrMeaning(m: GrbModel, c: Constr, lo: seq<Var>, qo: seq<VarPair>, a: Var -> real)
    requires Enumerates(lo, c.expr.linear.Keys) && Enumerates(qo, c.expr.quad.Keys)
    requires forall i | 0 <= i < |m.rows| :: WellFormed(m.rows[i].terms)
    ensures var r := AddConstr(m, c, lo, qo);
      (forall i | 0 <= i < |r.rows| :: WellFormed(r.rows[i].terms) && RowHolds(r.rows[i], a)) <==>
      (forall i | 0 <= i < |m.rows| :: RowHolds(m.rows[i], a)) && Holds(c, a)
  {
    var r := AddConstr(m, c, lo, qo);
    RowOfMeaning(c, lo, qo, a);
    assert r.rows[|m.rows|] == RowOf(c, lo, qo);
    assert forall i | 0 <= i < |m.rows| :: r.rows[i] == m.rows[i];
  }

  // ---------------------------------------------------------------------------
  // Native indicator constraints

  /** `add(IndicatorConstr)`: the constraint was accepted by the factory
      (the source only asserts this), and `addGenConstrIndicator` receives the
      implicant's variable, the activating value, and the implicand's linear
      row with right-hand side 0. `value` is the rule for the activating
      value: `ActivationValueAsWritten` is the source's. `lo` is the iteration
      order of the implicant's linear map, `lo2` and `qo2` those of the
      implicand. */
  function IndicatorOf(ic: IndicatorConstr, lo: seq<Var>, lo2: seq<Var>, qo2: seq<VarPair>,
                       value: (real, real) -> Option<int>): (r: GrbIndicator)
    requires Enumerates(lo, ic.implicant.expr.linear.Keys)
    requires Enumerates(lo2, ic.implicand.expr.linear.Keys) && Enumerates(qo2, ic.implicand.expr.quad.Keys)
    requires Check(GurobiName, ic, lo, value).Ok?
    ensures ic.implicant.expr.linear.Keys == {r.binVar}
    ensures value(ic.implicant.expr.linear[r.binVar], ic.implicant.expr.constant) == Some(r.binVal)
    ensures r.row == RowOf(ic.implicand, lo2, qo2) && r.row.kind == LinConstr
  {
    var act := Check(GurobiName, ic, lo, value).value;
    GrbIndicator(act.binVar, act.binVal, RowOf(ic.implicand, lo2, qo2))
  }

  /** Where the rule accepts at a root of the implicant, the posted native
      indicator holds exactly when the indicator constraint does. */
  lemma {:induction false} IndicatorOfMeaning(ic: IndicatorConstr, lo: seq<Var>, lo2: seq<Var>, qo2: seq<VarPair>,
                                              value: (real, real) -> Option<int>, a: Var -> real)
    requires Enumerates(lo, ic.implicant.expr.linear.Keys) && NoZero(ic.implicant.expr.linear)
    requires Enumerates(lo2, ic.implicand.expr.linear.Keys) && Enumerates(qo2, ic.implicand.expr.quad.Keys)
    requires AcceptsAtRoot(GurobiName, ic, lo, value)
    ensures IndicatorRowHolds(IndicatorOf(ic, lo, lo2, qo2, value), a) <==> IndicatorHolds(ic, a)
  {
    AcceptedImplicantMeaning(GurobiName, ic, lo, value, a);
    RowOfMeaning(ic.implicand, lo2, qo2, a);
  }

  /** As written, `2·v = 0.5 >> v <= 0` is posted as "`v = 1` forces
      `v <= 0`". That cuts off `v = 1`, where the implicant is false and the
      indicator constraint holds. */
  lemma AsWrittenIndicatorMisfires(v: Var)
    ensures Check(GurobiName, IndicatorConstr(HalfImplicant(v), Constr(FromVar(v), LessEqual, None), None), [v],
                  ActivationValueAsWritten) == Ok(Activation(v, 1))
    ensures var ic := IndicatorConstr(HalfImplicant(v), Constr(FromVar(v), LessEqual, None), None);
      var a := (x: Var) => 1.0;
      IndicatorHolds(ic, a) && !IndicatorRowHolds(IndicatorOf(ic, [v], [v], [], ActivationValueAsWritten), a)
  {
    var ic := IndicatorConstr(HalfImplicant(v), Constr(FromVar(v), LessEqual, None), None);
    var a := (x: Var) => 1.0;
    AsWrittenAcceptsWrongRoot(GurobiName, v);
    HalfImplicantFalseAtOne(v);
    RowOfMeaning(ic.implicand, [v], [], a);
    EvalFromVar(v, a);
  }

  /** Posting a native indicator appends it and changes nothing else. */
  function AddIndicator(m: GrbModel, ic: IndicatorConstr, lo: seq<Var>, lo2: seq<Var>, qo2: seq<VarPair>,
                        value: (real, real) -> Option<int>): (r: GrbModel)
    requires Enumerates(lo, ic.implicant.expr.linear.Keys)
    requires Enumerates(lo2, ic.implicand.expr.linear.Keys) && Enumerates(qo2, ic.implicand.expr.quad.Keys)
    requires Check(GurobiName, ic, lo, value).Ok?
    ensures r.rows == m.rows
    ensures r.indicators == m.indicators + [IndicatorOf(ic, lo, lo2, qo2, value)]
  {
    GrbModel(m.rows, m.indicators + [IndicatorOf(ic, lo, lo2, qo2, value)])
  }

  // ---------------------------------------------------------------------------
  // Status

  /** The values of `GRB_IntAttr_Status` that `solve` names, and the rest. */
  datatype GrbStatus =
    | GrbOptimal | GrbInfeasible | GrbInfOrUnbd | GrbUnbounded
    | GrbCutoff | GrbIterationLimit | GrbNodeLimit | GrbTimeLimit | GrbSolutionLimit | GrbInterrupted | GrbUserObjLimit
    | GrbNumeric | GrbSuboptimal
    | GrbUnlisted(code: int)

  /** The status map of `solve`. */
  function SolveStatus(s: GrbStatus): SolveResult {
    match s
    case GrbOptimal => Optimal
    case GrbInfeasible => Infeasible
    case GrbInfOrUnbd => InfeasibleOrUnbounded
    case GrbUnbounded => Unbounded
    case GrbCutoff => Interrupted
    case GrbIterationLimit => Interrupted
    case GrbNodeLimit => Interrupted
    case GrbTimeLimit => Interrupted
    case GrbSolutionLimit => Interrupted
    case GrbInterrupted => Interrupted
    case GrbUserObjLimit => Interrupted
    case GrbNumeric => Failed
    case GrbSuboptimal => Failed
    case GrbUnlisted(_) => Other
  }

  /** Each result comes from exactly the statuses the source lists for it. */
  lemma {:induction false} SolveStatusInverse(s: GrbStatus)
    ensures SolveStatus(s) == Optimal <==> s == GrbOptimal
    ensures SolveStatus(s) == Infeasible <==> s == GrbInfeasible
    ensures SolveStatus(s) == InfeasibleOrUnbounded <==> s == GrbInfOrUnbd
    ensures SolveStatus(s) == Unbounded <==> s == GrbUnbounded
    ensures SolveStatus(s) == Interrupted <==>
      s in {GrbCutoff, GrbIterationLimit, GrbNodeLimit, GrbTimeLimit, GrbSolutionLimit, GrbInterrupted, GrbUserObjLimit}
    ensures SolveStatus(s) == Failed <==> s == GrbNumeric || s == GrbSuboptimal
    ensures SolveStatus(s) == Other <==> s.GrbUnlisted?
  {
  }
}
