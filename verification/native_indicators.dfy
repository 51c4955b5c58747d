/** The acceptance rule that the Gurobi and SCIP factories apply to an
    indicator constraint before building it (`create_indicator_constr` in
    miplib/gurobi/solver.cpp and miplib/scip/solver.cpp; the two differ only
    in the backend named in their messages). A native indicator constraint is
    switched on by one binary variable taking one value, so the implicant
    must be an equation in a single variable whose root is 0 or 1, and the
    implicand must be linear.

    For an implicant `a·v + b = 0` the source takes the activating value to
    be `c = -a·b`; the root is `-b/a`. The two agree only when `b = 0` or
    `a = ±1`. `ActivationValueAsWritten` is the source's rule and
    `ActivationValue` the intended one. The backends take the rule as a
    parameter, and what they post means the indicator constraint wherever
    the rule's value is a root of the implicant (`AcceptsAtRoot`): always
    for the intended rule, and for the source's rule exactly in the cases
    `AsWrittenAcceptsAtRoot` names. */
module NativeIndicators {
  import opened Wrappers
  import opened Errors
  import opened Variables
  import opened TermMaps
  import opened Expressions
  import opened Constraints

  /** The variable and value that switch a native indicator constraint on. */
  datatype Activation = Activation(binVar: Var, binVal: int)

  /** The source's rule: `c = -coeff·constant`, accepted when it is 0 or 1,
      then truncated to `int`. */
  function ActivationValueAsWritten(coeff: real, constant: real): (r: Option<int>)
    ensures r.Some? ==> r.value == 0 || r.value == 1
  {
    var c := -coeff * constant;
    if c != 0.0 && c != 1.0 then None
    else Some(if c == 1.0 then 1 else 0)
  }

  /** The intended rule: the value is the root of `coeff·v + constant = 0`,
      accepted when that root is 0 or 1. It is stated without division:
      the root is 0 when the constant is 0, and 1 when `coeff + constant` is
      0. */
  function ActivationValue(coeff: real, constant: real): (r: Option<int>)
    ensures r.Some? ==> r.value == 0 || r.value == 1
  {
    if constant == 0.0 then Some(0)
    else if coeff + constant == 0.0 then Some(1)
    else None
  }

  /** The intended rule accepts exactly the implicants whose root is 0 or 1,
      and its value is that root. */
  lemma {:induction false} ActivationValueIsRoot(coeff: real, constant: real)
    requires coeff != 0.0
    ensures ActivationValue(coeff, constant).Some? <==> (-constant / coeff == 0.0 || -constant / coeff == 1.0)
    ensures ActivationValue(coeff, constant).Some? ==>
      ActivationValue(coeff, constant).value as real == -constant / coeff
  {
    RootOfLine(coeff, constant, 0.0);
    RootOfLine(coeff, constant, 1.0);
  }

  /** `x` solves `coeff·x + constant = 0` exactly when it is `-constant/coeff`. */
  lemma RootOfLine(coeff: real, constant: real, x: real)
    requires coeff != 0.0
    ensures constant + coeff * x == 0.0 <==> x == -constant / coeff
  {
    if x == -constant / coeff {
      assert coeff * x == -constant;
    }
  }

  /** The source's rule gives the intended answer, accepting with the same
      value, exactly when the constant is 0 or the implicant is `v - 1 = 0`
      or `-v + 1 = 0`. */
  lemma {:induction false} AsWrittenAgreement(coeff: real, constant: real)
    requires coeff != 0.0
    ensures (ActivationValueAsWritten(coeff, constant).Some? &&
             ActivationValueAsWritten(coeff, constant) == ActivationValue(coeff, constant)) <==>
            (constant == 0.0 || (coeff == 1.0 && constant == -1.0) || (coeff == -1.0 && constant == 1.0))
  {
    if ActivationValueAsWritten(coeff, constant) == Some(1) && ActivationValue(coeff, constant) == Some(1) {
      assert constant == -coeff;
      UnitSquare(coeff);
    }
  }

  lemma UnitSquare(x: real)
    requires -x * -x == 1.0
    ensures x == 1.0 || x == -1.0
  {
    assert (x - 1.0) * (x + 1.0) == 0.0;
  }

  /** `create_indicator_constr` of Gurobi and SCIP, with the rule for the
      activating value as a parameter. The checks run in the source's order,
      and the first that fails gives the error. `order` is the iteration
      order of the implicant's linear map, which `linear_vars` and
      `linear_coeffs` follow. */
  function Check(backend: BackendName, ic: IndicatorConstr, order: seq<Var>,
                 value: (real, real) -> Option<int>): (r: Result<Activation, Error>)
    requires Enumerates(order, ic.implicant.expr.linear.Keys)
    ensures ic.implicant.ctype != Equal ==> r == Err(IndicatorNeedsEquation(backend))
    ensures ic.implicant.ctype == Equal && !IsLinear(ic.implicant.expr) ==> r == Err(IndicatorNeedsLinearImplicant(backend))
    ensures ic.implicant.ctype == Equal && IsLinear(ic.implicant.expr) && |ic.implicant.expr.linear| != 1 ==>
      r == Err(IndicatorNeedsSingleVariable(backend))
    ensures ic.implicant.ctype == Equal && IsLinear(ic.implicant.expr) && |ic.implicant.expr.linear| == 1 ==>
      && (value(ic.implicant.expr.linear[order[0]], ic.implicant.expr.constant).None? ==>
            r == Err(IndicatorNeedsZeroOne(backend)))
      && (value(ic.implicant.expr.linear[order[0]], ic.implicant.expr.constant).Some? && !IsLinear(ic.implicand.expr) ==>
            r == Err(IndicatorNeedsLinearImplicand(backend)))
    ensures r.Ok? <==>
      && ic.implicant.ctype == Equal && IsLinear(ic.implicant.expr) && |ic.implicant.expr.linear| == 1
      && value(ic.implicant.expr.linear[order[0]], ic.implicant.expr.constant).Some?
      && IsLinear(ic.implicand.expr)
    ensures r.Ok? ==>
      ic.implicant.expr.linear.Keys == {r.value.binVar} &&
      value(ic.implicant.expr.linear[r.value.binVar], ic.implicant.expr.constant) == Some(r.value.binVal)
  {
    var e := ic.implicant.expr;
    if ic.implicant.ctype != Equal then Err(IndicatorNeedsEquation(backend))
    else if !IsLinear(e) then Err(IndicatorNeedsLinearImplicant(backend))
    else
      var vars := LinearVars(e, order);
      var coeffs := LinearCoeffs(e, order);
      if |vars| != 1 then Err(IndicatorNeedsSingleVariable(backend))
      else
        match value(coeffs[0], e.constant)
        case None => Err(IndicatorNeedsZeroOne(backend))
        case Some(c) =>
          if !IsLinear(ic.implicand.expr) then Err(IndicatorNeedsLinearImplicand(backend))
          else Ok(Activation(vars[0], c))
  }

  /** The factories as the source writes them. */
  function CheckAsWritten(backend: BackendName, ic: IndicatorConstr, order: seq<Var>): Result<Activation, Error>
    requires Enumerates(order, ic.implicant.expr.linear.Keys)
  {
    Check(backend, ic, order, ActivationValueAsWritten)
  }

  /** The factories with the intended rule; the backends use this one. */
  function CheckIndicator(backend: BackendName, ic: IndicatorConstr, order: seq<Var>): Result<Activation, Error>
    requires Enumerates(order, ic.implicant.expr.linear.Keys)
  {
    Check(backend, ic, order, ActivationValue)
  }

  /** The two factories differ only at the activating value: they give the
      same answer for every implicant other than a linear equation in one
      variable, and on such an equation with a linear implicand the source's
      accepts with the intended value exactly when the constant is 0 or the
      implicant is `v - 1 = 0` or `-v + 1 = 0`. */
  lemma {:induction false} CheckRulesAgree(backend: BackendName, ic: IndicatorConstr, order: seq<Var>)
    requires Enumerates(order, ic.implicant.expr.linear.Keys) && NoZero(ic.implicant.expr.linear)
    ensures !(ic.implicant.ctype == Equal && IsLinear(ic.implicant.expr) && |ic.implicant.expr.linear| == 1) ==>
      CheckAsWritten(backend, ic, order) == CheckIndicator(backend, ic, order)
    ensures ic.implicant.ctype == Equal && IsLinear(ic.implicant.expr) && |ic.implicant.expr.linear| == 1 &&
            IsLinear(ic.implicand.expr) ==>
      var k, b := ic.implicant.expr.linear[order[0]], ic.implicant.expr.constant;
      (CheckAsWritten(backend, ic, order).Ok? && CheckAsWritten(backend, ic, order) == CheckIndicator(backend, ic, order)) <==>
      (b == 0.0 || (k == 1.0 && b == -1.0) || (k == -1.0 && b == 1.0))
  {
    var e := ic.implicant.expr;
    if ic.implicant.ctype == Equal && IsLinear(e) && |e.linear| == 1 && IsLinear(ic.implicand.expr) {
      EnumerationSize(order, e.linear.Keys);
      assert order[0] in e.linear;
      AsWrittenAgreement(e.linear[order[0]], e.constant);
    }
  }

  /** Where the rule accepts the implicant `coeff·v + constant = 0`, its
      value is 0 or 1 and solves the implicant. */
  predicate YieldsRoot(value: (real, real) -> Option<int>, coeff: real, constant: real) {
    value(coeff, constant).Some? ==>
      var c := value(coeff, constant).value;
      (c == 0 || c == 1) && constant + coeff * c as real == 0.0
  }

  /** The intended rule's value is always a root. */
  lemma IntendedYieldsRoot(coeff: real, constant: real)
    ensures YieldsRoot(ActivationValue, coeff, constant)
  {
  }

  /** The source's value is a root exactly when the source rejects the
      implicant, or the constant is 0, or the implicant is `v - 1 = 0` or
      `-v + 1 = 0`. */
  lemma {:induction false} AsWrittenYieldsRoot(coeff: real, constant: real)
    requires coeff != 0.0
    ensures YieldsRoot(ActivationValueAsWritten, coeff, constant) <==>
      || ActivationValueAsWritten(coeff, constant).None?
      || constant == 0.0
      || (coeff == 1.0 && constant == -1.0)
      || (coeff == -1.0 && constant == 1.0)
  {
    if ActivationValueAsWritten(coeff, constant) == Some(1) && constant + coeff == 0.0 {
      assert constant == -coeff;
      UnitSquare(coeff);
    }
    if constant != 0.0 && ActivationValueAsWritten(coeff, constant) == Some(0) {
      assert -coeff * constant != 0.0;
    }
  }

  /** The rule accepts the indicator constraint, and its value is a root of
      the implicant. */
  predicate AcceptsAtRoot(backend: BackendName, ic: IndicatorConstr, order: seq<Var>,
                          value: (real, real) -> Option<int>)
    requires Enumerates(order, ic.implicant.expr.linear.Keys)
  {
    var r := Check(backend, ic, order, value);
    r.Ok? && YieldsRoot(value, ic.implicant.expr.linear[r.value.binVar], ic.implicant.expr.constant)
  }

  /** Whatever the intended rule accepts, it accepts at a root. */
  lemma IntendedAcceptsAtRoot(backend: BackendName, ic: IndicatorConstr, order: seq<Var>)
    requires Enumerates(order, ic.implicant.expr.linear.Keys)
    requires CheckIndicator(backend, ic, order).Ok?
    ensures AcceptsAtRoot(backend, ic, order, ActivationValue)
  {
    var act := CheckIndicator(backend, ic, order).value;
    IntendedYieldsRoot(ic.implicant.expr.linear[act.binVar], ic.implicant.expr.constant);
  }

  /** What the source's rule accepts, it accepts at a root exactly when the
      implicant's constant is 0 or the implicant is `v - 1 = 0` or
      `-v + 1 = 0`. */
  lemma {:induction false} AsWrittenAcceptsAtRoot(backend: BackendName, ic: IndicatorConstr, order: seq<Var>)
    requires Enumerates(order, ic.implicant.expr.linear.Keys) && NoZero(ic.implicant.expr.linear)
    requires CheckAsWritten(backend, ic, order).Ok?
    ensures var k := ic.implicant.expr.linear[CheckAsWritten(backend, ic, order).value.binVar];
      var b := ic.implicant.expr.constant;
      AcceptsAtRoot(backend, ic, order, ActivationValueAsWritten) <==>
        b == 0.0 || (k == 1.0 && b == -1.0) || (k == -1.0 && b == 1.0)
  {
    var act := CheckAsWritten(backend, ic, order).value;
    var k := ic.implicant.expr.linear[act.binVar];
    assert k != 0.0;
    AsWrittenYieldsRoot(k, ic.implicant.expr.constant);
  }

  /** Accepted at a root, the implicant holds exactly when the activating
      variable takes the activating value. */
  lemma {:induction false} AcceptedImplicantMeaning(backend: BackendName, ic: IndicatorConstr, order: seq<Var>,
                                                    value: (real, real) -> Option<int>, a: Var -> real)
    requires Enumerates(order, ic.implicant.expr.linear.Keys) && NoZero(ic.implicant.expr.linear)
    requires AcceptsAtRoot(backend, ic, order, value)
    ensures var act := Check(backend, ic, order, value).value;
      Holds(ic.implicant, a) <==> a(act.binVar) == act.binVal as real
  {
    var act := Check(backend, ic, order, value).value;
    var e := ic.implicant.expr;
    var v, k := act.binVar, e.linear[act.binVar];
    SingleTermValue(e, v, a);
    RootOfLine(k, e.constant, act.binVal as real);
    RootOfLine(k, e.constant, a(v));
  }

  /** A linear expression in one variable `v` has the value
      `constant + coeff·a(v)`. */
  lemma SingleTermValue(e: Expr, v: Var, a: Var -> real)
    requires IsLinear(e) && e.linear.Keys == {v}
    ensures Eval(e, a) == e.constant + e.linear[v] * a(v)
  {
    assert e.linear == map[v := e.linear[v]];
    assert e.quad == map[];
    SumMapSingleton(v, e.linear[v], Weight(a));
    SumMapEmpty(Weight(PairValue(a)));
  }

  // ---------------------------------------------------------------------------
  // What the source's rule gets wrong

  /** The implicant `2·v = 0.5`, stored as `2 v - 0.5 = 0`. */
  function HalfImplicant(v: Var): Constr {
    Constr(Expr(-0.5, map[v := 2.0], map[]), Equal, None)
  }

  /** The source accepts `2·v = 0.5 >> (v <= 0)` and activates it at
      `v = 1`, where the implicant is false; the intended rule rejects it. */
  lemma AsWrittenAcceptsWrongRoot(backend: BackendName, v: Var)
    ensures CheckAsWritten(backend, IndicatorConstr(HalfImplicant(v), Constr(FromVar(v), LessEqual, None), None), [v]) ==
            Ok(Activation(v, 1))
    ensures CheckIndicator(backend, IndicatorConstr(HalfImplicant(v), Constr(FromVar(v), LessEqual, None), None), [v]) ==
            Err(IndicatorNeedsZeroOne(backend))
  {
    assert -2.0 * -0.5 == 1.0;
  }

  /** At `v = 1` the implicant `2·v = 0.5` is false. */
  lemma HalfImplicantFalseAtOne(v: Var)
    ensures !Holds(HalfImplicant(v), (x: Var) => 1.0)
  {
    SingleTermValue(HalfImplicant(v).expr, v, (x: Var) => 1.0);
  }

  /** The implicant `2·v = 2` has root 1, yet the source rejects it
      (`-2·(-2) = 4`); the intended rule accepts it with value 1. */
  lemma AsWrittenRejectsRootOne(backend: BackendName, v: Var)
    ensures CheckAsWritten(backend, IndicatorConstr(Constr(Expr(-2.0, map[v := 2.0], map[]), Equal, None),
                                                    Constr(FromVar(v), LessEqual, None), None), [v]) ==
            Err(IndicatorNeedsZeroOne(backend))
    ensures CheckIndicator(backend, IndicatorConstr(Constr(Expr(-2.0, map[v := 2.0], map[]), Equal, None),
                                                    Constr(FromVar(v), LessEqual, None), None), [v]) ==
            Ok(Activation(v, 1))
  {
    assert -2.0 * -2.0 == 4.0;
  }
}
