/** The constraint unit tests (test/unit/expr.cpp:82-113): each constraint is
    built with the operators it is written with and its text is shown to be
    the expected one, whatever order the hash maps list their terms in; the
    three negations the tests expect to throw are errors. */
module ConstraintTests {
  import opened Wrappers
  import opened Errors
  import opened Variables
  import opened TextOrder
  import opened TermMaps
  import opened Expressions
  import opened Products
  import opened Printing
  import opened PrintedTests
  import opened Constraints

  /** The variables of the constraint tests: `v1` and `v2` binary, `v3`
      integer. */
  predicate ConstrTestVars(v1: Var, v2: Var, v3: Var) {
    TestVars(v1, v2, v3) && v1.vtype == Binary && v2.vtype == Binary && v3.vtype == Integer
  }

  /** The text of a constraint under every listing of its terms. */
  ghost predicate ConstrPrints(c: Constr, text: string, num: real -> string) {
    forall q, l | Enumerates(q, c.expr.quad.Keys) && Enumerates(l, c.expr.linear.Keys) :: ConstrText(c, q, l, num) == text
  }

  /** The text of an indicator constraint under every listing of the terms of
      both its sides. */
  ghost predicate IndicatorPrints(ic: IndicatorConstr, text: string, num: real -> string) {
    forall q1, l1, q2, l2 |
      && Enumerates(q1, ic.implicant.expr.quad.Keys) && Enumerates(l1, ic.implicant.expr.linear.Keys)
      && Enumerates(q2, ic.implicand.expr.quad.Keys) && Enumerates(l2, ic.implicand.expr.linear.Keys)
      :: IndicatorText(ic, q1, l1, q2, l2, num) == text
  }

  // ---------------------------------------------------------------------------
  // From expression text to constraint text

  lemma ConstrPrintsFrom(c: Constr, t: string, text: string, num: real -> string)
    requires Prints(c.expr, t, num) && text == t + RelationText(c.ctype)
    ensures ConstrPrints(c, text, num)
  {
  }

  lemma IndicatorPrintsFrom(a: Constr, b: Constr, t1: string, t2: string, text: string, num: real -> string)
    requires ConstrPrints(a, t1, num) && ConstrPrints(b, t2, num)
    requires text == t1 + " -> " + t2
    ensures IndicatorPrints(Implies(a, b), text, num)
  {
  }


  /** The text after the terms: nothing for a zero constant. */
  function ConstantTail(k: real, num: real -> string): string {
    if k == 0.0 then "" else CoefficientText(k, true, false, num)
  }

  /** A non-zero constant is printed after the terms. */
  lemma PrintsShifted(e: Expr, k: real, t: string, num: real -> string)
    requires Prints(e, t, num) && e.constant == 0.0 && !IsConstant(e) && k != 0.0
    ensures Prints(e.(constant := k), t + CoefficientText(k, true, false, num), num)
  {
    var f := e.(constant := k);
    forall q, l | Enumerates(q, f.quad.Keys) && Enumerates(l, f.linear.Keys)
      ensures ToText(f, q, l, num) == t + CoefficientText(k, true, false, num)
    {
      EnumerationSize(q, f.quad.Keys);
      EnumerationSize(l, f.linear.Keys);
      var ps, vs := Sort(q, QuadKey), Sort(l, LinearKey);
      assert ToText(e, q, l, num) == t;
      RenderShifted(e, k, ps, vs, num);
    }
  }

  /** A constraint over terms printing `t`, with the constant `k` added. */
  lemma ShiftedConstrText(e: Expr, k: real, t: string, ctype: ConstrType, text: string, num: real -> string)
    requires Prints(e, t, num) && e.constant == 0.0 && !IsConstant(e)
    requires text == t + ConstantTail(k, num) + RelationText(ctype)
    ensures ConstrPrints(Constr(e.(constant := k), ctype, None), text, num)
  {
    if k == 0.0 {
      assert e.(constant := k) == e;
      assert t + "" == t;
      ConstrPrintsFrom(Constr(e, ctype, None), t, text, num);
    } else {
      PrintsShifted(e, k, t, num);
      ConstrPrintsFrom(Constr(e.(constant := k), ctype, None), t + CoefficientText(k, true, false, num), text, num);
    }
  }

  /** Two linear terms whose variables are named in order. */
  lemma PairListing(order: seq<Var>, x: Var, y: Var, nx: string, ny: string)
    requires x.name == Some(nx) && y.name == Some(ny) && StrLess(nx, ny)
    requires Enumerates(order, {x, y})
    ensures Sort(order, LinearKey) == [x, y]
  {
    StrLessIrreflexive(nx);
    assert KeyLess([nx], [ny]);
    SortIs(order, [x, y], {x, y}, LinearKey);
  }

  /** The text of `c1 x + c2 y`. */
  lemma PrintsNamedPair(x: Var, y: Var, nx: string, ny: string, c1: real, c2: real, num: real -> string)
    requires x.name == Some(nx) && y.name == Some(ny) && StrLess(nx, ny)
    requires c1 != 0.0 && c2 != 0.0
    ensures Prints(Expr(0.0, map[x := c1, y := c2], map[]),
                   CoefficientText(c1, false, true, num) + nx + CoefficientText(c2, false, false, num) + ny, num)
  {
    var e := Expr(0.0, map[x := c1, y := c2], map[]);
    StrLessIrreflexive(nx);
    assert x != y;
    assert Render(e, [], [x, y], num)
        == CoefficientText(c1, false, true, num) + nx + CoefficientText(c2, false, false, num) + ny by {
      assert LinearText([y], e.linear, false, num) == CoefficientText(c2, false, false, num) + ny + LinearText([], e.linear, false, num);
      assert [x, y][1..] == [y];
    }
    forall q, l | Enumerates(q, e.quad.Keys) && Enumerates(l, e.linear.Keys)
      ensures ToText(e, q, l, num) == Render(e, [], [x, y], num)
    {
      NoListing(q, QuadKey);
      PairListing(l, x, y, nx, ny);
    }
  }

  /** `c x y` with one quadratic term, stored either way round. */
  lemma PrintsOneProduct(p: VarPair, nx: string, ny: string, c: real, num: real -> string)
    requires NamedPair(p, nx, ny) && StrLess(nx, ny) && c != 0.0
    ensures Prints(Expr(0.0, map[], map[p := c]), TermText(c, true, nx, ny, num), num)
  {
    var e := Expr(0.0, map[], map[p := c]);
    RenderQuads(e.quad, [p], num);
    QuadTerm([p], e.quad, true, num, nx, ny, c);
    forall q, l | Enumerates(q, e.quad.Keys) && Enumerates(l, e.linear.Keys)
      ensures ToText(e, q, l, num) == TermText(c, true, nx, ny, num)
    {
      OneListing(q, p, QuadKey);
      NoListing(l, LinearKey);
    }
  }


  // ---------------------------------------------------------------------------
  // The text of constraints given by their stored expression

  /** `c v + k` related to zero. */
  lemma SingleConstrText(v: Var, n: string, c: real, k: real, ctype: ConstrType, text: string, num: real -> string)
    requires v.name == Some(n) && c != 0.0
    requires text == CoefficientText(c, false, true, num) + n + ConstantTail(k, num) + RelationText(ctype)
    ensures ConstrPrints(Constr(Expr(k, map[v := c], map[]), ctype, None), text, num)
  {
    var e := Expr(0.0, map[v := c], map[]);
    PrintsSingle(v, n, c, num);
    assert v in e.linear;
    ShiftedConstrText(e, k, CoefficientText(c, false, true, num) + n, ctype, text, num);
    assert e.(constant := k) == Expr(k, map[v := c], map[]);
  }

  /** `c1 x + c2 y + k` related to zero. */
  lemma PairConstrText(x: Var, y: Var, nx: string, ny: string, c1: real, c2: real, k: real, ctype: ConstrType,
                       text: string, num: real -> string)
    requires x.name == Some(nx) && y.name == Some(ny) && StrLess(nx, ny) && c1 != 0.0 && c2 != 0.0
    requires text == CoefficientText(c1, false, true, num) + nx + CoefficientText(c2, false, false, num) + ny
                     + ConstantTail(k, num) + RelationText(ctype)
    ensures ConstrPrints(Constr(Expr(k, map[x := c1, y := c2], map[]), ctype, None), text, num)
  {
    var e := Expr(0.0, map[x := c1, y := c2], map[]);
    PrintsNamedPair(x, y, nx, ny, c1, c2, num);
    assert x in e.linear;
    ShiftedConstrText(e, k, CoefficientText(c1, false, true, num) + nx + CoefficientText(c2, false, false, num) + ny,
                      ctype, text, num);
    assert e.(constant := k) == Expr(k, map[x := c1, y := c2], map[]);
  }

  /** `c x y + k` related to zero. */
  lemma ProductConstrText(p: VarPair, nx: string, ny: string, c: real, k: real, ctype: ConstrType,
                          text: string, num: real -> string)
    requires NamedPair(p, nx, ny) && StrLess(nx, ny) && c != 0.0
    requires text == TermText(c, true, nx, ny, num) + ConstantTail(k, num) + RelationText(ctype)
    ensures ConstrPrints(Constr(Expr(k, map[], map[p := c]), ctype, None), text, num)
  {
    var e := Expr(0.0, map[], map[p := c]);
    PrintsOneProduct(p, nx, ny, c, num);
    assert p in e.quad;
    ShiftedConstrText(e, k, TermText(c, true, nx, ny, num), ctype, text, num);
    assert e.(constant := k) == Expr(k, map[], map[p := c]);
  }

  /** The terms of `(1 * v1 + 2 * v2) * (3 * v2 + 4 * v3)`. */
  function WeightedTerms(v1: Var, v2: Var, v3: Var): map<VarPair, real> {
    map[Ordered(VarPair(v1, v2)) := 3.0, Ordered(VarPair(v1, v3)) := 4.0, VarPair(v2, v2) := 6.0, Ordered(VarPair(v2, v3)) := 8.0]
  }

  /** The weighted product less two, equated to zero. */
  lemma WeightedProductConstrText(v1: Var, v2: Var, v3: Var, num: real -> string)
    requires TestVars(v1, v2, v3) && PlainDigits(num)
    ensures ConstrPrints(Constr(Expr(-2.0, map[], WeightedTerms(v1, v2, v3)), Equal, None),
                         "3 v1 v2 + 4 v1 v3 + 6 v2 v2 + 8 v2 v3 - 2 = 0", num)
  {
    var ps := [Ordered(VarPair(v1, v2)), Ordered(VarPair(v1, v3)), VarPair(v2, v2), Ordered(VarPair(v2, v3))];
    var e := Expr(0.0, map[], WeightedTerms(v1, v2, v3));
    var t := "3 v1 v2 + 4 v1 v3 + 6 v2 v2 + 8 v2 v3";
    assert Prints(e, t, num) by {
      PrintsFour(v1, v2, v3, [3.0, 4.0, 6.0, 8.0], num);
      WeightedProductText(num);
    }
    assert ps[0] in e.quad;
    WeightedProductMinusTwoJoin(num);
    ShiftedConstrText(e, -2.0, t, Equal, "3 v1 v2 + 4 v1 v3 + 6 v2 v2 + 8 v2 v3 - 2 = 0", num);
    assert e.(constant := -2.0) == Expr(-2.0, map[], WeightedTerms(v1, v2, v3));
  }

  // ---------------------------------------------------------------------------
  // The expected texts, piece by piece

  lemma EqualsJoin(num: real -> string)
    ensures CoefficientText(1.0, false, true, num) + "v1" + CoefficientText(-1.0, false, false, num) + "v2"
            + ConstantTail(0.0, num) + RelationText(Equal) == "v1 - v2 = 0"
  {
    assert CoefficientText(1.0, false, true, num) == "";
    assert CoefficientText(-1.0, false, false, num) == " - ";
  }

  lemma AtLeastVarJoin(num: real -> string)
    ensures CoefficientText(-1.0, false, true, num) + "v1" + CoefficientText(1.0, false, false, num) + "v2"
            + ConstantTail(0.0, num) + RelationText(LessEqual) == "-v1 + v2 <= 0"
  {
    assert CoefficientText(-1.0, false, true, num) == "-";
    assert CoefficientText(1.0, false, false, num) == " + ";
  }

  /** `-n + 1` and then the relation. */
  lemma ComplementJoin(n: string, ctype: ConstrType, num: real -> string)
    requires PlainDigits(num)
    ensures CoefficientText(-1.0, false, true, num) + n + ConstantTail(1.0, num) + RelationText(ctype)
            == "-" + n + " + 1" + RelationText(ctype)
  {
    assert CoefficientText(-1.0, false, true, num) == "-";
    assert ConstantTail(1.0, num) == " + 1";
  }

  lemma ProductAtLeastOneJoin(num: real -> string)
    requires PlainDigits(num)
    ensures TermText(-1.0, true, "v1", "v2", num) + ConstantTail(1.0, num) + RelationText(LessEqual) == "-v1 v2 + 1 <= 0"
  {
    assert TermText(-1.0, true, "v1", "v2", num) == "-v1 v2";
    assert ConstantTail(1.0, num) == " + 1";
  }

  lemma WeightedProductMinusTwoJoin(num: real -> string)
    requires PlainDigits(num)
    ensures "3 v1 v2 + 4 v1 v3 + 6 v2 v2 + 8 v2 v3" + ConstantTail(-2.0, num) + RelationText(Equal)
            == "3 v1 v2 + 4 v1 v3 + 6 v2 v2 + 8 v2 v3 - 2 = 0"
  {
    assert ConstantTail(-2.0, num) == " - 2";
  }

  /** `n = 0`. */
  lemma ZeroJoin(n: string, num: real -> string)
    ensures CoefficientText(1.0, false, true, num) + n + ConstantTail(0.0, num) + RelationText(Equal) == n + " = 0"
  {
    assert CoefficientText(1.0, false, true, num) == "";
  }

  lemma ComplementText()
    ensures "-" + "v1" + " + 1" + RelationText(Equal) == "-v1 + 1 = 0"
  {
  }

  lemma ZeroVarJoin()
    ensures "v1" + " = 0" == "v1 = 0"
  {
  }

  lemma ImpliesJoin()
    ensures "v1" + " = 0" + " -> " + ("-" + "v2" + " + 1 <= 0") == "v1 = 0 -> -v2 + 1 <= 0"
  {
  }

  lemma WeightedImpliesJoin()
    ensures "2 v1 = 0" + " -> " + ("-" + "v2" + " + 1 <= 0") == "2 v1 = 0 -> -v2 + 1 <= 0"
  {
  }

  lemma ImpliedByJoin()
    ensures "v2" + " - 1 = 0" + " -> " + ("v1" + " = 0") == "v2 - 1 = 0 -> v1 = 0"
  {
  }

  lemma ImpliesSumJoin()
    ensures "v1" + " - 1 = 0" + " -> " + "2 v2 + v3 - 1 <= 0" == "v1 - 1 = 0 -> 2 v2 + v3 - 1 <= 0"
  {
  }

  /** `n - 1 = 0`. */
  lemma OneJoin(n: string, num: real -> string)
    requires PlainDigits(num)
    ensures CoefficientText(1.0, false, true, num) + n + ConstantTail(-1.0, num) + RelationText(Equal) == n + " - 1 = 0"
  {
    assert CoefficientText(1.0, false, true, num) == "";
    assert ConstantTail(-1.0, num) == " - 1";
  }

  lemma DoubledJoin(num: real -> string)
    requires PlainDigits(num)
    ensures CoefficientText(2.0, false, true, num) + "v1" + ConstantTail(0.0, num) + RelationText(Equal) == "2 v1 = 0"
  {
    assert CoefficientText(2.0, false, true, num) == "2 ";
  }

  lemma WeightedSumJoin(num: real -> string)
    requires PlainDigits(num)
    ensures CoefficientText(2.0, false, true, num) + "v2" + CoefficientText(1.0, false, false, num) + "v3"
            + ConstantTail(-1.0, num) + RelationText(LessEqual) == "2 v2 + v3 - 1 <= 0"
  {
    assert CoefficientText(2.0, false, true, num) == "2 ";
    assert CoefficientText(1.0, false, false, num) == " + ";
    assert ConstantTail(-1.0, num) == " - 1";
  }

  // ---------------------------------------------------------------------------
  // The values of the formed constraints

  /** `v == c` stores `v - c`. */
  lemma VarMinusConstant(v: Var, c: real)
    ensures Sub(FromVar(v), Const(c)) == Expr(-c, map[v := 1.0], map[])
  {
    SubConst(FromVar(v), c);
  }

  /** `v >= c` stores `c - v`. */
  lemma ConstantMinusVar(c: real, v: Var)
    ensures Sub(Const(c), FromVar(v)) == Expr(c, map[v := -1.0], map[])
  {
    ScaleSingle(v, 1.0, -1.0);
    assert Neg(FromVar(v)) == Expr(0.0, map[v := -1.0], map[]);
    EqualByCoeff(Sub(Const(c), FromVar(v)).linear, map[v := -1.0]);
    EqualByCoeff(Sub(Const(c), FromVar(v)).quad, map[]);
  }

  /** `v1 * v2 >= c` stores `c - v1 v2`. */
  lemma ConstantMinusProduct(c: real, x: Var, y: Var)
    ensures Sub(Const(c), VarTimesVar(x, y)) == Expr(c, map[], map[Ordered(VarPair(x, y)) := -1.0])
  {
    var p := Ordered(VarPair(x, y));
    assert VarTimesVar(x, y) == Expr(0.0, map[], map[p := 1.0]);
    ScaleSingle(p, 1.0, -1.0);
    assert Neg(VarTimesVar(x, y)) == Expr(0.0, map[], map[p := -1.0]);
    EqualByCoeff(Sub(Const(c), VarTimesVar(x, y)).linear, map[]);
    EqualByCoeff(Sub(Const(c), VarTimesVar(x, y)).quad, map[p := -1.0]);
  }

  /** `2 * v2 + v3 <= 1` stores `2 v2 + v3 - 1`. */
  lemma WeightedSumMinusOne(x: Var, y: Var)
    requires x != y
    ensures Sub(AddVar(VarTimesConst(x, 2.0), y), Const(1.0)) == Expr(-1.0, map[x := 2.0, y := 1.0], map[])
  {
    ScaledVar(x, 2.0);
    var s := AddVar(Expr(0.0, map[x := 2.0], map[]), y);
    EqualByCoeff(s.linear, map[x := 2.0, y := 1.0]);
    SubConst(s, 1.0);
  }

  /** `v == 0`. */
  lemma VarEqualsZero(v: Var)
    ensures Eq(FromVar(v), Const(0.0)) == Ok(Constr(Expr(0.0, map[v := 1.0], map[]), Equal, None))
  {
    VarMinusConstant(v, 0.0);
  }

  /** `v == 1`. */
  lemma VarEqualsOne(v: Var)
    ensures Eq(FromVar(v), Const(1.0)) == Ok(Constr(Expr(-1.0, map[v := 1.0], map[]), Equal, None))
  {
    VarMinusConstant(v, 1.0);
  }

  /** `v >= 1`. */
  lemma VarAtLeastOne(v: Var)
    ensures GreaterEq(FromVar(v), Const(1.0)) == Ok(Constr(Expr(1.0, map[v := -1.0], map[]), LessEqual, None))
  {
    ConstantMinusVar(1.0, v);
  }

  /** `!v` for a binary `v` is `v == 0`. */
  lemma NegatedBinaryVar(v: Var)
    requires v.vtype == Binary
    ensures Negate(FromVar(v)) == Eq(FromVar(v), Const(0.0))
    ensures Negate(FromVar(v)) == Ok(Constr(Expr(0.0, map[v := 1.0], map[]), Equal, None))
  {
    assert MustBeBinary(FromVar(v)) by {
      assert FromVar(v).linear.Keys == {v};
    }
    VarEqualsZero(v);
  }

  // ---------------------------------------------------------------------------
  // The linear and quadratic constraints

  /** `v1 == v2` prints `v1 - v2 = 0`. */
  lemma EqualsText(v1: Var, v2: Var, v3: Var, num: real -> string)
    requires TestVars(v1, v2, v3) && PlainDigits(num)
    ensures Eq(FromVar(v1), FromVar(v2)).Ok?
    ensures ConstrPrints(Eq(FromVar(v1), FromVar(v2)).value, "v1 - v2 = 0", num)
  {
    var c := Constr(Expr(0.0, map[v1 := 1.0, v2 := -1.0], map[]), Equal, None);
    assert Eq(FromVar(v1), FromVar(v2)) == Ok(c) by {
      DifferenceOfTwo(v1, v2);
    }
    assert ConstrPrints(c, "v1 - v2 = 0", num) by {
      NamesOrdered();
      EqualsJoin(num);
      PairConstrText(v1, v2, "v1", "v2", 1.0, -1.0, 0.0, Equal, "v1 - v2 = 0", num);
    }
  }

  lemma SwapPair<K>(x: K, y: K, a: real, b: real)
    requires x != y
    ensures map[x := a, y := b] == map[y := b, x := a]
  {
  }

  /** `v1 >= v2` stores `v2 - v1`. */
  lemma VarAtLeastVar(x: Var, y: Var)
    requires x != y
    ensures GreaterEq(FromVar(x), FromVar(y)) == Ok(Constr(Expr(0.0, map[x := -1.0, y := 1.0], map[]), LessEqual, None))
  {
    DifferenceOfTwo(y, x);
    SwapPair(y, x, 1.0, -1.0);
  }

  lemma AtLeastVarConstrText(v1: Var, v2: Var, v3: Var, num: real -> string)
    requires TestVars(v1, v2, v3)
    ensures ConstrPrints(Constr(Expr(0.0, map[v1 := -1.0, v2 := 1.0], map[]), LessEqual, None), "-v1 + v2 <= 0", num)
  {
    NamesOrdered();
    AtLeastVarJoin(num);
    PairConstrText(v1, v2, "v1", "v2", -1.0, 1.0, 0.0, LessEqual, "-v1 + v2 <= 0", num);
  }

  /** `v1 >= v2` prints `-v1 + v2 <= 0`. */
  lemma AtLeastVarText(v1: Var, v2: Var, v3: Var, num: real -> string)
    requires TestVars(v1, v2, v3) && PlainDigits(num)
    ensures GreaterEq(FromVar(v1), FromVar(v2)).Ok?
    ensures ConstrPrints(GreaterEq(FromVar(v1), FromVar(v2)).value, "-v1 + v2 <= 0", num)
  {
    VarAtLeastVar(v1, v2);
    AtLeastVarConstrText(v1, v2, v3, num);
  }

  /** `v >= 1` prints `-v + 1 <= 0`. */
  lemma AtLeastOneText(v: Var, n: string, text: string, num: real -> string)
    requires v.name == Some(n) && PlainDigits(num) && text == "-" + n + " + 1 <= 0"
    ensures GreaterEq(FromVar(v), Const(1.0)).Ok?
    ensures ConstrPrints(GreaterEq(FromVar(v), Const(1.0)).value, text, num)
  {
    var c := Constr(Expr(1.0, map[v := -1.0], map[]), LessEqual, None);
    VarAtLeastOne(v);
    assert ConstrPrints(c, text, num) by {
      ComplementJoin(n, LessEqual, num);
      SingleConstrText(v, n, -1.0, 1.0, LessEqual, text, num);
    }
  }

  /** `v1 * v2 >= 1` prints `-v1 v2 + 1 <= 0`. */
  lemma ProductAtLeastOneText(v1: Var, v2: Var, v3: Var, num: real -> string)
    requires TestVars(v1, v2, v3) && PlainDigits(num)
    ensures GreaterEq(VarTimesVar(v1, v2), Const(1.0)).Ok?
    ensures ConstrPrints(GreaterEq(VarTimesVar(v1, v2), Const(1.0)).value, "-v1 v2 + 1 <= 0", num)
  {
    var p := Ordered(VarPair(v1, v2));
    var c := Constr(Expr(1.0, map[], map[p := -1.0]), LessEqual, None);
    assert GreaterEq(VarTimesVar(v1, v2), Const(1.0)) == Ok(c) by {
      ConstantMinusProduct(1.0, v1, v2);
      assert p in VarTimesVar(v1, v2).quad;
    }
    assert ConstrPrints(c, "-v1 v2 + 1 <= 0", num) by {
      NamesOrdered();
      ProductAtLeastOneJoin(num);
      ProductConstrText(p, "v1", "v2", -1.0, 1.0, LessEqual, "-v1 v2 + 1 <= 0", num);
    }
  }

  /** `(1 * v1 + 2 * v2) * (3 * v2 + 4 * v3) == 2` prints
      `3 v1 v2 + 4 v1 v3 + 6 v2 v2 + 8 v2 v3 - 2 = 0`. */
  lemma WeightedProductEqualsText(v1: Var, v2: Var, v3: Var, num: real -> string)
    requires TestVars(v1, v2, v3) && PlainDigits(num)
    ensures Mul(Add(VarTimesConst(v1, 1.0), VarTimesConst(v2, 2.0)), Add(VarTimesConst(v2, 3.0), VarTimesConst(v3, 4.0))).Ok?
    ensures var p := Mul(Add(VarTimesConst(v1, 1.0), VarTimesConst(v2, 2.0)), Add(VarTimesConst(v2, 3.0), VarTimesConst(v3, 4.0))).value;
      Eq(p, Const(2.0)).Ok? && ConstrPrints(Eq(p, Const(2.0)).value, "3 v1 v2 + 4 v1 v3 + 6 v2 v2 + 8 v2 v3 - 2 = 0", num)
  {
    var p := Expr(0.0, map[], WeightedTerms(v1, v2, v3));
    var c := Constr(p.(constant := -2.0), Equal, None);
    WeightedProduct(v1, v2, v3);
    assert Eq(p, Const(2.0)) == Ok(c) by {
      assert Ordered(VarPair(v1, v2)) in p.quad;
      assert Valid(p);
      SubConst(p, 2.0);
    }
    WeightedProductConstrText(v1, v2, v3, num);
  }

  // ---------------------------------------------------------------------------
  // Negation

  /** `!v3`, `!(v1 + 1)` and `!(2 * v1)` are errors: none of them must be
      binary. */
  lemma NonBinaryNegations(v1: Var, v2: Var, v3: Var)
    requires ConstrTestVars(v1, v2, v3)
    ensures Negate(FromVar(v3)) == Err(NonBinaryNegation)
    ensures Negate(VarPlusConst(v1, 1.0)) == Err(NonBinaryNegation)
    ensures Negate(VarTimesConst(v1, 2.0)) == Err(NonBinaryNegation)
  {
    assert !MustBeBinary(FromVar(v3)) by {
      assert v3 in FromVar(v3).linear;
    }
    assert !MustBeBinary(VarPlusConst(v1, 1.0)) by {
      assert VarPlusConst(v1, 1.0) == Expr(1.0, map[v1 := 1.0], map[]);
      assert v1 in VarPlusConst(v1, 1.0).linear;
    }
    assert !MustBeBinary(VarTimesConst(v1, 2.0)) by {
      ScaledVar(v1, 2.0);
      assert v1 in VarTimesConst(v1, 2.0).linear;
    }
  }

  /** `!v1` prints `v1 = 0`. */
  lemma NegatedVarText(v1: Var, v2: Var, v3: Var, num: real -> string)
    requires ConstrTestVars(v1, v2, v3) && PlainDigits(num)
    ensures Negate(FromVar(v1)).Ok?
    ensures Negate(FromVar(v1)) == Eq(FromVar(v1), Const(0.0))
    ensures ConstrPrints(Negate(FromVar(v1)).value, "v1 = 0", num)
  {
    NegatedBinaryVar(v1);
    EqualsZeroText(v1, "v1", "v1" + " = 0", num);
    ZeroVarJoin();
  }

  /** `!(1 - v)` for a binary `v` is `-v + 1 == 0`. */
  lemma NegatedComplement(v: Var)
    requires v.vtype == Binary
    ensures Negate(ConstMinusVar(1.0, v)) == Ok(Constr(Expr(1.0, map[v := -1.0], map[]), Equal, None))
  {
    var e := Expr(1.0, map[v := -1.0], map[]);
    ScalarLeftForms(v, 1.0, ConstMinusVar(1.0, v));
    assert ConstMinusVar(1.0, v) == e;
    assert MustBeBinary(e) by {
      assert e.linear.Keys == {v};
    }
    NegateExpression(e);
  }

  /** `!(1 - v1)` prints `-v1 + 1 = 0`. */
  lemma NegatedComplementText(v1: Var, v2: Var, v3: Var, num: real -> string)
    requires ConstrTestVars(v1, v2, v3) && PlainDigits(num)
    ensures Negate(ConstMinusVar(1.0, v1)).Ok?
    ensures ConstrPrints(Negate(ConstMinusVar(1.0, v1)).value, "-v1 + 1 = 0", num)
  {
    NegatedComplement(v1);
    ComplementJoin("v1", Equal, num);
    ComplementText();
    SingleConstrText(v1, "v1", -1.0, 1.0, Equal, "-v1 + 1 = 0", num);
  }

  // ---------------------------------------------------------------------------
  // Indicator constraints

  /** `v == 0` prints `v = 0`. */
  lemma EqualsZeroText(v: Var, n: string, text: string, num: real -> string)
    requires v.name == Some(n) && text == n + " = 0"
    ensures Eq(FromVar(v), Const(0.0)).Ok?
    ensures ConstrPrints(Eq(FromVar(v), Const(0.0)).value, text, num)
  {
    VarEqualsZero(v);
    assert ConstrPrints(Constr(Expr(0.0, map[v := 1.0], map[]), Equal, None), text, num) by {
      ZeroJoin(n, num);
      SingleConstrText(v, n, 1.0, 0.0, Equal, text, num);
    }
  }

  /** `v == 1` prints `v - 1 = 0`. */
  lemma EqualsOneText(v: Var, n: string, text: string, num: real -> string)
    requires v.name == Some(n) && PlainDigits(num) && text == n + " - 1 = 0"
    ensures Eq(FromVar(v), Const(1.0)).Ok?
    ensures ConstrPrints(Eq(FromVar(v), Const(1.0)).value, text, num)
  {
    VarEqualsOne(v);
    assert ConstrPrints(Constr(Expr(-1.0, map[v := 1.0], map[]), Equal, None), text, num) by {
      OneJoin(n, num);
      SingleConstrText(v, n, 1.0, -1.0, Equal, text, num);
    }
  }

  /** `(v1 == 0) >> (v2 >= 1)` prints `v1 = 0 -> -v2 + 1 <= 0`. */
  lemma ImpliesText(v1: Var, v2: Var, v3: Var, num: real -> string)
    requires TestVars(v1, v2, v3) && PlainDigits(num)
    ensures Eq(FromVar(v1), Const(0.0)).Ok? && GreaterEq(FromVar(v2), Const(1.0)).Ok?
    ensures IndicatorPrints(Implies(Eq(FromVar(v1), Const(0.0)).value, GreaterEq(FromVar(v2), Const(1.0)).value),
                            "v1 = 0 -> -v2 + 1 <= 0", num)
  {
    EqualsZeroText(v1, "v1", "v1" + " = 0", num);
    AtLeastOneText(v2, "v2", "-" + "v2" + " + 1 <= 0", num);
    ImpliesJoin();
    IndicatorPrintsFrom(Eq(FromVar(v1), Const(0.0)).value, GreaterEq(FromVar(v2), Const(1.0)).value,
                        "v1" + " = 0", "-" + "v2" + " + 1 <= 0", "v1 = 0 -> -v2 + 1 <= 0", num);
  }

  /** `!v1 >> (v2 >= 1)` prints the same. */
  lemma NegationImpliesText(v1: Var, v2: Var, v3: Var, num: real -> string)
    requires ConstrTestVars(v1, v2, v3) && PlainDigits(num)
    ensures Negate(FromVar(v1)).Ok? && GreaterEq(FromVar(v2), Const(1.0)).Ok?
    ensures IndicatorPrints(Implies(Negate(FromVar(v1)).value, GreaterEq(FromVar(v2), Const(1.0)).value),
                            "v1 = 0 -> -v2 + 1 <= 0", num)
  {
    NegatedBinaryVar(v1);
    ImpliesText(v1, v2, v3, num);
  }

  /** `2 * v == 0` stores `2 v`. */
  lemma DoubledEqualsZero(v: Var)
    ensures Eq(VarTimesConst(v, 2.0), Const(0.0)) == Ok(Constr(Expr(0.0, map[v := 2.0], map[]), Equal, None))
  {
    var s := Expr(0.0, map[v := 2.0], map[]);
    ScaledVar(v, 2.0);
    assert v in s.linear;
    SubConst(s, 0.0);
  }

  /** `(2 * v1 == 0) >> (v2 >= 1)` prints `2 v1 = 0 -> -v2 + 1 <= 0`. */
  lemma WeightedImpliesText(v1: Var, v2: Var, v3: Var, num: real -> string)
    requires TestVars(v1, v2, v3) && PlainDigits(num)
    ensures Eq(VarTimesConst(v1, 2.0), Const(0.0)).Ok? && GreaterEq(FromVar(v2), Const(1.0)).Ok?
    ensures IndicatorPrints(Implies(Eq(VarTimesConst(v1, 2.0), Const(0.0)).value, GreaterEq(FromVar(v2), Const(1.0)).value),
                            "2 v1 = 0 -> -v2 + 1 <= 0", num)
  {
    DoubledEqualsZero(v1);
    DoubledText(v1, v2, v3, num);
    AtLeastOneText(v2, "v2", "-" + "v2" + " + 1 <= 0", num);
    WeightedImpliesJoin();
    IndicatorPrintsFrom(Constr(Expr(0.0, map[v1 := 2.0], map[]), Equal, None), GreaterEq(FromVar(v2), Const(1.0)).value,
                        "2 v1 = 0", "-" + "v2" + " + 1 <= 0", "2 v1 = 0 -> -v2 + 1 <= 0", num);
  }

  lemma DoubledText(v1: Var, v2: Var, v3: Var, num: real -> string)
    requires TestVars(v1, v2, v3) && PlainDigits(num)
    ensures ConstrPrints(Constr(Expr(0.0, map[v1 := 2.0], map[]), Equal, None), "2 v1 = 0", num)
  {
    DoubledJoin(num);
    SingleConstrText(v1, "v1", 2.0, 0.0, Equal, "2 v1 = 0", num);
  }

  /** `(v1 == 0) << (v2 == 1)` prints `v2 - 1 = 0 -> v1 = 0`. */
  lemma ImpliedByText(v1: Var, v2: Var, v3: Var, num: real -> string)
    requires TestVars(v1, v2, v3) && PlainDigits(num)
    ensures Eq(FromVar(v1), Const(0.0)).Ok? && Eq(FromVar(v2), Const(1.0)).Ok?
    ensures IndicatorPrints(ImpliedBy(Eq(FromVar(v1), Const(0.0)).value, Eq(FromVar(v2), Const(1.0)).value),
                            "v2 - 1 = 0 -> v1 = 0", num)
  {
    EqualsOneText(v2, "v2", "v2" + " - 1 = 0", num);
    EqualsZeroText(v1, "v1", "v1" + " = 0", num);
    ImpliedByJoin();
    IndicatorPrintsFrom(Eq(FromVar(v2), Const(1.0)).value, Eq(FromVar(v1), Const(0.0)).value,
                        "v2" + " - 1 = 0", "v1" + " = 0", "v2 - 1 = 0 -> v1 = 0", num);
  }

  /** `!v1 << v2` prints the same: the expression implicant is `v2 == 1`. */
  lemma NegationImpliedByVarText(v1: Var, v2: Var, v3: Var, num: real -> string)
    requires ConstrTestVars(v1, v2, v3) && PlainDigits(num)
    ensures Negate(FromVar(v1)).Ok? && ImpliedByExpr(Negate(FromVar(v1)).value, FromVar(v2)).Ok?
    ensures IndicatorPrints(ImpliedByExpr(Negate(FromVar(v1)).value, FromVar(v2)).value, "v2 - 1 = 0 -> v1 = 0", num)
  {
    NegatedBinaryVar(v1);
    ImpliedByText(v1, v2, v3, num);
    assert ImpliedByExpr(Negate(FromVar(v1)).value, FromVar(v2)).value
        == ImpliedBy(Eq(FromVar(v1), Const(0.0)).value, Eq(FromVar(v2), Const(1.0)).value);
  }

  /** `2 * x + y <= 1` stores `2 x + y - 1`. */
  lemma WeightedSumAtMostOne(x: Var, y: Var)
    requires x != y
    ensures LessEq(AddVar(VarTimesConst(x, 2.0), y), Const(1.0))
         == Ok(Constr(Expr(-1.0, map[x := 2.0, y := 1.0], map[]), LessEqual, None))
  {
    WeightedSumMinusOne(x, y);
    assert x in AddVar(VarTimesConst(x, 2.0), y).linear;
  }

  lemma WeightedSumText(v1: Var, v2: Var, v3: Var, num: real -> string)
    requires TestVars(v1, v2, v3) && PlainDigits(num)
    ensures ConstrPrints(Constr(Expr(-1.0, map[v2 := 2.0, v3 := 1.0], map[]), LessEqual, None), "2 v2 + v3 - 1 <= 0", num)
  {
    NamesOrdered();
    WeightedSumJoin(num);
    PairConstrText(v2, v3, "v2", "v3", 2.0, 1.0, -1.0, LessEqual, "2 v2 + v3 - 1 <= 0", num);
  }

  /** `(v1 == 1) >> (2 * v2 + v3 <= 1)` prints
      `v1 - 1 = 0 -> 2 v2 + v3 - 1 <= 0`. */
  lemma ImpliesSumText(v1: Var, v2: Var, v3: Var, num: real -> string)
    requires TestVars(v1, v2, v3) && PlainDigits(num)
    ensures Eq(FromVar(v1), Const(1.0)).Ok? && LessEq(AddVar(VarTimesConst(v2, 2.0), v3), Const(1.0)).Ok?
    ensures IndicatorPrints(Implies(Eq(FromVar(v1), Const(1.0)).value, LessEq(AddVar(VarTimesConst(v2, 2.0), v3), Const(1.0)).value),
                            "v1 - 1 = 0 -> 2 v2 + v3 - 1 <= 0", num)
  {
    WeightedSumAtMostOne(v2, v3);
    WeightedSumText(v1, v2, v3, num);
    EqualsOneText(v1, "v1", "v1" + " - 1 = 0", num);
    ImpliesSumJoin();
    IndicatorPrintsFrom(Eq(FromVar(v1), Const(1.0)).value, Constr(Expr(-1.0, map[v2 := 2.0, v3 := 1.0], map[]), LessEqual, None),
                        "v1" + " - 1 = 0", "2 v2 + v3 - 1 <= 0", "v1 - 1 = 0 -> 2 v2 + v3 - 1 <= 0", num);
  }
}
