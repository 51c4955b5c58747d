/** The printed forms that the expression unit tests expect
    (test/unit/expr.cpp:33-49): each expression is built with the operators it
    is written with, its value is worked out, and its text is shown to be the
    expected one whatever order the hash maps list their terms in. */
module PrintedTests {
  import opened Wrappers
  import opened Variables
  import opened TextOrder
  import opened TermMaps
  import opened Expressions
  import opened Products
  import opened Printing

  /** The variables of the tests: three distinct handles, in whatever order
      they were allocated, named `v1`, `v2` and `v3`. */
  predicate TestVars(v1: Var, v2: Var, v3: Var) {
    && !IsSame(v1, v2) && !IsSame(v1, v3) && !IsSame(v2, v3)
    && v1.name == Some("v1") && v2.name == Some("v2") && v3.name == Some("v3")
  }

  /** A pair whose two variables are named `nx` and `ny`, in either order. */
  predicate NamedPair(p: VarPair, nx: string, ny: string) {
    || (p.first.name == Some(nx) && p.second.name == Some(ny))
    || (p.first.name == Some(ny) && p.second.name == Some(nx))
  }

  /** The stream prints the whole numbers of the tests as their digits. */
  predicate PlainDigits(num: real -> string) {
    num(0.0) == "0" && num(1.0) == "1" && num(2.0) == "2" && num(3.0) == "3" && num(4.0) == "4" && num(6.0) == "6" && num(8.0) == "8"
  }

  /** The text of an expression under every listing of its terms. */
  ghost predicate Prints(e: Expr, text: string, num: real -> string) {
    forall q, l | Enumerates(q, e.quad.Keys) && Enumerates(l, e.linear.Keys) :: ToText(e, q, l, num) == text
  }

  // ---------------------------------------------------------------------------
  // Sorting the test variables

  lemma NamesOrdered()
    ensures StrLess("v1", "v2") && StrLess("v1", "v3") && StrLess("v2", "v3")
  {
    assert "v1"[1..] == "1" && "v2"[1..] == "2" && "v3"[1..] == "3";
  }

  lemma NoListing<K(!new)>(order: seq<K>, key: K -> seq<string>)
    requires Enumerates(order, {})
    ensures Sort(order, key) == []
  {
    EnumerationSize(order, {});
  }

  lemma OneListing<K(!new)>(order: seq<K>, x: K, key: K -> seq<string>)
    requires Enumerates(order, {x})
    ensures Sort(order, key) == [x]
  {
    SortIs(order, [x], {x}, key);
  }

  lemma LinearListing(order: seq<Var>, v1: Var, v2: Var, v3: Var)
    requires TestVars(v1, v2, v3) && Enumerates(order, {v1, v2})
    ensures Sort(order, LinearKey) == [v1, v2]
  {
    NamesOrdered();
    PairKeyOrder("v1", "", "v2", "");
    assert KeyLess(["v1"], ["v2"]);
    SortIs(order, [v1, v2], {v1, v2}, LinearKey);
  }

  /** A test pair is printed and sorted by its names in order, whichever
      way round it is stored. */
  lemma QuadKeyOf(p: VarPair, nx: string, ny: string)
    requires NamedPair(p, nx, ny)
    requires nx == ny || StrLess(nx, ny)
    ensures Id(OrderedByName(p).first) == nx && Id(OrderedByName(p).second) == ny
    ensures QuadKey(p) == [nx, ny]
  {
    if nx != ny {
      StrLessAsymmetric(nx, ny);
    } else {
      StrLessIrreflexive(nx);
    }
  }

  /** The four product terms in by-name order. */
  lemma FourPairsListing(order: seq<VarPair>, ps: seq<VarPair>, v1: Var, v2: Var, v3: Var)
    requires TestVars(v1, v2, v3)
    requires ps == [Ordered(VarPair(v1, v2)), Ordered(VarPair(v1, v3)), VarPair(v2, v2), Ordered(VarPair(v2, v3))]
    requires Enumerates(order, {ps[0], ps[1], ps[2], ps[3]})
    ensures Sort(order, QuadKey) == ps
  {
    NamesOrdered();
    QuadKeyOf(ps[0], "v1", "v2");
    QuadKeyOf(ps[1], "v1", "v3");
    QuadKeyOf(ps[2], "v2", "v2");
    QuadKeyOf(ps[3], "v2", "v3");
    PairKeyOrder("v1", "v2", "v1", "v3");
    PairKeyOrder("v1", "v3", "v2", "v2");
    PairKeyOrder("v2", "v2", "v2", "v3");
    SortIs(order, ps, {ps[0], ps[1], ps[2], ps[3]}, QuadKey);
  }

  // ---------------------------------------------------------------------------
  // Rendering the listed terms

  /** One linear term and no constant. */
  lemma RenderOne(v: Var, n: string, c: real, num: real -> string)
    requires v.name == Some(n)
    ensures Render(Expr(0.0, map[v := c], map[]), [], [v], num) == CoefficientText(c, false, true, num) + n
  {
    assert LinearText([v], map[v := c], true, num) == CoefficientText(c, false, true, num) + n + LinearText([], map[v := c], false, num);
  }

  /** Two linear terms and no constant. */
  lemma RenderTwo(v1: Var, v2: Var, c1: real, c2: real, num: real -> string)
    requires v1.name == Some("v1") && v2.name == Some("v2") && v1 != v2
    ensures Render(Expr(0.0, map[v1 := c1, v2 := c2], map[]), [], [v1, v2], num)
         == CoefficientText(c1, false, true, num) + "v1" + CoefficientText(c2, false, false, num) + "v2"
  {
    var l := map[v1 := c1, v2 := c2];
    assert LinearText([v2], l, false, num) == CoefficientText(c2, false, false, num) + "v2" + LinearText([], l, false, num);
    assert [v1, v2][1..] == [v2];
    assert LinearText([v1, v2], l, true, num) == CoefficientText(c1, false, true, num) + "v1" + LinearText([v2], l, false, num);
  }

  /** The text of one quadratic term. */
  function TermText(c: real, first: bool, nx: string, ny: string, num: real -> string): string {
    CoefficientText(c, false, first, num) + nx + " " + ny
  }

  /** The text of one quadratic term, its names printed in order. */
  lemma QuadTerm(ps: seq<VarPair>, q: map<VarPair, real>, first: bool, num: real -> string, nx: string, ny: string, c: real)
    requires |ps| > 0 && NamedPair(ps[0], nx, ny)
    requires nx == ny || StrLess(nx, ny)
    requires Coeff(q, ps[0]) == c
    ensures QuadText(ps, q, first, num) == TermText(c, first, nx, ny, num) + QuadText(ps[1..], q, false, num)
  {
    QuadKeyOf(ps[0], nx, ny);
  }

  /** Quadratic terms only: the constant 0 is not printed. */
  lemma RenderQuads(q: map<VarPair, real>, ps: seq<VarPair>, num: real -> string)
    requires |ps| > 0
    ensures Render(Expr(0.0, map[], q), ps, [], num) == QuadText(ps, q, true, num)
  {
  }

  /** Four quadratic terms, named as `n` lists them. */
  lemma QuadFour(ps: seq<VarPair>, q: map<VarPair, real>, n: seq<string>, c: seq<real>, num: real -> string)
    requires |ps| == 4 && |n| == 8 && |c| == 4
    requires NamedPair(ps[0], n[0], n[1]) && NamedPair(ps[1], n[2], n[3])
    requires NamedPair(ps[2], n[4], n[5]) && NamedPair(ps[3], n[6], n[7])
    requires (n[0] == n[1] || StrLess(n[0], n[1])) && (n[2] == n[3] || StrLess(n[2], n[3]))
    requires (n[4] == n[5] || StrLess(n[4], n[5])) && (n[6] == n[7] || StrLess(n[6], n[7]))
    requires Coeff(q, ps[0]) == c[0] && Coeff(q, ps[1]) == c[1] && Coeff(q, ps[2]) == c[2] && Coeff(q, ps[3]) == c[3]
    ensures QuadText(ps, q, true, num)
         == TermText(c[0], true, n[0], n[1], num) + (TermText(c[1], false, n[2], n[3], num)
          + (TermText(c[2], false, n[4], n[5], num) + TermText(c[3], false, n[6], n[7], num)))
  {
    var s1, s2, s3 := ps[1..], ps[2..], ps[3..];
    assert s1[1..] == s2 && s2[1..] == s3 && |s3[1..]| == 0;
    assert s1[0] == ps[1] && s2[0] == ps[2] && s3[0] == ps[3];
    QuadTerm(s3, q, false, num, n[6], n[7], c[3]);
    assert QuadText(s3, q, false, num) == TermText(c[3], false, n[6], n[7], num);
    QuadTerm(s2, q, false, num, n[4], n[5], c[2]);
    QuadTerm(s1, q, false, num, n[2], n[3], c[1]);
    QuadTerm(ps, q, true, num, n[0], n[1], c[0]);
  }

  /** The four product terms of the tests, with their coefficients. */
  lemma RenderFour(v1: Var, v2: Var, v3: Var, c: seq<real>, num: real -> string)
    requires TestVars(v1, v2, v3) && |c| == 4
    ensures var ps := [Ordered(VarPair(v1, v2)), Ordered(VarPair(v1, v3)), VarPair(v2, v2), Ordered(VarPair(v2, v3))];
      Render(Expr(0.0, map[], map[ps[0] := c[0], ps[1] := c[1], ps[2] := c[2], ps[3] := c[3]]), ps, [], num)
      == TermText(c[0], true, "v1", "v2", num) + (TermText(c[1], false, "v1", "v3", num)
       + (TermText(c[2], false, "v2", "v2", num) + TermText(c[3], false, "v2", "v3", num)))
  {
    var ps := [Ordered(VarPair(v1, v2)), Ordered(VarPair(v1, v3)), VarPair(v2, v2), Ordered(VarPair(v2, v3))];
    var q := map[ps[0] := c[0], ps[1] := c[1], ps[2] := c[2], ps[3] := c[3]];
    var n := ["v1", "v2", "v1", "v3", "v2", "v2", "v2", "v3"];
    RenderQuads(q, ps, num);
    assert QuadText(ps, q, true, num)
        == TermText(c[0], true, "v1", "v2", num) + (TermText(c[1], false, "v1", "v3", num)
         + (TermText(c[2], false, "v2", "v2", num) + TermText(c[3], false, "v2", "v3", num))) by {
      NamesOrdered();
      CoeffOfFour(ps, c);
      QuadFour(ps, q, n, c, num);
    }
  }

  lemma CoeffOfFour(ps: seq<VarPair>, c: seq<real>)
    requires |ps| == 4 && |c| == 4
    requires forall i, j | 0 <= i < j < 4 :: ps[i] != ps[j]
    ensures var q := map[ps[0] := c[0], ps[1] := c[1], ps[2] := c[2], ps[3] := c[3]];
      Coeff(q, ps[0]) == c[0] && Coeff(q, ps[1]) == c[1] && Coeff(q, ps[2]) == c[2] && Coeff(q, ps[3]) == c[3]
  {
    assert ps[0] != ps[1] && ps[0] != ps[2] && ps[0] != ps[3] && ps[1] != ps[2] && ps[1] != ps[3] && ps[2] != ps[3];
  }

  // ---------------------------------------------------------------------------
  // The expected strings, piece by piece

  lemma DifferenceText(num: real -> string)
    ensures CoefficientText(1.0, false, true, num) + "v1" + CoefficientText(-1.0, false, false, num) + "v2" == "v1 - v2"
  {
  }

  lemma WeightedDifferenceText(num: real -> string)
    requires PlainDigits(num)
    ensures CoefficientText(2.0, false, true, num) + "v1" + CoefficientText(-1.0, false, false, num) + "v2" == "2 v1 - v2"
  {
  }

  lemma DoubledDifferenceText(num: real -> string)
    requires PlainDigits(num)
    ensures CoefficientText(2.0, false, true, num) + "v1" + CoefficientText(-2.0, false, false, num) + "v2" == "2 v1 - 2 v2"
  {
  }

  lemma DoubledDifferencePlusVarText(num: real -> string)
    requires PlainDigits(num)
    ensures CoefficientText(3.0, false, true, num) + "v1" + CoefficientText(-2.0, false, false, num) + "v2" == "3 v1 - 2 v2"
  {
  }

  /** A term with coefficient 1 prints without it. */
  lemma UnitTermText(first: bool, nx: string, ny: string, num: real -> string)
    ensures TermText(1.0, first, nx, ny, num) == (if first then "" else " + ") + nx + " " + ny
  {
  }

  /** A term with a positive coefficient other than 1 prints it. */
  lemma PositiveTermText(c: real, first: bool, nx: string, ny: string, num: real -> string)
    requires c > 0.0 && c != 1.0
    ensures TermText(c, first, nx, ny, num) == (if first then "" else " + ") + num(c) + " " + nx + " " + ny
  {
  }

  lemma ProductOfSumsText(num: real -> string)
    ensures TermText(1.0, true, "v1", "v2", num) + (TermText(1.0, false, "v1", "v3", num)
          + (TermText(1.0, false, "v2", "v2", num) + TermText(1.0, false, "v2", "v3", num)))
         == "v1 v2 + v1 v3 + v2 v2 + v2 v3"
  {
    assert TermText(1.0, true, "v1", "v2", num) == "v1 v2" by {
      UnitTermText(true, "v1", "v2", num);
    }
    assert TermText(1.0, false, "v1", "v3", num) == " + v1 v3" by {
      UnitTermText(false, "v1", "v3", num);
    }
    assert TermText(1.0, false, "v2", "v2", num) == " + v2 v2" by {
      UnitTermText(false, "v2", "v2", num);
    }
    assert TermText(1.0, false, "v2", "v3", num) == " + v2 v3" by {
      UnitTermText(false, "v2", "v3", num);
    }
    ProductOfSumsJoin();
  }

  lemma WeightedProductText(num: real -> string)
    requires PlainDigits(num)
    ensures TermText(3.0, true, "v1", "v2", num) + (TermText(4.0, false, "v1", "v3", num)
          + (TermText(6.0, false, "v2", "v2", num) + TermText(8.0, false, "v2", "v3", num)))
         == "3 v1 v2 + 4 v1 v3 + 6 v2 v2 + 8 v2 v3"
  {
    assert TermText(3.0, true, "v1", "v2", num) == "3 v1 v2" by {
      PositiveTermText(3.0, true, "v1", "v2", num);
    }
    assert TermText(4.0, false, "v1", "v3", num) == " + 4 v1 v3" by {
      PositiveTermText(4.0, false, "v1", "v3", num);
    }
    assert TermText(6.0, false, "v2", "v2", num) == " + 6 v2 v2" by {
      PositiveTermText(6.0, false, "v2", "v2", num);
    }
    assert TermText(8.0, false, "v2", "v3", num) == " + 8 v2 v3" by {
      PositiveTermText(8.0, false, "v2", "v3", num);
    }
    WeightedProductJoin();
  }

  lemma ProductOfSumsJoin()
    ensures "v1 v2" + (" + v1 v3" + (" + v2 v2" + " + v2 v3")) == "v1 v2 + v1 v3 + v2 v2 + v2 v3"
  {
  }

  lemma WeightedProductJoin()
    ensures "3 v1 v2" + (" + 4 v1 v3" + (" + 6 v2 v2" + " + 8 v2 v3")) == "3 v1 v2 + 4 v1 v3 + 6 v2 v2 + 8 v2 v3"
  {
  }

  // ---------------------------------------------------------------------------
  // The linear tests

  /** `Expr(3)` prints `3`. */
  lemma PrintsConstant(num: real -> string)
    requires PlainDigits(num)
    ensures Prints(Const(3.0), "3", num)
  {
  }

  /** Any listing of a one-term linear expression prints that term. */
  lemma PrintsSingle(v: Var, n: string, c: real, num: real -> string)
    requires v.name == Some(n) && c != 0.0
    ensures Prints(Expr(0.0, map[v := c], map[]), CoefficientText(c, false, true, num) + n, num)
  {
    var e := Expr(0.0, map[v := c], map[]);
    RenderOne(v, n, c, num);
    forall q, l | Enumerates(q, e.quad.Keys) && Enumerates(l, e.linear.Keys)
      ensures ToText(e, q, l, num) == CoefficientText(c, false, true, num) + n
    {
      NoListing(q, QuadKey);
      OneListing(l, v, LinearKey);
    }
  }

  /** `-v1` prints `-v1`. */
  lemma PrintsNegatedVar(v1: Var, v2: Var, v3: Var, num: real -> string)
    requires TestVars(v1, v2, v3) && PlainDigits(num)
    ensures Prints(VarNeg(v1), "-v1", num)
  {
    ScaledVar(v1, -1.0);
    PrintsSingle(v1, "v1", -1.0, num);
    assert CoefficientText(-1.0, false, true, num) + "v1" == "-v1";
  }

  /** Any listing of a two-term linear expression in the test variables
      prints as the sorted one. */
  lemma PrintsTwoTerms(e: Expr, v1: Var, v2: Var, v3: Var, num: real -> string)
    requires TestVars(v1, v2, v3)
    requires e.quad == map[] && e.linear.Keys == {v1, v2}
    ensures Prints(e, Render(e, [], [v1, v2], num), num)
  {
    forall q, l | Enumerates(q, e.quad.Keys) && Enumerates(l, e.linear.Keys)
      ensures ToText(e, q, l, num) == Render(e, [], [v1, v2], num)
    {
      NoListing(q, QuadKey);
      LinearListing(l, v1, v2, v3);
    }
  }

  /** The text of `c1 v1 + c2 v2`. */
  lemma PrintsPair(v1: Var, v2: Var, v3: Var, c1: real, c2: real, num: real -> string)
    requires TestVars(v1, v2, v3) && c1 != 0.0 && c2 != 0.0
    ensures Prints(Expr(0.0, map[v1 := c1, v2 := c2], map[]),
                   CoefficientText(c1, false, true, num) + "v1" + CoefficientText(c2, false, false, num) + "v2", num)
  {
    PrintsTwoTerms(Expr(0.0, map[v1 := c1, v2 := c2], map[]), v1, v2, v3, num);
    RenderTwo(v1, v2, c1, c2, num);
  }

  /** `v1 - v2` prints `v1 - v2`. */
  lemma PrintsDifference(v1: Var, v2: Var, v3: Var, num: real -> string)
    requires TestVars(v1, v2, v3) && PlainDigits(num)
    ensures Prints(VarMinusVar(v1, v2), "v1 - v2", num)
  {
    DifferenceOfTwo(v1, v2);
    PrintsPair(v1, v2, v3, 1.0, -1.0, num);
    DifferenceText(num);
  }

  /** `2 * v1 - v2` prints `2 v1 - v2`. */
  lemma PrintsWeightedDifference(v1: Var, v2: Var, v3: Var, num: real -> string)
    requires TestVars(v1, v2, v3) && PlainDigits(num)
    ensures Prints(MinusVar(VarTimesConst(v1, 2.0), v2), "2 v1 - v2", num)
  {
    WeightedSum(v1, 2.0, v2, -1.0);
    assert MinusVar(VarTimesConst(v1, 2.0), v2) == Add(VarTimesConst(v1, 2.0), VarTimesConst(v2, -1.0));
    PrintsPair(v1, v2, v3, 2.0, -1.0, num);
    WeightedDifferenceText(num);
  }

  /** `2 * v1 - 2 * v1` is the constant 0: both terms cancel. */
  lemma Cancelled(v1: Var)
    ensures Sub(VarTimesConst(v1, 2.0), VarTimesConst(v1, 2.0)) == Const(0.0)
  {
    var e := Sub(VarTimesConst(v1, 2.0), VarTimesConst(v1, 2.0));
    ScaledVar(v1, 2.0);
    EqualByCoeff(e.linear, map[]);
    EqualByCoeff(e.quad, map[]);
  }

  /** `2 * v1 - 2 * v1` prints `0`: the constant is printed since no term
      was. */
  lemma PrintsCancelled(v1: Var, num: real -> string)
    requires PlainDigits(num)
    ensures Prints(Sub(VarTimesConst(v1, 2.0), VarTimesConst(v1, 2.0)), "0", num)
  {
    Cancelled(v1);
  }

  /** `2 * (v1 - v2)`, with both coefficients doubled. */
  lemma DoubledDifference(v1: Var, v2: Var)
    requires v1 != v2
    ensures ConstTimes(2.0, VarMinusVar(v1, v2)) == Expr(0.0, map[v1 := 2.0, v2 := -2.0], map[])
  {
    DifferenceOfTwo(v1, v2);
    EqualByCoeff(ConstTimes(2.0, VarMinusVar(v1, v2)).linear, map[v1 := 2.0, v2 := -2.0]);
  }

  /** `2 * (v1 - v2)` prints `2 v1 - 2 v2`. */
  lemma PrintsDoubledDifference(v1: Var, v2: Var, v3: Var, num: real -> string)
    requires TestVars(v1, v2, v3) && PlainDigits(num)
    ensures Prints(ConstTimes(2.0, VarMinusVar(v1, v2)), "2 v1 - 2 v2", num)
  {
    DoubledDifference(v1, v2);
    PrintsPair(v1, v2, v3, 2.0, -2.0, num);
    DoubledDifferenceText(num);
  }

  /** `2 * (v1 - v2) + v1` has coefficients 3 and -2. */
  lemma DoubledDifferencePlusVar(v1: Var, v2: Var)
    requires v1 != v2
    ensures AddVar(ConstTimes(2.0, VarMinusVar(v1, v2)), v1) == Expr(0.0, map[v1 := 3.0, v2 := -2.0], map[])
  {
    DoubledDifference(v1, v2);
    EqualByCoeff(AddVar(Expr(0.0, map[v1 := 2.0, v2 := -2.0], map[]), v1).linear, map[v1 := 3.0, v2 := -2.0]);
  }

  /** `2 * (v1 - v2) + v1` prints `3 v1 - 2 v2`. */
  lemma PrintsDoubledDifferencePlusVar(v1: Var, v2: Var, v3: Var, num: real -> string)
    requires TestVars(v1, v2, v3) && PlainDigits(num)
    ensures Prints(AddVar(ConstTimes(2.0, VarMinusVar(v1, v2)), v1), "3 v1 - 2 v2", num)
  {
    DoubledDifferencePlusVar(v1, v2);
    PrintsPair(v1, v2, v3, 3.0, -2.0, num);
    DoubledDifferencePlusVarText(num);
  }

  /** `2 * (v1 - v2) - 2 * v1` is `-2 v2`: the `v1` term cancels. */
  lemma DoubledDifferenceMinusTerm(v1: Var, v2: Var)
    requires v1 != v2
    ensures Sub(ConstTimes(2.0, VarMinusVar(v1, v2)), VarTimesConst(v1, 2.0)) == Expr(0.0, map[v2 := -2.0], map[])
  {
    DoubledDifference(v1, v2);
    ScaledVar(v1, 2.0);
    var e := Sub(Expr(0.0, map[v1 := 2.0, v2 := -2.0], map[]), Expr(0.0, map[v1 := 2.0], map[]));
    forall u
      ensures Coeff(e.linear, u) == Coeff(map[v2 := -2.0], u)
    {
      CoeffOfTwo(v1, 2.0, v2, -2.0, u);
    }
    EqualByCoeff(e.linear, map[v2 := -2.0]);
    EqualByCoeff(e.quad, map[]);
  }

  /** `2 * (v1 - v2) - 2 * v1` prints `-2 v2`. */
  lemma PrintsDoubledDifferenceMinusTerm(v1: Var, v2: Var, v3: Var, num: real -> string)
    requires TestVars(v1, v2, v3) && PlainDigits(num)
    ensures Prints(Sub(ConstTimes(2.0, VarMinusVar(v1, v2)), VarTimesConst(v1, 2.0)), "-2 v2", num)
  {
    DoubledDifferenceMinusTerm(v1, v2);
    PrintsSingle(v2, "v2", -2.0, num);
    NegatedTermText(num);
  }

  lemma NegatedTermText(num: real -> string)
    requires PlainDigits(num)
    ensures CoefficientText(-2.0, false, true, num) + "v2" == "-2 v2"
  {
  }

  /** `2 * (v1 - v2) / 2` is `v1 - v2` again. */
  lemma HalvedDifference(v1: Var, v2: Var)
    requires v1 != v2
    ensures DivConst(ConstTimes(2.0, VarMinusVar(v1, v2)), 2.0) == Expr(0.0, map[v1 := 1.0, v2 := -1.0], map[])
  {
    DoubledDifference(v1, v2);
    EqualByCoeff(DivConst(ConstTimes(2.0, VarMinusVar(v1, v2)), 2.0).linear, map[v1 := 1.0, v2 := -1.0]);
  }

  /** `2 * (v1 - v2) / 2` prints `v1 - v2`. */
  lemma PrintsHalvedDifference(v1: Var, v2: Var, v3: Var, num: real -> string)
    requires TestVars(v1, v2, v3) && PlainDigits(num)
    ensures Prints(DivConst(ConstTimes(2.0, VarMinusVar(v1, v2)), 2.0), "v1 - v2", num)
  {
    HalvedDifference(v1, v2);
    PrintsPair(v1, v2, v3, 1.0, -1.0, num);
    DifferenceText(num);
  }

  // ---------------------------------------------------------------------------
  // The quadratic tests

  /** `v1 * v2` prints `v1 v2`. */
  lemma PrintsVarProduct(v1: Var, v2: Var, v3: Var, num: real -> string)
    requires TestVars(v1, v2, v3) && PlainDigits(num)
    ensures Prints(VarTimesVar(v1, v2), "v1 v2", num)
  {
    var p := Ordered(VarPair(v1, v2));
    var e := Expr(0.0, map[], map[p := 1.0]);
    assert VarTimesVar(v1, v2) == e;
    NamesOrdered();
    RenderQuads(e.quad, [p], num);
    QuadTerm([p], e.quad, true, num, "v1", "v2", 1.0);
    forall q, l | Enumerates(q, e.quad.Keys) && Enumerates(l, e.linear.Keys)
      ensures ToText(e, q, l, num) == "v1 v2"
    {
      OneListing(q, p, QuadKey);
      NoListing(l, LinearKey);
    }
  }

  /** `(v1 + v2) * (v1 - v2)` prints `v1 v1 - v2 v2`. */
  lemma PrintsDifferenceOfSquares(v1: Var, v2: Var, v3: Var, num: real -> string)
    requires TestVars(v1, v2, v3) && PlainDigits(num)
    ensures Mul(VarPlusVar(v1, v2), VarMinusVar(v1, v2)).Ok?
    ensures Prints(Mul(VarPlusVar(v1, v2), VarMinusVar(v1, v2)).value, "v1 v1 - v2 v2", num)
  {
    DifferenceOfSquares(v1, v2);
    PrintsSquares(v1, v2, v3, num);
  }

  lemma PrintsSquares(v1: Var, v2: Var, v3: Var, num: real -> string)
    requires TestVars(v1, v2, v3)
    ensures Prints(Expr(0.0, map[], map[VarPair(v1, v1) := 1.0, VarPair(v2, v2) := -1.0]), "v1 v1 - v2 v2", num)
  {
    var ps := [VarPair(v1, v1), VarPair(v2, v2)];
    var e := Expr(0.0, map[], map[ps[0] := 1.0, ps[1] := -1.0]);
    SquaresText(v1, v2, v3, num);
    forall q, l | Enumerates(q, e.quad.Keys) && Enumerates(l, e.linear.Keys)
      ensures ToText(e, q, l, num) == "v1 v1 - v2 v2"
    {
      SquaresListing(q, v1, v2, v3);
      NoListing(l, LinearKey);
    }
  }

  lemma SquaresListing(order: seq<VarPair>, v1: Var, v2: Var, v3: Var)
    requires TestVars(v1, v2, v3) && Enumerates(order, {VarPair(v1, v1), VarPair(v2, v2)})
    ensures Sort(order, QuadKey) == [VarPair(v1, v1), VarPair(v2, v2)]
  {
    NamesOrdered();
    QuadKeyOf(VarPair(v1, v1), "v1", "v1");
    QuadKeyOf(VarPair(v2, v2), "v2", "v2");
    PairKeyOrder("v1", "v1", "v2", "v2");
    SortIs(order, [VarPair(v1, v1), VarPair(v2, v2)], {VarPair(v1, v1), VarPair(v2, v2)}, QuadKey);
  }

  lemma SquaresText(v1: Var, v2: Var, v3: Var, num: real -> string)
    requires TestVars(v1, v2, v3)
    ensures var ps := [VarPair(v1, v1), VarPair(v2, v2)];
      Render(Expr(0.0, map[], map[ps[0] := 1.0, ps[1] := -1.0]), ps, [], num) == "v1 v1 - v2 v2"
  {
    var ps := [VarPair(v1, v1), VarPair(v2, v2)];
    var q := map[ps[0] := 1.0, ps[1] := -1.0];
    RenderQuads(q, ps, num);
    QuadTwo(ps, q, ["v1", "v1", "v2", "v2"], [1.0, -1.0], num);
    SquaresTermsText(num);
  }

  /** Two quadratic terms, named as `n` lists them. */
  lemma QuadTwo(ps: seq<VarPair>, q: map<VarPair, real>, n: seq<string>, c: seq<real>, num: real -> string)
    requires |ps| == 2 && |n| == 4 && |c| == 2
    requires NamedPair(ps[0], n[0], n[1]) && NamedPair(ps[1], n[2], n[3])
    requires (n[0] == n[1] || StrLess(n[0], n[1])) && (n[2] == n[3] || StrLess(n[2], n[3]))
    requires Coeff(q, ps[0]) == c[0] && Coeff(q, ps[1]) == c[1]
    ensures QuadText(ps, q, true, num) == TermText(c[0], true, n[0], n[1], num) + TermText(c[1], false, n[2], n[3], num)
  {
    var s1 := ps[1..];
    assert s1[0] == ps[1] && |s1[1..]| == 0;
    QuadTerm(s1, q, false, num, n[2], n[3], c[1]);
    assert QuadText(s1, q, false, num) == TermText(c[1], false, n[2], n[3], num);
    QuadTerm(ps, q, true, num, n[0], n[1], c[0]);
  }

  lemma SquaresTermsText(num: real -> string)
    ensures TermText(1.0, true, "v1", "v1", num) + TermText(-1.0, false, "v2", "v2", num) == "v1 v1 - v2 v2"
  {
    UnitTermText(true, "v1", "v1", num);
    assert TermText(-1.0, false, "v2", "v2", num) == " - v2 v2";
  }

  /** `(v1 + v2) * (v2 + v3)` prints `v1 v2 + v1 v3 + v2 v2 + v2 v3`. */
  lemma PrintsProductOfSums(v1: Var, v2: Var, v3: Var, num: real -> string)
    requires TestVars(v1, v2, v3) && PlainDigits(num)
    ensures Mul(VarPlusVar(v1, v2), VarPlusVar(v2, v3)).Ok?
    ensures Prints(Mul(VarPlusVar(v1, v2), VarPlusVar(v2, v3)).value, "v1 v2 + v1 v3 + v2 v2 + v2 v3", num)
  {
    SumsProduct(v1, v2, v3);
    PrintsFour(v1, v2, v3, [1.0, 1.0, 1.0, 1.0], num);
    ProductOfSumsText(num);
  }

  /** `(1 * v1 + 2 * v2) * (3 * v2 + 4 * v3)` prints
      `3 v1 v2 + 4 v1 v3 + 6 v2 v2 + 8 v2 v3`. */
  lemma PrintsWeightedProduct(v1: Var, v2: Var, v3: Var, num: real -> string)
    requires TestVars(v1, v2, v3) && PlainDigits(num)
    ensures Mul(Add(VarTimesConst(v1, 1.0), VarTimesConst(v2, 2.0)), Add(VarTimesConst(v2, 3.0), VarTimesConst(v3, 4.0))).Ok?
    ensures Prints(Mul(Add(VarTimesConst(v1, 1.0), VarTimesConst(v2, 2.0)), Add(VarTimesConst(v2, 3.0), VarTimesConst(v3, 4.0))).value,
                   "3 v1 v2 + 4 v1 v3 + 6 v2 v2 + 8 v2 v3", num)
  {
    WeightedProduct(v1, v2, v3);
    PrintsFour(v1, v2, v3, [3.0, 4.0, 6.0, 8.0], num);
    WeightedProductText(num);
  }

  /** The text of a combination of the four product terms. */
  lemma PrintsFour(v1: Var, v2: Var, v3: Var, c: seq<real>, num: real -> string)
    requires TestVars(v1, v2, v3) && |c| == 4
    ensures var ps := [Ordered(VarPair(v1, v2)), Ordered(VarPair(v1, v3)), VarPair(v2, v2), Ordered(VarPair(v2, v3))];
      Prints(Expr(0.0, map[], map[ps[0] := c[0], ps[1] := c[1], ps[2] := c[2], ps[3] := c[3]]),
             TermText(c[0], true, "v1", "v2", num) + (TermText(c[1], false, "v1", "v3", num)
             + (TermText(c[2], false, "v2", "v2", num) + TermText(c[3], false, "v2", "v3", num))), num)
  {
    var ps := [Ordered(VarPair(v1, v2)), Ordered(VarPair(v1, v3)), VarPair(v2, v2), Ordered(VarPair(v2, v3))];
    var e := Expr(0.0, map[], map[ps[0] := c[0], ps[1] := c[1], ps[2] := c[2], ps[3] := c[3]]);
    RenderFour(v1, v2, v3, c, num);
    forall q, l | Enumerates(q, e.quad.Keys) && Enumerates(l, e.linear.Keys)
      ensures ToText(e, q, l, num) == Render(e, ps, [], num)
    {
      FourPairsListing(q, ps, v1, v2, v3);
      NoListing(l, LinearKey);
    }
  }
}
