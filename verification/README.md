# miplib core, modelled in Dafny

miplib is a C++ front end for mixed-integer programming. It has one modelling
vocabulary: variables, expressions, constraints and indicator constraints. A
`Solver` hands that vocabulary to one of three backends: Gurobi, SCIP or
lp_solve. This project models the solver-independent part of the library,
plus the small decision rules the backends apply when they accept or
translate what they are given.

- **Variables** (`variables.dfy`, `text_order.dfy`). A variable handle is a
  record of creation index, type, bounds and optional name. Two handles are
  the same when their creation indices are equal, and `is_lex_less` orders
  them by creation index. `id` gives the name, or else the handle's address text.
  `ordered` and `ordered_by_name` canonicalise a pair. A binary variable
  always reports the bounds `[0, 1]`. Strings are compared
  lexicographically, as `std::string::operator<` does.
- **Expressions** (`term_maps.dfy`, `expressions.dfy`, `products.dfy`,
  `in_place_product.dfy`). An expression is a constant, a linear term map
  and a quadratic term map keyed by ordered pairs. No stored coefficient is
  ever zero, because a coefficient that reaches exactly 0 is erased. The
  model covers:
  - the compound operators `+=`, `-=`, `*=` and `/=`, and every free
    operator overload;
  - `must_be_binary`;
  - the accessors `linear_vars`, `linear_coeffs`, `quad_coeffs`,
    `quad_vars_1` and `quad_vars_2`.

  The meaning of an expression is its value under an assignment of reals to
  variables (`Eval`). `*=` is also written as the loop the source runs
  (`InPlaceProduct`). For an operand that does not share the target's
  implementation, that loop is proved to compute the functional product. For
  `x *= x` it is not: see "## Findings".
- **Printing** (`printing.dfy`). `operator<<(Expr)` sorts quadratic terms
  by the pair of ids and linear terms by id. It hides unit coefficients,
  and prints the constant last, or alone when there are no terms. The
  numeral formatting of a `double` is a parameter `num`.
- **Constraints** (`constraints.dfy`). `e1 <= e2`, `e1 == e2` and
  `e1 >= e2` fold into `e1 - e2 ◁ 0`. `!e` negates a binary expression.
  `>>` and `<<` pair an implicant with an implicand. The textual forms are
  modelled too. A comparison is then handed to the backend's
  `create_constr`. Gurobi's accepts every constraint the front end builds.
  SCIP's and lp_solve's also refuse one whose difference `e1 - e2` is
  constant, since their constraint objects store `expr.solver()`.
- **Dispatch** (`dispatch.dfy`). The model covers:
  - backend selection in `Solver::Solver` and `supports_backend`, with the
    compiled-in backends as a parameter;
  - the indicator-constraint policy switch of `Solver::add`;
  - posting a reformulation one constraint at a time, where an error
    stops the loop and keeps what was already posted.
- **Backends** (`native_indicators.dfy`, `rows.dfy`, `gurobi.dfy`,
  `scip.dfy`, `lpsolve.dfy`). The model covers:
  - the acceptance rule for native indicator constraints, shared by Gurobi
    and SCIP;
  - how a canonical `expr ◁ 0` becomes a backend row;
  - the "posted twice" guards;
  - SCIP's splitting of an equality implicand into two indicator
    constraints;
  - lp_solve's type codes, quadratic guards and `dump` extension check;
  - the status-code maps of all three `solve` methods.

  The vendor model is a plain record of the rows posted so far.
- **Unit tests** (`printed_tests.dfy`, `constraint_tests.dfy`,
  `indicator_tests.dfy`). These files hold the scenarios of
  test/unit/expr.cpp and test/unit/solver.cpp. Each one is stated about the
  model for every listing of the hash maps' terms.

Every iteration order of an `unordered_map` is a parameter (`order`, `lo`,
`qo`). Each one is constrained only to list every key exactly once
(`Enumerates`). Each result that the source promises regardless of order is
proved for every such order.

## Model

| member | source | states |
|---|---|---|
| Variables.Ordered | miplib/expr.cpp:9-19 | the canonical pair holds the same two variables, and its first is never `is_lex_less`-greater than its second |
| Variables.OrderedSymmetric | miplib/expr.cpp:9-19 | for two different handles (or one record twice), `ordered(a, b) == ordered(b, a)`, so `a·b` and `b·a` share one key |
| Variables.OrderedIdempotent | miplib/expr.cpp:9-19 | canonicalising an already canonical pair changes nothing |
| Variables.HexRoundTrip | miplib/var.cpp:44-46 | reading the hexadecimal address text back gives the address, so the text determines it |
| Variables.AddressTextInjective | miplib/var.cpp:44-46 | two addresses print the same text exactly when they are equal |
| Variables.IdSeparatesUnnamed | miplib/var.cpp:38-47 | two unnamed variables print the same `id` exactly when they are the same handle |
| Variables.OrderedByName | miplib/expr.cpp:21-31 | the pair holds the same two variables, with the first id not greater than the second |
| Variables.ReportedLb | miplib/gurobi/var.cpp:66-72 | a binary variable reports lower bound 0, and any other variable its stored bound |
| Variables.ReportedUb | miplib/scip/var.cpp:120-125 | a binary variable reports upper bound 1, and any other variable its stored bound |
| TextOrder.StrLessIrreflexive | miplib/expr.cpp:263-266 | no id sorts before itself |
| TextOrder.StrLessTransitive | miplib/expr.cpp:263-266 | the string order used to sort ids is transitive |
| TextOrder.StrLessAsymmetric | miplib/expr.cpp:263-266 | two ids never sort before each other |
| TextOrder.StrLessTotal | miplib/expr.cpp:263-266 | of two different ids, one sorts first |
| TextOrder.KeyLessIrreflexive | miplib/expr.cpp:252-260 | the pair-of-ids order used for quadratic terms is irreflexive |
| TextOrder.KeyLessTransitive | miplib/expr.cpp:252-260 | the pair-of-ids order is transitive |
| TextOrder.KeyLessAsymmetric | miplib/expr.cpp:252-260 | the pair-of-ids order is asymmetric |
| TextOrder.KeyLessTotal | miplib/expr.cpp:252-260 | of two different pairs of ids, one sorts first |
| TextOrder.PairKeyOrder | miplib/expr.cpp:252-260 | the order on two-id keys compares the first ids and breaks a tie by the second ids, as the quadratic comparator does |
| TermMaps.EqualByCoeff | miplib/expr.cpp:76-117 | two term maps without stored zeros are equal exactly when they give every key the same coefficient |
| TermMaps.Accumulate | miplib/expr.cpp:58-74 | adding `d` to one key leaves every other key and coefficient alone, inserts an absent key, and keeps the map free of stored zeros |
| TermMaps.AddTerms | miplib/expr.cpp:76-117 | the sum of two term maps gives each key the sum of its coefficients, uses no new keys and erases any sum that becomes zero |
| TermMaps.AddTermsStep | miplib/expr.cpp:81-114 | adding a map equals adding its terms one at a time, in any order |
| TermMaps.ScaleTerms | miplib/expr.cpp:138-154 | scaling keeps the keys and multiplies every coefficient by the factor |
| TermMaps.AddNegThenAdd | miplib/expr.hpp:116-120 | subtracting a term map and adding it back returns the original map |
| TermMaps.AddNegEmptyIff | miplib/expr.hpp:116-120 | subtracting one zero-free term map from another leaves no term exactly when the two maps are equal |
| TermMaps.AddScaledTerms | miplib/expr.cpp:186-222 | the distributed sum `m + cst·n` gives each key `m[k] + cst·n[k]` and stores no zero |
| TermMaps.AddScaledTermsCases | miplib/expr.cpp:186-222 | for a nonzero factor the distributed sum is the sum with the scaled map, and for factor 0 it is the original map |
| TermMaps.WeightLinear | miplib/expr.cpp:76-154 | evaluating a term at an assignment is additive and homogeneous in its coefficient |
| TermMaps.SumMapRemove | miplib/expr.cpp:76-117 | the value of a term map is the value of one term plus the value of the rest |
| TermMaps.SumMapEmpty | miplib/expr.hpp:16-17 | the value of an empty term map is 0 |
| TermMaps.SumMapSingleton | miplib/expr.hpp:42-43 | the value of a one-term map is that term's value |
| TermMaps.SumMapUpdate | miplib/expr.cpp:58-74 | the value of a map with one key overwritten is that term plus the value of the rest |
| TermMaps.SumMapAccumulate | miplib/expr.cpp:58-74 | adding `d` to a key adds the value of `d` at that key to the map's value, even when the key is erased |
| TermMaps.AddTermsCommutative | miplib/expr.cpp:76-117 | adding term maps does not depend on the order of the operands |
| TermMaps.AddTermsAssociative | miplib/expr.cpp:76-117 | adding term maps does not depend on grouping |
| TermMaps.AccumulateIsAddTerms | miplib/expr.cpp:58-74 | adding one term is adding its one-term map |
| TermMaps.ScaleSingle | miplib/expr.cpp:138-154 | scaling a one-term map scales its coefficient |
| TermMaps.AddTermsEmpty | miplib/expr.cpp:76-117 | adding an empty term map changes nothing |
| TermMaps.SumMapAddTerms | miplib/expr.cpp:76-117 | the value of a sum of term maps is the sum of their values |
| TermMaps.ScaleTermsRemove | miplib/expr.cpp:138-154 | scaling commutes with removing a key |
| TermMaps.SumMapScale | miplib/expr.cpp:138-154 | the value of a scaled map is the map's value under scaled weights |
| TermMaps.SumMapTimes | miplib/expr.cpp:138-154 | weights scaled by `c` scale a map's value by `c` |
| TermMaps.SumMapScaleWeight | miplib/expr.cpp:138-154 | the value of a map scaled by `c` is `c` times its value |
| TermMaps.SumMapAddScaled | miplib/expr.cpp:186-222 | the value of `m + cst·n` is `value(m) + cst·value(n)` |
| TermMaps.Lookups | miplib/expr.cpp:351-361 | the coefficient list holds each listed key's coefficient, in the listing's order |
| TermMaps.ZipLookups | miplib/expr.cpp:351-374 | zipping listed keys with their looked-up coefficients rebuilds the map restricted to those keys |
| TermMaps.ListingRoundTrip | miplib/expr.cpp:351-374 | zipping a full listing with its coefficients rebuilds the whole term map |
| TermMaps.EnumerationSize | miplib/expr.cpp:351-374 | a listing of every key once is as long as the map |
| Expressions.WeightsLinear | miplib/expr.cpp:76-154 | evaluating linear and quadratic terms is additive in the coefficient |
| Expressions.PairValueOrdered | miplib/expr.cpp:9-19 | canonicalising a pair does not change the value of its product |
| Expressions.Const | miplib/expr.hpp:16-17 | `Expr(c)` is constant with constant `c` and has no terms |
| Expressions.FromVar | miplib/expr.hpp:42-43 | `Expr(v)` is linear and not constant, with constant 0 and the single term `1·v` |
| Expressions.EvalConst | miplib/expr.hpp:16-17 | `Expr(c)` denotes `c` |
| Expressions.EvalFromVar | miplib/expr.hpp:42-43 | `Expr(v)` denotes the value of `v` |
| Expressions.ClassifierRelations | miplib/expr.hpp:49-62 | constants are linear, `is_quadratic` is the negation of `is_linear`, a constant denotes its constant, and a linear expression denotes its constant plus its linear part |
| Expressions.AddConst | miplib/expr.cpp:51-55 | `+= c` changes only the constant, by `c` |
| Expressions.EvalAddConst | miplib/expr.cpp:51-55 | `e + c` denotes `value(e) + c` |
| Expressions.AddVar | miplib/expr.cpp:58-74 | `+= v` adds 1 to `v`'s coefficient, inserting or erasing it, and leaves everything else unchanged |
| Expressions.SubVar | miplib/expr.cpp:119-135 | `-= v` subtracts 1 from `v`'s coefficient, inserting or erasing it, and leaves everything else unchanged |
| Expressions.EvalAddVar | miplib/expr.cpp:58-135 | `e + v` denotes `value(e) + a(v)` and `e - v` denotes `value(e) - a(v)` |
| Expressions.Add | miplib/expr.cpp:76-117 | `+=` sums the constants and, key by key, the linear and quadratic coefficients, erasing zero sums |
| Expressions.EvalAdd | miplib/expr.cpp:445-449 | `e + f` denotes the sum of the two values |
| Expressions.AddVarIsAdd | miplib/expr.cpp:58-74 | `+= v` is the same as `+= Expr(v)` |
| Expressions.AddCommutative | miplib/expr.cpp:445-449 | `e + f == f + e` |
| Expressions.AddAssociative | miplib/expr.cpp:445-449 | `(e + f) + g == e + (f + g)` |
| Expressions.AddZero | miplib/expr.cpp:433-437 | adding `Expr(0)` gives back the same expression |
| Expressions.Scale | miplib/expr.cpp:138-154 | `*= 0` leaves the constant 0 with no terms; `*= c` for `c ≠ 0` keeps every key and multiplies every coefficient and the constant by `c` |
| Expressions.EvalScale | miplib/expr.cpp:451-455 | `e * c` denotes `c · value(e)` |
| Expressions.EvalScaleZero | miplib/expr.cpp:138-143 | `e * 0` denotes 0 |
| Expressions.EvalScaleNonzero | miplib/expr.cpp:144-154 | for `c ≠ 0`, `e * c` denotes `c · value(e)` |
| Expressions.EvalNeg | miplib/expr.cpp:422-426 | `-e` denotes `-value(e)` |
| Expressions.EvalSub | miplib/expr.hpp:154-157 | `e - f` denotes the difference of the values |
| Expressions.NegCoefficients | miplib/expr.cpp:422-426 | negation flips the sign of the constant and of every coefficient, and is its own inverse |
| Expressions.MinusVarIsSubVar | miplib/expr.cpp:428-431 | `e - v` is `e -= v` |
| Expressions.SubThenAdd | miplib/expr.hpp:116-120 | `(e - f) + f == e`, so `-=` is undone by `+=` |
| Expressions.SubConstantIff | miplib/expr.hpp:49-52 | `e - f` is constant exactly when `e` and `f` have the same linear and quadratic terms |
| Expressions.DivConst | miplib/expr.hpp:163-166 | `e / c` divides the constant by `c` and keeps every key |
| Expressions.EvalDivConst | miplib/expr.hpp:163-166 | `e / c` denotes `value(e) / c` |
| Expressions.DivExpr | miplib/expr.cpp:469-477 | division fails exactly when the divisor is not constant; otherwise it divides by the divisor's constant |
| Expressions.EvalDivExpr | miplib/expr.cpp:243-246 | division by a nonzero constant expression denotes the quotient of the values |
| Expressions.EvalVarOperators | miplib/expr.hpp:181-229 | `-v`, `v + c`, `v1 + v2`, `v - c` and `v1 - v2` denote what they say |
| Expressions.EvalVarTimesConst | miplib/expr.hpp:236-239 | `v * c` denotes `c · a(v)` |
| Expressions.EvalExprOperators | miplib/expr.hpp:191-249 | `c + e`, `v + e`, `c - v`, `c - e`, `v - e` and `c * e` denote what they say |
| Expressions.ScalarLeftForms | miplib/expr.hpp:191-249 | `c + e` is `e + c`, `c * e` is `e * c`, and `c - v` is the constant `c` with the single term `-1·v` |
| Expressions.MustBeBinaryIff | miplib/expr.cpp:308-347 | `must_be_binary` holds exactly for the constants 0 and 1, and for one term over binary variables whose coefficient and constant are `(1, 0)` or `(-1, 1)` |
| Expressions.BinaryLinearSound | miplib/expr.cpp:324-333 | a linear expression accepted by `must_be_binary` takes only the values 0 and 1 on a 0/1 assignment |
| Expressions.BinaryQuadSound | miplib/expr.cpp:334-346 | a quadratic expression accepted by `must_be_binary` takes only the values 0 and 1 on a 0/1 assignment |
| Expressions.MustBeBinarySound | miplib/expr.cpp:308-347 | every expression `must_be_binary` accepts is 0 or 1 under every assignment that gives binary variables 0 or 1 |
| Expressions.LinearVars | miplib/expr.cpp:364-374 | `linear_vars` lists exactly the linear variables, once each |
| Expressions.LinearCoeffs | miplib/expr.cpp:351-361 | `linear_coeffs` lists the linear coefficients in the same order as `linear_vars` |
| Expressions.QuadCoeffs | miplib/expr.cpp:377-387 | `quad_coeffs` lists each quadratic coefficient in the map's order |
| Expressions.QuadVars1 | miplib/expr.cpp:390-400 | `quad_vars_1` lists the first variable of each quadratic key in that order |
| Expressions.QuadVars2 | miplib/expr.cpp:403-413 | `quad_vars_2` lists the second variable of each quadratic key in that order |
| Expressions.PairUp | miplib/expr.cpp:390-413 | the pair at each position joins the first variable and the second variable listed at that position, so `quad_vars_1` and `quad_vars_2` read back the keys entry by entry |
| Expressions.LinearAccessorsRoundTrip | miplib/expr.cpp:351-374 | zipping `linear_vars` with `linear_coeffs` rebuilds the linear map |
| Expressions.QuadAccessorsRoundTrip | miplib/expr.cpp:377-413 | pairing `quad_vars_1` with `quad_vars_2` gives back the keys, and zipping them with `quad_coeffs` rebuilds the quadratic map |
| Products.Cross | miplib/expr.cpp:224-238 | the linear-by-linear cross terms give each canonical pair the sum of the coefficient products over both orders, and store no zero |
| Products.CrossSplit | miplib/expr.cpp:224-238 | the cross terms of a linear map split into those of one term and those of the rest |
| Products.EvalCross | miplib/expr.cpp:224-238 | the cross terms denote the product of the two linear parts |
| Products.Mul | miplib/expr.cpp:161-241 | `*=` fails with "quartic" when both sides have quadratic terms, with "cubic" when one has quadratic terms and the other linear terms, and succeeds otherwise, storing no zero |
| Products.EvalMul | miplib/expr.cpp:161-241 | when `e *= f` succeeds, the result denotes the product of the two values under every assignment |
| Products.MulTermsCoeffs | miplib/expr.cpp:179-238 | each coefficient of the product is `f.constant·e[k] + e.constant·f[k]`, plus the cross-term coefficient for a pair |
| Products.MulCommutative | miplib/expr.cpp:463-467 | `e * f == f * e` for variables with coherent handles |
| Products.MulTermsValid | miplib/expr.cpp:179-238 | the product stores no zero coefficient |
| Products.LinearProduct | miplib/expr.cpp:224-238 | the product of two constant-free linear expressions is exactly their cross terms |
| Products.MulVar | miplib/expr.cpp:156-159 | `*= v` fails with "cubic" exactly when the expression has quadratic terms |
| Products.VarTimesVarIsMul | miplib/expr.hpp:251-254 | `v1 * v2` is `Expr(v1) *= v2`: the single term `1·ordered(v1, v2)` |
| Products.VarTimes | miplib/expr.hpp:256-259 | `v * e` fails with "cubic" exactly when `e` has quadratic terms |
| Products.EvalMulVar | miplib/expr.cpp:457-461 | `e * v` denotes `value(e) · a(v)` when `e` has no quadratic term |
| Products.EvalVarTimes | miplib/expr.hpp:256-259 | `v * e` denotes `a(v) · value(e)` when `e` has no quadratic term |
| Products.EvalVarTimesVar | miplib/expr.hpp:251-254 | `v1 * v2` denotes `a(v1) · a(v2)` |
| Products.VarTimesVarCoalesces | miplib/expr.hpp:251-254 | `v1 * v2 == v2 * v1`: both products share one key |
| Products.DifferenceOfSquares | test/unit/expr.cpp:44 | `(v1 + v2) * (v1 - v2)` is `v1·v1 - v2·v2`, since the two cross terms cancel and are erased |
| Products.SumsProduct | test/unit/expr.cpp:43 | `(v1 + v2) * (v2 + v3)` is `v1v2 + v1v3 + v2v2 + v2v3` |
| Products.WeightedProduct | test/unit/expr.cpp:45-49 | `(v1 + 2v2) * (3v2 + 4v3)` is `3v1v2 + 4v1v3 + 6v2v2 + 8v2v3` |
| Products.ThreeVariablesFail | test/unit/expr.cpp:52 | `v1 * v2 * v3` fails with "cubic" |
| Products.ShiftedProductFails | test/unit/expr.cpp:53 | `(v1 + 2) * (v2 + 2)` succeeds, and multiplying it by `v3` fails with "cubic" |
| Products.FourthPowerFails | test/unit/expr.cpp:56 | `v1·v1·v1` fails with "cubic" and `(v1·v1)·(v1·v1)` with "quartic" |
| InPlaceProduct.Distribute | miplib/expr.cpp:186-222 | the loop over the other map's terms, accumulating `cst·coeff` per key, computes the distributed sum |
| InPlaceProduct.AccumulateRow | miplib/expr.cpp:226-238 | the inner loop over `f`'s linear terms adds one row of cross terms and stores no zero |
| InPlaceProduct.AccumulateCross | miplib/expr.cpp:224-238 | the nested loops over both linear maps add exactly the cross terms |
| InPlaceProduct.MultiplyTerms | miplib/expr.cpp:179-238 | for an operand that does not share the target's implementation, the in-place product loops compute the functional product, for every iteration order |
| InPlaceProduct.Multiply | miplib/expr.cpp:161-241 | for an operand that does not share the target's implementation, `*=` as the source runs it, including its degree checks, equals `Products.Mul` |
| InPlaceProduct.DistributeShared | miplib/expr.cpp:187-203 | when the operand is the target, the loop over its linear terms reads coefficients it has not yet visited, so every coefficient `c` becomes `c + k·c`; the keys stay the same |
| InPlaceProduct.MultiplyShared | miplib/expr.cpp:161-238 | `x *= x` through `Expr::operator*=(Expr)` gives the closed form `SharedProductAsWritten`: the quartic error for a quadratic `x`, otherwise the rescaled operand distributed and crossed with the backed-up linear terms |
| InPlaceProduct.SharedSquareVanishes | miplib/expr.cpp:184-203 | as written, `x *= x` for `x = v` gives the constant 0, where `Products.Mul` gives `v·v` |
| InPlaceProduct.ShiftedSquare | miplib/expr.cpp:161-241 | the square of `v + 2` is `v·v + 4 v + 4` |
| InPlaceProduct.SharedShiftedSquare | miplib/expr.cpp:184-238 | as written, `x *= x` for `x = v + 2` gives `6 v·v + 6 v + 4`, which differs from the square |
| Printing.Insert | miplib/expr.cpp:252-266 | inserting into a list adds exactly that element |
| Printing.InsertSorted | miplib/expr.cpp:252-266 | insertion keeps a sorted list sorted |
| Printing.Sort | miplib/expr.cpp:252-266 | sorting keeps the length and the elements |
| Printing.SortSorted | miplib/expr.cpp:252-266 | the sorted list is ordered by its keys |
| Printing.NoRepeats | miplib/expr.cpp:252-266 | a list as long as a set and holding exactly its elements lists each element once |
| Printing.CardinalityBound | miplib/expr.cpp:252-266 | a list covering a set is at least as long as the set |
| Printing.ExactLengthIffNoRepeats | miplib/expr.cpp:252-266 | a list holding exactly the elements of a set is as long as the set exactly when it lists each element once |
| Printing.SortEnumerates | miplib/expr.cpp:252-266 | sorting a listing of the terms gives a listing of the same terms |
| Printing.SortedUnique | miplib/expr.cpp:252-266 | with distinct ids, there is only one sorted listing of a set of terms |
| Printing.ChainSorted | miplib/expr.cpp:252-266 | a list whose neighbours are in order is sorted |
| Printing.SortIs | miplib/expr.cpp:252-266 | sorting any listing gives the one listing that is in order |
| Printing.Abs | miplib/expr.cpp:268-283 | the printed magnitude is non-negative and equals the coefficient or its negation |
| Printing.CoefficientTextNegated | miplib/expr.cpp:268-283 | a coefficient of opposite sign prints with `-` for `+` and the same magnitude, both on a leading term and between terms |
| Printing.RenderShifted | miplib/expr.cpp:285-303 | with at least one term printed, a nonzero constant is printed last as a signed continuation of the terms |
| Printing.ToText | miplib/expr.cpp:296-301 | a constant expression prints as its sign followed by its magnitude, including 0 as "0" |
| Printing.ToTextOrderIndependent | miplib/expr.cpp:249-303 | when the ids are distinct, the text does not depend on the hash maps' iteration order |
| Printing.SortsAgree | miplib/expr.cpp:252-266 | with distinct ids, sorting any two listings of the same terms gives the same list |
| PrintedTests.PrintsConstant | test/unit/expr.cpp:33 | `Expr(3)` prints `3` |
| PrintedTests.PrintsNegatedVar | test/unit/expr.cpp:34 | `-v1` prints `-v1` |
| PrintedTests.PrintsDifference | test/unit/expr.cpp:35 | `v1 - v2` prints `v1 - v2` |
| PrintedTests.PrintsWeightedDifference | test/unit/expr.cpp:36 | `2 * v1 - v2` prints `2 v1 - v2` |
| PrintedTests.PrintsCancelled | test/unit/expr.cpp:37 | `2 * v1 - 2 * v1` prints `0`: the cancelled term is erased and the zero constant printed alone |
| PrintedTests.PrintsDoubledDifference | test/unit/expr.cpp:38 | `2 * (v1 - v2)` prints `2 v1 - 2 v2` |
| PrintedTests.PrintsDoubledDifferencePlusVar | test/unit/expr.cpp:39 | `2 * (v1 - v2) + v1` prints `3 v1 - 2 v2` |
| PrintedTests.PrintsDoubledDifferenceMinusTerm | test/unit/expr.cpp:40 | `2 * (v1 - v2) - 2 * v1` prints `-2 v2`: the cancelled `v1` term is gone |
| PrintedTests.PrintsHalvedDifference | test/unit/expr.cpp:41 | `2 * (v1 - v2) / 2` prints `v1 - v2` |
| PrintedTests.PrintsVarProduct | test/unit/expr.cpp:42 | `v1 * v2` prints `v1 v2` |
| PrintedTests.PrintsProductOfSums | test/unit/expr.cpp:43 | `(v1 + v2) * (v2 + v3)` prints `v1 v2 + v1 v3 + v2 v2 + v2 v3` |
| PrintedTests.PrintsDifferenceOfSquares | test/unit/expr.cpp:44 | `(v1 + v2) * (v1 - v2)` prints `v1 v1 - v2 v2` |
| PrintedTests.PrintsWeightedProduct | test/unit/expr.cpp:45-49 | `(1 * v1 + 2 * v2) * (3 * v2 + 4 * v3)` prints `3 v1 v2 + 4 v1 v3 + 6 v2 v2 + 8 v2 v3` |
| Constraints.Relate | miplib/constr.cpp:47-73 | the front end's check: comparing fails exactly when both sides are constant; otherwise it gives an unnamed constraint of the requested type. This is the whole of forming a comparison with Gurobi; with SCIP and lp_solve see Scip.CompareFails and Lpsolve.CompareFails |
| Constraints.RelateMeaning | miplib/constr.cpp:47-73 | the constraint from `e1 ◁ e2` holds exactly when `value(e1) ◁ value(e2)` |
| Constraints.LessEqMeaning | miplib/constr.cpp:47-59 | `e1 <= e2` is a LessEqual constraint that holds exactly when `value(e1) <= value(e2)` |
| Constraints.EqMeaning | miplib/constr.cpp:61-73 | `e1 == e2` is an Equal constraint that holds exactly when the values are equal |
| Constraints.GreaterEqMeaning | miplib/constr.hpp:45-48 | `e1 >= e2` is a LessEqual constraint that holds exactly when `value(e1) >= value(e2)` |
| Constraints.RelateDifference | miplib/constr.cpp:47-73 | the stored expression is `e1 - e2`: adding `e2` back gives `e1` |
| Constraints.SubConst | miplib/expr.hpp:116-120 | subtracting `Expr(c)` only lowers the constant by `c` |
| Constraints.Negate | miplib/constr.cpp:38-45 | `!e` fails for an expression that is not surely binary, and for a constant that is; otherwise it is an unnamed Equal constraint |
| Constraints.NegateExpression | miplib/constr.cpp:38-45 | `!e` is `e == 0`, storing `e` itself |
| Constraints.NegateMeaning | miplib/constr.cpp:38-45 | on a 0/1 assignment, `!e` holds exactly when `e` is not 1 |
| Constraints.ImpliedBy | miplib/constr.cpp:111-114 | `implicand << implicant` builds the same pair as `implicant >> implicand` |
| Constraints.Indicate | miplib/constr.cpp:106-114 | forming an indicator with `>>` or `<<` fails exactly when the implicand's expression is constant, because the solver is found through that expression; otherwise both constraints are kept unchanged and unnamed |
| Constraints.SelfComparisonHasNoSolver | miplib/expr.cpp:33-49 | the front end accepts `x <= x` but stores a constant expression, so it cannot be an implicand; only Gurobi's factory goes on to form it (Gurobi.SelfComparisonForms), while SCIP's and lp_solve's refuse it |
| Constraints.ExprImplies | miplib/constr.hpp:77-80 | `e >> c` fails for a constant `e`, then as `Constr >> Constr` does; on success the implicant is the equation `e == 1` |
| Constraints.ImpliedByExpr | miplib/constr.hpp:82-85 | `c << e` is `e >> c` |
| Constraints.ExprImpliesMeaning | miplib/constr.hpp:77-85 | `e >> c` holds exactly when `e = 1` implies `c` |
| Constraints.RelationOfText | miplib/constr.cpp:30-36 | a printed constraint is read back as LessEqual only from a text ending in ` <= 0`, and as Equal only from one ending in ` = 0` |
| Constraints.ConstrTextRelation | miplib/constr.cpp:30-36 | the text of a constraint ends in the suffix of its own relation type |
| Constraints.ConstrTextOrderIndependent | miplib/constr.cpp:30-36 | with distinct ids, a constraint's text does not depend on the iteration order |
| Constraints.IndicatorTextOrderIndependent | miplib/constr.cpp:100-104 | when the ids on each side are distinct, the text `implicant -> implicand` does not depend on the hash maps' iteration orders |
| ConstraintTests.EqualsText | test/unit/expr.cpp:83 | `v1 == v2` prints `v1 - v2 = 0` |
| ConstraintTests.AtLeastVarText | test/unit/expr.cpp:84 | `v1 >= v2` prints `-v1 + v2 <= 0` |
| ConstraintTests.AtLeastOneText | test/unit/expr.cpp:85 | `v >= 1` prints `-v + 1 <= 0`, as `v1 >= 1` prints `-v1 + 1 <= 0` |
| ConstraintTests.ProductAtLeastOneText | test/unit/expr.cpp:88 | `v1 * v2 >= 1` prints `-v1 v2 + 1 <= 0` |
| ConstraintTests.WeightedProductEqualsText | test/unit/expr.cpp:89-93 | `(1 * v1 + 2 * v2) * (3 * v2 + 4 * v3) == 2` prints `3 v1 v2 + 4 v1 v3 + 6 v2 v2 + 8 v2 v3 - 2 = 0` |
| ConstraintTests.NonBinaryNegations | test/unit/expr.cpp:96-98 | `!v3`, `!(v1 + 1)` and `!(2 * v1)` fail as non-binary negations |
| ConstraintTests.NegatedVarText | test/unit/expr.cpp:101 | `!v1` is `v1 == 0` and prints `v1 = 0` |
| ConstraintTests.NegatedComplementText | test/unit/expr.cpp:102 | `!(1 - v1)` prints `-v1 + 1 = 0` |
| ConstraintTests.ImpliesText | test/unit/expr.cpp:105 | `(v1 == 0) >> (v2 >= 1)` prints `v1 = 0 -> -v2 + 1 <= 0` |
| ConstraintTests.NegationImpliesText | test/unit/expr.cpp:106 | `!v1 >> (v2 >= 1)` prints `v1 = 0 -> -v2 + 1 <= 0` |
| ConstraintTests.WeightedImpliesText | test/unit/expr.cpp:107 | `(2 * v1 == 0) >> (v2 >= 1)` prints `2 v1 = 0 -> -v2 + 1 <= 0` |
| ConstraintTests.ImpliedByText | test/unit/expr.cpp:108 | `(v1 == 0) << (v2 == 1)` prints `v2 - 1 = 0 -> v1 = 0` |
| ConstraintTests.NegationImpliedByVarText | test/unit/expr.cpp:109 | `!v1 << v2` prints `v2 - 1 = 0 -> v1 = 0` |
| ConstraintTests.ImpliesSumText | test/unit/expr.cpp:110-113 | `(v1 == 1) >> (2*v2 + v3 <= 1)` prints `v1 - 1 = 0 -> 2 v2 + v3 - 1 <= 0` |
| Dispatch.SupportsBackend | miplib/solver.cpp:133-158 | a backend is reported as supported only when it is named and compiled in, and `Any` never is |
| Dispatch.Create | miplib/solver.cpp:17-55 | the chosen backend is compiled in; a named backend is the one chosen or fails as not compiled; `Any` fails only when none is compiled |
| Dispatch.CreateNamedIffSupported | miplib/solver.cpp:17-158 | a named backend can be created exactly when `supports_backend` says so |
| Dispatch.CreateAnyPicksFirst | miplib/solver.cpp:43-54 | `Any` succeeds exactly when some backend is compiled in, and then picks the first in the order Gurobi, SCIP, lp_solve |
| Dispatch.AnyUnsupportedButCreatable | miplib/solver.cpp:43-54 | with any backend compiled in, `Any` is not reported as supported and can still be created |
| Dispatch.PostAll | miplib/solver.cpp:79-80 | the number of constraints posted never exceeds the list, and falls short of it exactly when an error stopped the loop |
| Dispatch.PostAllStops | miplib/solver.cpp:79-80 | when a post fails, every constraint before it went through, the state kept is the one they left, and the failing constraint is the next one |
| Dispatch.PostAllAppend | miplib/solver.cpp:79-80 | posting a list of constraints is posting the first part and then, unless that stopped, the rest on the state it left |
| Dispatch.PostAllLogs | miplib/solver.cpp:79-80 | posting into a log appends every constraint in order |
| Dispatch.Native | miplib/solver.cpp:83 | handing the indicator to the backend posts it once or fails with the backend's error, leaving the state as it was |
| Dispatch.AddIndicator | miplib/solver.cpp:67-84 | when the policy reformulates, at most the whole reformulation is posted, all of it unless an error stopped it; otherwise one native post is made; a failure before any post leaves the state as it was |
| Dispatch.ReformulatePolicy | miplib/solver.cpp:69-82 | under Reformulate, the reformulation is posted, whatever the backend supports and whatever its native hook does |
| Dispatch.ReformulateIfUnsupportedPolicy | miplib/solver.cpp:73-83 | under ReformulateIfUnsupported, the indicator goes to the backend exactly when it supports indicators, and is reformulated otherwise |
| Dispatch.PassThroughPolicy | miplib/solver.cpp:83 | under PassThrough, the indicator always goes to the backend, and the reformulation is never used |
| Dispatch.ReformulationIsPosted | miplib/solver.cpp:69-82 | when the policy reformulates, exactly the reformulation's constraints are posted, in order |
| Rows.ListTerms | miplib/gurobi/solver.cpp:72-138 | the listed terms have as many linear and quadratic entries as the maps |
| Rows.ListTermsRoundTrip | miplib/gurobi/solver.cpp:72-138 | the listed terms and the constant rebuild the expression |
| Rows.ListSumLookups | miplib/lpsolve/solver.cpp:100-116 | a listed row's value is the value of the map restricted to the listed keys |
| Rows.RestrictSnoc | miplib/lpsolve/solver.cpp:100-116 | restricting to one more listed key adds exactly that term |
| Rows.ListingSum | miplib/lpsolve/solver.cpp:100-116 | a full listing of a term map has the map's value |
| Rows.ListTermsValue | miplib/gurobi/solver.cpp:72-138 | the constant plus the value of the listed terms is the expression's value |
| Rows.LinearListsNoQuad | miplib/gurobi/solver.cpp:72-90 | a linear expression lists no quadratic terms |
| Rows.NegateTerms | miplib/scip/solver.cpp:285-308 | negated terms keep every variable and flip the sign of every coefficient |
| Rows.Negated | miplib/scip/solver.cpp:285-308 | a negated coefficient list has the same length and every entry negated |
| Rows.ListSumNegated | miplib/scip/solver.cpp:285-308 | negated coefficients negate a row's value |
| Rows.NegateTermsValue | miplib/scip/solver.cpp:285-308 | negated terms denote the negated value |
| NativeIndicators.ActivationValueAsWritten | miplib/gurobi/solver.cpp:180-185 | the source's activating value `-coeff·constant` is accepted only as 0 or 1 |
| NativeIndicators.ActivationValue | miplib/gurobi/solver.cpp:180-185 | the intended activating value is 0 or 1 when accepted |
| NativeIndicators.ActivationValueIsRoot | miplib/gurobi/solver.cpp:180-185 | the intended rule accepts exactly the implicants whose root `-constant/coeff` is 0 or 1, and its value is that root |
| NativeIndicators.RootOfLine | miplib/gurobi/solver.cpp:180-185 | `x` solves `coeff·x + constant = 0` exactly when `x = -constant/coeff` |
| NativeIndicators.AsWrittenAgreement | miplib/gurobi/solver.cpp:180-185 | the source's rule agrees with the root exactly when the constant is 0 or the implicant is `±(v - 1) = 0` |
| NativeIndicators.UnitSquare | miplib/gurobi/solver.cpp:180-185 | a coefficient whose square is 1 is 1 or -1 |
| NativeIndicators.Check | miplib/gurobi/solver.cpp:156-193 | the factory's checks run in the source's order, each with its own error: not an equation, a non-linear implicant, not a single variable, no activating value (`IndicatorNeedsZeroOne`), a non-linear implicand (`IndicatorNeedsLinearImplicand`). Acceptance happens exactly when all pass, and switches the constraint on by the implicant's single variable |
| NativeIndicators.CheckRulesAgree | miplib/gurobi/solver.cpp:156-193 | the factory with the source's rule (`CheckAsWritten`) and with the intended one (`CheckIndicator`) agree on every implicant except a one-variable linear equation, and on that they accept alike exactly when the constant is 0 or the implicant is `±(v - 1) = 0` |
| NativeIndicators.IntendedYieldsRoot | miplib/gurobi/solver.cpp:180-185 | the intended rule's value, when given, is 0 or 1 and a root of the implicant |
| NativeIndicators.AsWrittenYieldsRoot | miplib/gurobi/solver.cpp:180-185 | the source's rule yields a root of the implicant exactly when it rejects, or the constant is 0, or the implicant is `±(v - 1) = 0` |
| NativeIndicators.IntendedAcceptsAtRoot | miplib/gurobi/solver.cpp:156-193 | whatever the intended factory accepts is switched on at a root of the implicant |
| NativeIndicators.AsWrittenAcceptsAtRoot | miplib/gurobi/solver.cpp:156-193 | what the source's factory accepts is switched on at a root of the implicant exactly when the constant is 0 or the implicant is `±(v - 1) = 0` |
| NativeIndicators.AcceptedImplicantMeaning | miplib/scip/solver.cpp:50-87 | for either rule, an implicant accepted at a root holds exactly when its variable takes the activating value |
| NativeIndicators.SingleTermValue | miplib/gurobi/solver.cpp:161-178 | a one-variable linear implicant denotes `constant + coeff·a(v)` |
| NativeIndicators.AsWrittenAcceptsWrongRoot | miplib/gurobi/solver.cpp:180-185 | the source accepts `2v - 0.5 = 0` with value 1; the intended rule rejects it |
| NativeIndicators.HalfImplicantFalseAtOne | miplib/gurobi/solver.cpp:180-185 | `2v - 0.5 = 0` is false at `v = 1` |
| NativeIndicators.AsWrittenRejectsRootOne | miplib/scip/solver.cpp:75-79 | the source rejects `2v - 2 = 0`, whose root is 1; the intended rule accepts it with value 1 |
| IndicatorTests.SumEqualsTwo | test/unit/solver.cpp:97-102 | `z1 + z2 == 2` stores `z1 + z2 - 2 = 0` |
| IndicatorTests.ProductEqualsZero | test/unit/solver.cpp:111-116 | `z1 * z2 == 0` stores `z1·z2 = 0` |
| IndicatorTests.ProductMinusZero | test/unit/solver.cpp:111-116 | subtracting 0 from `z1 * z2` leaves the product term alone |
| IndicatorTests.SwappedProductAtLeastOne | test/unit/solver.cpp:104-109 | `z2 * z1 >= 1` stores `1 - z1·z2 <= 0`, under the one key both orders of the product share |
| IndicatorTests.InequationImplicantRejected | test/unit/solver.cpp:90-95 | an inequation implicant is rejected as not an equation, under the source's rule and the intended one alike |
| IndicatorTests.TwoVariableImplicantRejected | test/unit/solver.cpp:97-102 | an implicant in two variables is rejected, under both rules |
| IndicatorTests.QuadraticImplicandRejected | test/unit/solver.cpp:104-109 | a quadratic implicand is rejected once the implicant is accepted, under both rules |
| IndicatorTests.QuadraticImplicantRejected | test/unit/solver.cpp:111-116 | a quadratic implicant is rejected, under both rules |
| IndicatorTests.LinearIndicatorAccepted | miplib/gurobi/solver.cpp:156-193 | `(z1 == 0) >> (z2 >= 1)` is accepted and switched on by `z1 = 0`, under both rules |
| Gurobi.BoundOr | miplib/gurobi/solver.cpp:43-44 | a given bound is kept, and a missing one takes the default |
| Gurobi.CreateVarBounds | miplib/gurobi/solver.cpp:30-70 | a binary variable is rejected for bounds other than absent, 0 or 1, and is otherwise created on `[0, 1]`; other types keep given bounds and default missing ones to `∓infinity` |
| Gurobi.CreatedVarReportsBounds | miplib/gurobi/var.cpp:66-80 | a created variable reports the bounds it was created with |
| Gurobi.GivenBoundsKept | miplib/gurobi/solver.cpp:41-62 | when creation succeeds with both bounds given, those bounds are used |
| Gurobi.CreateConstr | miplib/gurobi/solver.cpp:140-154 | `create_constr` never fails, and builds a linear constraint exactly for a linear expression |
| Gurobi.SelfComparisonForms | miplib/gurobi/solver.cpp:140-154 | with Gurobi, `x <= x` is formed, as a linear constraint on a constant expression |
| Gurobi.SenseOf | miplib/gurobi/solver.cpp:220-229 | the sense is `=` exactly for an Equal constraint |
| Gurobi.RowOf | miplib/gurobi/solver.cpp:210-238 | a posted row has rhs 0 and keeps the constant in its expression, and is linear exactly for a linear constraint |
| Gurobi.RowOfMeaning | miplib/gurobi/solver.cpp:210-238 | a row holds exactly when its constraint holds |
| Gurobi.RowOfRoundTrip | miplib/gurobi/solver.cpp:72-138 | the row rebuilds the constraint's expression |
| Gurobi.AddConstr | miplib/gurobi/solver.cpp:210-238 | posting appends one row and changes nothing else |
| Gurobi.AddConstrMeaning | miplib/gurobi/solver.cpp:210-238 | after posting, all rows hold exactly when the old rows and the new constraint hold |
| Gurobi.IndicatorOf | miplib/gurobi/solver.cpp:241-269 | for the rule given, the native indicator is switched on by the implicant's only variable at the value the rule gives, with the implicand's linear row |
| Gurobi.IndicatorOfMeaning | miplib/gurobi/solver.cpp:241-269 | wherever the rule accepts at a root (always for the intended rule), the native indicator holds exactly when the indicator constraint holds |
| Gurobi.AsWrittenIndicatorMisfires | miplib/gurobi/solver.cpp:241-269 | with the source's rule, `(2v - 0.5 = 0) >> (v <= 0)` is accepted with value 1, and at `v = 1` the indicator constraint holds while the posted native indicator does not |
| Gurobi.AddIndicator | miplib/gurobi/solver.cpp:241-269 | for the rule given, posting an indicator appends its one native indicator and leaves the rows alone |
| Gurobi.SolveStatusInverse | miplib/gurobi/solver.cpp:296-333 | the status map: OPTIMAL, INFEASIBLE, INF_OR_UNBD and UNBOUNDED map to their results; the limit and interrupt codes map to Interrupted; NUMERIC and SUBOPTIMAL map to Error; every other code maps to Other |
| Scip.CompareFails | miplib/scip/solver.cpp:43-48 | with SCIP, `e1 ◁ e2` fails exactly when the two sides have the same terms: as constant constraints when both are constant, and for lack of a solver otherwise; any other comparison gives the front end's constraint |
| Scip.SelfComparisonFails | miplib/scip/constr.hpp:10-15 | with SCIP, `x <= x` cannot be formed, because the constant `x - x` has no solver |
| Scip.AsScipConstr | miplib/scip/solver.cpp:89-163 | the row is `lhs ≤ terms ≤ -constant`, with lhs `-constant` for Equal and `-infinity` for LessEqual; every constraint that reaches it is accepted |
| Scip.AsScipConstrMeaning | miplib/scip/solver.cpp:128-157 | the SCIP row holds exactly when the constraint holds |
| Scip.Post | miplib/scip/solver.cpp:201-216 | posting fails exactly when the handle is already set; otherwise it appends the row and the new handle points at it |
| Scip.PostTwice | miplib/scip/solver.cpp:201-216 | after a successful post, posting with the new handle fails as posted twice |
| Scip.LiteralOf | miplib/scip/solver.cpp:249-256 | the indicator literal is on the accepted variable |
| Scip.LiteralOfMeaning | miplib/scip/solver.cpp:243-256 | the literal is true exactly when the variable takes the activating value, since value 0 uses the negated variable |
| Scip.IndicatorsOf | miplib/scip/solver.cpp:268-308 | for the rule given, an Equal implicand gives two SCIP indicators and a LessEqual one gives one, all on the literal of the accepted variable and value |
| Scip.IndicatorsOfMeaning | miplib/scip/solver.cpp:268-308 | wherever the rule accepts at a root (always for the intended rule), the SCIP indicators all hold exactly when the indicator constraint holds |
| Scip.PostIndicator | miplib/scip/solver.cpp:218-310 | posting an indicator fails exactly when it was already posted; otherwise it appends its SCIP indicators, each as one constraint in order |
| Scip.PostIndicatorHoldsAll | miplib/scip/solver.cpp:268-308 | after posting, the handle holds every constraint that was added |
| Scip.PostIndicatorTwice | miplib/scip/solver.cpp:222-225 | posting the same indicator again fails as posted twice |
| Scip.PostIndicatorAsWritten | miplib/scip/solver.cpp:218-310 | the source's indicator post, with the source's rule for the activating value, appends the SCIP indicators whatever the handle holds |
| Scip.AsWrittenPostsTwice | miplib/scip/solver.cpp:222-225 | as written, a second post of the same indicator succeeds and adds constraints again |
| Scip.AsWrittenLosesFirst | miplib/scip/solver.cpp:308 | as written, for an Equal implicand the handle no longer holds the first of the two added constraints |
| Scip.SolveInverse | miplib/scip/solver.cpp:312-357 | the status map: OPTIMAL, INFEASIBLE, INFORUNBD and UNBOUNDED map to their results; the limit and interrupt statuses map to Interrupted; TERMINATE maps to Error; every other status maps to Other |
| Scip.SolveFlag | miplib/scip/solver.cpp:325-356 | the has-solution flag is true for OPTIMAL and false for the infeasible and unbounded statuses; for a limit status it says whether solutions were found |
| Lpsolve.CompareFails | miplib/lpsolve/solver.cpp:34-39 | with lp_solve, `e1 ◁ e2` fails exactly when the two sides have the same terms: as constant constraints when both are constant, and for lack of a solver otherwise; any other comparison gives the front end's constraint |
| Lpsolve.SelfComparisonFails | miplib/lpsolve/constr.hpp:10-15 | with lp_solve, `x <= x` cannot be formed, because the constant `x - x` has no solver |
| Lpsolve.CodeOf | miplib/lpsolve/solver.cpp:103-110 | LessEqual maps to type code LE and Equal to EQ |
| Lpsolve.RowOf | miplib/lpsolve/solver.cpp:100-114 | the row lists each linear term once, with rhs `-constant` |
| Lpsolve.RowOfMeaning | miplib/lpsolve/solver.cpp:100-114 | for a linear constraint, the lp_solve row holds exactly when the constraint holds |
| Lpsolve.Post | miplib/lpsolve/solver.cpp:87-119 | posting fails as posted twice when the row index is set, refuses a quadratic constraint, and otherwise appends the row; the new index is the new row count |
| Lpsolve.PostTwice | miplib/lpsolve/solver.cpp:89-118 | after a successful post, the index is the new row count and posting again fails |
| Lpsolve.PostIndicator | miplib/lpsolve/solver.cpp:121-124 | posting a native indicator always fails |
| Lpsolve.IndicatorOnlyByReformulation | miplib/solver.cpp:67-84 | lp_solve accepts an indicator constraint only when the policy reformulates it |
| Lpsolve.SetObjective | miplib/lpsolve/solver.cpp:64-84 | a quadratic objective is refused; a linear one sets the sense and leaves the rows alone |
| Lpsolve.ObjectiveDropsConstant | miplib/lpsolve/solver.cpp:64-84 | the objective row denotes the objective without its constant |
| Lpsolve.SolveStatusInverse | miplib/lpsolve/solver.cpp:148-176 | codes 0 and 9 map to Optimal; 1, -2, 6 and 7 to Interrupted; 2 to Infeasible; 3 to Unbounded; 4, 5 and 25 to Error; every other code to Other |
| Lpsolve.DumpAsWritten | miplib/lpsolve/solver.cpp:198-210 | as written, a name shorter than three characters makes `substr` throw |
| Lpsolve.AsWrittenNeverLp | miplib/lpsolve/solver.cpp:200-202 | as written, no file name is ever dumped as LP |
| Lpsolve.AsWrittenRejectsLpNames | miplib/lpsolve/solver.cpp:200-207 | as written, `model.lp` is refused and `lp` throws |
| Lpsolve.Dump | miplib/lpsolve/solver.cpp:198-210 | the intended `dump` fails only with the unsupported-format error |
| Lpsolve.DumpLpIff | miplib/lpsolve/solver.cpp:200-202 | the intended `dump` writes LP exactly for names ending in `lp` or `LP` |
| Lpsolve.DumpMpsIff | miplib/lpsolve/solver.cpp:203-205 | the intended `dump` writes MPS exactly for names ending in `mps` or `MPS` |
| Lpsolve.DumpAgreesOnMps | miplib/lpsolve/solver.cpp:203-205 | for MPS names, the source and the intended `dump` agree |

## Left out

- Floating point: coefficients and bounds are `real`. IEEE rounding, underflow, `inf` and `NaN` are not modelled. Because of that, `*= 0.0` and "exactly 0 is erased" are exact here. The decimal formatting of `os << double` is the parameter `num`.
- Expressions.DivConst: requires a nonzero divisor. With a zero divisor the source divides into IEEE infinities and NaNs, which are not modelled.
- Expressions.DivExpr: requires the divisor, when constant, to be nonzero, for the same reason.
- Expressions.DivConst: states the constant and the keys but not the divided coefficients; its value is stated by EvalDivConst.
- Iteration order of `std::unordered_map`: a parameter constrained only to list every key once. Whenever a result depends on it (the accessors, the rows handed to a vendor), it is stated for every order.
- Identity: a handle is its creation index with its record. `is_lex_less` compares pointer addresses in the source; the model compares creation indices. Two handles with the same index and different records would be incoherent (`Coherent`).
- Address text: the text `id` prints for an unnamed variable is `AddressText(index)`, a hexadecimal rendering of the index, not a real pointer.
- Sharing: `Expr` copies share their implementation and compound assignment mutates in place. The model treats every `Expr` as a value, so an aliased copy observing a later `+=` is not captured. The one compound assignment whose result changes when the operand shares the target's implementation is `*=` (`x *= x`, or `x *= y` after `Expr y = x`); that case is InPlaceProduct.MultiplyShared, listed under "## Findings".
- InPlaceProduct.Multiply, InPlaceProduct.MultiplyTerms: stated for an operand that does not share the target's implementation; a shared operand is InPlaceProduct.MultiplyShared.
- InPlaceProduct.MultiplyShared, InPlaceProduct.DistributeShared: exclude an operand whose constant is -1. There the loop over the target's own linear terms erases the entry it stands on, which a range-for over that map does not allow.
- Expression bounds `lb`/`ub`, `vars`, `arity`, `numerical_range`, `reified`, `has_reformulation` and `reformulation`: their bodies are not part of this model. A reformulation is a parameter, a list of constraints.
- `supports_indicator_constraints` and `create_reformulatable_indicator_constr`: a parameter, or not modelled.
- The lp_solve `create_indicator_constr` is not part of this model; only its `add` refusal is.
- Vendor APIs (GRB*, SCIP*, lp_solve calls), `SCIP_CALL` failures and object lifetimes: the vendor model is a list of posted rows. A vendor call's success is a boolean parameter (`vendorOk`) where the source checks it.
- Gurobi's pending-update mechanism, and objective posting for Gurobi and SCIP, including SCIP's auxiliary objective variable.
- `set_non_convex_policy`, `set_verbose`, `set_gap_tolerance`, the time limits, `infinity()` and the other passthrough setters and getters.
- Infinity: the infinite defaults and SCIP's `-infinity` left-hand side are the `Bound` values `NegInfinity` and `PosInfinity`.
- The `solve` signatures disagree between files. `Solver::solve` is declared as returning `Result` (miplib/solver.hpp:43) and defined as returning a `(Result, bool)` pair (miplib/solver.cpp:86). The backends' headers declare a pair (miplib/gurobi/solver.hpp:53, miplib/scip/solver.hpp:41, miplib/lpsolve/solver.hpp:41), but only SCIP's definition returns one (miplib/scip/solver.cpp:312); Gurobi's and lp_solve's return only `Result` (miplib/gurobi/solver.cpp:296, miplib/lpsolve/solver.cpp:127). The model follows the definitions: SCIP's flag is modelled, and Gurobi's and lp_solve's status maps return only the result. `Result::Error` is `SolveResult.Failed`.
- Debug `assert`s in the source, which compile away.
- Lazy-constraint callbacks (`miplib/lazy.hpp`), the C API (`miplib/capi.cpp`), `miplib/util/scale.cpp` and the `Vars` factory.
- Backend variable files beyond the binary bounds rule: lp_solve variable creation, renaming and bound setters.
- The tests' ReformulateIfUnsupported half (test/unit/solver.cpp:118-151): it expects success for implicants that `create_indicator_constr` in the source rejects when the indicator is formed, whatever the policy. The model follows the source.
- The solver-level tests of test/unit/expr.cpp beyond line 113 (bounds, values, reformulations) depend on members whose bodies are not part of this model. The exception is the binary bounds rule (test/unit/expr.cpp:241-243), covered by Variables.ReportedLb and Variables.ReportedUb.

## Findings

| source | as written | input that shows it | evidently intended | confidence | as-written member | corrected member |
|---|---|---|---|---|---|---|
| miplib/gurobi/solver.cpp:180-185 (also miplib/scip/solver.cpp:75-79, 243-245) | the activating value of an implicant `a·v + b = 0` is `c = -a·b`, accepted when it is 0 or 1 | `2·v - 0.5 = 0` is accepted with value 1, where it is false; `2·v - 2 = 0`, whose root is 1, is rejected | the activating value is the root `-b/a`, accepted when it is 0 or 1 | not executed | NativeIndicators.AsWrittenAcceptsWrongRoot | NativeIndicators.ActivationValueIsRoot |
| miplib/scip/solver.cpp:222-225 | the "posted twice" `logic_error` for an indicator constraint is constructed but never thrown | posting the same indicator twice adds its SCIP constraints twice | throw, as `add(Constr)` does | not executed | Scip.AsWrittenPostsTwice | Scip.PostIndicatorTwice |
| miplib/scip/solver.cpp:308 | the second indicator for an Equal implicand is stored into `p_constr_1`, overwriting the first | any indicator with an Equal implicand, such as `z1 == 1 >> z2 == 0` | store it into the second handle, so both constraints stay held | not executed | Scip.AsWrittenLosesFirst | Scip.PostIndicatorHoldsAll |
| miplib/expr.cpp:161-238 (via miplib/expr.hpp:134-138) | `*this *= e.m_constant` also rescales `e` when `e` is the target, and the loops then read the rescaled operand | `x = v + 2; x *= x` gives `6 v·v + 6 v + 4`; `x = v; x *= x` gives 0 | the square, `v·v + 4 v + 4` and `v·v` | not executed | InPlaceProduct.SharedShiftedSquare | InPlaceProduct.Multiply |
| miplib/lpsolve/solver.cpp:200-205 | the extension is the last three characters, compared with "lp" and "LP" | `model.lp` is refused, and `lp` makes `substr` throw `out_of_range` | names ending in `lp`/`LP` are dumped as LP | not executed | Lpsolve.AsWrittenNeverLp | Lpsolve.DumpLpIff |
