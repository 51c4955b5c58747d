/** The text form of an expression, `operator<<(ostream, ExprImpl)` of
    miplib/expr.cpp.

    The source copies the quadratic terms into a vector (each key turned into
    its by-name order), copies the linear terms into another, sorts both by
    variable id, and prints the quadratic terms, then the linear terms, then
    the constant. The hash maps' iteration orders are parameters here; `Sort`
    plays `std::sort`, and `ToTextOrderIndependent` shows that the text does
    not depend on those orders once the ids are distinct. Numbers are printed
    by the parameter `num`, the stream's formatting of a `double`. */
module Printing {
  import opened Variables
  import opened TextOrder
  import opened TermMaps
  import opened Expressions

  // ---------------------------------------------------------------------------
  // Sorting by a text key

  /** No later element has a strictly smaller key. */
  ghost predicate SortedBy<K(!new)>(s: seq<K>, key: K -> seq<string>) {
    forall i, j | 0 <= i < j < |s| :: !KeyLess(key(s[j]), key(s[i]))
  }

  /** Insert `x` before the first element whose key is larger. */
  function Insert<K(!new)>(s: seq<K>, x: K, key: K -> seq<string>): (r: seq<K>)
    ensures |r| == |s| + 1
    ensures forall y :: y in r <==> y in s || y == x
    decreases |s|
  {
    if |s| == 0 then [x]
    else if KeyLess(key(x), key(s[0])) then [x] + s
    else [s[0]] + Insert(s[1..], x, key)
  }

  lemma {:induction false} InsertSorted<K(!new)>(s: seq<K>, x: K, key: K -> seq<string>)
    requires SortedBy(s, key)
    ensures SortedBy(Insert(s, x, key), key)
    decreases |s|
  {
    var r := Insert(s, x, key);
    if |s| == 0 {
    } else if KeyLess(key(x), key(s[0])) {
      forall i, j | 0 <= i < j < |r|
        ensures !KeyLess(key(r[j]), key(r[i]))
      {
        if i == 0 {
          assert r[j] == s[j - 1];
          if KeyLess(key(s[j - 1]), key(x)) {
            KeyLessTransitive(key(s[j - 1]), key(x), key(s[0]));
            if j - 1 == 0 {
              KeyLessIrreflexive(key(s[0]));
            }
          }
        }
      }
    } else {
      var t := Insert(s[1..], x, key);
      InsertSorted(s[1..], x, key);
      forall i, j | 0 <= i < j < |r|
        ensures !KeyLess(key(r[j]), key(r[i]))
      {
        if i == 0 {
          assert r[j] == t[j - 1];
          assert t[j - 1] in s[1..] || t[j - 1] == x;
          if t[j - 1] != x {
            var k :| 0 <= k < |s[1..]| && s[1..][k] == t[j - 1];
            assert s[k + 1] == t[j - 1];
          }
        } else {
          assert r[i] == t[i - 1] && r[j] == t[j - 1];
        }
      }
    }
  }

  /** `std::sort` of a listing: insertion, one element at a time. */
  function Sort<K(!new)>(order: seq<K>, key: K -> seq<string>): (r: seq<K>)
    ensures |r| == |order|
    ensures forall y :: y in r <==> y in order
    decreases |order|
  {
    if |order| == 0 then []
    else Insert(Sort(order[..|order| - 1], key), order[|order| - 1], key)
  }

  lemma {:induction false} SortSorted<K(!new)>(order: seq<K>, key: K -> seq<string>)
    ensures SortedBy(Sort(order, key), key)
    decreases |order|
  {
    if |order| > 0 {
      SortSorted(order[..|order| - 1], key);
      InsertSorted(Sort(order[..|order| - 1], key), order[|order| - 1], key);
    }
  }

  /** A sequence as long as the set of its elements has no repeats. */
  lemma {:induction false} NoRepeats<K(!new)>(s: seq<K>, keys: set<K>)
    requires |s| == |keys| && forall y :: y in s <==> y in keys
    ensures Enumerates(s, keys)
    decreases |s|
  {
    if |s| > 0 {
      var n := |s| - 1;
      var front := s[..n];
      var x := s[n];
      if x in front {
        assert forall y :: y in front <==> y in keys by {
          forall y | y in keys
            ensures y in front
          {
            var i :| 0 <= i < |s| && s[i] == y;
            if i == n {
              assert y == x;
            } else {
              assert front[i] == y;
            }
          }
        }
        CardinalityBound(front, keys);
        assert false;
      }
      assert forall y :: y in front <==> y in keys - {x} by {
        forall y | y in keys - {x}
          ensures y in front
        {
          var i :| 0 <= i < |s| && s[i] == y;
          assert i != n;
          assert front[i] == y;
        }
      }
      NoRepeats(front, keys - {x});
      forall i, j | 0 <= i < j < |s|
        ensures s[i] != s[j]
      {
        if j == n {
          assert s[i] == front[i];
        } else {
          assert s[i] == front[i] && s[j] == front[j];
        }
      }
    }
  }

  /** A sequence holding every element of a set is at least as long. */
  lemma {:induction false} CardinalityBound<K(!new)>(s: seq<K>, keys: set<K>)
    requires forall y | y in keys :: y in s
    ensures |keys| <= |s|
    decreases |s|
  {
    if |s| == 0 {
      assert keys == {} by {
        forall y | y in keys
          ensures false
        {
        }
      }
    } else {
      var n := |s| - 1;
      var front := s[..n];
      forall y | y in keys - {s[n]}
        ensures y in front
      {
        var i :| 0 <= i < |s| && s[i] == y;
        assert i != n;
        assert front[i] == y;
      }
      CardinalityBound(front, keys - {s[n]});
    }
  }

  /** A listing that holds exactly the elements of a set is as long as the
      set exactly when it lists each element once. */
  lemma ExactLengthIffNoRepeats<K(!new)>(s: seq<K>, keys: set<K>)
    requires forall y :: y in s <==> y in keys
    ensures |keys| <= |s|
    ensures |s| == |keys| <==> Enumerates(s, keys)
  {
    CardinalityBound(s, keys);
    if |s| == |keys| {
      NoRepeats(s, keys);
    }
    if Enumerates(s, keys) {
      EnumerationSize(s, keys);
    }
  }

  /** Sorting keeps the listing an enumeration of the same keys. */
  lemma SortEnumerates<K(!new)>(order: seq<K>, keys: set<K>, key: K -> seq<string>)
    requires Enumerates(order, keys)
    ensures Enumerates(Sort(order, key), keys)
  {
    EnumerationSize(order, keys);
    NoRepeats(Sort(order, key), keys);
  }

  /** Distinct elements have distinct keys. */
  ghost predicate KeyInjective<K(!new)>(keys: set<K>, key: K -> seq<string>) {
    forall x, y | x in keys && y in keys && x != y :: key(x) != key(y)
  }

  /** Two sorted enumerations of the same set are the same sequence when the
      key tells the elements apart. */
  lemma {:induction false} SortedUnique<K(!new)>(s1: seq<K>, s2: seq<K>, keys: set<K>, key: K -> seq<string>)
    requires Enumerates(s1, keys) && Enumerates(s2, keys)
    requires SortedBy(s1, key) && SortedBy(s2, key)
    requires KeyInjective(keys, key)
    ensures s1 == s2
    decreases |s1|
  {
    EnumerationSize(s1, keys);
    EnumerationSize(s2, keys);
    if |s1| > 0 {
      var x, y := s1[0], s2[0];
      var i :| 0 <= i < |s1| && s1[i] == y;
      var j :| 0 <= j < |s2| && s2[j] == x;
      if x != y {
        assert key(x) != key(y);
        KeyLessTotal(key(x), key(y));
        assert false;
      }
      var t1, t2 := s1[1..], s2[1..];
      assert Enumerates(t1, keys - {x}) by {
        forall k | k in keys - {x}
          ensures k in t1
        {
          var m :| 0 <= m < |s1| && s1[m] == k;
          assert m != 0;
          assert t1[m - 1] == k;
        }
      }
      assert Enumerates(t2, keys - {x}) by {
        forall k | k in keys - {x}
          ensures k in t2
        {
          var m :| 0 <= m < |s2| && s2[m] == k;
          assert m != 0;
          assert t2[m - 1] == k;
        }
      }
      assert SortedBy(t1, key) by {
        forall a, b | 0 <= a < b < |t1|
          ensures !KeyLess(key(t1[b]), key(t1[a]))
        {
          assert t1[a] == s1[a + 1] && t1[b] == s1[b + 1];
        }
      }
      assert SortedBy(t2, key) by {
        forall a, b | 0 <= a < b < |t2|
          ensures !KeyLess(key(t2[b]), key(t2[a]))
        {
          assert t2[a] == s2[a + 1] && t2[b] == s2[b + 1];
        }
      }
      SortedUnique(t1, t2, keys - {x}, key);
      assert s1 == [x] + t1 && s2 == [x] + t2;
    }
  }

  /** Strictly increasing neighbours: the whole sequence is strictly
      increasing, hence sorted. */
  lemma {:induction false} ChainSorted<K(!new)>(s: seq<K>, key: K -> seq<string>)
    requires forall i | 0 <= i < |s| - 1 :: KeyLess(key(s[i]), key(s[i + 1]))
    ensures forall i, j | 0 <= i < j < |s| :: KeyLess(key(s[i]), key(s[j]))
    decreases |s|
  {
    if |s| > 1 {
      var t := s[1..];
      forall i | 0 <= i < |t| - 1
        ensures KeyLess(key(t[i]), key(t[i + 1]))
      {
        assert t[i] == s[i + 1] && t[i + 1] == s[i + 2];
      }
      ChainSorted(t, key);
      forall i, j | 0 <= i < j < |s|
        ensures KeyLess(key(s[i]), key(s[j]))
      {
        if i > 0 {
          assert s[i] == t[i - 1] && s[j] == t[j - 1];
        } else if j > 1 {
          assert s[1] == t[0] && s[j] == t[j - 1];
          KeyLessTransitive(key(s[0]), key(s[1]), key(s[j]));
        }
      }
    }
  }

  /** Any listing of the elements of a strictly increasing sequence sorts to
      that sequence. */
  lemma SortIs<K(!new)>(order: seq<K>, s: seq<K>, keys: set<K>, key: K -> seq<string>)
    requires Enumerates(order, keys)
    requires forall y :: y in s <==> y in keys
    requires forall i | 0 <= i < |s| - 1 :: KeyLess(key(s[i]), key(s[i + 1]))
    ensures Sort(order, key) == s
  {
    ChainSorted(s, key);
    forall i, j | 0 <= i < j < |s|
      ensures s[i] != s[j] && !KeyLess(key(s[j]), key(s[i]))
    {
      KeyLessIrreflexive(key(s[i]));
      KeyLessAsymmetric(key(s[i]), key(s[j]));
    }
    assert KeyInjective(keys, key) by {
      forall x, y | x in keys && y in keys && x != y
        ensures key(x) != key(y)
      {
        var i :| 0 <= i < |s| && s[i] == x;
        var j :| 0 <= j < |s| && s[j] == y;
        if i < j {
          KeyLessIrreflexive(key(x));
        } else {
          KeyLessIrreflexive(key(y));
        }
      }
    }
    SortEnumerates(order, keys, key);
    SortSorted(order, key);
    SortedUnique(Sort(order, key), s, keys, key);
  }

  // ---------------------------------------------------------------------------
  // Rendering

  /** `std::abs`. */
  function Abs(c: real): (r: real)
    ensures r >= 0.0 && (r == c || r == -c)
  {
    if c < 0.0 then -c else c
  }

  /** The `print_coefficient` lambda: a space unless this is the first item;
      `-` for a negative value, `+` for a positive one that is not first; a
      space unless first; for a term the magnitude and a space unless the
      coefficient is 1 or -1; for the constant its magnitude. */
  function CoefficientText(c: real, isConst: bool, first: bool, num: real -> string): string {
    (if first then "" else " ")
    + (if c < 0.0 then "-" else if c > 0.0 && !first then "+" else "")
    + (if first then "" else " ")
    + (if !isConst && c != 1.0 && c != -1.0 then num(Abs(c)) + " " else "")
    + (if isConst then num(Abs(c)) else "")
  }

  /** The quadratic terms in the listed order, each as its coefficient and
      the ids of its variables in by-name order. */
  function QuadText(ps: seq<VarPair>, q: map<VarPair, real>, first: bool, num: real -> string): string
    decreases |ps|
  {
    if |ps| == 0 then ""
    else
      var n := OrderedByName(ps[0]);
      CoefficientText(Coeff(q, ps[0]), false, first, num) + Id(n.first) + " " + Id(n.second)
      + QuadText(ps[1..], q, false, num)
  }

  /** The linear terms in the listed order. */
  function LinearText(vs: seq<Var>, l: map<Var, real>, first: bool, num: real -> string): string
    decreases |vs|
  {
    if |vs| == 0 then ""
    else CoefficientText(Coeff(l, vs[0]), false, first, num) + Id(vs[0]) + LinearText(vs[1..], l, false, num)
  }

  /** The terms in the given orders, then the constant, which is left out
      when it is 0 and some term was printed. */
  function Render(e: Expr, ps: seq<VarPair>, vs: seq<Var>, num: real -> string): string {
    var noTerm := |ps| == 0 && |vs| == 0;
    QuadText(ps, e.quad, true, num) + LinearText(vs, e.linear, |ps| == 0, num)
    + (if e.constant == 0.0 && !noTerm then "" else CoefficientText(e.constant, true, noTerm, num))
  }

  /** A coefficient of the opposite sign prints with the opposite sign and
      the same magnitude: `-` in front of a leading term, ` - ` instead of
      ` + ` between terms. */
  lemma CoefficientTextNegated(c: real, isConst: bool, num: real -> string)
    requires c > 0.0
    ensures CoefficientText(-c, isConst, true, num) == "-" + CoefficientText(c, isConst, true, num)
    ensures var t := CoefficientText(c, isConst, false, num);
      |t| >= 3 && t[..3] == " + " && CoefficientText(-c, isConst, false, num) == " - " + t[3..]
  {
    assert Abs(-c) == Abs(c);
  }

  /** With at least one term printed, a nonzero constant comes last, as a
      signed continuation of the terms; a zero constant is not printed. */
  lemma RenderShifted(e: Expr, k: real, ps: seq<VarPair>, vs: seq<Var>, num: real -> string)
    requires e.constant == 0.0 && |ps| + |vs| > 0 && k != 0.0
    ensures Render(e.(constant := k), ps, vs, num) == Render(e, ps, vs, num) + CoefficientText(k, true, false, num)
  {
    var terms := QuadText(ps, e.quad, true, num) + LinearText(vs, e.linear, |ps| == 0, num);
    assert !(|ps| == 0 && |vs| == 0);
    assert Render(e, ps, vs, num) == terms + "";
    assert terms + "" == terms;
  }

  /** The sort key of a quadratic term: the ids of its by-name ordered pair. */
  function QuadKey(p: VarPair): seq<string> {
    var n := OrderedByName(p);
    [Id(n.first), Id(n.second)]
  }

  /** The sort key of a linear term: the id of its variable. */
  function LinearKey(v: Var): seq<string> {
    [Id(v)]
  }

  /** `operator<<(ostream, ExprImpl)`, given the iteration orders of the two
      hash maps. */
  function ToText(e: Expr, quadOrder: seq<VarPair>, linearOrder: seq<Var>, num: real -> string): (r: string)
    requires Enumerates(quadOrder, e.quad.Keys) && Enumerates(linearOrder, e.linear.Keys)
    ensures IsConstant(e) ==> r == (if e.constant < 0.0 then "-" else "") + num(Abs(e.constant))
  {
    EnumerationSize(quadOrder, e.quad.Keys);
    EnumerationSize(linearOrder, e.linear.Keys);
    Render(e, Sort(quadOrder, QuadKey), Sort(linearOrder, LinearKey), num)
  }

  /** Distinct terms have distinct ids: no two variables of the expression
      share a name. */
  ghost predicate DistinctIds(e: Expr) {
    KeyInjective(e.quad.Keys, QuadKey) && KeyInjective(e.linear.Keys, LinearKey)
  }

  /** The text does not depend on the hash maps' iteration orders. */
  lemma ToTextOrderIndependent(e: Expr, q1: seq<VarPair>, l1: seq<Var>, q2: seq<VarPair>, l2: seq<Var>, num: real -> string)
    requires Enumerates(q1, e.quad.Keys) && Enumerates(l1, e.linear.Keys)
    requires Enumerates(q2, e.quad.Keys) && Enumerates(l2, e.linear.Keys)
    requires DistinctIds(e)
    ensures ToText(e, q1, l1, num) == ToText(e, q2, l2, num)
  {
    SortsAgree(q1, q2, e.quad.Keys, QuadKey);
    SortsAgree(l1, l2, e.linear.Keys, LinearKey);
  }

  /** Any two listings of the same keys sort to the same sequence. */
  lemma SortsAgree<K(!new)>(o1: seq<K>, o2: seq<K>, keys: set<K>, key: K -> seq<string>)
    requires Enumerates(o1, keys) && Enumerates(o2, keys) && KeyInjective(keys, key)
    ensures Sort(o1, key) == Sort(o2, key)
  {
    SortEnumerates(o1, keys, key);
    SortEnumerates(o2, keys, key);
    SortSorted(o1, key);
    SortSorted(o2, key);
    SortedUnique(Sort(o1, key), Sort(o2, key), keys, key);
  }
}
