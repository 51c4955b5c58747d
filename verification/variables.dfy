/** The variable handle (miplib/var.cpp, miplib/var.hpp).

    In the source a `Var` is a shared pointer to backend storage; identity is
    pointer equality and the order used for canonicalisation is pointer order.
    Here the pointer is an index assigned at creation, and the attributes the
    core reads (type, bounds, name) travel with it in one immutable record. */
module Variables {
  import opened Wrappers
  import opened TextOrder

  datatype VarType = Continuous | Binary | Integer

  /** A variable bound: a real, or the backend's infinity sentinel. */
  datatype Bound = NegInfinity | Finite(value: real) | PosInfinity

  datatype Var = Var(index: nat, vtype: VarType, lb: Bound, ub: Bound, name: Option<string>)

  /** An ordered pair of variables, the key type of quadratic terms. */
  datatype VarPair = VarPair(first: Var, second: Var)

  /** `Var::is_same`: the two handles are the same variable. */
  predicate IsSame(a: Var, b: Var) {
    a.index == b.index
  }

  /** `Var::is_lex_less`: the handle order. */
  predicate IsLexLess(a: Var, b: Var) {
    a.index < b.index
  }

  /** Within a set of records no two different records share a handle. A
      backend numbers its variables as it creates them, so the variables of
      one solver satisfy this. */
  ghost predicate Coherent(vs: set<Var>) {
    forall a, b | a in vs && b in vs :: IsSame(a, b) ==> a == b
  }

  /** `detail::ordered`: swap the pair unless its first handle is strictly
      smaller than its second. */
  function Ordered(p: VarPair): (r: VarPair)
    ensures !IsLexLess(r.second, r.first)
    ensures (r.first == p.first && r.second == p.second) || (r.first == p.second && r.second == p.first)
  {
    if IsLexLess(p.first, p.second) then p else VarPair(p.second, p.first)
  }

  /** The two orders of a pair of distinct variables canonicalise to one key,
      which is why `v1 * v2` and `v2 * v1` coalesce. */
  lemma OrderedSymmetric(a: Var, b: Var)
    requires !IsSame(a, b) || a == b
    ensures Ordered(VarPair(a, b)) == Ordered(VarPair(b, a))
  {
  }

  /** Canonicalising twice changes nothing, for pairs of distinct handles or of
      one variable. */
  lemma OrderedIdempotent(p: VarPair)
    requires !IsSame(p.first, p.second) || p.first == p.second
    ensures Ordered(Ordered(p)) == Ordered(p)
  {
  }

  /** The lower-case hexadecimal digit of a value below 16. */
  function HexDigit(d: nat): (c: char)
    requires d < 16
    ensures DigitValue(c) == d
  {
    if d < 10 then ('0' as int + d) as char else ('a' as int + d - 10) as char
  }

  /** The value of a hexadecimal digit. */
  function DigitValue(c: char): nat {
    if '0' <= c <= '9' then c as int - '0' as int
    else if 'a' <= c <= 'f' then c as int - 'a' as int + 10
    else 0
  }

  /** Lower-case hexadecimal digits of a natural number, most significant
      first, without leading zeros. */
  function HexDigits(n: nat): (r: string)
    ensures |r| > 0
    ensures |r| == 1 <==> n < 16
    decreases n
  {
    if n < 16 then [HexDigit(n)] else HexDigits(n / 16) + [HexDigit(n % 16)]
  }

  /** Reading hexadecimal digits back as a number. */
  function HexValue(s: string): nat
    decreases |s|
  {
    if |s| == 0 then 0 else HexValue(s[..|s| - 1]) * 16 + DigitValue(s[|s| - 1])
  }

  /** The digits read back as the number they render. */
  lemma {:induction false} HexRoundTrip(n: nat)
    ensures HexValue(HexDigits(n)) == n
    decreases n
  {
    var r := HexDigits(n);
    if n < 16 {
      assert r[..0] == [];
    } else {
      HexRoundTrip(n / 16);
      assert r[..|r| - 1] == HexDigits(n / 16);
    }
  }

  /** Stand-in for the text of the handle's pointer, which `id` prints for an
      unnamed variable. */
  function AddressText(index: nat): string {
    "0x" + HexDigits(index)
  }

  /** Different handles have different address texts. */
  lemma AddressTextInjective(i: nat, j: nat)
    ensures AddressText(i) == AddressText(j) <==> i == j
  {
    if AddressText(i) == AddressText(j) {
      assert HexDigits(i) == AddressText(i)[2..];
      assert HexDigits(j) == AddressText(j)[2..];
      HexRoundTrip(i);
      HexRoundTrip(j);
    }
  }

  /** `Var::id`: the name when one is set, the handle's address otherwise.
      `operator<<(ostream, Var)` prints exactly this text. */
  function Id(v: Var): (r: string)
    ensures v.name.Some? ==> r == v.name.value
    ensures v.name.None? ==> r == AddressText(v.index)
  {
    match v.name
    case Some(n) => n
    case None => AddressText(v.index)
  }

  /** Two unnamed variables print the same id exactly when they are the same
      handle, which is what sorting the printed terms by id relies on. */
  lemma {:induction false} IdSeparatesUnnamed(u: Var, v: Var)
    requires u.name.None? && v.name.None?
    ensures Id(u) == Id(v) <==> IsSame(u, v)
  {
    AddressTextInjective(u.index, v.index);
  }

  /** `detail::ordered_by_name`: swap the pair when the first id is greater
      than the second. */
  function OrderedByName(p: VarPair): (r: VarPair)
    ensures !StrLess(Id(r.second), Id(r.first))
    ensures (r.first == p.first && r.second == p.second) || (r.first == p.second && r.second == p.first)
  {
    if StrLess(Id(p.second), Id(p.first)) then
      StrLessAsymmetric(Id(p.second), Id(p.first));
      VarPair(p.second, p.first)
    else p
  }

  /** Bounds as a backend reports them: a binary variable always reports
      `[0, 1]`, whatever is stored. */
  function ReportedLb(v: Var): (r: Bound)
    ensures v.vtype == Binary ==> r == Finite(0.0)
    ensures v.vtype != Binary ==> r == v.lb
  {
    if v.vtype == Binary then Finite(0.0) else v.lb
  }

  function ReportedUb(v: Var): (r: Bound)
    ensures v.vtype == Binary ==> r == Finite(1.0)
    ensures v.vtype != Binary ==> r == v.ub
  {
    if v.vtype == Binary then Finite(1.0) else v.ub
  }
}
