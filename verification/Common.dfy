/** Values shared by the models: optional results, Go's float-to-integer
    conversion, and sums over finite maps that do not depend on the order in
    which a map is walked. */
module Common {

  datatype Option<+T> = None | Some(value: T)

  /** A service name, the key of every node map in the program. */
  type Id = string

  const NS_PER_MS := 1_000_000

  /** Go's conversion of a float64 to an integer: the fraction is dropped. */
  function Trunc(x: real): int {
    if x >= 0.0 then x.Floor else -((-x).Floor)
  }

  /** Go's integer division, which drops the fraction toward zero. */
  function TruncDiv(a: int, b: int): int
    requires b > 0
  {
    if a >= 0 then a / b else -((-a) / b)
  }

  /** Truncation keeps the sign and drops less than one. */
  lemma TruncMeaning(x: real)
    ensures x >= 0.0 ==> 0.0 <= Trunc(x) as real <= x < Trunc(x) as real + 1.0
    ensures x < 0.0 ==> Trunc(x) as real - 1.0 < x <= Trunc(x) as real <= 0.0
  {
  }

  /** So does integer division: the product lies between zero and a, less than b away. */
  lemma TruncDivMeaning(a: int, b: int)
    requires b > 0
    ensures var back := TruncDiv(a, b) * b;
      if a >= 0 then 0 <= back <= a < back + b else back - b < a <= back <= 0
  {
    if a >= 0 {
      DivMeaning(a, b);
    } else {
      DivMeaning(-a, b);
      NegatedTimes((-a) / b, b);
    }
  }

  lemma DivMeaning(n: nat, b: int)
    requires b > 0
    ensures 0 <= (n / b) * b <= n < (n / b) * b + b
  {
    var q := n / b;
    assert n == q * b + n % b;
    NotNegativeTimes(q, b);
  }

  lemma DivMonotone(a: int, b: int, c: int)
    requires c > 0 && a <= b
    ensures a / c <= b / c
  {
    var p, q := a / c, b / c;
    assert a == p * c + a % c && b == q * c + b % c;
    assert (q + 1) * c == q * c + c;
    CancelFactor(p, q + 1, c);
  }

  lemma NotNegativeTimes(q: int, b: int)
    requires q >= 0 && b > 0
    ensures q * b >= 0
  {
  }

  lemma NegatedTimes(q: int, b: int)
    ensures (-q) * b == -(q * b)
  {
  }

  function Clamp(v: real, lo: real, hi: real): real {
    if v < lo then lo else if v > hi then hi else v
  }

  function MinReal(a: real, b: real): real {
    if a <= b then a else b
  }

  function MaxReal(a: real, b: real): real {
    if a >= b then a else b
  }

  ghost predicate NoDuplicates<T>(s: seq<T>) {
    forall i, j :: 0 <= i < j < |s| ==> s[i] != s[j]
  }

  /** Sum of the values of m, defined by an arbitrary choice of order. */
  ghost function Sum<K>(m: map<K, real>): real
    decreases |m|
  {
    if m == map[] then 0.0
    else
      var k :| k in m;
      assert (m - {k}).Keys == m.Keys - {k};
      m[k] + Sum(m - {k})
  }

  /** The order of summation does not matter: any key may be taken out first. */
  lemma {:induction false} SumExtract<K>(m: map<K, real>, k: K)
    requires k in m
    ensures Sum(m) == m[k] + Sum(m - {k})
    decreases |m|
  {
    var c :| c in m && Sum(m) == m[c] + Sum(m - {c});
    assert (m - {c}).Keys == m.Keys - {c};
    if c != k {
      SumExtract(m - {c}, k);
      assert (m - {k}).Keys == m.Keys - {k};
      SumExtract(m - {k}, c);
      assert m - {c} - {k} == m - {k} - {c};
    }
  }

  /** Adding a fresh key adds its value. */
  lemma SumInsert<K>(m: map<K, real>, k: K, v: real)
    requires k !in m
    ensures Sum(m[k := v]) == Sum(m) + v
  {
    SumExtract(m[k := v], k);
    assert m[k := v] - {k} == m;
  }

  /** n times x, by repeated addition. */
  ghost function Multiple(n: nat, x: real): real {
    if n == 0 then 0.0 else Multiple(n - 1, x) + x
  }

  lemma {:induction false} MultipleIsProduct(n: nat, x: real)
    ensures Multiple(n, x) == n as real * x
  {
    if n > 0 {
      MultipleIsProduct(n - 1, x);
      assert n as real == (n - 1) as real + 1.0;
      assert n as real * x == (n - 1) as real * x + x;
    }
  }

  /** A sum of terms that each lie within [lo, hi]. */
  lemma {:induction false} SumBounds<K>(m: map<K, real>, lo: real, hi: real)
    requires forall k :: k in m ==> lo <= m[k] <= hi
    ensures Multiple(|m|, lo) <= Sum(m) <= Multiple(|m|, hi)
    decreases |m|
  {
    if m != map[] {
      hide Sum;
      var k :| k in m;
      var rest := m - {k};
      SumExtract(m, k);
      assert rest.Keys == m.Keys - {k};
      assert |rest| == |rest.Keys| == |m.Keys| - 1;
      SumBounds(rest, lo, hi);
    }
  }

  /** Larger terms, larger sum. */
  lemma {:induction false} SumMonotone<K>(m: map<K, real>, m': map<K, real>)
    requires m.Keys == m'.Keys && forall k :: k in m ==> m[k] <= m'[k]
    ensures Sum(m) <= Sum(m')
    decreases |m|
  {
    if m != map[] {
      var k :| k in m;
      SumExtract(m, k);
      SumExtract(m', k);
      hide Sum;
      var rest, rest' := m - {k}, m' - {k};
      assert rest.Keys == m.Keys - {k} && rest'.Keys == m.Keys - {k};
      assert |rest| == |rest.Keys| == |m.Keys| - 1;
      SumMonotone(rest, rest');
    } else {
      assert m' == map[];
    }
  }

  lemma {:induction false} SubsetSize<T>(a: set<T>, b: set<T>)
    requires a <= b
    ensures |a| <= |b|
  {
    if a != {} {
      var x :| x in a;
      SubsetSize(a - {x}, b - {x});
    }
  }

  lemma DeleteElement<T>(s: seq<T>, j: nat)
    requires j < |s|
    ensures multiset(s[..j] + s[j + 1..]) == multiset(s) - multiset{s[j]}
  {
    assert s == s[..j] + [s[j]] + s[j + 1..];
  }

  lemma CancelFactor(k: int, m: int, q: int)
    requires q >= 1 && k * q < m * q
    ensures k < m
  {
    assert (m - k) * q > 0;
  }

  lemma CancelRealFactor(a: real, x: real, y: real)
    requires a > 0.0 && a * x < a * y
    ensures x < y
  {
    if y <= x {
      ProductMonotone(a, y, x);
    }
  }

  /** Two sets that differ in one element at most. */
  lemma OneElement<T>(a: set<T>, b: set<T>, x: T)
    requires forall i :: i != x ==> (i in a <==> i in b)
    ensures |b| - |a| == (if x in b then 1 else 0) - (if x in a then 1 else 0)
  {
    assert a - {x} == b - {x};
    SizeWithout(a, x);
    SizeWithout(b, x);
  }

  lemma SizeWithout<T>(a: set<T>, x: T)
    ensures |a - {x}| == |a| - (if x in a then 1 else 0)
  {
    if x !in a {
      assert a - {x} == a;
    }
  }

  lemma ProductMonotone(a: real, x: real, y: real)
    requires a >= 0.0 && x <= y
    ensures a * x <= a * y && x * a <= y * a
  {
    assert a * (y - x) >= 0.0;
  }

  lemma OverItself(x: real)
    requires x > 0.0
    ensures x / x == 1.0 && 0.0 / x == 0.0
  {
  }

  lemma PositiveProduct(a: real, b: real)
    requires a > 0.0 && b > 0.0
    ensures a * b > 0.0
  {
  }

  lemma StrictProduct(a: real, x: real, y: real)
    requires a > 0.0 && x < y
    ensures a * x < a * y
  {
    PositiveProduct(a, y - x);
    assert a * (y - x) == a * y - a * x;
  }

  lemma SharesOf(a: real, b: real, q: real)
    requires b > 0.0 && q == a / b
    ensures b * q == a && q * b == a
  {
  }

  lemma QuotientMonotone(c: real, x: real, y: real)
    requires c > 0.0 && x <= y
    ensures x / c <= y / c
  {
    assert (y - x) / c >= 0.0;
  }
}
