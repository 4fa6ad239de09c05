/**
 * Sparse vectors as values: a finite map from dimension index to coordinate.
 * A dimension absent from the map has coordinate 0. Every operation of the
 * vector interface that returns a new vector or a scalar without touching its
 * operands is a function here.
 *
 * Dimension policy: arithmetic never prunes. The result of `Plus`/`Minus`
 * stores every dimension stored by either operand, and `Multiply`/`Divide`
 * store exactly the receiver's dimensions, even when a coordinate becomes 0.
 */
module SparseMaps {
  import opened Wrappers

  type Entries = map<nat, real>

  /** The errors the operations report instead of producing a non-finite value. */
  datatype VectorError = DivisionByZero | UndefinedSimilarity | EmptyCandidateSet

  /** Coordinate of `m` at dimension `d`; 0 when `d` is not stored. */
  function Get(m: Entries, d: nat): real
  {
    if d in m then m[d] else 0.0
  }

  // ---------------------------------------------------------------------
  // Summing the values of a map
  // ---------------------------------------------------------------------

  lemma {:induction false} Minimum(s: set<nat>) returns (least: nat)
    requires s != {}
    ensures least in s && forall j | j in s :: least <= j
  {
    var x :| x in s;
    if s == {x} {
      least := x;
    } else {
      var k := Minimum(s - {x});
      least := if x < k then x else k;
      forall j | j in s
        ensures least <= j
      {
        if j != x { assert j in s - {x}; }
      }
    }
  }

  lemma MinimumExists(s: set<nat>)
    requires s != {}
    ensures exists k :: k in s && forall j | j in s :: k <= j
  {
    var k := Minimum(s);
  }

  /** The smallest stored dimension; it fixes the order in which values are added. */
  function MinKey(s: set<nat>): (k: nat)
    requires s != {}
    ensures k in s && forall j | j in s :: k <= j
  {
    MinimumExists(s);
    var k :| k in s && forall j | j in s :: k <= j; k
  }

  lemma RemoveKeyCard(m: Entries, k: nat)
    requires k in m
    ensures |m - {k}| == |m| - 1
  {
    assert (m - {k}).Keys == m.Keys - {k};
  }

  /** The sum of all values stored in `m`. */
  function Sum(m: Entries): real
    decreases |m|
  {
    if m == map[] then 0.0
    else
      assert m.Keys != {} by { var d :| d in m; }
      var k := MinKey(m.Keys);
      RemoveKeyCard(m, k);
      m[k] + Sum(m - {k})
  }

  /** Any stored dimension can be taken out first: the sum does not depend on order. */
  lemma {:induction false} SumRemove(m: Entries, k: nat)
    requires k in m
    ensures Sum(m) == m[k] + Sum(m - {k})
    decreases |m|
  {
    assert m.Keys != {};
    var k0 := MinKey(m.Keys);
    if k != k0 {
      RemoveKeyCard(m, k0);
      RemoveKeyCard(m, k);
      SumRemove(m - {k0}, k);
      SumRemove(m - {k}, k0);
      assert m - {k0} - {k} == m - {k} - {k0};
    }
  }

  lemma {:induction false} SumAllZero(m: Entries)
    requires forall d | d in m :: m[d] == 0.0
    ensures Sum(m) == 0.0
    decreases |m|
  {
    if m != map[] {
      var k :| k in m;
      SumRemove(m, k);
      RemoveKeyCard(m, k);
      SumAllZero(m - {k});
    }
  }

  lemma {:induction false} SumNonnegative(m: Entries)
    requires forall d | d in m :: m[d] >= 0.0
    ensures Sum(m) >= 0.0
    decreases |m|
  {
    if m != map[] {
      var k :| k in m;
      SumRemove(m, k);
      RemoveKeyCard(m, k);
      SumNonnegative(m - {k});
    }
  }

  /** The part of `m` stored at the dimensions in `s`. */
  function Restrict(m: Entries, s: set<nat>): (r: Entries)
    ensures r.Keys == m.Keys * s
  {
    map d | d in m && d in s :: m[d]
  }

  /** Dimensions holding 0 may be dropped from a sum. */
  lemma {:induction false} SumRestrict(m: Entries, s: set<nat>)
    requires forall d | d in m && d !in s :: m[d] == 0.0
    ensures Sum(m) == Sum(Restrict(m, s))
    decreases |m|
  {
    var r := Restrict(m, s);
    if m == map[] {
      assert r == map[];
    } else {
      var k :| k in m;
      SumRemove(m, k);
      RemoveKeyCard(m, k);
      SumRestrict(m - {k}, s);
      var r' := Restrict(m - {k}, s);
      if k in s {
        SumRemove(r, k);
        assert r - {k} == r';
      } else {
        assert r == r';
      }
    }
  }

  /** A sum of pointwise sums is the sum of the two sums. */
  lemma {:induction false} SumAdd(m1: Entries, m2: Entries, r: Entries)
    requires m1.Keys == r.Keys && m2.Keys == r.Keys
    requires forall d | d in r :: r[d] == m1[d] + m2[d]
    ensures Sum(r) == Sum(m1) + Sum(m2)
    decreases |r|
  {
    if r != map[] {
      var k :| k in r;
      SumRemove(r, k);
      SumRemove(m1, k);
      SumRemove(m2, k);
      RemoveKeyCard(r, k);
      SumAdd(m1 - {k}, m2 - {k}, r - {k});
    } else {
      assert m1 == map[] && m2 == map[];
    }
  }

  /**
   * Real multiplication behind a name: maps of products are then compared
   * term by term, which keeps the solver away from nonlinear arithmetic.
   */
  function Mul(a: real, b: real): real { a * b }

  /** A sum of pointwise differences is the difference of the two sums. */
  lemma SumSubtract(m1: Entries, m2: Entries, r: Entries)
    requires m1.Keys == r.Keys && m2.Keys == r.Keys
    requires forall d | d in r :: r[d] == m1[d] - m2[d]
    ensures Sum(r) == Sum(m1) - Sum(m2)
  {
    SumAdd(r, m2, m1);
  }

  /** Sums are linear: the sum of `m1 + m2 - 2 m3`, taken pointwise, is formed from the three sums. */
  lemma SumCombine(m1: Entries, m2: Entries, m3: Entries, r: Entries)
    requires m1.Keys == r.Keys && m2.Keys == r.Keys && m3.Keys == r.Keys
    requires forall d | d in r :: r[d] == m1[d] + m2[d] - 2.0 * m3[d]
    ensures Sum(r) == Sum(m1) + Sum(m2) - 2.0 * Sum(m3)
  {
    var both := map d | d in r :: m1[d] + m2[d];
    var twice := map d | d in r :: m3[d] + m3[d];
    SumAdd(m1, m2, both);
    SumAdd(m3, m3, twice);
    SumSubtract(both, twice, r);
  }

  lemma MulByZero(x: real, y: real)
    requires x == 0.0 || y == 0.0
    ensures Mul(x, y) == 0.0
  {
  }

  // ---------------------------------------------------------------------
  // Arithmetic: each operation returns a new vector
  // ---------------------------------------------------------------------

  /** `plus`: any two vectors can be added, whatever dimensions they store. */
  function Plus(a: Entries, b: Entries): (r: Entries)
    ensures r.Keys == a.Keys + b.Keys
    ensures forall d: nat :: Get(r, d) == Get(a, d) + Get(b, d)
  {
    map d | d in a.Keys + b.Keys :: Get(a, d) + Get(b, d)
  }

  /** `minus`: the receiver minus the argument, not the reverse. */
  function Minus(a: Entries, b: Entries): (r: Entries)
    ensures r.Keys == a.Keys + b.Keys
    ensures forall d: nat :: Get(r, d) == Get(a, d) - Get(b, d)
  {
    map d | d in a.Keys + b.Keys :: Get(a, d) - Get(b, d)
  }

  /** `multiply`: every coordinate scaled by a constant. */
  function Multiply(m: Entries, factor: real): (r: Entries)
    ensures r.Keys == m.Keys
    ensures forall d: nat :: Get(r, d) == factor * Get(m, d)
  {
    map d | d in m :: factor * m[d]
  }

  /** `divide`: every coordinate divided by a constant; a zero divisor is reported. */
  function Divide(m: Entries, divisor: real): (r: Result<Entries, VectorError>)
    ensures r.Failure? <==> divisor == 0.0
    ensures r.Failure? ==> r.error == DivisionByZero
    ensures r.Success? ==> r.value.Keys == m.Keys
    ensures r.Success? ==> forall d: nat :: Get(r.value, d) == Get(m, d) / divisor
  {
    if divisor == 0.0 then Failure(DivisionByZero)
    else Success(map d | d in m :: m[d] / divisor)
  }

  // ---------------------------------------------------------------------
  // Metrics
  // ---------------------------------------------------------------------

  /** The squares of the coordinates of `m` at every dimension in `u`. */
  function SquaresOver(m: Entries, u: set<nat>): (r: Entries)
    ensures r.Keys == u
  {
    map d | d in u :: Mul(Get(m, d), Get(m, d))
  }

  /** The squares of the coordinates `m` stores. */
  function Squares(m: Entries): (r: Entries)
    ensures r.Keys == m.Keys
  {
    SquaresOver(m, m.Keys)
  }

  /** `squareOfLength`: the sum of the squared coordinates, never negative. */
  function SquareOfLength(m: Entries): (r: real)
    ensures r >= 0.0
  {
    SumNonnegative(Squares(m));
    Sum(Squares(m))
  }

  /** The products of coordinates at the dimensions stored by both `a` and `b`. */
  function CommonProducts(a: Entries, b: Entries): (r: Entries)
    ensures r.Keys == a.Keys * b.Keys
  {
    map d | d in a.Keys * b.Keys :: Mul(a[d], b[d])
  }

  /** The products of the coordinates of `a` and `b` at every dimension stored by either. */
  function Products(a: Entries, b: Entries): (r: Entries)
    ensures r.Keys == a.Keys + b.Keys
  {
    map d | d in a.Keys + b.Keys :: Mul(Get(a, d), Get(b, d))
  }

  /**
   * `dotProduct`: the sum over all dimensions of the products of coordinates.
   * Only dimensions stored by both operands contribute.
   */
  function DotProduct(a: Entries, b: Entries): (r: real)
    ensures r == Sum(CommonProducts(a, b))
  {
    var terms := Products(a, b);
    forall d | d in terms && d !in a.Keys * b.Keys
      ensures terms[d] == 0.0
    {
      MulByZero(Get(a, d), Get(b, d));
    }
    SumRestrict(terms, a.Keys * b.Keys);
    assert Restrict(terms, a.Keys * b.Keys) == CommonProducts(a, b);
    Sum(terms)
  }

  /** The squared coordinate differences at every dimension stored by `a` or `b`. */
  function SquaredDifferences(a: Entries, b: Entries): (r: Entries)
    ensures r.Keys == a.Keys + b.Keys
  {
    map d | d in a.Keys + b.Keys :: Mul(Get(a, d) - Get(b, d), Get(a, d) - Get(b, d))
  }

  lemma MulSelfNonnegative(x: real)
    ensures Mul(x, x) >= 0.0
  {
  }

  /** `squareOfDistance`: the sum of the squared coordinate differences. */
  function SquareOfDistance(a: Entries, b: Entries): (r: real)
    ensures r >= 0.0
  {
    var terms := SquaredDifferences(a, b);
    forall d | d in terms
      ensures terms[d] >= 0.0
    {
      MulSelfNonnegative(Get(a, d) - Get(b, d));
    }
    SumNonnegative(terms);
    Sum(terms)
  }

  /** The squared distance is the squared length of the difference vector. */
  lemma SquareOfDistanceIsSquareOfLengthOfMinus(a: Entries, b: Entries)
    ensures SquareOfDistance(a, b) == SquareOfLength(Minus(a, b))
  {
    assert SquaredDifferences(a, b) == Squares(Minus(a, b));
  }

  // ---------------------------------------------------------------------
  // Similarity
  // ---------------------------------------------------------------------

  /** Facts about the quotient of two counts. */
  lemma RatioBounds(c: nat, n: nat)
    requires c <= n && n > 0
    ensures 0.0 <= c as real / n as real <= 1.0
    ensures c as real / n as real == 1.0 <==> c == n
    ensures c as real / n as real == 0.0 <==> c == 0
  {
  }

  /** The common dimensions are as many as all dimensions exactly when both operands store the same ones. */
  lemma CommonDimensions(a: set<nat>, b: set<nat>)
    ensures |a * b| <= |a + b|
    ensures |a * b| == |a + b| <==> a == b
    ensures |a * b| == 0 <==> a !! b
  {
    var common, all := a * b, a + b;
    assert all == common + (all - common);
    assert |all| == |common| + |all - common|;
    if |common| == |all| {
      assert |all - common| == 0;
      assert all - common == {};
    }
    if |common| == 0 {
      assert common == {};
    }
  }

  /**
   * `jaccardSimilarity`: the number of dimensions stored by both vectors over
   * the number stored by either. It is undefined when neither stores any.
   */
  function JaccardSimilarity(a: Entries, b: Entries): (r: Result<real, VectorError>)
    ensures r.Failure? <==> a.Keys + b.Keys == {}
    ensures r.Failure? ==> r.error == UndefinedSimilarity
    ensures r.Success? ==> 0.0 <= r.value <= 1.0
    ensures r.Success? ==> (r.value == 1.0 <==> a.Keys == b.Keys)
    ensures r.Success? ==> (r.value == 0.0 <==> a.Keys !! b.Keys)
  {
    var common, all := a.Keys * b.Keys, a.Keys + b.Keys;
    if all == {} then Failure(UndefinedSimilarity)
    else
      CommonDimensions(a.Keys, b.Keys);
      RatioBounds(|common|, |all|);
      Success(|common| as real / |all| as real)
  }

  // ---------------------------------------------------------------------
  // Properties of the arithmetic
  // ---------------------------------------------------------------------

  /** The vector `m` spread over the dimensions `s`, storing 0 where `m` stores nothing. */
  function Pad(m: Entries, s: set<nat>): (r: Entries)
    ensures r.Keys == s
  {
    map d | d in s :: Get(m, d)
  }

  lemma PadSum(m: Entries, s: set<nat>)
    requires m.Keys <= s
    ensures Sum(Pad(m, s)) == Sum(m)
  {
    SumRestrict(Pad(m, s), m.Keys);
    assert Restrict(Pad(m, s), m.Keys) == m;
  }

  lemma PlusCommutes(a: Entries, b: Entries)
    ensures Plus(a, b) == Plus(b, a)
  {
  }

  lemma MinusIsPlusOfNegation(a: Entries, b: Entries)
    ensures Minus(a, b) == Plus(a, Multiply(b, -1.0))
  {
  }

  lemma MinusReversed(a: Entries, b: Entries)
    ensures Minus(b, a) == Multiply(Minus(a, b), -1.0)
  {
  }

  /** Subtracting what was added gives back every coordinate. */
  lemma MinusUndoesPlus(a: Entries, b: Entries)
    ensures forall d: nat :: Get(Minus(Plus(a, b), b), d) == Get(a, d)
  {
  }

  lemma QuotientFacts(x: real, k: real)
    requires k != 0.0
    ensures x / k == (1.0 / k) * x
    ensures k * (x / k) == x
  {
  }

  lemma DivideIsMultiplyByReciprocal(m: Entries, divisor: real)
    requires divisor != 0.0
    ensures Divide(m, divisor) == Success(Multiply(m, 1.0 / divisor))
  {
    var q := Divide(m, divisor).value;
    forall d | d in m
      ensures q[d] == Multiply(m, 1.0 / divisor)[d]
    {
      QuotientFacts(m[d], divisor);
    }
    assert q == Multiply(m, 1.0 / divisor);
  }

  /** Dividing and then multiplying by the same nonzero constant is the identity. */
  lemma MultiplyUndoesDivide(m: Entries, divisor: real)
    requires divisor != 0.0
    ensures Multiply(Divide(m, divisor).value, divisor) == m
  {
    var q := Divide(m, divisor).value;
    forall d | d in m
      ensures Multiply(q, divisor)[d] == m[d]
    {
      QuotientFacts(m[d], divisor);
    }
  }

  /** A vector plus its negation is the zero vector: every metric of it is 0. */
  lemma {:induction false} AdditiveInverse(a: Entries)
    ensures forall d: nat :: Get(Plus(a, Multiply(a, -1.0)), d) == 0.0
    ensures Sum(Plus(a, Multiply(a, -1.0))) == 0.0
    ensures SquareOfLength(Plus(a, Multiply(a, -1.0))) == 0.0
  {
    var z := Plus(a, Multiply(a, -1.0));
    SumAllZero(z);
    forall d | d in Squares(z)
      ensures Squares(z)[d] == 0.0
    {
      MulByZero(z[d], z[d]);
    }
    SumAllZero(Squares(z));
  }

  /** `sum` of a sum vector is the sum of the operands' sums. */
  lemma SumOfPlus(a: Entries, b: Entries)
    ensures Sum(Plus(a, b)) == Sum(a) + Sum(b)
  {
    var all := a.Keys + b.Keys;
    SumAdd(Pad(a, all), Pad(b, all), Plus(a, b));
    PadSum(a, all);
    PadSum(b, all);
  }

  lemma SumOfMinus(a: Entries, b: Entries)
    ensures Sum(Minus(a, b)) == Sum(a) - Sum(b)
  {
    var all := a.Keys + b.Keys;
    SumSubtract(Pad(a, all), Pad(b, all), Minus(a, b));
    PadSum(a, all);
    PadSum(b, all);
  }


  // ---------------------------------------------------------------------
  // Properties of the metrics and of the similarity
  // ---------------------------------------------------------------------

  lemma MulCommutes(x: real, y: real)
    ensures Mul(x, y) == Mul(y, x)
  {
  }

  lemma DotProductCommutes(a: Entries, b: Entries)
    ensures DotProduct(a, b) == DotProduct(b, a)
  {
    forall d | d in a.Keys * b.Keys
      ensures CommonProducts(a, b)[d] == CommonProducts(b, a)[d]
    {
      MulCommutes(a[d], b[d]);
    }
    assert CommonProducts(a, b) == CommonProducts(b, a);
  }

  /** The dot product of a vector with itself is its squared length. */
  lemma DotProductWithSelf(a: Entries)
    ensures DotProduct(a, a) == SquareOfLength(a)
  {
    assert CommonProducts(a, a) == Squares(a);
  }

  lemma MulOfNegated(x: real, y: real)
    ensures Mul(x - y, x - y) == Mul(y - x, y - x)
  {
  }

  lemma SquareOfDistanceSymmetric(a: Entries, b: Entries)
    ensures SquareOfDistance(a, b) == SquareOfDistance(b, a)
  {
    SquareOfDistanceIsSquareOfLengthOfMinus(a, b);
    SquareOfDistanceIsSquareOfLengthOfMinus(b, a);
    forall d | d in a.Keys + b.Keys
      ensures Squares(Minus(a, b))[d] == Squares(Minus(b, a))[d]
    {
      MulOfNegated(Get(a, d), Get(b, d));
    }
    assert Squares(Minus(a, b)) == Squares(Minus(b, a));
  }

  /** The zero vector stands for an absent argument: the distance to it is the length. */
  lemma SquareOfDistanceToZero(a: Entries)
    ensures SquareOfDistance(a, map[]) == SquareOfLength(a)
  {
    SquareOfDistanceIsSquareOfLengthOfMinus(a, map[]);
    assert Minus(a, map[]) == a;
  }

  lemma {:induction false} SquareOfDistanceToSelf(a: Entries)
    ensures SquareOfDistance(a, a) == 0.0
  {
    SquareOfDistanceIsSquareOfLengthOfMinus(a, a);
    var diff := Squares(Minus(a, a));
    forall d | d in diff
      ensures diff[d] == 0.0
    {
      MulByZero(0.0, 0.0);
    }
    SumAllZero(diff);
  }

  lemma SumSquaresOver(m: Entries, u: set<nat>)
    requires m.Keys <= u
    ensures Sum(SquaresOver(m, u)) == SquareOfLength(m)
  {
    var terms := SquaresOver(m, u);
    forall d | d in terms && d !in m.Keys
      ensures terms[d] == 0.0
    {
      MulByZero(0.0, 0.0);
    }
    SumRestrict(terms, m.Keys);
    assert Restrict(terms, m.Keys) == Squares(m);
  }

  lemma MulOfDifference(x: real, y: real)
    ensures Mul(x - y, x - y) == Mul(x, x) + Mul(y, y) - 2.0 * Mul(x, y)
  {
  }

  /**
   * The squared distance agrees with the other metrics:
   * |a - b|^2 = |a|^2 + |b|^2 - 2 (a . b).
   */
  lemma SquareOfDistanceExpansion(a: Entries, b: Entries)
    ensures SquareOfDistance(a, b) == SquareOfLength(a) + SquareOfLength(b) - 2.0 * DotProduct(a, b)
  {
    var u := a.Keys + b.Keys;
    var diff, sa, sb, p := SquaredDifferences(a, b), SquaresOver(a, u), SquaresOver(b, u), Products(a, b);
    forall d | d in diff
      ensures diff[d] == sa[d] + sb[d] - 2.0 * p[d]
    {
      MulOfDifference(Get(a, d), Get(b, d));
    }
    SumCombine(sa, sb, p, diff);
    SumSquaresOver(a, u);
    SumSquaresOver(b, u);
  }

  lemma JaccardSymmetric(a: Entries, b: Entries)
    ensures JaccardSimilarity(a, b) == JaccardSimilarity(b, a)
  {
    assert a.Keys * b.Keys == b.Keys * a.Keys;
    assert a.Keys + b.Keys == b.Keys + a.Keys;
  }

  /** A vector that stores at least one dimension is fully similar to itself. */
  lemma JaccardWithSelf(a: Entries)
    requires a != map[]
    ensures JaccardSimilarity(a, a) == Success(1.0)
  {
    var d :| d in a;
  }

  // ---------------------------------------------------------------------
  // A worked example: two vectors sharing one dimension
  // ---------------------------------------------------------------------

  lemma {:induction false} SparseUnionExample()
    ensures Plus(map[1 := 2.0, 3 := 4.0], map[2 := 5.0, 3 := 1.0]) == map[1 := 2.0, 2 := 5.0, 3 := 5.0]
    ensures DotProduct(map[1 := 2.0, 3 := 4.0], map[2 := 5.0, 3 := 1.0]) == 4.0
  {
    var a, b := map[1 := 2.0, 3 := 4.0], map[2 := 5.0, 3 := 1.0];
    assert Plus(a, b) == map[1 := 2.0, 2 := 5.0, 3 := 5.0];
    assert a.Keys * b.Keys == {3};
    var common := CommonProducts(a, b);
    assert common == map[3 := 4.0];
    SumRemove(common, 3);
    assert common - {3} == map[];
  }
}
