/**
 * The vector as an object. It owns its entries and two cached scalars.
 * The in-place arithmetic and the cache-aware metrics change these fields.
 * The pure operations are the functions of `SparseMaps`, applied to the entries.
 */
module SparseVectors {
  import opened Wrappers
  import SparseMaps

  /** Recomputes `sum` from the entries, one dimension at a time. */
  method ComputeSum(m: SparseMaps.Entries) returns (s: real)
    ensures s == SparseMaps.Sum(m)
  {
    s := 0.0;
    var rest := m;
    while rest != map[]
      invariant s + SparseMaps.Sum(rest) == SparseMaps.Sum(m)
      decreases |rest|
    {
      var d :| d in rest;
      SparseMaps.SumRemove(rest, d);
      SparseMaps.RemoveKeyCard(rest, d);
      s := s + rest[d];
      rest := rest - {d};
    }
  }

  /** Recomputes `squareOfLength` from the entries, one dimension at a time. */
  method ComputeSquareOfLength(m: SparseMaps.Entries) returns (s: real)
    ensures s == SparseMaps.SquareOfLength(m)
  {
    s := 0.0;
    var rest := m;
    while rest != map[]
      invariant s + SparseMaps.Sum(SparseMaps.Squares(rest)) == SparseMaps.SquareOfLength(m)
      decreases |rest|
    {
      var d :| d in rest;
      SparseMaps.SumRemove(SparseMaps.Squares(rest), d);
      SparseMaps.RemoveKeyCard(rest, d);
      assert SparseMaps.Squares(rest) - {d} == SparseMaps.Squares(rest - {d});
      s := s + SparseMaps.Mul(rest[d], rest[d]);
      rest := rest - {d};
    }
  }

  class SparseVector {
    /** Coordinates by dimension; an absent dimension has coordinate 0. */
    var entries: SparseMaps.Entries
    /** The last computed `sum`, or None when it must be recomputed. */
    var cachedSum: Option<real>
    /** The last computed `squareOfLength`, or None when it must be recomputed. */
    var cachedSquareOfLength: Option<real>

    /** The cache invariant: a cached value equals the value recomputed from the entries. */
    ghost predicate Valid()
      reads this
    {
      && (cachedSum.Some? ==> cachedSum.value == SparseMaps.Sum(entries))
      && (cachedSquareOfLength.Some? ==> cachedSquareOfLength.value == SparseMaps.SquareOfLength(entries))
    }

    constructor (entries: SparseMaps.Entries)
      ensures Valid()
      ensures this.entries == entries
      ensures cachedSum == None && cachedSquareOfLength == None
    {
      this.entries := entries;
      cachedSum := None;
      cachedSquareOfLength := None;
    }

    // -------------------------------------------------------------------
    // Arithmetic returning a new vector; neither operand changes
    // -------------------------------------------------------------------

    method Plus(other: SparseVector) returns (r: SparseVector)
      ensures fresh(r) && r.Valid()
      ensures r.entries == SparseMaps.Plus(entries, other.entries)
      ensures r.cachedSum == None && r.cachedSquareOfLength == None
    {
      r := new SparseVector(SparseMaps.Plus(entries, other.entries));
    }

    method Minus(other: SparseVector) returns (r: SparseVector)
      ensures fresh(r) && r.Valid()
      ensures r.entries == SparseMaps.Minus(entries, other.entries)
      ensures r.cachedSum == None && r.cachedSquareOfLength == None
    {
      r := new SparseVector(SparseMaps.Minus(entries, other.entries));
    }

    method Multiply(factor: real) returns (r: SparseVector)
      ensures fresh(r) && r.Valid()
      ensures r.entries == SparseMaps.Multiply(entries, factor)
      ensures r.cachedSum == None && r.cachedSquareOfLength == None
    {
      r := new SparseVector(SparseMaps.Multiply(entries, factor));
    }

    method Divide(divisor: real) returns (r: Result<SparseVector, SparseMaps.VectorError>)
      ensures r.Failure? <==> divisor == 0.0
      ensures r.Failure? ==> r.error == SparseMaps.DivisionByZero
      ensures r.Success? ==> fresh(r.value) && r.value.Valid()
      ensures r.Success? ==> r.value.entries == SparseMaps.Divide(entries, divisor).value
      ensures r.Success? ==> r.value.cachedSum == None && r.value.cachedSquareOfLength == None
    {
      match SparseMaps.Divide(entries, divisor)
      case Failure(e) =>
        r := Failure(e);
      case Success(quotient) =>
        var v := new SparseVector(quotient);
        r := Success(v);
    }

    // -------------------------------------------------------------------
    // Arithmetic in place; each mutation drops both caches
    // -------------------------------------------------------------------

    method PlusSelf(other: SparseVector)
      modifies this
      ensures entries == SparseMaps.Plus(old(entries), old(other.entries))
      ensures cachedSum == None && cachedSquareOfLength == None
      ensures Valid()
    {
      var addend := other.entries;
      ghost var original := entries;
      ghost var target := SparseMaps.Plus(original, addend);
      var todo := addend.Keys;
      while todo != {}
        invariant todo <= addend.Keys
        invariant entries.Keys == original.Keys + (addend.Keys - todo)
        invariant forall d | d in entries && d !in todo :: entries[d] == target[d]
        invariant forall d | d in todo :: SparseMaps.Get(entries, d) == SparseMaps.Get(original, d)
        decreases todo
      {
        var d :| d in todo;
        entries := entries[d := SparseMaps.Get(entries, d) + addend[d]];
        todo := todo - {d};
      }
      assert entries == target;
      cachedSum, cachedSquareOfLength := None, None;
    }

    method MinusSelf(other: SparseVector)
      modifies this
      ensures entries == SparseMaps.Minus(old(entries), old(other.entries))
      ensures cachedSum == None && cachedSquareOfLength == None
      ensures Valid()
    {
      var subtrahend := other.entries;
      ghost var original := entries;
      ghost var target := SparseMaps.Minus(original, subtrahend);
      var todo := subtrahend.Keys;
      while todo != {}
        invariant todo <= subtrahend.Keys
        invariant entries.Keys == original.Keys + (subtrahend.Keys - todo)
        invariant forall d | d in entries && d !in todo :: entries[d] == target[d]
        invariant forall d | d in todo :: SparseMaps.Get(entries, d) == SparseMaps.Get(original, d)
        decreases todo
      {
        var d :| d in todo;
        entries := entries[d := SparseMaps.Get(entries, d) - subtrahend[d]];
        todo := todo - {d};
      }
      assert entries == target;
      cachedSum, cachedSquareOfLength := None, None;
    }

    method MultiplySelf(factor: real)
      modifies this
      ensures entries == SparseMaps.Multiply(old(entries), factor)
      ensures cachedSum == None && cachedSquareOfLength == None
      ensures Valid()
    {
      ghost var original := entries;
      ghost var target := SparseMaps.Multiply(original, factor);
      var todo := entries.Keys;
      while todo != {}
        invariant entries.Keys == original.Keys
        invariant todo <= entries.Keys
        invariant forall d | d in entries && d !in todo :: entries[d] == target[d]
        invariant forall d | d in todo :: entries[d] == original[d]
        decreases todo
      {
        var d :| d in todo;
        var scaled := factor * entries[d];
        assert scaled == target[d];
        entries := entries[d := scaled];
        todo := todo - {d};
      }
      assert entries == target;
      cachedSum, cachedSquareOfLength := None, None;
    }

    /** A zero divisor is reported and leaves the vector as it was. */
    method DivideSelf(divisor: real) returns (outcome: Outcome<SparseMaps.VectorError>)
      modifies this
      ensures divisor == 0.0 ==> outcome == Fail(SparseMaps.DivisionByZero) && unchanged(this)
      ensures divisor != 0.0 ==> outcome == Pass
      ensures divisor != 0.0 ==> entries == SparseMaps.Divide(old(entries), divisor).value
      ensures divisor != 0.0 ==> cachedSum == None && cachedSquareOfLength == None
      ensures old(Valid()) ==> Valid()
    {
      if divisor == 0.0 {
        return Fail(SparseMaps.DivisionByZero);
      }
      ghost var original := entries;
      ghost var target := SparseMaps.Divide(original, divisor).value;
      var todo := entries.Keys;
      while todo != {}
        invariant entries.Keys == original.Keys
        invariant todo <= entries.Keys
        invariant forall d | d in entries && d !in todo :: entries[d] == target[d]
        invariant forall d | d in todo :: entries[d] == original[d]
        decreases todo
      {
        var d :| d in todo;
        entries := entries[d := entries[d] / divisor];
        todo := todo - {d};
      }
      assert entries == target;
      cachedSum, cachedSquareOfLength := None, None;
      outcome := Pass;
    }

    // -------------------------------------------------------------------
    // Metrics with a cache
    // -------------------------------------------------------------------

    /**
     * `sum(updateCache)`: with `updateCache` the sum is recomputed; without
     * it the cached value is returned when there is one. A recomputed value
     * is always written to the cache.
     */
    method Sum(updateCache: bool) returns (s: real)
      requires Valid()
      modifies this`cachedSum
      ensures Valid()
      ensures s == SparseMaps.Sum(entries)
      ensures cachedSum == Some(s)
      ensures !updateCache && old(cachedSum).Some? ==> s == old(cachedSum).value
    {
      if !updateCache && cachedSum.Some? {
        return cachedSum.value;
      }
      s := ComputeSum(entries);
      cachedSum := Some(s);
    }

    /**
     * `squareOfLength(updateCache)`, with the same cache policy as `Sum`.
     * Called without an argument it uses the cache (`updateCache == false`).
     */
    method SquareOfLength(updateCache: bool := false) returns (s: real)
      requires Valid()
      modifies this`cachedSquareOfLength
      ensures Valid()
      ensures s == SparseMaps.SquareOfLength(entries)
      ensures cachedSquareOfLength == Some(s)
      ensures !updateCache && old(cachedSquareOfLength).Some? ==> s == old(cachedSquareOfLength).value
    {
      if !updateCache && cachedSquareOfLength.Some? {
        return cachedSquareOfLength.value;
      }
      s := ComputeSquareOfLength(entries);
      cachedSquareOfLength := Some(s);
    }

    // -------------------------------------------------------------------
    // Distance and nearest neighbour
    // -------------------------------------------------------------------

    /** `squareOfDistance`: a null argument stands for the zero vector. */
    function SquareOfDistance(other: SparseVector?): (r: real)
      reads this, other
      ensures r == SparseMaps.SquareOfDistance(entries, if other == null then map[] else other.entries)
      ensures other == null ==> r == SparseMaps.SquareOfLength(entries)
      ensures r >= 0.0
    {
      SparseMaps.SquareOfDistanceToZero(entries);
      if other == null then SparseMaps.SquareOfLength(entries)
      else SparseMaps.SquareOfDistance(entries, other.entries)
    }

    /**
     * `nearest`: the index of the candidate at the smallest squared distance,
     * the first such index when several tie. An empty array is reported.
     */
    method Nearest(vectors: array<SparseVector?>) returns (r: Result<nat, SparseMaps.VectorError>)
      ensures r.Failure? <==> vectors.Length == 0
      ensures r.Failure? ==> r.error == SparseMaps.EmptyCandidateSet
      ensures r.Success? ==> r.value < vectors.Length
      ensures r.Success? ==> forall j | 0 <= j < vectors.Length ::
                SquareOfDistance(vectors[r.value]) <= SquareOfDistance(vectors[j])
      ensures r.Success? ==> forall j | 0 <= j < r.value ::
                SquareOfDistance(vectors[r.value]) < SquareOfDistance(vectors[j])
    {
      if vectors.Length == 0 {
        return Failure(SparseMaps.EmptyCandidateSet);
      }
      var best := 0;
      var bestDistance := SquareOfDistance(vectors[0]);
      for i := 1 to vectors.Length
        invariant best < i
        invariant bestDistance == SquareOfDistance(vectors[best])
        invariant forall j | 0 <= j < i :: bestDistance <= SquareOfDistance(vectors[j])
        invariant forall j | 0 <= j < best :: bestDistance < SquareOfDistance(vectors[j])
      {
        var distance := SquareOfDistance(vectors[i]);
        if distance < bestDistance {
          best, bestDistance := i, distance;
        }
      }
      return Success(best);
    }
  }

  // ---------------------------------------------------------------------
  // Two clients
  // ---------------------------------------------------------------------

  /**
   * After an in-place mutation, `sum(false)` reports the new total: the cache
   * never hands back the value from before the mutation. The argument may be
   * the receiver itself.
   */
  method SumAfterPlusSelf(a: SparseVector, b: SparseVector) returns (before: real, after: real)
    requires a.Valid()
    modifies a
    ensures before == SparseMaps.Sum(old(a.entries))
    ensures after == before + SparseMaps.Sum(old(b.entries))
  {
    before := a.Sum(false);
    a.PlusSelf(b);
    SparseMaps.SumOfPlus(old(a.entries), old(b.entries));
    after := a.Sum(false);
  }

  /** A query and three candidates on one dimension; the first candidate equals the query. */
  method NearestExample() returns (r: Result<nat, SparseMaps.VectorError>)
    ensures r == Success(0)
  {
    var query := new SparseVector(map[1 := 1.0]);
    var v0 := new SparseVector(map[1 := 1.0]);
    var v1 := new SparseVector(map[1 := 5.0]);
    var v2 := new SparseVector(map[1 := 1.1]);
    var candidates := new SparseVector?[3] [v0, v1, v2];
    SparseMaps.SquareOfDistanceToSelf(query.entries);
    assert query.SquareOfDistance(candidates[0]) == 0.0;
    r := query.Nearest(candidates);
    assert 0 < r.value ==> query.SquareOfDistance(candidates[r.value]) < query.SquareOfDistance(candidates[0]);
  }
}
