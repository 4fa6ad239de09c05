# Sparse vector: a verified model of the `Vector` interface

The core is the Java interface `Vector` in `com.nuanxinli.ai.vector`. It describes a
sparse numeric vector: a vector that stores coordinates only for some dimensions, where
every other dimension reads as 0. The interface has three groups of operations:
- arithmetic (`plus`, `minus`, `multiply`, `divide`), each in a form that returns a new
  vector and a `...Self` form that changes the receiver;
- metrics (`dotProduct`, `squareOfDistance`, and `sum` and `squareOfLength` with a cache);
- similarity and search (`jaccardSimilarity`, `nearest`).

The interface has no implementation. This model is one map-backed implementation, and it
proves the behaviour the interface's comments promise.

Files:
- `wrappers.dfy`: module `Wrappers` with `Option`, `Result` and `Outcome`.
- `sparse_maps.dfy`: module `SparseMaps`, vectors as values (`map<nat, real>`).
  - Every operation that returns a new vector or a scalar is a function here.
  - One summation function, `Sum`, adds a map's values one dimension at a time.
  - The lemmas here relate the operations to each other.
- `sparse_vector.dfy`: module `SparseVectors`, the vector as an object (`class SparseVector`).
  - Fields: `entries`, `cachedSum` and `cachedSquareOfLength`.
  - `Valid()` is the cache invariant: a cached value equals the value recomputed from the
    entries.
  - The in-place methods loop over dimensions and are proved equal to the pure functions
    applied to the old state. They drop both caches.
  - The cache-aware metrics and `Nearest` are methods with loops, proved against the
    `SparseMaps` functions.

Modelling choices:
- Coordinates are `real`. Java's `double` rounding, NaN and infinities are not modelled.
- No zero pruning.
  - `Plus` and `Minus` store every dimension stored by either operand.
  - `Multiply` and `Divide` store exactly the receiver's dimensions, even where a coordinate
    becomes 0.
  - This matters only for `jaccardSimilarity`, which counts stored dimensions.
- The interface is silent on three edge cases. Each is modelled as a reported error, not a
  non-finite number:
  - a zero divisor (`DivisionByZero`);
  - Jaccard similarity of two vectors that store no dimension (`UndefinedSimilarity`);
  - `nearest` over an empty array (`EmptyCandidateSet`).
- `DivideSelf` is `void` in Java. Here it returns an `Outcome`, and on failure it leaves the
  vector unchanged.
- `sum(false)` and `squareOfLength(false)` with an empty cache recompute the value and also
  store it in the cache. The interface only says the value is recomputed. Storing it is the
  only reading under which the cache ever fills without `updateCache`.
- The no-argument `squareOfLength()` is the default value `updateCache := false`, as the
  two overloads suggest.
- A `null` argument to `squareOfDistance` is the zero vector. `nearest` accepts null
  candidates under the same rule.
- `nearest` breaks ties by returning the first index with the minimum.

## Model

| member | source | states |
|---|---|---|
| SparseMaps.Plus | src/main/com/nuanxinli/ai/vector/Vector.java:5-12 | works for any two vectors, whatever dimensions they store; the result stores the union of the dimensions and its coordinate at every dimension d is a(d) + b(d) |
| SparseMaps.PlusCommutes | src/main/com/nuanxinli/ai/vector/Vector.java:5-12 | a + b equals b + a as maps |
| SparseMaps.SumOfPlus | src/main/com/nuanxinli/ai/vector/Vector.java:95-105 | sum(a + b) = sum(a) + sum(b), whatever dimensions the operands store |
| SparseMaps.SparseUnionExample | src/main/com/nuanxinli/ai/vector/Vector.java:5-12 | {1:2, 3:4} + {2:5, 3:1} = {1:2, 2:5, 3:5}, and their dot product is 4 (only dimension 3 is common) |
| SparseMaps.Minus | src/main/com/nuanxinli/ai/vector/Vector.java:22-29 | works for any two vectors; stores the union of the dimensions, and the coordinate at every d is a(d) − b(d) (receiver minus argument) |
| SparseMaps.MinusIsPlusOfNegation | src/main/com/nuanxinli/ai/vector/Vector.java:22-29 | a − b = a + (−1)·b |
| SparseMaps.MinusReversed | src/main/com/nuanxinli/ai/vector/Vector.java:22-29 | b − a = (−1)·(a − b): the order of the operands matters |
| SparseMaps.MinusUndoesPlus | src/main/com/nuanxinli/ai/vector/Vector.java:22-29 | subtracting b from a + b gives back a's coordinate at every dimension |
| SparseMaps.SumOfMinus | src/main/com/nuanxinli/ai/vector/Vector.java:95-105 | sum(a − b) = sum(a) − sum(b) |
| SparseMaps.Multiply | src/main/com/nuanxinli/ai/vector/Vector.java:39-45 | keeps the receiver's dimensions; the coordinate at every d is factor · m(d) |
| SparseMaps.AdditiveInverse | src/main/com/nuanxinli/ai/vector/Vector.java:39-45 | a + (−1)·a is 0 at every dimension, and its sum and squared length are 0 |
| SparseMaps.Divide | src/main/com/nuanxinli/ai/vector/Vector.java:54-60 | fails with DivisionByZero exactly when the divisor is 0; otherwise keeps the dimensions, and the coordinate at every d is m(d) / divisor |
| SparseMaps.DivideIsMultiplyByReciprocal | src/main/com/nuanxinli/ai/vector/Vector.java:54-60 | for a nonzero divisor k, dividing by k is multiplying by 1/k |
| SparseMaps.MultiplyUndoesDivide | src/main/com/nuanxinli/ai/vector/Vector.java:54-60 | for a nonzero k, dividing by k and then multiplying by k gives back the same map |
| SparseMaps.DotProduct | src/main/com/nuanxinli/ai/vector/Vector.java:69-75 | the sum over all dimensions of a(d)·b(d) equals the sum over the common dimensions only: a dimension stored by one operand contributes nothing |
| SparseMaps.DotProductCommutes | src/main/com/nuanxinli/ai/vector/Vector.java:69-75 | a·b = b·a |
| SparseMaps.DotProductWithSelf | src/main/com/nuanxinli/ai/vector/Vector.java:69-75 | a·a is the squared length of a |
| SparseMaps.SquareOfLength | src/main/com/nuanxinli/ai/vector/Vector.java:107-117 | the sum of squared coordinates is never negative |
| SparseMaps.SquareOfDistance | src/main/com/nuanxinli/ai/vector/Vector.java:78-85 | the sum of squared coordinate differences is never negative |
| SparseMaps.SquareOfDistanceIsSquareOfLengthOfMinus | src/main/com/nuanxinli/ai/vector/Vector.java:78-85 | the squared distance is the squared length of a − b |
| SparseMaps.SquareOfDistanceSymmetric | src/main/com/nuanxinli/ai/vector/Vector.java:78-85 | the squared distance from a to b equals that from b to a |
| SparseMaps.SquareOfDistanceToZero | src/main/com/nuanxinli/ai/vector/Vector.java:78-85 | the squared distance to the zero vector is the squared length |
| SparseMaps.SquareOfDistanceExpansion | src/main/com/nuanxinli/ai/vector/Vector.java:78-85 | the squared distance agrees with the other metrics: it equals squareOfLength(a) + squareOfLength(b) − 2·dotProduct(a, b) |
| SparseMaps.SquareOfDistanceToSelf | src/main/com/nuanxinli/ai/vector/Vector.java:78-85 | every vector is at squared distance 0 from itself |
| SparseMaps.JaccardSimilarity | src/main/com/nuanxinli/ai/vector/Vector.java:155-163 | common dimensions over all dimensions. It fails exactly when neither operand stores a dimension. Otherwise it lies in [0, 1]. It is 1 exactly when both store the same dimensions, and 0 exactly when they store disjoint ones |
| SparseMaps.JaccardSymmetric | src/main/com/nuanxinli/ai/vector/Vector.java:155-163 | the similarity does not depend on the order of the operands |
| SparseMaps.JaccardWithSelf | src/main/com/nuanxinli/ai/vector/Vector.java:155-163 | a vector that stores some dimension has similarity 1 with itself |
| SparseVectors.ComputeSum | src/main/com/nuanxinli/ai/vector/Vector.java:95-105 | the loop that recomputes the sum from the entries returns the sum of all coordinates |
| SparseVectors.ComputeSquareOfLength | src/main/com/nuanxinli/ai/vector/Vector.java:107-117 | the loop that recomputes the squared length returns the sum of the squared coordinates |
| SparseVectors.SparseVector.Plus | src/main/com/nuanxinli/ai/vector/Vector.java:5-12 | returns a fresh vector holding the sum, with empty caches; neither operand changes |
| SparseVectors.SparseVector.PlusSelf | src/main/com/nuanxinli/ai/vector/Vector.java:14-20 | afterwards the receiver holds what `plus` returns from the old state (also when the argument is the receiver); both caches are dropped |
| SparseVectors.SparseVector.Minus | src/main/com/nuanxinli/ai/vector/Vector.java:22-29 | returns a fresh vector holding the difference, with empty caches; neither operand changes |
| SparseVectors.SparseVector.MinusSelf | src/main/com/nuanxinli/ai/vector/Vector.java:31-37 | afterwards the receiver holds what `minus` returns from the old state; both caches are dropped |
| SparseVectors.SparseVector.Multiply | src/main/com/nuanxinli/ai/vector/Vector.java:39-45 | returns a fresh vector holding the product, with empty caches; the receiver does not change |
| SparseVectors.SparseVector.MultiplySelf | src/main/com/nuanxinli/ai/vector/Vector.java:47-52 | afterwards the receiver holds what `multiply` returns from the old state; both caches are dropped |
| SparseVectors.SparseVector.Divide | src/main/com/nuanxinli/ai/vector/Vector.java:54-60 | fails with DivisionByZero exactly when the divisor is 0; otherwise returns a fresh vector holding the quotient, with empty caches |
| SparseVectors.SparseVector.DivideSelf | src/main/com/nuanxinli/ai/vector/Vector.java:62-67 | a zero divisor is reported and changes nothing; otherwise the receiver holds what `divide` returns from the old state and both caches are dropped |
| SparseVectors.SparseVector.Sum | src/main/com/nuanxinli/ai/vector/Vector.java:95-105 | returns the true sum of the current entries and leaves it in the cache. Without `updateCache`, a cached value is returned as it is. The cache invariant is kept |
| SparseVectors.SparseVector.SquareOfLength | src/main/com/nuanxinli/ai/vector/Vector.java:107-124 | the same cache policy for the sum of squares; with no argument it does not force a recompute |
| SparseVectors.SparseVector.SquareOfDistance | src/main/com/nuanxinli/ai/vector/Vector.java:78-85 | a null argument is the zero vector, so the result is the receiver's squared length; the result is never negative |
| SparseVectors.SparseVector.Nearest | src/main/com/nuanxinli/ai/vector/Vector.java:165-171 | fails exactly when the array is empty. Otherwise it returns a valid index whose squared distance is at most that of every candidate, and strictly below that of every earlier candidate |
| SparseVectors.NearestExample | src/main/com/nuanxinli/ai/vector/Vector.java:165-171 | the query {1:1} against candidates {1:1}, {1:5}, {1:1.1} selects index 0 |
| SparseVectors.SumAfterPlusSelf | src/main/com/nuanxinli/ai/vector/Vector.java:95-105 | `sum(false)` after `plusSelf` reports the new total (old sum plus the argument's old sum, also when the argument is the receiver), not the stale cached value |

## Left out

- `length()` and `length(boolean)` (Vector.java:126-143), `distance` (Vector.java:87-93) and `cosineSimilarity` (Vector.java:145-153) need a real square root, which the model does not have. Their squared forms are modelled: `SquareOfLength`, `SquareOfDistance`, `DotProduct`. The cosine range [-1, 1] (the Cauchy–Schwarz inequality) is not proved.
- IEEE `double` arithmetic (rounding, NaN, infinities): coordinates and results are exact reals.
- No other implementation of the interface: `SparseVector` is the only one, and there is no separate abstract type.
- Thread safety: the interface promises none, and the model is sequential.
- Building vectors from outside data and storing them belong to callers, so they are not modelled. The constructor takes a ready-made map.
