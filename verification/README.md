# PyMath in Dafny

A model of four pieces of the PyMath utility library, with proofs about it:

- **Matrix** (`PyMath/matrix.py`): construction with a uniform fill, the
  element-wise operators `+ - * /` against a matrix of the same size or a
  number, matrix multiplication `@`, `identity`, `matrix_from_list`, `copy`
  and the static aliases `add`, `subtract`, `multiply`, `divide`,
  `matrix_multiply` (module `Matrices`, file `matrices.dfy`).
- **Vector** (`PyMath/vector.py`): element-wise and broadcast arithmetic,
  negation, `dot`, `==`, the magnitude comparisons, `|`, `one` and `zero`
  (module `Vectors`, file `vectors.dfy`); the `Vector2` constructor and
  direction constants, and the `Vector3` `cross` and `lerp` formulas on
  triples (module `FixedVectors`, file `fixed_vectors.dfy`).
- **Queue** (`PyMath/queue.py`): construction, `push`, `pull`, `flush`,
  `len` and the draining iterator (module `Queues`, file `queues.dfy`).
- **Color** (`PyMath/color.py`): channel clamping, `rgba`, indexing and the
  named colours (module `Colors`, file `colors.dfy`).

All arithmetic is on Dafny `real` (vectors, matrices) or `int` (colours).
Every Python exception becomes `Failure(kind)` of a `Result`, and every
Python `None` return becomes `None` of an `Option` (module `Wrappers`,
file `wrappers.dfy`). Objects are immutable values: each operation returns
the new value, and a queue operation returns the queue's next state.

Modelling choices worth knowing:

- A vector carries its Python class (`Vector` or `Vector2`). The source
  rebuilds arithmetic results with `self.__class__` and accepts a vector
  operand only if `isinstance(other, self.__class__)`. So `Vector2 + Vector`
  gives `None`, while `Vector + Vector2` gives a `Vector`. The `>` operator
  uses the same class test; `<`, `<=`, `>=` and `==` accept any vector.
  Python runs a comparison between a `Vector` and a `Vector2` through the
  `Vector2` operand's reflected method first, since its class is a proper
  subclass. That changes only `Vector < Vector2`: it runs
  `Vector2.__gt__`, whose class test answers `None`.
- Magnitude comparisons are decided from the sum of squares. The ghost
  predicate `IsMagnitude(m, v.comps)` says `m` is the non-negative square root of
  that sum. The comparison lemmas show that the model's answers equal
  comparisons of such magnitudes.
- Vector `==` against another vector compares the component lists, not
  the magnitudes that the ordering operators compare.
  `EqualMagnitudeIsNotEquality` shows the two differ.
- Element-wise matrix operators test `self.size() is other.size()`, an
  identity test on the size tuples. It holds when both matrices share one
  tuple object. The results of `+ - * /` and `copy` share their receiver's
  tuple, and matrices built with the default size share the default one.
  `@`, `identity` and `matrix_from_list` build a fresh tuple for their
  result (matrix.py:146, 213, 176), and two equal tuples built separately
  fail the test and raise MatrixSizeError. The model compares
  `(rows, cols)` by value, which is what the documented `Raises:` clauses
  describe (matrix.py:258-260).
- Matrix dimensions are integers. The base constructor calls `len` on the
  new matrix (vector.py:17), which is `rows * cols`, and Python's `len`
  raises ValueError for a negative length. So a matrix exists only when
  `rows * cols >= 0`. A negative dimension next to a positive one raises
  ValueError, also for the result of `@`. A negative dimension next to 0
  or next to another negative one gives, as `range` does, no rows or no
  cells, while `len` returns the product.
- The color clamp's docstring says alpha lies in [0, 1]. The code clamps it
  into [0, 255], and the model follows the code.
- `Queues.Push` in unique mode with a list or tuple follows the corrected
  behaviour (see Findings). The as-written behaviour is modelled separately.

## Model

| member | source | states |
|---|---|---|
| Matrices.NonNegativeLengthIsProduct | PyMath/matrix.py:35-37 | the model's length test `NonNegativeLength(r, c)`, stated through the signs of the two dimensions, holds exactly when `len`, the product `r * c`, is not negative |
| Matrices.New | PyMath/matrix.py:16-21 | `Matrix((r, c), fill)` succeeds exactly when `r * c >= 0`, recording size (r, c) with `range(r)` rows of `range(c)` cells, each equal to `fill`. A negative `r * c` makes the `len(self)` call in the base constructor (vector.py:17) raise ValueError |
| Matrices.NewLength | PyMath/matrix.py:35-37 | a new r x c matrix with natural r and c is built, holds r*c cells, and `len` returns r*c |
| Matrices.NegativeDimensions | PyMath/matrix.py:16-21 | `Matrix((-1, 3))` raises ValueError, while `Matrix((-1, -3))` is built with no rows and `len` 3 |
| Matrices.Length | PyMath/matrix.py:35-37 | `len(matrix)` is not negative for every matrix the constructor can build |
| Matrices.LengthCountsCells | PyMath/matrix.py:35-37 | for non-negative dimensions, `len` equals the number of cells in the grid |
| Matrices.ElementWise | PyMath/matrix.py:61-139 | `+ - * /` (also the static `add`, `subtract`, `multiply`, `divide`, lines 267-336) return a matrix of the receiver's size. Against a same-size matrix, cell (i, j) is `self[i][j] op other[i][j]`; against a number, `self[i][j] op x`. A different size raises MatrixSizeError, a non-number raises MatrixMathError, and division by a zero cell or zero scalar raises ZeroDivisionError, each exactly when its condition holds. No other exception is raised |
| Matrices.AddThenSubtract | PyMath/matrix.py:61-99 | whenever `a + x` succeeds, `(a + x) - x == a`, for a matrix or number `x` |
| Matrices.ScaleThenDivide | PyMath/matrix.py:101-139 | `(a * x) / x == a` for every nonzero number x |
| Matrices.MatMul | PyMath/matrix.py:141-155 | `A @ B` (also the static `matrix_multiply`, line 357) succeeds exactly when B is a Matrix with `A.cols == B.rows` and `A.rows * B.cols >= 0` (stated as `NonNegativeLength`). The result is `A.rows x B.cols` with cell (i, j) = sum over k of `A[i][k] * B[k][j]`. A column mismatch raises MatrixSizeError; a negative `A.rows * B.cols` raises ValueError when the result is built (line 146); a non-Matrix raises MatrixMultiplicationError |
| Matrices.MatMulLoops | PyMath/matrix.py:141-155 | `__matmul__` written as its size check, result construction and triple loop, each cell starting at 0 and accumulating `self[i][k] * other[k][j]`, returns exactly what `MatMul` returns, errors included |
| Matrices.AssociativeCell | PyMath/matrix.py:141-155 | cell (i, j) of `(A @ B) @ C` equals cell (i, j) of `A @ (B @ C)`: summing `A[i][k] * B[k][l] * C[l][j]` row by row or column by column gives the same total |
| Matrices.MatMulAssociative | PyMath/matrix.py:141-155 | when the sizes fit and `A @ B` and `B @ C` are built, `(A @ B) @ C` and `A @ (B @ C)` give the same matrix or both raise ValueError; with non-negative dimensions all the products are built |
| Matrices.AssociativityNeedsInnerProducts | PyMath/matrix.py:141-155 | for sizes (-1, 0), (0, 2) and (2, 0), `A @ B` raises ValueError while `A @ (B @ C)` is built |
| Matrices.Identity | PyMath/matrix.py:188-219 | an integer size n gives an n x n matrix with 1 on the diagonal and 0 elsewhere; a float size fails in `range` (TypeError); any other kind raises MatrixIdentityError |
| Matrices.IdentityIsLeftNeutral | PyMath/matrix.py:212-217 | `identity(A.rows) @ A == A` for every matrix A |
| Matrices.IdentityIsRightNeutral | PyMath/matrix.py:212-217 | `A @ identity(A.cols) == A` for every matrix A |
| Matrices.FromList | PyMath/matrix.py:169-180 | a non-empty list of equal-length rows gives a `len(L) x len(L[0])` matrix whose cell (i, j) is `L[i][j]`. Unequal rows fail the assertion; an empty list fails reading `L[0]` (IndexError) |
| Matrices.FromListOfCells | PyMath/matrix.py:173-180 | a matrix with at least one row and a non-negative column count is rebuilt exactly from its own rows |
| Matrices.Copy | PyMath/matrix.py:182-186 | `Matrix(m.size()) * m` equals m: the same size and the same cells |
| Vectors.Arith | PyMath/vector.py:100-123 | `+ - * /`: against a vector of the receiver's class, component i is `self[i] op other[i]` over `len(self)`; against a number, `self[i] op x`. The result keeps the receiver's class and length. Any other operand gives `None`. A shorter vector operand raises IndexError. A zero divisor raises ZeroDivisionError, before the IndexError when it comes first. No other exception is raised |
| Vectors.AddThenSubtract | PyMath/vector.py:100-111 | whenever `a + x` returns a vector, `(a + x) - x == a` |
| Vectors.ScaleThenDivide | PyMath/vector.py:113-123 | `(a * x) / x == a` for every nonzero number x |
| Vectors.SubtractIsAddNegation | PyMath/vector.py:106-111 | `a - b` and `a + (-b)` agree on every pair of vectors, errors and `None` included |
| Vectors.Negate | PyMath/vector.py:71-73 | `-v` keeps v's class and length and negates every component |
| Vectors.NegateInvolutive | PyMath/vector.py:71-73 | `-(-v) == v` |
| Vectors.Dot | PyMath/vector.py:49-54 | `a.dot(b)` raises IndexError exactly when b is shorter than a |
| Vectors.DotCommutes | PyMath/vector.py:49-54 | for vectors of equal length, `a.dot(b) == b.dot(a)` |
| Vectors.SumSquares | PyMath/vector.py:31-32 | the sum of squared components under the square root of `mag` is never negative, so the root exists, and it is 0 for a vector of zeros |
| Vectors.DotSelfIsSumSquares | PyMath/vector.py:31-54 | `v.dot(v)` is the sum of squares under the square root in `mag()` |
| Vectors.Compare | PyMath/vector.py:134-175 | an answer is the comparison of the sums of squares. `None` comes exactly from an operand that is neither vector nor number, from `Vector2 > Vector` (the class test of `__gt__`), and from `Vector < Vector2`, where Python calls the operand's reflected `__gt__` first and its class test fails |
| Vectors.CompareVectorsByMagnitude | PyMath/vector.py:134-175 | whenever the operator answers for two vectors, its answer is the comparison of their magnitudes |
| Vectors.CompareWithNumberByMagnitude | PyMath/vector.py:134-175 | comparing a vector with a number gives the same answer as comparing its magnitude with that number |
| Vectors.Equals | PyMath/vector.py:125-132 | `==` against a vector is true exactly when the component lists are equal; against anything that is neither a vector nor a number it gives `None` |
| Vectors.EqualsNumberByMagnitude | PyMath/vector.py:131-132 | `v == c` for a number c compares the magnitude of v with c |
| Vectors.EqualMagnitudeIsNotEquality | PyMath/vector.py:129-130 | (1, 0) and (0, 1) have equal magnitude yet compare unequal |
| Vectors.Or | PyMath/vector.py:97-98 | `a \| b` is a or b: a when `a > b` holds by squared magnitude, b on ties, when a's squared magnitude is not larger than b's, or when `>` gives `None` |
| Vectors.OrPicksLargerMagnitude | PyMath/vector.py:97-98 | for vectors of the receiver's class, `a \| b` is the operand of strictly larger magnitude, and b otherwise |
| Vectors.One | PyMath/vector.py:63-65 | `Vector.one(n)` is a plain Vector with `range(n)` components, all 1 |
| Vectors.OneMagnitude | PyMath/vector.py:63-65 | the squared magnitude of `one(n)` is n |
| Vectors.ZeroAsWritten | PyMath/vector.py:63-69 | `Vector.zero(n)` as written returns the same vector as `Vector.one(n)`, so for n > 0 its magnitude is not 0 |
| Vectors.ZeroAsWrittenIsNotNeutral | PyMath/vector.py:67-69 | adding `zero(1)` as written to (0) gives (1) |
| Vectors.Zero | PyMath/vector.py:67-69 | the corrected `zero(n)`: `range(n)` components, all 0 |
| Vectors.ZeroIsAdditiveIdentity | PyMath/vector.py:67-69 | the corrected `zero(len(v))` added to a plain vector v gives v |
| FixedVectors.NewVector2 | PyMath/vector.py:289-315 | `Vector2(x, y)`, `Vector2(seq)` with `len(seq) == 2` and `Vector2(v2)` succeed with those two components. Three arguments or a sequence of another length raise VectorCreationError. One number fails in `len()` (TypeError). No argument or more than three leave `x` unset (AttributeError) |
| FixedVectors.Vector2FormsAgree | PyMath/vector.py:303-311 | the three accepted argument forms build the same Vector2, and copying a Vector2 reproduces it |
| FixedVectors.Up | PyMath/vector.py:325-327 | `Vector2.up()` is (0, -1) |
| FixedVectors.Down | PyMath/vector.py:329-331 | `Vector2.down()`, computed as `-up()`, is (0, 1) |
| FixedVectors.Left | PyMath/vector.py:333-335 | `Vector2.left()` is (-1, 0) |
| FixedVectors.Right | PyMath/vector.py:337-339 | `Vector2.right()`, computed as `-left()`, is (1, 0) |
| FixedVectors.OneVector2 | PyMath/vector.py:317-319 | `Vector2.one()` is (1, 1) |
| FixedVectors.ZeroVector2 | PyMath/vector.py:321-323 | `Vector2.zero()` is (0, 0) |
| FixedVectors.DirectionsCancel | PyMath/vector.py:325-339 | `up + down` and `left + right` are `Vector2.zero()`, and the four directions have magnitude 1 |
| FixedVectors.CrossAsWritten | PyMath/vector.py:227-236 | `cross` as written agrees with the right-hand cross product in x and z and has the opposite sign in y |
| FixedVectors.Cross | PyMath/vector.py:227-230 | the corrected cross product the docstring describes: its dot product with any vector c is the determinant of (a, b, c), so it is perpendicular to both operands |
| FixedVectors.CrossAsWrittenSelfIsZero | PyMath/vector.py:232-234 | a x a = (0, 0, 0) for the formula as written |
| FixedVectors.CrossAsWrittenAnticommutes | PyMath/vector.py:232-234 | a x b = -(b x a) for the formula as written |
| FixedVectors.CrossAsWrittenNotPerpendicular | PyMath/vector.py:227-236 | (1, 1, 0) x (0, 0, 1) as written is (1, 1, 0), whose dot product with (1, 1, 0) is 2, not 0 |
| FixedVectors.CrossIsPerpendicular | PyMath/vector.py:227-230 | the right-hand cross product is perpendicular to both operands, as the docstring promises |
| FixedVectors.ClampPercent | PyMath/vector.py:243 | `max(min(p, 1), 0)` lies in [0, 1], keeps a p already in [0, 1], and maps p < 0 to 0 and p > 1 to 1 |
| FixedVectors.Lerp | PyMath/vector.py:238-244 | `lerp(a, b, p)` is a for p <= 0, b for p >= 1, and `a + (b - a) * p` in between |
| FixedVectors.LerpStaysBetween | PyMath/vector.py:238-244 | every component of an interpolation lies between the endpoints' components |
| Queues.Init | PyMath/queue.py:18-20 | a new queue holds the default collection in order, or nothing for `None`, and records the unique flag |
| Queues.InitKeepsDuplicates | PyMath/queue.py:18-20 | unique mode does not remove duplicates from the default collection |
| Queues.InitThenDrain | PyMath/queue.py:18-20 | a queue built from a collection is pulled empty in the collection's order; one built from `None` yields nothing |
| Queues.Length | PyMath/queue.py:56-57 | `len(queue)` is zero exactly when `pull` would return `None` |
| Queues.PushPullLength | PyMath/queue.py:22-57 | a pull on a non-empty queue lowers `len` by one. A non-unique push raises it by the number of pushed objects. A unique push of one object raises it by one only when the object is absent |
| Queues.Push | PyMath/queue.py:22-35 | `push` keeps the queued items in place as a prefix and adds only the pushed object(s). In non-unique mode it appends the object or extends with the list in order. In unique mode a single object already held leaves the queue unchanged, an absent one is appended once, a list or tuple adds exactly the elements not already held, each once, and a duplicate-free queue stays duplicate-free |
| Queues.PushEach | PyMath/queue.py:29 | corrected unique push of a container: it keeps the queue as a prefix and adds exactly the elements not already held, each once, even when the queue already holds repeats; a duplicate-free queue stays duplicate-free |
| Queues.UniquePushOntoRepeats | PyMath/queue.py:29 | the corrected push of [1, 2] onto a unique queue holding [1, 1] gives [1, 1, 2] |
| Queues.Pull | PyMath/queue.py:37-43 | `pull` on a non-empty queue returns the first item, and that item followed by the rest is the old queue; on an empty queue it returns `None` and the queue is unchanged |
| Queues.PullAfterPush | PyMath/queue.py:22-43 | in either mode, pushing anything behind a non-empty queue does not change which item is pulled next. When the push appends (always in non-unique mode, and for an absent single object in unique mode), pulling first and pushing after leave the same queue |
| Queues.Drain | PyMath/queue.py:59-66 | iterating a queue (`__iter__`/`__next__` calling `pull`) yields one object per queued item, each of them taken from the queue |
| Queues.DrainIsInOrder | PyMath/queue.py:59-66 | pulling until `pull` gives `None` returns the queue's items in order |
| Queues.FirstInFirstOut | PyMath/queue.py:9-14 | objects pushed one at a time onto an empty queue are pulled in the order they were pushed: always in non-unique mode, and in unique mode when the objects are distinct |
| Queues.PushAllAppends | PyMath/queue.py:22-35 | single objects pushed one after another are appended in push order, in non-unique mode always and in unique mode when they are distinct and not yet queued |
| Queues.UniqueQueueDropsRepeats | PyMath/queue.py:33-35 | an object pushed twice onto an empty unique queue is pulled once |
| Queues.Flush | PyMath/queue.py:45-48 | `flush` returns a new non-unique queue holding the old items in order and leaves the original empty |
| Queues.UniqueContainerPushAsWritten | PyMath/queue.py:29 | unique-mode push of a list as written keeps the queue as a prefix and appends only copies of the list itself |
| Queues.UniqueContainerPushAsWrittenStoresContainer | PyMath/queue.py:29 | pushing [1, 2] onto an empty unique queue as written stores the list twice and neither element |
| Queues.UniqueContainerPushStoresElements | PyMath/queue.py:25-29 | the corrected push of [1, 2] onto an empty unique queue stores 1 then 2 |
| Colors.ClampChannel | PyMath/color.py:58-61 | `max(min(v, 255), 0)` lies in [0, 255], keeps a value already in range, and maps values below 0 to 0 and above 255 to 255 |
| Colors.NewColor | PyMath/color.py:14-15 | `Color(r, g, b, a)` has every channel in [0, 255], and a channel given in range is kept |
| Colors.Opaque | PyMath/color.py:14 | `Color(r, g, b)` has alpha 255, and for in-range r, g, b its `rgba` is `(r, g, b, 255)` |
| Colors.Rgba | PyMath/color.py:17-19 | `rgba` gives the four channels in r, g, b, a order: passing them back to `Color(...)` rebuilds a colour whose channels are in range, as a built colour's are, and indexing 0 and -1 reads the red and alpha channels |
| Colors.ClampIsIdempotent | PyMath/color.py:55-62 | clamping the channels of a built colour again changes nothing |
| Colors.Channel | PyMath/color.py:31-32 | `color[i]` succeeds exactly for -4 <= i < 4, counting negative indices from the end, and raises IndexError otherwise |
| Colors.ChannelMatchesRgba | PyMath/color.py:17-19 | `color[0..3]` are `rgba[0..3]`, which are r, g, b, a; `color[-k]` is `color[4 - k]` |
| Colors.ChannelInRange | PyMath/color.py:31-32 | every channel read from a built colour lies in [0, 255] |
| Colors.Red | PyMath/color.py:66 | `Color.red` is (255, 0, 0, 255) |
| Colors.Green | PyMath/color.py:67 | `Color.green` is (0, 255, 0, 255) |
| Colors.Blue | PyMath/color.py:68 | `Color.blue` is (0, 0, 255, 255) |
| Colors.Black | PyMath/color.py:69 | `Color.black` is (0, 0, 0, 255) |
| Colors.White | PyMath/color.py:70 | `Color.white` is (255, 255, 255, 255) |
| Colors.Transparent | PyMath/color.py:71 | `Color.transparent` is (255, 255, 255, 0) |

## Left out

- `Matrix.inverse` (matrix.py:157-167): its loop runs to `len(self)`, which is rows*cols, so it indexes past the grid. It also indexes `self[x]` with a row vector, and it works in floating point.
- `Matrix.random` and `Color.random`: they draw from `randint`.
- `mag`, `normalized`, `normalize`, `distance`: they need a square root on floats. Ordering is modelled through the sum of squares instead. `distance` squares the sum of differences rather than summing squares (vector.py:61), and `normalize` calls `__init__` unbound (vector.py:46).
- `rotate`, `look_towards`, `radians_to_degrees`, `degrees_to_radians`: they use trigonometry and a floating `pi`. `degrees_to_radians` also has its formula upside down (vector.py:347).
- `Vector3.__init__`: it reads `args[0][3]`, `args[1]` and `args[3]`, so every call fails (vector.py:215, 217, 221). As a consequence `cross`, `lerp` and the `Vector3` constants fail when run. The model states `cross` and `lerp` as formulas on triples.
- `Vector3.up`, `down`, `left`, `forward`, `back`, `one`, `zero`: they go through the failing constructor. `Vector3.right` also calls itself without end (vector.py:268).
- `Color.to_hex` and `hex`: the `{:.02}` specifier fails on an integer alpha (color.py:52).
- `__str__` and `__repr__` of every class: diagnostic text rendering.
- Pushing a `set`: its iteration order is unspecified. Lists and tuples are modelled.
- `Vector.name` (attribute reflection), `__getitem__`/`__setitem__` on vectors and matrices, and the `__iter__`/`__next__` position objects of Vector and Matrix: they are in-place mutation and iteration state. Matrix cells are read by index, and the queue's draining iterator is modelled by `Queues.Drain` and `Queues.Flush`.
- Sets passed to `Vector2(...)`: a two-element set passes the length test but fails at `args[0][0]` with TypeError (vector.py:307). `FromSequence` stands for lists, tuples and plain vectors only.
- Operands whose Python type is neither a number nor the expected class are one `Unsupported`/`NotANumber` case. Components are real numbers, so a `Vector2` built from two non-numeric objects is not modelled.
- Non-integer colour channels: the channels are integers.
- Slicing a colour (`color[1:3]`, color.py:31-32): it slices the clamped tuple. `Colors.Channel` models integer indexes only.
- Queues.Pull: the model returns `None` only for an empty queue. In Python a queued `None` object is also returned as `None`.

## Findings

| source | as written | input that shows it | evidently intended | confidence | as-written member | corrected member |
|---|---|---|---|---|---|---|
| PyMath/vector.py:67-69 | `Vector.zero(size)` builds a vector of ones, the same as `one` | `Vector(0) + Vector.zero(1)` is `Vector(1)` | a vector of `size` zeros, neutral for `+` | high; not executed | Vectors.ZeroAsWrittenIsNotNeutral | Vectors.ZeroIsAdditiveIdentity |
| PyMath/vector.py:233 | the y component of `cross` is `x1*z2 - z1*x2`, the negation of the right-hand product's, so the result is not perpendicular as the docstring says | `(1,1,0).cross((0,0,1))` gives (1,1,0), whose dot product with (1,1,0) is 2 | `z1*x2 - x1*z2`, a vector perpendicular to both operands | high; not executed | FixedVectors.CrossAsWrittenNotPerpendicular | FixedVectors.CrossIsPerpendicular |
| PyMath/queue.py:29 | unique-mode push of a list appends the whole list once for each new element, and never appends the elements | pushing `[1, 2]` onto an empty unique queue stores `[1, 2]` twice | append each element not already held | high; not executed | Queues.UniqueContainerPushAsWrittenStoresContainer | Queues.PushEach |
