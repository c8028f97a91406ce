/** N-dimensional vectors of PyMath/vector.py: the `Vector` class, whose
    arithmetic, comparisons and `dot` the `Vector2` class inherits.

    A vector is a sequence of real components tagged with its Python class,
    because the source rebuilds every arithmetic result with
    `self.__class__` and accepts a vector operand only when it passes
    `isinstance(other, self.__class__)`.
 */
module Vectors {
  import opened Wrappers

  /** The Python class of a vector object. */
  datatype Class = PlainVector | Vector2Class

  datatype Vector = Vector(cls: Class, comps: seq<real>)

  /** A Vector2 object always holds exactly its two components x and y. */
  predicate WellFormed(v: Vector) {
    v.cls == Vector2Class ==> |v.comps| == 2
  }

  /** The right-hand operand of an operator: a vector, a number, or any
      other Python object. */
  datatype Operand = VectorOperand(v: Vector) | Number(x: real) | Unsupported

  /** Exception kinds the vector code raises. */
  datatype VectorError =
    | IndexError          // a component index past the end of a list
    | ZeroDivisionError   // `/` by a zero component or scalar
    | TypeError           // `len()` of a number
    | AttributeError      // `self.x` read before any branch assigned it
    | VectorCreationError // a constructor argument shape it rejects

  datatype ArithOp = Plus | Minus | Times | Over

  /** One component of `+`, `-`, `*` or `/`. */
  function Apply(op: ArithOp, x: real, y: real): real
    requires op == Over ==> y != 0.0
  {
    match op
    case Plus => x + y
    case Minus => x - y
    case Times => x * y
    case Over => x / y
  }

  /** `isinstance(v, cls)`: every vector is a Vector; only Vector2 objects
      are Vector2s. */
  predicate IsInstance(v: Vector, cls: Class) {
    cls == PlainVector || v.cls == Vector2Class
  }

  function Min(x: int, y: int): int {
    if x < y then x else y
  }

  /** `op` is a division and some divisor at an index below `n` is zero. */
  predicate ZeroDivisorBelow(op: ArithOp, divisors: seq<real>, n: int) {
    op == Over && exists i :: 0 <= i < n && i < |divisors| && divisors[i] == 0.0
  }

  /** Component i of the result is `a[i] op b[i]`, for every index of `a`. */
  function Pairwise(op: ArithOp, a: seq<real>, b: seq<real>): seq<real>
    requires |a| <= |b| && !ZeroDivisorBelow(op, b, |a|)
  {
    seq(|a|, i requires 0 <= i < |a| => Apply(op, a[i], b[i]))
  }

  /** Component i of the result is `a[i] op x`. */
  function Broadcast(op: ArithOp, a: seq<real>, x: real): seq<real>
    requires op == Over ==> x != 0.0 || |a| == 0
  {
    seq(|a|, i requires 0 <= i < |a| => Apply(op, a[i], x))
  }

  /** `self + other`, `self - other`, `self * other`, `self / other`.
      The outer Result is a raised exception; `Success(None)` is the Python
      `None` the operator returns for an operand it does not accept. */
  function Arith(op: ArithOp, self: Vector, other: Operand): (r: Result<Option<Vector>, VectorError>)
    requires WellFormed(self)
    ensures r.Success? && r.value.Some? ==>
              && r.value.value.cls == self.cls
              && |r.value.value.comps| == |self.comps|
              && WellFormed(r.value.value)
    ensures r == Success(None) <==>
              other.Unsupported? || (other.VectorOperand? && !IsInstance(other.v, self.cls))
    ensures r.Failure? ==> r.error == ZeroDivisionError || r.error == IndexError
    ensures r == Failure(ZeroDivisionError) <==>
              || (other.Number? && op == Over && other.x == 0.0 && |self.comps| > 0)
              || (other.VectorOperand? && IsInstance(other.v, self.cls)
                  && ZeroDivisorBelow(op, other.v.comps, |self.comps|))
    ensures r == Failure(IndexError) <==>
              && other.VectorOperand? && IsInstance(other.v, self.cls)
              && |other.v.comps| < |self.comps|
              && !ZeroDivisorBelow(op, other.v.comps, |self.comps|)
    ensures r.Success? && r.value.Some? && other.VectorOperand? ==>
              forall i :: 0 <= i < |self.comps| ==>
                other.v.comps[i] != 0.0 || op != Over
    ensures r.Success? && r.value.Some? && other.VectorOperand? ==>
              forall i :: 0 <= i < |self.comps| ==>
                r.value.value.comps[i] == Apply(op, self.comps[i], other.v.comps[i])
    ensures r.Success? && r.value.Some? && other.Number? ==>
              forall i :: 0 <= i < |self.comps| ==>
                r.value.value.comps[i] == Apply(op, self.comps[i], other.x)
  {
    match other
    case VectorOperand(o) =>
      if !IsInstance(o, self.cls) then Success(None)
      // indices are visited in order, so a zero divisor before the end of
      // `o` raises before the index past its end does
      else if ZeroDivisorBelow(op, o.comps, Min(|self.comps|, |o.comps|)) then Failure(ZeroDivisionError)
      else if |o.comps| < |self.comps| then Failure(IndexError)
      else Success(Some(Vector(self.cls, Pairwise(op, self.comps, o.comps))))
    case Number(x) =>
      if op == Over && x == 0.0 && |self.comps| > 0 then Failure(ZeroDivisionError)
      else Success(Some(Vector(self.cls, Broadcast(op, self.comps, x))))
    case Unsupported => Success(None)
  }

  /** Adding an operand and then subtracting the same operand gives back the
      original vector. */
  lemma AddThenSubtract(a: Vector, other: Operand)
    requires WellFormed(a)
    requires Arith(Plus, a, other).Success? && Arith(Plus, a, other).value.Some?
    ensures Arith(Minus, Arith(Plus, a, other).value.value, other) == Success(Some(a))
  {
    var c := Arith(Plus, a, other).value.value;
    var d := Arith(Minus, c, other);
    assert d.Success? && d.value.Some?;
    assert d.value.value.comps == a.comps;
  }

  /** Multiplying by a number and then dividing by the same nonzero number
      gives back the original vector. */
  lemma ScaleThenDivide(a: Vector, x: real)
    requires WellFormed(a) && x != 0.0
    ensures Arith(Over, Arith(Times, a, Number(x)).value.value, Number(x)) == Success(Some(a))
  {
    var c := Arith(Times, a, Number(x)).value.value;
    var d := Arith(Over, c, Number(x));
    assert d.Success? && d.value.Some?;
    forall i | 0 <= i < |a.comps|
      ensures d.value.value.comps[i] == a.comps[i]
    {
      assert c.comps[i] == a.comps[i] * x;
      assert (a.comps[i] * x) / x == a.comps[i];
    }
    assert d.value.value.comps == a.comps;
  }

  /** `-v`: same class and length, every component negated. */
  function Negate(v: Vector): (r: Vector)
    ensures r.cls == v.cls && |r.comps| == |v.comps|
    ensures forall i :: 0 <= i < |v.comps| ==> r.comps[i] == -v.comps[i]
  {
    Vector(v.cls, seq(|v.comps|, i requires 0 <= i < |v.comps| => -v.comps[i]))
  }

  lemma NegateInvolutive(v: Vector)
    ensures Negate(Negate(v)) == v
  {
    assert Negate(Negate(v)).comps == v.comps;
  }

  /** `a - b` agrees with `a + (-b)`, including the exceptions either raises. */
  lemma SubtractIsAddNegation(a: Vector, b: Vector)
    requires WellFormed(a)
    ensures Arith(Minus, a, VectorOperand(b)) == Arith(Plus, a, VectorOperand(Negate(b)))
  {
    var l := Arith(Minus, a, VectorOperand(b));
    var r := Arith(Plus, a, VectorOperand(Negate(b)));
    if l.Success? && l.value.Some? {
      assert r.Success? && r.value.Some?;
      assert l.value.value.comps == r.value.value.comps;
    }
  }

  /** Sum of `a[i] * b[i]` for i below n, added left to right as Python's
      `sum` does. */
  function SumProducts(a: seq<real>, b: seq<real>, n: nat): real
    requires n <= |a| && n <= |b|
  {
    if n == 0 then 0.0 else SumProducts(a, b, n - 1) + a[n - 1] * b[n - 1]
  }

  /** Sum of the squared components: the square of the magnitude, so never
      negative, and zero for a vector of zeros. */
  function SumSquares(s: seq<real>): (r: real)
    ensures r >= 0.0
    ensures (forall i :: 0 <= i < |s| ==> s[i] == 0.0) ==> r == 0.0
  {
    if |s| == 0 then 0.0
    else
      var init, last := s[..|s| - 1], s[|s| - 1];
      assert forall i :: 0 <= i < |init| ==> init[i] == s[i];
      SumSquares(init) + last * last
  }

  /** `self.dot(other)`: the products over the indices of `self`; an `other`
      shorter than `self` raises IndexError. */
  function Dot(a: Vector, b: Vector): (r: Result<real, VectorError>)
    ensures r.Failure? <==> |b.comps| < |a.comps|
    ensures r.Failure? ==> r.error == IndexError
  {
    if |b.comps| < |a.comps| then Failure(IndexError)
    else Success(SumProducts(a.comps, b.comps, |a.comps|))
  }

  lemma {:induction false} SumProductsSymmetric(a: seq<real>, b: seq<real>, n: nat)
    requires n <= |a| && n <= |b|
    ensures SumProducts(a, b, n) == SumProducts(b, a, n)
  {
    if n > 0 {
      SumProductsSymmetric(a, b, n - 1);
    }
  }

  /** The dot product of two vectors of equal length is commutative. */
  lemma DotCommutes(a: Vector, b: Vector)
    requires |a.comps| == |b.comps|
    ensures Dot(a, b).Success? && Dot(a, b) == Dot(b, a)
  {
    SumProductsSymmetric(a.comps, b.comps, |a.comps|);
  }

  lemma {:induction false} SumProductsSelf(s: seq<real>, n: nat)
    requires n <= |s|
    ensures SumProducts(s, s, n) == SumSquares(s[..n])
  {
    if n > 0 {
      SumProductsSelf(s, n - 1);
      assert s[..n][..n - 1] == s[..n - 1];
    }
  }

  /** `v.dot(v)` is the sum of squares under the square root of `mag()`. */
  lemma DotSelfIsSumSquares(v: Vector)
    ensures Dot(v, v) == Success(SumSquares(v.comps))
  {
    SumProductsSelf(v.comps, |v.comps|);
    assert v.comps[..|v.comps|] == v.comps;
  }

  /** `m` is `mag()` of a vector with components `s`: the non-negative square
      root of the sum of squares. */
  ghost predicate IsMagnitude(m: real, s: seq<real>) {
    m >= 0.0 && m * m == SumSquares(s)
  }

  /** The four ordering operators `<`, `<=`, `>`, `>=`. */
  datatype Ordering = Less | LessEq | Greater | GreaterEq

  predicate Holds(ord: Ordering, x: real, y: real) {
    match ord
    case Less => x < y
    case LessEq => x <= y
    case Greater => x > y
    case GreaterEq => x >= y
  }

  /** `mag() ord c`, decided from the sum of squares `s` without a square
      root: a magnitude is never negative. */
  predicate MagnitudeAgainst(ord: Ordering, s: real, c: real) {
    match ord
    case Less => 0.0 < c && s < c * c
    case LessEq => 0.0 <= c && s <= c * c
    case Greater => c < 0.0 || s > c * c
    case GreaterEq => c <= 0.0 || s >= c * c
  }

  /** Whether `self ord o` answers for a vector operand. `__gt__` accepts
      only `isinstance(o, self.__class__)`; `__lt__`, `__le__` and `__ge__`
      accept any vector. When o is a Vector2 and self a plain Vector, Python
      first calls o's reflected method, because o's class is a proper
      subclass of self's: `<` then runs `o.__gt__(self)`, whose class test
      rejects the plain vector. The reflections of `>`, `<=` and `>=` answer
      as the direct calls would. */
  predicate Answers(ord: Ordering, self: Vector, o: Vector) {
    && (ord == Greater ==> IsInstance(o, self.cls))
    && !(ord == Less && self.cls == PlainVector && o.cls == Vector2Class)
  }

  /** `self ord other` by magnitude, or Python's `None` for an operand the
      operator does not accept. */
  function Compare(ord: Ordering, self: Vector, other: Operand): (r: Option<bool>)
    ensures r == None <==>
              || other.Unsupported?
              || (other.VectorOperand? && ord == Greater && self.cls == Vector2Class && other.v.cls == PlainVector)
              || (other.VectorOperand? && ord == Less && self.cls == PlainVector && other.v.cls == Vector2Class)
    ensures other.VectorOperand? && r.Some? ==>
              r.value == Holds(ord, SumSquares(self.comps), SumSquares(other.v.comps))
  {
    match other
    case VectorOperand(o) =>
      if !Answers(ord, self, o) then None
      else Some(Holds(ord, SumSquares(self.comps), SumSquares(o.comps)))
    case Number(c) => Some(MagnitudeAgainst(ord, SumSquares(self.comps), c))
    case Unsupported => None
  }

  /** Between non-negative reals, order is the order of the squares. */
  lemma SquaresPreserveOrder(ord: Ordering, m: real, n: real)
    requires m >= 0.0 && n >= 0.0
    ensures Holds(ord, m, n) == Holds(ord, m * m, n * n)
  {
    StrictSquareOrder(m, n);
    StrictSquareOrder(n, m);
  }

  lemma StrictSquareOrder(m: real, n: real)
    requires m >= 0.0 && n >= 0.0
    ensures m < n <==> m * m < n * n
  {
    var mm, mn, nn := m * m, m * n, n * n;
    if m < n {
      assert mm <= mn;
      assert mn < nn;
      assert mm < nn;
    } else {
      assert nn <= mn;
      assert mn <= mm;
      assert nn <= mm;
    }
  }

  /** Comparing two vectors compares their magnitudes. */
  lemma CompareVectorsByMagnitude(ord: Ordering, a: Vector, b: Vector, m: real, n: real)
    requires IsMagnitude(m, a.comps) && IsMagnitude(n, b.comps)
    requires Answers(ord, a, b)
    ensures Compare(ord, a, VectorOperand(b)) == Some(Holds(ord, m, n))
  {
    SquaresPreserveOrder(ord, m, n);
  }

  /** Comparing a vector with a number compares its magnitude with that
      number. */
  lemma CompareWithNumberByMagnitude(ord: Ordering, a: Vector, m: real, c: real)
    requires IsMagnitude(m, a.comps)
    ensures Compare(ord, a, Number(c)) == Some(Holds(ord, m, c))
  {
    if c >= 0.0 {
      SquaresPreserveOrder(ord, m, c);
    }
  }

  /** `self == other`: component-list equality against a vector, magnitude
      equality against a number, `None` against anything else. */
  function Equals(self: Vector, other: Operand): (r: Option<bool>)
    ensures r == None <==> other.Unsupported?
    ensures other.VectorOperand? ==>
              (r == Some(true) <==>
                 && |self.comps| == |other.v.comps|
                 && forall i :: 0 <= i < |self.comps| ==> self.comps[i] == other.v.comps[i])
  {
    match other
    case VectorOperand(o) => Some(self.comps == o.comps)
    case Number(c) => Some(0.0 <= c && SumSquares(self.comps) == c * c)
    case Unsupported => None
  }

  lemma EqualsNumberByMagnitude(a: Vector, m: real, c: real)
    requires IsMagnitude(m, a.comps)
    ensures Equals(a, Number(c)) == Some(m == c)
  {
    if c >= 0.0 {
      SquaresPreserveOrder(Less, m, c);
      SquaresPreserveOrder(Greater, m, c);
    }
  }

  /** Two vectors of equal magnitude need not be equal: `==` between vectors
      does not compare magnitudes. */
  lemma EqualMagnitudeIsNotEquality()
    ensures SumSquares([1.0, 0.0]) == SumSquares([0.0, 1.0])
    ensures Equals(Vector(PlainVector, [1.0, 0.0]), VectorOperand(Vector(PlainVector, [0.0, 1.0]))) == Some(false)
  {
    assert [1.0, 0.0][..1] == [1.0];
    assert [0.0, 1.0][..1] == [0.0];
    assert [1.0, 0.0] != [0.0, 1.0] by {
      assert [1.0, 0.0][0] != [0.0, 1.0][0];
    }
  }

  /** `a | b`: `a` when `a > b` answers True, otherwise `b`, so `b` on ties
      and whenever `>` answers `None`. */
  function Or(a: Vector, b: Vector): (r: Vector)
    ensures r == a || r == b
    ensures IsInstance(b, a.cls) && SumSquares(a.comps) > SumSquares(b.comps) ==> r == a
    ensures !IsInstance(b, a.cls) || SumSquares(a.comps) <= SumSquares(b.comps) ==> r == b
  {
    if Compare(Greater, a, VectorOperand(b)) == Some(true) then a else b
  }

  /** `a | b` keeps the operand of strictly larger magnitude, else `b`. */
  lemma OrPicksLargerMagnitude(a: Vector, b: Vector, m: real, n: real)
    requires IsMagnitude(m, a.comps) && IsMagnitude(n, b.comps)
    requires IsInstance(b, a.cls)
    ensures Or(a, b) == (if m > n then a else b)
  {
    SquaresPreserveOrder(Greater, m, n);
  }

  /** Number of components `range(size)` produces. */
  function Extent(size: int): nat {
    if size < 0 then 0 else size
  }

  function Ones(n: nat): seq<real> {
    seq(n, _ => 1.0)
  }

  /** `Vector.one(size)`. */
  function One(size: int): (r: Vector)
    ensures r.cls == PlainVector && |r.comps| == Extent(size)
    ensures forall i :: 0 <= i < |r.comps| ==> r.comps[i] == 1.0
  {
    Vector(PlainVector, Ones(Extent(size)))
  }

  lemma {:induction false} SumSquaresOfOnes(n: nat)
    ensures SumSquares(Ones(n)) == n as real
  {
    if n > 0 {
      assert Ones(n)[..n - 1] == Ones(n - 1);
      SumSquaresOfOnes(n - 1);
    }
  }

  /** The all-ones vector of n components has squared magnitude n. */
  lemma OneMagnitude(size: int)
    ensures SumSquares(One(size).comps) == Extent(size) as real
  {
    SumSquaresOfOnes(Extent(size));
  }

  /** `Vector.zero(size)` as written: its body builds ones, so it returns
      the same vector as `one(size)`. */
  function ZeroAsWritten(size: int): (r: Vector)
    ensures r == One(size)
    ensures size > 0 ==> SumSquares(r.comps) > 0.0
  {
    OneMagnitude(size);
    Vector(PlainVector, seq(Extent(size), _ => 1.0))
  }

  /** Adding `Vector.zero(1)` as written changes the vector it is added to. */
  lemma ZeroAsWrittenIsNotNeutral()
    ensures Arith(Plus, Vector(PlainVector, [0.0]), VectorOperand(ZeroAsWritten(1)))
            == Success(Some(Vector(PlainVector, [1.0])))
  {
    var r := Arith(Plus, Vector(PlainVector, [0.0]), VectorOperand(ZeroAsWritten(1)));
    assert r.value.value.comps == [1.0];
  }

  /** `Vector.zero(size)` as its name intends: all components zero. */
  function Zero(size: int): (r: Vector)
    ensures r.cls == PlainVector && |r.comps| == Extent(size)
    ensures forall i :: 0 <= i < |r.comps| ==> r.comps[i] == 0.0
  {
    Vector(PlainVector, seq(Extent(size), _ => 0.0))
  }

  /** The intended zero vector is neutral for `+` on plain vectors. */
  lemma ZeroIsAdditiveIdentity(v: Vector)
    requires v.cls == PlainVector
    ensures Arith(Plus, v, VectorOperand(Zero(|v.comps|))) == Success(Some(v))
  {
    var r := Arith(Plus, v, VectorOperand(Zero(|v.comps|)));
    assert r.value.value.comps == v.comps;
  }
}
