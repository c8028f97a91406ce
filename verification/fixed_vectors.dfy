/** The fixed-arity vectors of PyMath/vector.py: the `Vector2` constructor
    and its direction constants, and the `Vector3` cross product and linear
    interpolation as formulas on triples of reals.
 */
module FixedVectors {
  import opened Wrappers
  import opened Vectors

  /** The argument list of `Vector2(*args)`. */
  datatype Vector2Args =
    | Components(xs: seq<real>)      // Vector2(x, y, ...): positional numbers
    | FromSequence(s: seq<real>)     // Vector2(seq): one list, tuple or plain Vector
    | FromVector2(x: real, y: real)  // Vector2(v): one Vector2 with fields x and y

  /** `Vector2(*args)`: two numbers, one sequence of length two, or one
      Vector2 build a Vector2; three arguments and a sequence of another
      length raise VectorCreationError; one number fails inside `len()`; no
      argument or more than three leave `x` unset for the final `__init__`. */
  function NewVector2(args: Vector2Args): (r: Result<Vector, VectorError>)
    ensures r.Success? ==> r.value.cls == Vector2Class && |r.value.comps| == 2
    ensures r.Success? <==>
              || (args.Components? && |args.xs| == 2)
              || (args.FromSequence? && |args.s| == 2)
              || args.FromVector2?
    ensures args.Components? && r.Success? ==> r.value.comps == args.xs
    ensures args.FromSequence? && r.Success? ==> r.value.comps == args.s
    ensures args.FromVector2? ==> r == Success(Vector(Vector2Class, [args.x, args.y]))
    ensures r == Failure(VectorCreationError) <==>
              (args.Components? && |args.xs| == 3) || (args.FromSequence? && |args.s| != 2)
    ensures r == Failure(TypeError) <==> args.Components? && |args.xs| == 1
    ensures r == Failure(AttributeError) <==>
              args.Components? && (|args.xs| == 0 || |args.xs| > 3)
  {
    match args
    case Components(xs) =>
      if |xs| == 1 then Failure(TypeError)
      else if |xs| == 2 then Success(Vector(Vector2Class, xs))
      else if |xs| == 3 then Failure(VectorCreationError)
      else Failure(AttributeError)
    case FromSequence(s) =>
      if |s| == 2 then Success(Vector(Vector2Class, s)) else Failure(VectorCreationError)
    case FromVector2(x, y) => Success(Vector(Vector2Class, [x, y]))
  }

  /** The three accepted argument shapes build the same Vector2, and copying
      a Vector2 reproduces it. */
  lemma Vector2FormsAgree(v: Vector)
    requires v.cls == Vector2Class && WellFormed(v)
    ensures NewVector2(Components(v.comps)) == Success(v)
    ensures NewVector2(FromSequence(v.comps)) == Success(v)
    ensures NewVector2(FromVector2(v.comps[0], v.comps[1])) == Success(v)
  {
    assert [v.comps[0], v.comps[1]] == v.comps;
  }

  /** `Vector2.up()`. */
  function Up(): (r: Vector)
    ensures r == Vector(Vector2Class, [0.0, -1.0])
  {
    NewVector2(Components([0.0, -1.0])).value
  }

  /** `Vector2.down()`, the negation of `up`. */
  function Down(): (r: Vector)
    ensures r == Vector(Vector2Class, [0.0, 1.0])
  {
    Negate(Up())
  }

  /** `Vector2.left()`. */
  function Left(): (r: Vector)
    ensures r == Vector(Vector2Class, [-1.0, 0.0])
  {
    NewVector2(Components([-1.0, 0.0])).value
  }

  /** `Vector2.right()`, the negation of `left`. */
  function Right(): (r: Vector)
    ensures r == Vector(Vector2Class, [1.0, 0.0])
  {
    Negate(Left())
  }

  /** `Vector2.one()`. */
  function OneVector2(): (r: Vector)
    ensures r == Vector(Vector2Class, [1.0, 1.0])
  {
    NewVector2(Components([1.0, 1.0])).value
  }

  /** `Vector2.zero()`. */
  function ZeroVector2(): (r: Vector)
    ensures r == Vector(Vector2Class, [0.0, 0.0])
  {
    NewVector2(Components([0.0, 0.0])).value
  }

  /** Opposite directions cancel, and the four directions are unit vectors. */
  lemma DirectionsCancel()
    ensures Arith(Plus, Up(), VectorOperand(Down())) == Success(Some(ZeroVector2()))
    ensures Arith(Plus, Left(), VectorOperand(Right())) == Success(Some(ZeroVector2()))
    ensures SumSquares(Up().comps) == 1.0 && SumSquares(Down().comps) == 1.0
    ensures SumSquares(Left().comps) == 1.0 && SumSquares(Right().comps) == 1.0
  {
    var ud := Arith(Plus, Up(), VectorOperand(Down())).value.value;
    assert ud.comps == [0.0, 0.0];
    var lr := Arith(Plus, Left(), VectorOperand(Right())).value.value;
    assert lr.comps == [0.0, 0.0];
    assert [0.0, -1.0][..1] == [0.0];
    assert [0.0, 1.0][..1] == [0.0];
    assert [-1.0, 0.0][..1] == [-1.0];
    assert [1.0, 0.0][..1] == [1.0];
  }

  /** The x, y, z components of a Vector3. */
  datatype Triple = Triple(x: real, y: real, z: real)

  function TripleDot(a: Triple, b: Triple): real {
    a.x * b.x + a.y * b.y + a.z * b.z
  }

  function TripleNegate(a: Triple): Triple {
    Triple(-a.x, -a.y, -a.z)
  }

  /** The scalar triple product: the determinant of the rows a, b, c. */
  function Det(a: Triple, b: Triple, c: Triple): real {
    a.x * (b.y * c.z - b.z * c.y) - a.y * (b.x * c.z - b.z * c.x) + a.z * (b.x * c.y - b.y * c.x)
  }

  /** `Vector3.cross` as written: its y component is `x1*z2 - z1*x2`, the
      negation of the right-hand cross product's. */
  function CrossAsWritten(a: Triple, b: Triple): (r: Triple)
    ensures r.x == Cross(a, b).x && r.y == -Cross(a, b).y && r.z == Cross(a, b).z
  {
    Triple(a.y * b.z - a.z * b.y, a.x * b.z - a.z * b.x, a.x * b.y - a.y * b.x)
  }

  /** A vector crossed with itself is zero. */
  lemma CrossAsWrittenSelfIsZero(a: Triple)
    ensures CrossAsWritten(a, a) == Triple(0.0, 0.0, 0.0)
  {
  }

  /** Swapping the operands negates the result. */
  lemma CrossAsWrittenAnticommutes(a: Triple, b: Triple)
    ensures CrossAsWritten(a, b) == TripleNegate(CrossAsWritten(b, a))
  {
  }

  /** The formula as written is not perpendicular to its operands:
      (1,1,0) x (0,0,1) gives (1,1,0), whose dot product with (1,1,0) is 2. */
  lemma CrossAsWrittenNotPerpendicular(a: Triple, b: Triple)
    requires a == Triple(1.0, 1.0, 0.0) && b == Triple(0.0, 0.0, 1.0)
    ensures CrossAsWritten(a, b) == a
    ensures TripleDot(CrossAsWritten(a, b), a) == 2.0
  {
  }

  /** The right-hand cross product the docstring describes: the vector whose
      dot product with every c is the determinant of a, b, c. */
  function Cross(a: Triple, b: Triple): (r: Triple)
    ensures forall c :: TripleDot(r, c) == Det(a, b, c)
  {
    Triple(a.y * b.z - a.z * b.y, a.z * b.x - a.x * b.z, a.x * b.y - a.y * b.x)
  }

  /** The right-hand cross product is perpendicular to both operands. */
  lemma CrossIsPerpendicular(a: Triple, b: Triple)
    ensures TripleDot(Cross(a, b), a) == 0.0
    ensures TripleDot(Cross(a, b), b) == 0.0
  {
  }

  /** `max(min(percent, 1), 0)`. */
  function ClampPercent(p: real): (t: real)
    ensures 0.0 <= t <= 1.0
    ensures 0.0 <= p <= 1.0 ==> t == p
    ensures p < 0.0 ==> t == 0.0
    ensures p > 1.0 ==> t == 1.0
  {
    var low := if p < 1.0 then p else 1.0;
    if low > 0.0 then low else 0.0
  }

  function LerpComponent(a: real, b: real, t: real): real {
    a + (b - a) * t
  }

  /** `Vector3.lerp`: `self + (other - self) * percent` with the percent
      clamped into [0, 1]. */
  function Lerp(a: Triple, b: Triple, p: real): (r: Triple)
    ensures p <= 0.0 ==> r == a
    ensures p >= 1.0 ==> r == b
    ensures 0.0 <= p <= 1.0 ==>
              r == Triple(a.x + (b.x - a.x) * p, a.y + (b.y - a.y) * p, a.z + (b.z - a.z) * p)
  {
    var t := ClampPercent(p);
    Triple(LerpComponent(a.x, b.x, t), LerpComponent(a.y, b.y, t), LerpComponent(a.z, b.z, t))
  }

  predicate Between(v: real, a: real, b: real) {
    (a <= v <= b) || (b <= v <= a)
  }

  lemma LerpComponentBetween(a: real, b: real, t: real)
    requires 0.0 <= t <= 1.0
    ensures Between(LerpComponent(a, b, t), a, b)
  {
    var d := b - a;
    var dt := d * t;
    if d >= 0.0 {
      assert 0.0 <= dt <= d;
    } else {
      assert d <= dt <= 0.0;
    }
  }

  /** Every component of an interpolation lies between the endpoints'. */
  lemma LerpStaysBetween(a: Triple, b: Triple, p: real)
    ensures Between(Lerp(a, b, p).x, a.x, b.x)
    ensures Between(Lerp(a, b, p).y, a.y, b.y)
    ensures Between(Lerp(a, b, p).z, a.z, b.z)
  {
    var t := ClampPercent(p);
    LerpComponentBetween(a.x, b.x, t);
    LerpComponentBetween(a.y, b.y, t);
    LerpComponentBetween(a.z, b.z, t);
  }
}
