/**
 * The newer physics engine (src/js/physics.ts): the operation tables that
 * pick the gravity, thrust and friction directions, the speed clamp, the
 * position step and the stateful movement step of the `Physics` object.
 *
 * Square roots are inputs: a caller passes the length `n` of a vector `v`
 * together with the fact `IsNorm(n, v)`.
 */
module Physics {
  import Geometry

  /** What the character does during one tick. */
  datatype Operation =
    | SlideLeft | SlideLeftTop | SlideLeftBottom | SlideDown | SlideRightBottom
    | SlideRightTop | SlideRight | MoveLeft | MoveRight | MoveUp | Stand

  /** The directions the engine's tables are keyed by. */
  datatype Heading = Left | LeftTop | LeftBottom | Down | RightBottom | RightTop | Right | Up | None

  /** The gravity, thrust and friction directions of one operation. */
  datatype Directions = Directions(gravity: Heading, thrust: Heading, friction: Heading)

  /** A table lookup with a default for keys the table does not list. */
  function Switching<K, V>(key: K, cases: map<K, V>, default: V): V
  {
    if key in cases then cases[key] else default
  }

  const GravityCases: map<Operation, Heading> := map[
    SlideLeftTop := LeftTop,
    SlideLeftBottom := LeftBottom,
    SlideDown := Down,
    SlideRightBottom := RightBottom,
    SlideRightTop := RightTop]

  const ThrustCases: map<Operation, Heading> := map[
    SlideLeft := Left,
    SlideRight := Right,
    MoveLeft := Left,
    MoveRight := Right,
    MoveUp := Up]

  const FrictionCases: map<Operation, Heading> := map[
    SlideLeft := Right,
    SlideRight := Left,
    MoveLeft := Right,
    MoveRight := Left]

  /**
   * The three table lookups of `getMovement`. No operation gets both
   * gravity and thrust, gravity never points sideways or up, and friction,
   * where there is any, works against the thrust.
   */
  function DirectionsOf(operation: Operation): (r: Directions)
    ensures r.gravity == None || r.thrust == None
    ensures r.gravity in {None, LeftTop, LeftBottom, Down, RightBottom, RightTop}
    ensures r.friction != None ==> r.friction == Opposite(r.thrust)
  {
    Directions(
      Switching(operation, GravityCases, None),
      Switching(operation, ThrustCases, None),
      Switching(operation, FrictionCases, None))
  }

  function Opposite(h: Heading): Heading
  {
    match h
    case Left => Right
    case Right => Left
    case LeftTop => RightBottom
    case RightBottom => LeftTop
    case LeftBottom => RightTop
    case RightTop => LeftBottom
    case Down => Up
    case Up => Down
    case None => None
  }

  /** Friction works against the thrust of every sideways slide or move. */
  lemma FrictionOpposesThrust(operation: Operation)
    requires operation in {SlideLeft, SlideRight, MoveLeft, MoveRight}
    ensures DirectionsOf(operation).thrust in {Left, Right}
    ensures DirectionsOf(operation).friction == Opposite(DirectionsOf(operation).thrust)
  {
  }

  /** Standing, and every operation a table does not list, gets no direction from it. */
  lemma UnlistedOperationsGetNone(operation: Operation)
    ensures DirectionsOf(Stand) == Directions(None, None, None)
    ensures operation !in GravityCases ==> DirectionsOf(operation).gravity == None
    ensures operation !in ThrustCases ==> DirectionsOf(operation).thrust == None
    ensures operation !in FrictionCases ==> DirectionsOf(operation).friction == None
  {
  }

  /**
   * Only the five slope slides feel gravity, only sideways operations feel
   * friction, and moving up gets nothing but upward thrust.
   */
  lemma DirectionsShape(operation: Operation)
    ensures DirectionsOf(operation).gravity != None <==>
      operation in {SlideLeftTop, SlideLeftBottom, SlideDown, SlideRightBottom, SlideRightTop}
    ensures DirectionsOf(operation).friction != None <==>
      operation in {SlideLeft, SlideRight, MoveLeft, MoveRight}
    ensures DirectionsOf(MoveUp) == Directions(None, Up, None)
  {
  }

  const MaxSpeed: real := 500.0
  const MinSpeed: real := 10.0

  function Add(a: Geometry.Coord, b: Geometry.Coord): Geometry.Coord
  {
    Geometry.Coord(a.x + b.x, a.y + b.y)
  }

  /** The squared length of `v`. */
  function NormSq(v: Geometry.Coord): real
  {
    v.x * v.x + v.y * v.y
  }

  /** `n` is the Euclidean length of `v`. */
  predicate IsNorm(n: real, v: Geometry.Coord)
  {
    n >= 0.0 && n * n == NormSq(v)
  }

  /** `r` points the same way as `v`: parallel and with the same signs. */
  predicate SameWay(r: Geometry.Coord, v: Geometry.Coord)
  {
    r.x * v.y == r.y * v.x &&
    (v.x > 0.0 <==> r.x > 0.0) && (v.x < 0.0 <==> r.x < 0.0) &&
    (v.y > 0.0 <==> r.y > 0.0) && (v.y < 0.0 <==> r.y < 0.0)
  }

  lemma MulPositive(x: real, y: real)
    requires x > 0.0 && y > 0.0
    ensures x * y > 0.0
  {
  }

  lemma MulNegative(x: real, y: real)
    requires x > 0.0 && y < 0.0
    ensures x * y < 0.0
  {
  }

  lemma MulNonNegative(x: real, y: real)
    requires x >= 0.0 && y >= 0.0
    ensures x * y >= 0.0
  {
  }

  lemma SquareMonotone(a: real, b: real)
    requires 0.0 <= a <= b
    ensures a * a <= b * b
  {
    MulNonNegative(a, b - a);
    MulNonNegative(b - a, b);
  }

  function Sq(a: real): real { a * a }

  /** A product with a non-zero factor is zero only when the other factor is. */
  lemma ZeroProduct(p: real, y: real)
    requires p * y == 0.0 && y != 0.0
    ensures p == 0.0
  {
    if p > 0.0 && y > 0.0 {
      MulPositive(p, y);
    } else if p > 0.0 {
      MulNegative(p, y);
    } else if p < 0.0 && y > 0.0 {
      MulNegative(y, p);
    } else if p < 0.0 {
      MulPositive(-p, -y);
    }
  }

  lemma SquareNonNegative(a: real)
    ensures Sq(a) >= 0.0
  {
    if a >= 0.0 {
      MulNonNegative(a, a);
    } else {
      MulNonNegative(-a, -a);
      assert (-a) * (-a) == a * a;
    }
  }

  lemma SquarePositive(a: real)
    requires a != 0.0
    ensures Sq(a) > 0.0
  {
    SquareNonNegative(a);
    if Sq(a) == 0.0 {
      ZeroProduct(a, a);
    }
  }

  /** Two non-negative numbers with the same square are equal. */
  lemma EqualSquares(a: real, b: real)
    requires a >= 0.0 && b >= 0.0 && a * a == b * b
    ensures a == b
  {
    assert b * b - a * a == (b - a) * (b + a);
    if a < b {
      MulPositive(b - a, b + a);
    } else if b < a {
      MulPositive(a - b, a + b);
    }
  }

  /** Scaling a vector of length `n` by `k / n` gives a vector of length `k` pointing the same way. */
  lemma ScaledToLength(v: Geometry.Coord, n: real, k: real)
    requires IsNorm(n, v) && n > 0.0 && k > 0.0
    ensures IsNorm(k, Geometry.Coord(k * v.x / n, k * v.y / n))
    ensures SameWay(Geometry.Coord(k * v.x / n, k * v.y / n), v)
  {
    var f := k / n;
    assert f * n == k;
    MulPositive(k, 1.0 / n);
    var r := Geometry.Coord(k * v.x / n, k * v.y / n);
    assert r.x == f * v.x && r.y == f * v.y;
    calc {
      NormSq(r);
      (f * v.x) * (f * v.x) + (f * v.y) * (f * v.y);
      (f * f) * (v.x * v.x + v.y * v.y);
      (f * f) * (n * n);
      (f * n) * (f * n);
      k * k;
    }
    if v.x > 0.0 { MulPositive(f, v.x); } else if v.x < 0.0 { MulNegative(f, v.x); }
    if v.y > 0.0 { MulPositive(f, v.y); } else if v.y < 0.0 { MulNegative(f, v.y); }
    assert r.x * v.y == f * (v.x * v.y) == r.y * v.x;
  }

  /**
   * The next speed (`getSpeed`, which reads the engine's current speed):
   * the current speed plus `acceleration`, cut back to `MaxSpeed` in the
   * same direction when it is faster, and zero when it is slower than
   * `MinSpeed`. `speedAmount` is the length of the sum.
   */
  function GetSpeed(currentSpeed: Geometry.Coord, acceleration: Geometry.Coord, speedAmount: real): (r: Geometry.Coord)
    requires IsNorm(speedAmount, Add(currentSpeed, acceleration))
    ensures speedAmount < MinSpeed ==> r == Geometry.Coord(0.0, 0.0)
    ensures MinSpeed <= speedAmount <= MaxSpeed ==> r == Add(currentSpeed, acceleration)
  {
    var newSpeed := Add(currentSpeed, acceleration);
    var clamped :=
      if speedAmount > MaxSpeed then
        Geometry.Coord((MaxSpeed * newSpeed.x) / speedAmount, (MaxSpeed * newSpeed.y) / speedAmount)
      else newSpeed;
    if speedAmount < MinSpeed then Geometry.Coord(0.0, 0.0) else clamped
  }

  /**
   * Above `MaxSpeed` the next speed has length exactly `MaxSpeed` and
   * points the same way as the unclamped sum; in every case its length is
   * at most `MaxSpeed`.
   */
  lemma SpeedClamp(currentSpeed: Geometry.Coord, acceleration: Geometry.Coord, speedAmount: real)
    requires IsNorm(speedAmount, Add(currentSpeed, acceleration))
    ensures speedAmount > MaxSpeed ==>
      IsNorm(MaxSpeed, GetSpeed(currentSpeed, acceleration, speedAmount)) &&
      SameWay(GetSpeed(currentSpeed, acceleration, speedAmount), Add(currentSpeed, acceleration))
    ensures NormSq(GetSpeed(currentSpeed, acceleration, speedAmount)) <= MaxSpeed * MaxSpeed
  {
    var v := Add(currentSpeed, acceleration);
    if speedAmount > MaxSpeed {
      ScaledToLength(v, speedAmount, MaxSpeed);
    } else if speedAmount >= MinSpeed {
      SquareMonotone(speedAmount, MaxSpeed);
    }
  }

  /** The next position (`getPosition`): displaced from the current one by exactly `speed`. */
  function GetPosition(currentPosition: Geometry.Coord, speed: Geometry.Coord): (r: Geometry.Coord)
    ensures r.x - currentPosition.x == speed.x && r.y - currentPosition.y == speed.y
  {
    Add(currentPosition, speed)
  }

  /** The engine's state, updated in place once per tick. */
  class Physics {
    var currentSpeed: Geometry.Coord
    var currentPosition: Geometry.Coord

    constructor ()
      ensures currentSpeed == Geometry.Coord(0.0, 0.0) && currentPosition == Geometry.Coord(0.0, 0.0)
    {
      currentSpeed := Geometry.Coord(0.0, 0.0);
      currentPosition := Geometry.Coord(0.0, 0.0);
    }

    /**
     * One tick: look up the operation's directions, take the acceleration
     * `accelerationOf` gives for them, store the clamped speed, then move
     * the stored position by that new speed and return it. `speedAmount` is
     * the length of the old speed plus the acceleration.
     */
    method GetMovement(operation: Operation, accelerationOf: Directions -> Geometry.Coord, speedAmount: real)
      returns (position: Geometry.Coord)
      requires IsNorm(speedAmount, Add(currentSpeed, accelerationOf(DirectionsOf(operation))))
      modifies this
      ensures currentSpeed == GetSpeed(old(currentSpeed), accelerationOf(DirectionsOf(operation)), speedAmount)
      ensures currentPosition == Add(old(currentPosition), currentSpeed)
      ensures position == currentPosition
      ensures NormSq(currentSpeed) <= MaxSpeed * MaxSpeed
    {
      var directions := DirectionsOf(operation);
      var acc := accelerationOf(directions);
      SpeedClamp(currentSpeed, acc, speedAmount);
      currentSpeed := GetSpeed(currentSpeed, acc, speedAmount);
      currentPosition := GetPosition(currentPosition, currentSpeed);
      position := currentPosition;
    }
  }

  /**
   * At rest with no acceleration (the sum then has length 0), a tick leaves
   * the speed zero and the position where it was.
   */
  lemma RestIsStable(currentSpeed: Geometry.Coord, acceleration: Geometry.Coord, position: Geometry.Coord)
    requires currentSpeed == Geometry.Coord(0.0, 0.0) && acceleration == currentSpeed
    ensures IsNorm(0.0, Add(currentSpeed, acceleration))
    ensures GetSpeed(currentSpeed, acceleration, 0.0) == Geometry.Coord(0.0, 0.0)
    ensures GetPosition(position, GetSpeed(currentSpeed, acceleration, 0.0)) == position
  {
  }
}
