/**
 * The physical model of the prototype (src/js/bee.js, `PhysicalModel`):
 * how sliding gates the acceleration, the speed clamp, which walls the bee
 * collides with or slides on, how a collision reflects the speed, and one
 * movement step with its commit rule.
 *
 * Coordinates follow the canvas: y grows downwards. The acceleration
 * vector built from the pressed keys and gravity (`accX`, `accY`) has y
 * pointing upwards and is an input of the model, since it is a sum of sines
 * and cosines. Square roots are inputs too: a norm `n` of `v` is given
 * together with the fact `Physics.IsNorm(n, v)`.
 */
module BeePhysics {
  import opened Wrappers
  import opened Geometry
  import opened BeeTrack
  import opened BeeInteraction
  import BeeUtil
  import Physics

  const MaxSpeed: real := 6.0
  const MinSpeed: real := 0.09
  const UpwardThrust: real := 0.25
  const SidewardThrust: real := 0.2
  const Friction: real := 0.1
  const Conservation: real := 0.5
  const GravityAcceleration: real := 0.15

  /** The string the prototype stores for a side in its `sliding` and collision arrays. */
  function Name(d: Direction): (s: string)
    ensures |s| != 2
  {
    match d
    case Top => "top"
    case Bottom => "bottom"
    case Left => "left"
    case Right => "right"
  }

  /**
   * The end of `getAcceleration`: on a bottom wall, friction against the
   * horizontal speed when that speed is not negligible; then each wall slid
   * on cancels the acceleration component pushing into it.
   */
  function GateAcceleration(acc: Coord, sliding: seq<Direction>, speedX: real): (r: Coord)
    ensures Left in sliding ==> r.x >= 0.0
    ensures Right in sliding ==> r.x <= 0.0
    ensures Top in sliding ==> r.y <= 0.0
    ensures Bottom in sliding ==> r.y >= 0.0
    ensures Top !in sliding && Bottom !in sliding ==> r.y == acc.y
    ensures Bottom !in sliding && Left !in sliding && Right !in sliding ==> r.x == acc.x
    ensures Bottom in sliding && Abs(speedX) > MinSpeed && Left !in sliding && Right !in sliding ==>
              r.x == acc.x + (if speedX > 0.0 then -Friction else Friction)
    ensures Bottom in sliding && Abs(speedX) <= MinSpeed && Left !in sliding && Right !in sliding ==> r.x == acc.x
    ensures r.x == 0.0 || r.x == acc.x || r.x == acc.x - Friction || r.x == acc.x + Friction
    ensures r.y == 0.0 || r.y == acc.y
  {
    var accX := if BeeUtil.InArray(Bottom, sliding) && Abs(speedX) > MinSpeed
                then acc.x + (if speedX > 0.0 then -Friction else Friction)
                else acc.x;
    var accY := acc.y;
    var accY := if BeeUtil.InArray(Top, sliding) && accY > 0.0 then 0.0 else accY;
    var accY := if BeeUtil.InArray(Bottom, sliding) && accY < 0.0 then 0.0 else accY;
    var accX := if BeeUtil.InArray(Left, sliding) && accX < 0.0 then 0.0 else accX;
    var accX := if BeeUtil.InArray(Right, sliding) && accX > 0.0 then 0.0 else accX;
    Coord(accX, accY)
  }

  /** The acceleration along `x` after friction on a bottom wall, before any wall cancels it. */
  function FrictionX(acc: Coord, sliding: seq<Direction>, speedX: real): real
  {
    if Bottom in sliding && Abs(speedX) > MinSpeed
    then acc.x + (if speedX > 0.0 then -Friction else Friction)
    else acc.x
  }

  /**
   * The gating exactly: a component comes out zero precisely when it was
   * zero or pushes into a wall the bee slides on, and is kept otherwise;
   * along `x` this applies to the friction-adjusted value.
   */
  lemma GateAccelerationExact(acc: Coord, sliding: seq<Direction>, speedX: real)
    ensures var r := GateAcceleration(acc, sliding, speedX);
            (r.y != 0.0 ==> r.y == acc.y) &&
            (r.y == 0.0 <==> acc.y == 0.0 || (Top in sliding && acc.y > 0.0) || (Bottom in sliding && acc.y < 0.0))
    ensures var r := GateAcceleration(acc, sliding, speedX);
            var fx := FrictionX(acc, sliding, speedX);
            (r.x != 0.0 ==> r.x == fx) &&
            (r.x == 0.0 <==> fx == 0.0 || (Left in sliding && fx < 0.0) || (Right in sliding && fx > 0.0))
  {
  }

  /**
   * The change of speed the gated acceleration makes. `getAcceleration`
   * turns `(accX, accY)` into a magnitude and an angle and `accelerateImage`
   * turns them back with `sin` and `cos`; in exact arithmetic that gives
   * `accX` across and `accY` upwards, that is `-accY` on the canvas.
   */
  function Delta(acc: Coord): Coord
  {
    Coord(acc.x, -acc.y)
  }

  /**
   * `sinA` and `cosA` are the sine and cosine of the direction
   * `getAcceleration` picks for `acc`: 0 for no acceleration, a right angle
   * either way when `accY` is zero, `atan(accX / accY)` (a cosine above
   * zero) when `accY` is positive and that plus pi (a cosine below zero)
   * when it is negative. `atan` itself is not computed: the tangent of the
   * angle is `accX / accY`, and sine and cosine are on the unit circle.
   */
  predicate IsDirectionOf(acc: Coord, sinA: real, cosA: real)
  {
    if acc.y == 0.0 then
      if acc.x == 0.0 then sinA == 0.0 && cosA == 1.0
      else cosA == 0.0 && sinA == (if acc.x > 0.0 then 1.0 else -1.0)
    else
      sinA * sinA + cosA * cosA == 1.0 && sinA * acc.y == acc.x * cosA &&
      (if acc.y >= 0.0 then cosA > 0.0 else cosA < 0.0)
  }

  /**
   * In exact arithmetic the magnitude and direction `getAcceleration`
   * returns, applied by `accelerateImage` as `acceleration * sin(angle)`
   * across and `-acceleration * cos(angle)` down the canvas, change the
   * speed by exactly `Delta(acc)`.
   */
  lemma DeltaRoundTrip(acc: Coord, m: real, sinA: real, cosA: real)
    requires Physics.IsNorm(m, acc) && IsDirectionOf(acc, sinA, cosA)
    ensures Coord(m * sinA, -(m * cosA)) == Delta(acc)
  {
    if acc.y == 0.0 {
      assert m * m == acc.x * acc.x;
      OnAxis(acc.x, m, sinA, cosA);
    } else {
      ComponentsFromAngle(acc.x, acc.y, m, sinA, cosA);
    }
  }

  /** The length of a vector along one axis is the size of its component. */
  lemma NormOnAxis(x: real, m: real)
    requires m >= 0.0 && m * m == x * x
    ensures m == Abs(x)
  {
    if x >= 0.0 {
      Physics.EqualSquares(m, x);
    } else {
      assert (-x) * (-x) == x * x;
      Physics.EqualSquares(m, -x);
    }
  }

  /** The step of `DeltaRoundTrip` along the horizontal: a right angle, or none, gives back `x` and no `y`. */
  lemma OnAxis(x: real, m: real, s: real, c: real)
    requires m >= 0.0 && m * m == x * x
    requires x == 0.0 ==> s == 0.0
    requires x != 0.0 ==> c == 0.0
    requires x > 0.0 ==> s == 1.0
    requires x < 0.0 ==> s == -1.0
    ensures m * s == x && m * c == 0.0
  {
    NormOnAxis(x, m);
  }

  /** The step of `DeltaRoundTrip` off the horizontal: the norm times the cosine and sine gives back `y` and `x`. */
  lemma ComponentsFromAngle(x: real, y: real, m: real, s: real, c: real)
    requires m >= 0.0 && m * m == x * x + y * y
    requires s * s + c * c == 1.0 && s * y == x * c
    requires y > 0.0 ==> c > 0.0
    requires y < 0.0 ==> c < 0.0
    requires y != 0.0
    ensures m * c == y && m * s == x
  {
    CosineTimesNormSquared(x, y, m, s, c);
    if y > 0.0 {
      Physics.MulNonNegative(c, m);
      Physics.EqualSquares(c * m, y);
    } else {
      Physics.MulNonNegative(-c, m);
      assert (-(c * m)) * (-(c * m)) == (c * m) * (c * m);
      Physics.EqualSquares(-(c * m), -y);
    }
    calc {
      (m * s - x) * y;
      m * (s * y) - x * y;
      m * (x * c) - x * y;
      x * (c * m) - x * y;
      0.0;
    }
    Physics.ZeroProduct(m * s - x, y);
  }

  lemma CosineTimesNormSquared(x: real, y: real, m: real, s: real, c: real)
    requires m * m == x * x + y * y
    requires s * s + c * c == 1.0 && s * y == x * c
    ensures (c * m) * (c * m) == y * y
  {
    calc {
      (c * m) * (c * m);
      (c * c) * (m * m);
      (c * c) * (x * x) + (c * c) * (y * y);
      { assert (c * c) * (x * x) == (x * c) * (x * c) == (s * y) * (s * y); }
      (s * y) * (s * y) + (c * c) * (y * y);
      (s * s + c * c) * (y * y);
      y * y;
    }
  }

  /** A speed component below `MinSpeed` in size counts as zero. */
  function ZeroSmall(speed: Coord): (r: Coord)
    ensures Abs(speed.x) < MinSpeed ==> r.x == 0.0
    ensures Abs(speed.x) >= MinSpeed ==> r.x == speed.x
    ensures Abs(speed.y) < MinSpeed ==> r.y == 0.0
    ensures Abs(speed.y) >= MinSpeed ==> r.y == speed.y
  {
    Coord(if Abs(speed.x) < MinSpeed then 0.0 else speed.x,
          if Abs(speed.y) < MinSpeed then 0.0 else speed.y)
  }

  /**
   * The speed clamp of `accelerateImage` as written: `n1` is the norm of
   * `s`, and once `x` has been rescaled, `n2` is the norm of the half-scaled
   * vector `(x', s.y)`, which then rescales `y`.
   */
  function ClampAsWritten(s: Coord, n1: real, n2: real): (r: Coord)
    requires Physics.IsNorm(n1, s)
    requires n1 > MaxSpeed ==> n2 > 0.0 && Physics.IsNorm(n2, Coord(MaxSpeed * s.x / n1, s.y))
    ensures n1 <= MaxSpeed ==> r == s
    ensures r.x == Clamp(s, n1).x
  {
    if n1 > MaxSpeed then Coord(MaxSpeed * s.x / n1, MaxSpeed * s.y / n2) else s
  }

  /**
   * The clamp as written lets the speed exceed `MaxSpeed`: from speed
   * (12, 5), norm 13, `x` becomes 72/13, the norm of (72/13, 5) is 97/13
   * and `y` becomes 390/97, so the squared norm is about 46.8 > 36.
   */
  lemma ClampAsWrittenOvershoots()
    ensures Physics.IsNorm(13.0, Coord(12.0, 5.0))
    ensures Physics.IsNorm(97.0 / 13.0, Coord(MaxSpeed * 12.0 / 13.0, 5.0))
    ensures Physics.NormSq(ClampAsWritten(Coord(12.0, 5.0), 13.0, 97.0 / 13.0)) > MaxSpeed * MaxSpeed
  {
    assert ClampAsWritten(Coord(12.0, 5.0), 13.0, 97.0 / 13.0) == Coord(72.0 / 13.0, 390.0 / 97.0);
  }

  /**
   * The overshoot is not a corner case: whenever the clamp fires on a
   * speed with both components non-zero, the clamped speed is longer than
   * `MaxSpeed`. Only speeds along an axis come out as intended.
   */
  lemma ClampAsWrittenOvershootsAlways(s: Coord, n1: real, n2: real)
    requires Physics.IsNorm(n1, s) && n1 > MaxSpeed
    requires n2 > 0.0 && Physics.IsNorm(n2, Coord(MaxSpeed * s.x / n1, s.y))
    ensures s.x != 0.0 && s.y != 0.0 ==> Physics.NormSq(ClampAsWritten(s, n1, n2)) > MaxSpeed * MaxSpeed
    ensures s.x == 0.0 || s.y == 0.0 ==> ClampAsWritten(s, n1, n2) == Clamp(s, n1)
  {
    if s.x != 0.0 && s.y != 0.0 {
      OvershootOffAxis(s, n1, n2);
    } else if s.x == 0.0 {
      assert n2 * n2 == n1 * n1;
      Physics.EqualSquares(n2, n1);
    }
  }

  lemma OvershootOffAxis(s: Coord, n1: real, n2: real)
    requires Physics.IsNorm(n1, s) && n1 > MaxSpeed
    requires n2 > 0.0 && Physics.IsNorm(n2, Coord(MaxSpeed * s.x / n1, s.y))
    requires s.x != 0.0 && s.y != 0.0
    ensures Physics.NormSq(ClampAsWritten(s, n1, n2)) > MaxSpeed * MaxSpeed
  {
    var k := MaxSpeed / n1;
    var j := MaxSpeed / n2;
    ScaleByQuotient(MaxSpeed, s.x, n1);
    ScaleByQuotient(MaxSpeed, s.y, n2);
    FractionBelowOne(MaxSpeed, n1, k);
    Physics.SquarePositive(s.x);
    Physics.SquarePositive(s.y);
    HalfScaledShorter(s, n1, n2, k);
    LargerFraction(MaxSpeed, n2, n1, j, k);
    LongerAfterRescale(s, n1, k, j);
  }

  /** Multiplying by `a` and dividing by `n` is scaling by the quotient `a / n`. */
  lemma ScaleByQuotient(a: real, x: real, n: real)
    requires n > 0.0
    ensures a * x / n == (a / n) * x && (a / n) * n == a
  {
  }

  /** `k = a / n` with `0 < a < n` lies strictly between 0 and 1. */
  lemma FractionBelowOne(a: real, n: real, k: real)
    requires 0.0 < a < n && k * n == a
    ensures 0.0 < k < 1.0
  {
    if k <= 0.0 {
      Physics.MulNonNegative(-k, n);
    } else if k >= 1.0 {
      Physics.MulNonNegative(k - 1.0, n);
    }
  }

  /** Scaling by a factor strictly between 0 and 1 shrinks a non-zero square. */
  lemma ShrunkSquare(k: real, a: real)
    requires 0.0 < k < 1.0 && Physics.Sq(a) > 0.0
    ensures Physics.Sq(k * a) < Physics.Sq(a)
  {
    Physics.MulPositive(k, 1.0 - k);
    Physics.MulPositive(1.0 - k * k, Physics.Sq(a));
    assert Physics.Sq(k * a) == (k * k) * Physics.Sq(a);
  }

  /** Shrinking a non-zero `x` leaves a shorter vector. */
  lemma HalfScaledShorter(s: Coord, n1: real, n2: real, k: real)
    requires Physics.IsNorm(n1, s) && Physics.IsNorm(n2, Coord(k * s.x, s.y))
    requires 0.0 < k < 1.0 && Physics.Sq(s.x) > 0.0
    ensures n2 < n1
  {
    ShrunkSquare(k, s.x);
    assert Physics.Sq(n2) == Physics.Sq(k * s.x) + Physics.Sq(s.y);
    assert Physics.Sq(n1) == Physics.Sq(s.x) + Physics.Sq(s.y);
    SmallerSquareSmaller(n2, n1);
  }

  /** Of two non-negative numbers, the one with the smaller square is the smaller. */
  lemma SmallerSquareSmaller(a: real, b: real)
    requires a >= 0.0 && b >= 0.0 && Physics.Sq(a) < Physics.Sq(b)
    ensures a < b
  {
    if b <= a {
      Physics.SquareMonotone(b, a);
    }
  }

  /** Dividing by the smaller of two positive numbers gives the larger fraction. */
  lemma LargerFraction(a: real, small: real, large: real, j: real, k: real)
    requires a > 0.0 && 0.0 < small < large
    requires j * small == a && k * large == a
    requires k > 0.0
    ensures j > k
  {
    Physics.MulPositive(k, large - small);
    if j <= k {
      Physics.MulNonNegative(k - j, small);
    }
  }

  /** With `x` scaled by `k` and `y` by a larger `j`, the length exceeds `k` times the original length. */
  lemma LongerAfterRescale(s: Coord, n1: real, k: real, j: real)
    requires Physics.IsNorm(n1, s) && k * n1 == MaxSpeed
    requires 0.0 < k < j && Physics.Sq(s.y) > 0.0
    ensures Physics.NormSq(Coord(k * s.x, j * s.y)) > MaxSpeed * MaxSpeed
  {
    Physics.MulPositive(j - k, j + k);
    assert j * j - k * k == (j - k) * (j + k);
    Physics.MulPositive(j * j - k * k, Physics.Sq(s.y));
    calc {
      Physics.NormSq(Coord(k * s.x, j * s.y));
      (k * k) * Physics.Sq(s.x) + (j * j) * Physics.Sq(s.y);
    >
      (k * k) * Physics.Sq(s.x) + (k * k) * Physics.Sq(s.y);
      (k * k) * (n1 * n1);
      (k * n1) * (k * n1);
    }
  }

  /** The evidently intended clamp: both components scaled by `MaxSpeed / n`. */
  function Clamp(s: Coord, n: real): (r: Coord)
    requires Physics.IsNorm(n, s)
    ensures n <= MaxSpeed ==> r == s
  {
    if n > MaxSpeed then Coord(MaxSpeed * s.x / n, MaxSpeed * s.y / n) else s
  }

  /** The intended clamp never leaves a speed above `MaxSpeed`, and keeps the direction when it rescales. */
  lemma ClampBounded(s: Coord, n: real)
    requires Physics.IsNorm(n, s)
    ensures Physics.NormSq(Clamp(s, n)) <= MaxSpeed * MaxSpeed
    ensures n > MaxSpeed ==> Physics.IsNorm(MaxSpeed, Clamp(s, n)) && Physics.SameWay(Clamp(s, n), s)
  {
    if n > MaxSpeed {
      Physics.ScaledToLength(s, n, MaxSpeed);
    } else {
      Physics.SquareMonotone(n, MaxSpeed);
    }
  }

  /** The position in which `getCollision` and `getSliding` list the sides: top, bottom, left, right. */
  function ListOrder(d: Direction): nat
  {
    match d
    case Top => 0
    case Bottom => 1
    case Left => 2
    case Right => 3
  }

  /** The sides appear in list order, each at most once. */
  predicate InListOrder(sides: seq<Direction>)
  {
    forall i, j :: 0 <= i < j < |sides| ==> ListOrder(sides[i]) < ListOrder(sides[j])
  }

  /** `list.push(d)` when `flag` holds. */
  function Push(list: seq<Direction>, flag: bool, d: Direction): seq<Direction>
  {
    if flag then list + [d] else list
  }

  /** The sides whose flag is set, pushed in list order: the array `getCollision` and `getSliding` build. */
  function Listed(top: bool, bottom: bool, left: bool, right: bool): (r: seq<Direction>)
    ensures (Top in r <==> top) && (Bottom in r <==> bottom) && (Left in r <==> left) && (Right in r <==> right)
    ensures InListOrder(r) && |r| <= 4
  {
    Push(Push(Push(Push([], top, Top), bottom, Bottom), left, Left), right, Right)
  }

  /**
   * The collision list from the four `isOutsideOf` answers, asked in list
   * order: the first throw ends it; otherwise it lists each side crossed
   * while moving towards it (a zero speed counts as moving towards bottom
   * and right). The speed guards make top and bottom, and left and right,
   * exclusive, so at most two sides are listed.
   */
  function CollisionList(top: Result<bool, Error>, bottom: Result<bool, Error>, left: Result<bool, Error>,
                         right: Result<bool, Error>, speed: Coord): (r: Result<seq<Direction>, Error>)
    ensures r.Err? <==> top.Err? || bottom.Err? || left.Err? || right.Err?
    ensures r.Ok? ==> (Top in r.value <==> top == Ok(true) && speed.y < 0.0) &&
                      (Bottom in r.value <==> bottom == Ok(true) && speed.y >= 0.0) &&
                      (Left in r.value <==> left == Ok(true) && speed.x < 0.0) &&
                      (Right in r.value <==> right == Ok(true) && speed.x >= 0.0)
    ensures r.Ok? ==> InListOrder(r.value) && |r.value| <= 2
    ensures r.Ok? ==> !(Top in r.value && Bottom in r.value) && !(Left in r.value && Right in r.value)
  {
    if top.Err? then Err(top.error)
    else if bottom.Err? then Err(bottom.error)
    else if left.Err? then Err(left.error)
    else if right.Err? then Err(right.error)
    else Ok(Listed(top.value && speed.y < 0.0, bottom.value && speed.y >= 0.0,
                   left.value && speed.x < 0.0, right.value && speed.x >= 0.0))
  }

  /** The collision list of the bee at `pos`, each side asked without tolerance. */
  function Collisions(t: TrackObjects, env: Envelope, pos: Coord, speed: Coord): Result<seq<Direction>, Error>
  {
    CollisionList(IsOutsideOf(t, env, Side(Top), pos, 0.0), IsOutsideOf(t, env, Side(Bottom), pos, 0.0),
                  IsOutsideOf(t, env, Side(Left), pos, 0.0), IsOutsideOf(t, env, Side(Right), pos, 0.0), speed)
  }

  /**
   * The walls the bee slides on at `pos`, in list order: each side touched
   * within one pixel while the speed across it is below `MinSpeed`.
   */
  function SlidingSides(t: TrackObjects, env: Envelope, pos: Coord, speed: Coord): seq<Direction>
  {
    Listed(IsTouchedOf(t, env, Side(Top), pos, 1.0) && Abs(speed.y) < MinSpeed,
           IsTouchedOf(t, env, Side(Bottom), pos, 1.0) && Abs(speed.y) < MinSpeed,
           IsTouchedOf(t, env, Side(Left), pos, 1.0) && Abs(speed.x) < MinSpeed,
           IsTouchedOf(t, env, Side(Right), pos, 1.0) && Abs(speed.x) < MinSpeed)
  }

  /**
   * The collision response of `setMovementImage`. One collision reflects
   * the component across that wall and scales it by `Conservation`; two
   * reflect both components. After a single collision the list is replaced
   * by that side's name and its length is tested against 2, which no name
   * has, so a single collision is never reflected twice.
   */
  function Respond(collision: seq<Direction>, speed: Coord): (r: Coord)
    ensures |collision| == 0 || |collision| > 2 ==> r == speed
    ensures |collision| == 1 && (collision[0] == Top || collision[0] == Bottom) ==>
              r == Coord(speed.x, -(speed.y * Conservation))
    ensures |collision| == 1 && (collision[0] == Left || collision[0] == Right) ==>
              r == Coord(-(speed.x * Conservation), speed.y)
    ensures |collision| == 2 ==> r == Coord(-(speed.x * Conservation), -(speed.y * Conservation))
  {
    var single := if |collision| == 1 then
                    (if collision[0] == Top || collision[0] == Bottom then Coord(speed.x, -(speed.y * Conservation))
                     else Coord(-(speed.x * Conservation), speed.y))
                  else speed;
    var length := if |collision| == 1 then |Name(collision[0])| else |collision|;
    if length == 2 then Coord(-(single.x * Conservation), -(single.y * Conservation)) else single
  }

  /** A collision response never speeds a component up. */
  lemma RespondDamps(collision: seq<Direction>, speed: Coord)
    ensures Abs(Respond(collision, speed).x) <= Abs(speed.x)
    ensures Abs(Respond(collision, speed).y) <= Abs(speed.y)
    ensures Physics.NormSq(Respond(collision, speed)) <= Physics.NormSq(speed)
  {
    var r := Respond(collision, speed);
    Physics.SquareMonotone(Abs(r.x), Abs(speed.x));
    Physics.SquareMonotone(Abs(r.y), Abs(speed.y));
  }

  /** The bee's moving state (the prototype's `Current`): centre position and speed per tick. */
  class BeeState {
    var pos: Coord
    var speed: Coord

    constructor (pos: Coord, speed: Coord)
      ensures this.pos == pos && this.speed == speed
    {
      this.pos := pos;
      this.speed := speed;
    }
  }

  /** The physical model; its state is the list of walls the bee slid on at the last step. */
  class PhysicalModel {
    var sliding: seq<Direction>

    constructor ()
      ensures sliding == []
    {
      sliding := [];
    }

    /**
     * `getCollision`: asks each side in list order and pushes the ones
     * crossed while moving towards them; a throwing test ends it.
     */
    method GetCollision(cur: BeeState, t: TrackObjects, env: Envelope, pos: Coord) returns (coll: Result<seq<Direction>, Error>)
      ensures coll == Collisions(t, env, pos, cur.speed)
    {
      var c: seq<Direction> := [];
      var top := IsOutsideOf(t, env, Side(Top), pos, 0.0);
      if top.Err? {
        return Err(top.error);
      }
      var topHit := top.value && cur.speed.y < 0.0;
      if topHit {
        c := c + [Top];
      }
      assert c == Push([], topHit, Top);
      var bottom := IsOutsideOf(t, env, Side(Bottom), pos, 0.0);
      if bottom.Err? {
        return Err(bottom.error);
      }
      var bottomHit := bottom.value && cur.speed.y >= 0.0;
      if bottomHit {
        c := c + [Bottom];
      }
      assert c == Push(Push([], topHit, Top), bottomHit, Bottom);
      var left := IsOutsideOf(t, env, Side(Left), pos, 0.0);
      if left.Err? {
        return Err(left.error);
      }
      var leftHit := left.value && cur.speed.x < 0.0;
      if leftHit {
        c := c + [Left];
      }
      assert c == Push(Push(Push([], topHit, Top), bottomHit, Bottom), leftHit, Left);
      var right := IsOutsideOf(t, env, Side(Right), pos, 0.0);
      if right.Err? {
        return Err(right.error);
      }
      var rightHit := right.value && cur.speed.x >= 0.0;
      if rightHit {
        c := c + [Right];
      }
      assert c == Listed(topHit, bottomHit, leftHit, rightHit);
      return Ok(c);
    }

    /** `getSliding`: pushes, in list order, each side touched within one pixel while barely moving across it. */
    method GetSliding(cur: BeeState, t: TrackObjects, env: Envelope, pos: Coord) returns (slides: seq<Direction>)
      ensures slides == SlidingSides(t, env, pos, cur.speed)
    {
      var diff := 1.0;
      var top := IsTouchedOf(t, env, Side(Top), pos, diff) && Abs(cur.speed.y) < MinSpeed;
      var bottom := IsTouchedOf(t, env, Side(Bottom), pos, diff) && Abs(cur.speed.y) < MinSpeed;
      var left := IsTouchedOf(t, env, Side(Left), pos, diff) && Abs(cur.speed.x) < MinSpeed;
      var right := IsTouchedOf(t, env, Side(Right), pos, diff) && Abs(cur.speed.x) < MinSpeed;
      slides := [];
      if top {
        slides := slides + [Top];
      }
      assert slides == Push([], top, Top);
      if bottom {
        slides := slides + [Bottom];
      }
      assert slides == Push(Push([], top, Top), bottom, Bottom);
      if left {
        slides := slides + [Left];
      }
      assert slides == Push(Push(Push([], top, Top), bottom, Bottom), left, Left);
      if right {
        slides := slides + [Right];
      }
      assert slides == Listed(top, bottom, left, right);
    }

    /**
     * `accelerateImage` with the intended clamp: adds `delta` to the speed,
     * rescales it to `MaxSpeed` when its norm `n` is larger, and returns the
     * position one tick ahead.
     */
    method AccelerateImage(cur: BeeState, delta: Coord, n: real) returns (newPos: Coord)
      requires Physics.IsNorm(n, Physics.Add(cur.speed, delta))
      modifies cur
      ensures cur.speed == Clamp(Physics.Add(old(cur.speed), delta), n)
      ensures cur.pos == old(cur.pos)
      ensures newPos == Physics.Add(cur.pos, cur.speed)
      ensures Physics.NormSq(cur.speed) <= MaxSpeed * MaxSpeed
    {
      cur.speed := Physics.Add(cur.speed, delta);
      ClampBounded(cur.speed, n);
      if n > MaxSpeed {
        cur.speed := Coord(MaxSpeed * cur.speed.x / n, MaxSpeed * cur.speed.y / n);
      }
      newPos := Physics.Add(cur.pos, cur.speed);
    }

    /**
     * One tick of `setMovementImage`: gate the acceleration, zero negligible
     * speed components, accelerate, find the collisions and the walls slid
     * on at the new position, reflect the speed, and move the bee only when
     * the new position is not outside any wall by more than one pixel. When
     * a collision test throws, the tick ends there with the speed already
     * changed; when the final test throws, only the move is skipped.
     */
    method SetMovementImage(cur: BeeState, t: TrackObjects, env: Envelope, raw: Coord, n: real) returns (ok: bool)
      requires Physics.IsNorm(n, Physics.Add(ZeroSmall(cur.speed), Delta(GateAcceleration(raw, sliding, cur.speed.x))))
      modifies this, cur
      ensures var s1 := Clamp(Physics.Add(ZeroSmall(old(cur.speed)), Delta(GateAcceleration(raw, old(sliding), old(cur.speed).x))), n);
              var newPos := Physics.Add(old(cur.pos), s1);
              var coll := Collisions(t, env, newPos, s1);
              (coll.Err? ==> !ok && cur.speed == s1 && sliding == old(sliding) && cur.pos == old(cur.pos)) &&
              (coll.Ok? ==>
                 sliding == SlidingSides(t, env, newPos, s1) &&
                 cur.speed == Respond(coll.value, s1) &&
                 (ok <==> IsOutsideOf(t, env, Any, newPos, 1.0).Ok?) &&
                 cur.pos == (if IsOutsideOf(t, env, Any, newPos, 1.0) == Ok(false) then newPos else old(cur.pos)))
      ensures Physics.NormSq(cur.speed) <= MaxSpeed * MaxSpeed
    {
      var acc := GateAcceleration(raw, sliding, cur.speed.x);
      if Abs(cur.speed.x) < MinSpeed {
        cur.speed := cur.speed.(x := 0.0);
      }
      if Abs(cur.speed.y) < MinSpeed {
        cur.speed := cur.speed.(y := 0.0);
      }
      assert cur.speed == ZeroSmall(old(cur.speed));
      var newPos := AccelerateImage(cur, Delta(acc), n);
      ghost var s1 := cur.speed;
      assert s1 == Clamp(Physics.Add(ZeroSmall(old(cur.speed)), Delta(GateAcceleration(raw, old(sliding), old(cur.speed).x))), n);
      assert newPos == Physics.Add(old(cur.pos), s1);
      var collision := GetCollision(cur, t, env, newPos);
      if collision.Err? {
        return false;
      }
      sliding := GetSliding(cur, t, env, newPos);
      RespondDamps(collision.value, cur.speed);
      cur.speed := Respond(collision.value, cur.speed);
      assert cur.speed == Respond(collision.value, s1);
      var outside := IsOutsideOf(t, env, Any, newPos, 1.0);
      if outside.Err? {
        return false;
      }
      if !outside.value {
        cur.pos := newPos;
      }
      return true;
    }
  }
}
