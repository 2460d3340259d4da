/**
 * Pointer and keyboard control state (src/js/control.ts).
 *
 * `Control` holds two latches: `moveDirection`, written by pointer moves,
 * and `stepDirection`, written by key presses and releases. The arctangent
 * of the pointer offset is an input of the pointer handler, and so is pi.
 */
module Control {
  import Wrappers

  /** The pointer zones, a numeric enum: LeftTop is 0, ..., None is 5. */
  datatype MoveDirection = LeftTop | LeftBottom | Down | RightBottom | RightTop | None
  {
    function Ordinal(): int
    {
      match this
      case LeftTop => 0
      case LeftBottom => 1
      case Down => 2
      case RightBottom => 3
      case RightTop => 4
      case None => 5
    }
  }

  datatype StepDirection = Left | Right | Up | None

  /** The enum member a stored number stands for, if any. */
  function MoveDirectionOf(code: int): (d: Wrappers.Option<MoveDirection>)
    ensures d.Some? <==> 0 <= code <= 5
    ensures d.Some? ==> d.value.Ordinal() == code
  {
    if code == 0 then Wrappers.Some(LeftTop)
    else if code == 1 then Wrappers.Some(LeftBottom)
    else if code == 2 then Wrappers.Some(Down)
    else if code == 3 then Wrappers.Some(RightBottom)
    else if code == 4 then Wrappers.Some(RightTop)
    else if code == 5 then Wrappers.Some(MoveDirection.None)
    else Wrappers.None
  }

  /** Every member is recovered from its number. */
  lemma OrdinalRoundTrip(d: MoveDirection)
    ensures MoveDirectionOf(d.Ordinal()) == Wrappers.Some(d)
  {
  }

  /**
   * The six zone edges of the lower half plane, pi/5 apart:
   * -pi/2, -3pi/10, -pi/10, pi/10, 3pi/10, pi/2.
   */
  function Areas(pi: real): seq<real>
  {
    var diff := pi / 5.0;
    [-(pi / 2.0), -(pi / 2.0) + diff, -(pi / 2.0) + diff * 2.0,
     pi / 2.0 - diff * 2.0, pi / 2.0 - diff, pi / 2.0]
  }

  predicate StrictlyIncreasing(s: seq<real>)
  {
    forall i, j :: 0 <= i < j < |s| ==> s[i] < s[j]
  }

  lemma AreasIncreasing(pi: real)
    requires pi > 0.0
    ensures |Areas(pi)| == 6 && StrictlyIncreasing(Areas(pi))
    ensures Areas(pi) == [-(pi / 2.0), -(3.0 * pi / 10.0), -(pi / 10.0), pi / 10.0, 3.0 * pi / 10.0, pi / 2.0]
  {
  }

  /** Edge `i` is the lower edge of the zone holding `angle`; the last edge has no zone above it. */
  predicate InZone(areas: seq<real>, angle: real, i: int)
  {
    0 <= i < |areas| - 1 && areas[i] <= angle < areas[i + 1]
  }

  /**
   * `areas.findIndex((edge, i) => edge <= angle && areas[i + 1] > angle)`,
   * searching from index `from`: the first zone holding `angle`, or -1.
   * At the last index `areas[i + 1]` is undefined and the comparison fails.
   */
  function FindZone(areas: seq<real>, angle: real, from: nat): (r: int)
    requires from <= |areas|
    ensures r == -1 || (from <= r && InZone(areas, angle, r))
    ensures r == -1 ==> forall i :: from <= i < |areas| ==> !InZone(areas, angle, i)
    ensures r != -1 ==> forall i :: from <= i < r ==> !InZone(areas, angle, i)
    decreases |areas| - from
  {
    if from == |areas| then -1
    else if from + 1 < |areas| && areas[from] <= angle && areas[from + 1] > angle then from
    else FindZone(areas, angle, from + 1)
  }

  /** On increasing edges a zone is unique. */
  lemma ZoneUnique(areas: seq<real>, angle: real, i: int, j: int)
    requires StrictlyIncreasing(areas)
    requires InZone(areas, angle, i) && InZone(areas, angle, j)
    ensures i == j
  {
  }

  /**
   * On increasing edges the search finds the one zone holding `angle`, and
   * finds none exactly when `angle` is below the first edge or at or above
   * the last one.
   */
  lemma {:induction false} FindZoneOnIncreasing(areas: seq<real>, angle: real)
    requires |areas| >= 2 && StrictlyIncreasing(areas)
    ensures FindZone(areas, angle, 0) == -1 <==> angle < areas[0] || angle >= areas[|areas| - 1]
  {
    var r := FindZone(areas, angle, 0);
    if areas[0] <= angle < areas[|areas| - 1] {
      var k := ZoneOf(areas, angle, 0);
      assert InZone(areas, angle, k);
    }
  }

  /** A zone holding an angle that lies between edge `lo` and the last edge. */
  lemma {:induction false} ZoneOf(areas: seq<real>, angle: real, lo: nat) returns (k: nat)
    requires |areas| >= 2 && lo < |areas| - 1 && StrictlyIncreasing(areas)
    requires areas[lo] <= angle < areas[|areas| - 1]
    ensures lo <= k && InZone(areas, angle, k)
    decreases |areas| - lo
  {
    if angle < areas[lo + 1] {
      k := lo;
    } else {
      k := ZoneOf(areas, angle, lo + 1);
    }
  }

  /** The pointer zone of an angle (in radians from the downward axis). */
  function PointerZone(pi: real, angle: real): int
  {
    FindZone(Areas(pi), angle, 0)
  }

  /**
   * The zone number is -1 exactly outside [-pi/2, pi/2), and otherwise the
   * unique index whose zone holds the angle.
   */
  lemma PointerZoneSpec(pi: real, angle: real)
    requires pi > 0.0
    ensures PointerZone(pi, angle) == -1 <==> angle < -(pi / 2.0) || angle >= pi / 2.0
    ensures PointerZone(pi, angle) != -1 ==>
      0 <= PointerZone(pi, angle) <= 4 &&
      forall i :: InZone(Areas(pi), angle, i) <==> i == PointerZone(pi, angle)
  {
    AreasIncreasing(pi);
    FindZoneOnIncreasing(Areas(pi), angle);
    var r := PointerZone(pi, angle);
    if r != -1 {
      forall i ensures InZone(Areas(pi), angle, i) <==> i == r {
        if InZone(Areas(pi), angle, i) {
          ZoneUnique(Areas(pi), angle, i, r);
        }
      }
    }
  }

  /** Zone numbers 0 to 4 are LeftTop, LeftBottom, Down, RightBottom, RightTop, from left to right. */
  lemma PointerZoneDirections(pi: real)
    requires pi > 0.0
    ensures MoveDirectionOf(PointerZone(pi, -(pi / 2.0))) == Wrappers.Some(LeftTop)
    ensures MoveDirectionOf(PointerZone(pi, -(pi / 5.0))) == Wrappers.Some(LeftBottom)
    ensures MoveDirectionOf(PointerZone(pi, 0.0)) == Wrappers.Some(Down)
    ensures MoveDirectionOf(PointerZone(pi, pi / 5.0)) == Wrappers.Some(RightBottom)
    ensures MoveDirectionOf(PointerZone(pi, 2.0 * pi / 5.0)) == Wrappers.Some(RightTop)
    ensures MoveDirectionOf(PointerZone(pi, pi / 2.0)) == Wrappers.None
  {
    var areas := Areas(pi);
    PointerZoneSpec(pi, -(pi / 5.0));
    assert InZone(areas, -(pi / 5.0), 1);
    PointerZoneSpec(pi, 0.0);
    assert InZone(areas, 0.0, 2);
    PointerZoneSpec(pi, pi / 5.0);
    assert InZone(areas, pi / 5.0, 3);
    PointerZoneSpec(pi, 2.0 * pi / 5.0);
    assert InZone(areas, 2.0 * pi / 5.0, 4);
  }

  /** The two latches, updated in place by the event handlers. */
  class Control {
    /** The stored pointer zone: a `MoveDirection` number, or -1. */
    var moveDirection: int
    var stepDirection: StepDirection

    constructor ()
      ensures moveDirection == MoveDirection.None.Ordinal() && stepDirection == StepDirection.None
    {
      moveDirection := MoveDirection.None.Ordinal();
      stepDirection := StepDirection.None;
    }

    /**
     * The pointer handler. Above or level with the centre nothing changes;
     * below it the zone number of `angle`, -1 included, is stored.
     * `angle` stands for atan((mouseX - centerX) / (mouseY - centerY)).
     */
    method OnPointerMove(mouseY: real, centerY: real, angle: real, pi: real)
      modifies this`moveDirection
      ensures mouseY <= centerY ==> moveDirection == old(moveDirection)
      ensures mouseY > centerY ==> moveDirection == PointerZone(pi, angle)
      ensures stepDirection == old(stepDirection)
    {
      if mouseY > centerY {
        var currentArea := FindZone(Areas(pi), angle, 0);
        moveDirection := currentArea;
      }
    }

    /** Key down: the three arrow keys set their direction, any other key is ignored. */
    method OnKeyDown(key: string)
      modifies this`stepDirection
      ensures key == "ArrowLeft" ==> stepDirection == Left
      ensures key == "ArrowRight" ==> stepDirection == Right
      ensures key == "ArrowUp" ==> stepDirection == Up
      ensures key !in {"ArrowLeft", "ArrowRight", "ArrowUp"} ==> stepDirection == old(stepDirection)
      ensures moveDirection == old(moveDirection)
    {
      if key == "ArrowLeft" {
        stepDirection := Left;
      }
      if key == "ArrowRight" {
        stepDirection := Right;
      }
      if key == "ArrowUp" {
        stepDirection := Up;
      }
    }

    /** Key up: whatever the key, the step direction is cleared. */
    method OnKeyUp(key: string)
      modifies this`stepDirection
      ensures stepDirection == StepDirection.None
      ensures moveDirection == old(moveDirection)
    {
      stepDirection := StepDirection.None;
    }
  }
}
