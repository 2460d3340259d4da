/**
 * The collision resolver of the prototype (src/js/bee.js, `Interaction`):
 * whether the bee's collision box around a position has crossed, or is
 * touching, a wall of the track, the border or one of the leaves.
 */
module BeeInteraction {
  import opened Wrappers
  import opened Geometry
  import opened BeeTrack

  /** The `wall` argument: one side, or `'any'`. */
  datatype Wall = Side(d: Direction) | Any

  /** The `(wall == side || wall == 'any')` test. */
  predicate Matches(wall: Wall, d: Direction)
  {
    wall == Any || wall == Side(d)
  }

  /** `isOutsideOf` reads a property of `null` and throws. */
  datatype Error = NullDereference

  /**
   * The box has crossed border side `d` by more than `pixel`. The top and
   * left tests are strict, the bottom and right ones are not.
   */
  predicate BorderCrossed(t: TrackObjects, env: Envelope, pos: Coord, pixel: real, d: Direction)
  {
    match d
    case Top => pos.y - env.top < t.border.top - pixel
    case Bottom => pos.y + env.bottom >= t.border.bottom + pixel
    case Left => pos.x - env.left < t.border.left - pixel
    case Right => pos.x + env.right >= t.border.right + pixel
  }

  /**
   * The side of a leaf the bee has pushed into, judged from the overlap
   * `ov`: nothing unless the overlap exceeds `pixel` along some axis;
   * top or bottom when it is wider than tall, left or right otherwise,
   * picked by which overlap edge lies further from the bee's centre.
   */
  function HitSide(ov: Rect, pos: Coord, pixel: real): (r: Option<Direction>)
    ensures r.Some? ==> Abs(ov.x2 - ov.x1) > pixel || Abs(ov.y2 - ov.y1) > pixel
    ensures r == Some(Top) <==>
              (Abs(ov.x2 - ov.x1) > pixel || Abs(ov.y2 - ov.y1) > pixel) &&
              Abs(ov.x2 - ov.x1) > Abs(ov.y2 - ov.y1) && Abs(ov.y1 - pos.y) > Abs(ov.y2 - pos.y)
    ensures r == Some(Bottom) <==>
              (Abs(ov.x2 - ov.x1) > pixel || Abs(ov.y2 - ov.y1) > pixel) &&
              Abs(ov.x2 - ov.x1) > Abs(ov.y2 - ov.y1) && Abs(ov.y1 - pos.y) < Abs(ov.y2 - pos.y)
    ensures r == Some(Left) <==>
              (Abs(ov.x2 - ov.x1) > pixel || Abs(ov.y2 - ov.y1) > pixel) &&
              Abs(ov.x2 - ov.x1) <= Abs(ov.y2 - ov.y1) && Abs(ov.x1 - pos.x) > Abs(ov.x2 - pos.x)
    ensures r == Some(Right) <==>
              (Abs(ov.x2 - ov.x1) > pixel || Abs(ov.y2 - ov.y1) > pixel) &&
              Abs(ov.x2 - ov.x1) <= Abs(ov.y2 - ov.y1) && Abs(ov.x1 - pos.x) < Abs(ov.x2 - pos.x)
  {
    if Abs(ov.x2 - ov.x1) > pixel || Abs(ov.y2 - ov.y1) > pixel then
      if Abs(ov.x2 - ov.x1) > Abs(ov.y2 - ov.y1) then
        if Abs(ov.y1 - pos.y) > Abs(ov.y2 - pos.y) then Some(Top)
        else if Abs(ov.y1 - pos.y) < Abs(ov.y2 - pos.y) then Some(Bottom)
        else None
      else
        if Abs(ov.x1 - pos.x) > Abs(ov.x2 - pos.x) then Some(Left)
        else if Abs(ov.x1 - pos.x) < Abs(ov.x2 - pos.x) then Some(Right)
        else None
    else None
  }

  /** An overlap whose edges are equally far from the centre along the deciding axis names no side. */
  lemma HitSideTie(ov: Rect, pos: Coord, pixel: real)
    requires Abs(ov.x2 - ov.x1) > Abs(ov.y2 - ov.y1) ==> Abs(ov.y1 - pos.y) == Abs(ov.y2 - pos.y)
    requires Abs(ov.x2 - ov.x1) <= Abs(ov.y2 - ov.y1) ==> Abs(ov.x1 - pos.x) == Abs(ov.x2 - pos.x)
    ensures HitSide(ov, pos, pixel).None?
  {
  }

  /**
   * What one leaf says about the box: `Ok(false)` when the inclusive test
   * finds no contact, an error when the boxes only share an edge (the
   * intersection is `null`), otherwise whether the side pushed into is one
   * `wall` asks for.
   */
  function LeafVerdict(box: Rect, leaf: Rect, wall: Wall, pos: Coord, pixel: real): (r: Result<bool, Error>)
    ensures r.Err? <==> IsRectIntersection(box, leaf) && RectIntersection(box, leaf).None?
    ensures !IsRectIntersection(box, leaf) ==> r == Ok(false)
    ensures r.Ok? && IsRectIntersection(box, leaf) ==>
              (r.value <==>
                 RectIntersection(box, leaf).Some? &&
                 HitSide(RectIntersection(box, leaf).value, pos, pixel).Some? &&
                 Matches(wall, HitSide(RectIntersection(box, leaf).value, pos, pixel).value))
  {
    if !IsRectIntersection(box, leaf) then Ok(false)
    else
      match RectIntersection(box, leaf)
      case None => Err(NullDereference)
      case Some(ov) =>
        var side := HitSide(ov, pos, pixel);
        Ok(side.Some? && Matches(wall, side.value))
  }

  /**
   * The leaf loop of `isOutsideOf` from leaf `from` on: the first leaf
   * whose verdict is not `Ok(false)` decides, and `Ok(false)` when there
   * is none.
   */
  function LeafsOutside(leafs: seq<Rect>, from: nat, box: Rect, wall: Wall, pos: Coord, pixel: real): (r: Result<bool, Error>)
    requires from <= |leafs|
    ensures r == Ok(false) <==> forall i :: from <= i < |leafs| ==> LeafVerdict(box, leafs[i], wall, pos, pixel) == Ok(false)
    decreases |leafs| - from
  {
    if from == |leafs| then Ok(false)
    else
      var v := LeafVerdict(box, leafs[from], wall, pos, pixel);
      if v != Ok(false) then v else LeafsOutside(leafs, from + 1, box, wall, pos, pixel)
  }

  /** Otherwise the first leaf whose verdict is not `Ok(false)` gives the answer. */
  lemma {:induction false} LeafsOutsideFirst(leafs: seq<Rect>, from: nat, box: Rect, wall: Wall, pos: Coord, pixel: real)
      returns (i: nat)
    requires from <= |leafs|
    requires LeafsOutside(leafs, from, box, wall, pos, pixel) != Ok(false)
    ensures from <= i < |leafs| && LeafsOutside(leafs, from, box, wall, pos, pixel) == LeafVerdict(box, leafs[i], wall, pos, pixel)
    ensures forall j :: from <= j < i ==> LeafVerdict(box, leafs[j], wall, pos, pixel) == Ok(false)
    decreases |leafs| - from
  {
    if LeafVerdict(box, leafs[from], wall, pos, pixel) != Ok(false) {
      i := from;
    } else {
      i := LeafsOutsideFirst(leafs, from + 1, box, wall, pos, pixel);
    }
  }

  /**
   * `isOutsideOf`: the border sides are tried in the order top, bottom,
   * left, right, then the leaves in track order.
   */
  function IsOutsideOf(t: TrackObjects, env: Envelope, wall: Wall, pos: Coord, pixel: real): (r: Result<bool, Error>)
    ensures (exists d :: Matches(wall, d) && BorderCrossed(t, env, pos, pixel, d)) ==> r == Ok(true)
    ensures (forall d :: Matches(wall, d) ==> !BorderCrossed(t, env, pos, pixel, d)) ==>
              r == LeafsOutside(t.leafs, 0, BeeBox(env, pos), wall, pos, pixel)
  {
    if BorderCrossed(t, env, pos, pixel, Top) && Matches(wall, Top) then Ok(true)
    else if BorderCrossed(t, env, pos, pixel, Bottom) && Matches(wall, Bottom) then Ok(true)
    else if BorderCrossed(t, env, pos, pixel, Left) && Matches(wall, Left) then Ok(true)
    else if BorderCrossed(t, env, pos, pixel, Right) && Matches(wall, Right) then Ok(true)
    else LeafsOutside(t.leafs, 0, BeeBox(env, pos), wall, pos, pixel)
  }

  /** `isOutsideOf` throws only on a leaf that shares just an edge with the box, and only when no earlier leaf hit. */
  lemma OutsideThrowsOnSharedEdge(t: TrackObjects, env: Envelope, wall: Wall, pos: Coord, pixel: real) returns (i: nat)
    requires IsOutsideOf(t, env, wall, pos, pixel).Err?
    ensures i < |t.leafs| && IsRectIntersection(BeeBox(env, pos), t.leafs[i])
    ensures RectIntersection(BeeBox(env, pos), t.leafs[i]).None?
    ensures forall j :: 0 <= j < i ==> LeafVerdict(BeeBox(env, pos), t.leafs[j], wall, pos, pixel) == Ok(false)
  {
    i := LeafsOutsideFirst(t.leafs, 0, BeeBox(env, pos), wall, pos, pixel);
  }

  /** For one leaf, `'any'` is the disjunction of the four sides, and only the inclusive test decides an error. */
  lemma VerdictAny(box: Rect, leaf: Rect, pos: Coord, pixel: real)
    ensures LeafVerdict(box, leaf, Any, pos, pixel) == Ok(true) <==>
              exists d :: LeafVerdict(box, leaf, Side(d), pos, pixel) == Ok(true)
    ensures forall d :: LeafVerdict(box, leaf, Side(d), pos, pixel).Err? == LeafVerdict(box, leaf, Any, pos, pixel).Err?
  {
    if LeafVerdict(box, leaf, Any, pos, pixel) == Ok(true) {
      var d := HitSide(RectIntersection(box, leaf).value, pos, pixel).value;
      assert LeafVerdict(box, leaf, Side(d), pos, pixel) == Ok(true);
    }
  }

  /** For the leaf loop, `'any'` is the disjunction of the four sides and fails only where every side fails. */
  lemma {:induction false} LeafsOutsideAny(leafs: seq<Rect>, from: nat, box: Rect, pos: Coord, pixel: real)
    requires from <= |leafs|
    ensures LeafsOutside(leafs, from, box, Any, pos, pixel) == Ok(true) <==>
              exists d :: LeafsOutside(leafs, from, box, Side(d), pos, pixel) == Ok(true)
    ensures LeafsOutside(leafs, from, box, Any, pos, pixel).Err? ==>
              forall d :: LeafsOutside(leafs, from, box, Side(d), pos, pixel).Err?
    decreases |leafs| - from
  {
    if from < |leafs| {
      LeafsOutsideAny(leafs, from + 1, box, pos, pixel);
      VerdictAny(box, leafs[from], pos, pixel);
      var any := LeafsOutside(leafs, from, box, Any, pos, pixel);
      assert any == if LeafVerdict(box, leafs[from], Any, pos, pixel) != Ok(false)
                    then LeafVerdict(box, leafs[from], Any, pos, pixel)
                    else LeafsOutside(leafs, from + 1, box, Any, pos, pixel);
      forall d
        ensures LeafsOutside(leafs, from, box, Side(d), pos, pixel) ==
                  if LeafVerdict(box, leafs[from], Side(d), pos, pixel) != Ok(false)
                  then LeafVerdict(box, leafs[from], Side(d), pos, pixel)
                  else LeafsOutside(leafs, from + 1, box, Side(d), pos, pixel)
      {
      }
    }
  }

  /**
   * `isOutsideOf('any', …)` is true exactly when it is true for some side,
   * and it throws only where every single side throws.
   */
  lemma OutsideAnyIsDisjunction(t: TrackObjects, env: Envelope, pos: Coord, pixel: real)
    ensures IsOutsideOf(t, env, Any, pos, pixel) == Ok(true) <==>
              exists d :: IsOutsideOf(t, env, Side(d), pos, pixel) == Ok(true)
    ensures IsOutsideOf(t, env, Any, pos, pixel).Err? ==>
              forall d :: IsOutsideOf(t, env, Side(d), pos, pixel).Err?
  {
    LeafsOutsideAny(t.leafs, 0, BeeBox(env, pos), pos, pixel);
    if exists d :: BorderCrossed(t, env, pos, pixel, d) {
      var d :| BorderCrossed(t, env, pos, pixel, d);
      assert Matches(Side(d), d);
    }
  }

  /**
   * On the first track, a box exactly on the bottom border line is already
   * outside, while one exactly on the top border line is not.
   */
  lemma BorderAsymmetry()
    ensures IsOutsideOf(Track1, BeeCollision, Side(Bottom), Coord(30.0, 39.0), 0.0) == Ok(true)
    ensures IsOutsideOf(Track1, BeeCollision, Side(Top), Coord(30.0, -313.0), 0.0) == Ok(false)
  {
    var box := BeeBox(BeeCollision, Coord(30.0, -313.0));
    assert forall i :: 0 <= i < |Track1.leafs| ==> !IsRectIntersection(box, Track1.leafs[i]);
  }

  /**
   * A bee resting exactly on top of the first leaf makes `isOutsideOf`
   * throw: the boxes share an edge, so the inclusive test passes and the
   * intersection is `null`.
   */
  lemma RestingOnLeafThrows()
    ensures IsOutsideOf(Track1, BeeCollision, Any, Coord(-50.0, -131.0), 1.0).Err?
    ensures IsOutsideOf(Track1, BeeCollision, Side(Top), Coord(-50.0, -131.0), 0.0).Err?
  {
    var box := BeeBox(BeeCollision, Coord(-50.0, -131.0));
    assert LeafVerdict(box, Track1.leafs[0], Any, Coord(-50.0, -131.0), 1.0).Err?;
    assert LeafVerdict(box, Track1.leafs[0], Side(Top), Coord(-50.0, -131.0), 0.0).Err?;
  }

  /** The box is within `pixel` of border side `d`. */
  predicate BorderTouched(t: TrackObjects, env: Envelope, pos: Coord, pixel: real, d: Direction)
  {
    match d
    case Top => Abs(pos.y - env.top - t.border.top) <= pixel
    case Bottom => Abs(pos.y + env.bottom - t.border.bottom) <= pixel
    case Left => Abs(pos.x - env.left - t.border.left) <= pixel
    case Right => Abs(pos.x + env.right - t.border.right) <= pixel
  }

  /** The box touches `leaf` on a side `wall` asks for. */
  predicate LeafTouched(box: Rect, leaf: Rect, wall: Wall, pixel: real)
  {
    var touch := RectTouching(box, leaf, pixel);
    touch.Some? && Matches(wall, touch.value.dir)
  }

  /** The leaf loop of `isTouchedOf` from leaf `from` on. */
  function LeafsTouched(leafs: seq<Rect>, from: nat, box: Rect, wall: Wall, pixel: real): (r: bool)
    requires from <= |leafs|
    ensures r <==> exists i :: from <= i < |leafs| && LeafTouched(box, leafs[i], wall, pixel)
    decreases |leafs| - from
  {
    if from == |leafs| then false
    else LeafTouched(box, leafs[from], wall, pixel) || LeafsTouched(leafs, from + 1, box, wall, pixel)
  }

  /** `isTouchedOf`: the box touches a border side or a leaf side that `wall` asks for. */
  function IsTouchedOf(t: TrackObjects, env: Envelope, wall: Wall, pos: Coord, pixel: real): (r: bool)
    ensures r <==> (exists d :: Matches(wall, d) && BorderTouched(t, env, pos, pixel, d)) ||
                   (exists i :: 0 <= i < |t.leafs| && LeafTouched(BeeBox(env, pos), t.leafs[i], wall, pixel))
  {
    if BorderTouched(t, env, pos, pixel, Top) && Matches(wall, Top) then true
    else if BorderTouched(t, env, pos, pixel, Bottom) && Matches(wall, Bottom) then true
    else if BorderTouched(t, env, pos, pixel, Left) && Matches(wall, Left) then true
    else if BorderTouched(t, env, pos, pixel, Right) && Matches(wall, Right) then true
    else LeafsTouched(t.leafs, 0, BeeBox(env, pos), wall, pixel)
  }

  /** `isTouchedOf('any', …)` is true exactly when it is true for some side. */
  lemma TouchedAnyIsDisjunction(t: TrackObjects, env: Envelope, pos: Coord, pixel: real)
    ensures IsTouchedOf(t, env, Any, pos, pixel) <==> exists d :: IsTouchedOf(t, env, Side(d), pos, pixel)
  {
    if IsTouchedOf(t, env, Any, pos, pixel) {
      if exists d :: BorderTouched(t, env, pos, pixel, d) {
        var d :| BorderTouched(t, env, pos, pixel, d);
        assert IsTouchedOf(t, env, Side(d), pos, pixel);
      } else {
        var i :| 0 <= i < |t.leafs| && LeafTouched(BeeBox(env, pos), t.leafs[i], Any, pixel);
        var d := RectTouching(BeeBox(env, pos), t.leafs[i], pixel).value.dir;
        assert LeafTouched(BeeBox(env, pos), t.leafs[i], Side(d), pixel);
      }
    }
  }

  /** Resting on the first leaf, the bee touches the leaf's top with its bottom side. */
  lemma RestingOnLeafTouchesBottom()
    ensures IsTouchedOf(Track1, BeeCollision, Side(Bottom), Coord(-50.0, -131.0), 1.0)
    ensures !IsTouchedOf(Track1, BeeCollision, Side(Top), Coord(-50.0, -131.0), 1.0)
  {
    var box := BeeBox(BeeCollision, Coord(-50.0, -131.0));
    assert LeafTouched(box, Track1.leafs[0], Side(Bottom), 1.0);
    assert forall i :: 0 <= i < |Track1.leafs| ==> !LeafTouched(box, Track1.leafs[i], Side(Top), 1.0);
  }
}
