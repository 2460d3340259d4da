/**
 * The track data of the prototype (src/js/bee.js, `Track`) and the bee's
 * collision envelope (`BeeGame.beecollision`).
 */
module BeeTrack {
  import opened Geometry

  /** The four border coordinates of a track. */
  datatype Border = Border(top: real, bottom: real, left: real, right: real)

  /** A track: its border and its obstacle leaves. */
  datatype TrackObjects = TrackObjects(border: Border, leafs: seq<Rect>)

  /** How far the bee's collision box reaches from its centre on each side. */
  datatype Envelope = Envelope(top: real, bottom: real, left: real, right: real)

  const Track1: TrackObjects := TrackObjects(
    Border(-330.0, 70.0, -370.0, 430.0),
    [Rect(-100.0, -100.0, 0.0, -90.0),
     Rect(200.0, -150.0, 300.0, -140.0),
     Rect(0.0, -130.0, 100.0, -120.0),
     Rect(-300.0, -200.0, -200.0, -190.0),
     Rect(-180.0, -200.0, -80.0, -190.0)])

  /** `Track.objects`, keyed by track number. */
  const Tracks: map<int, TrackObjects> := map[1 := Track1]

  const BeeCollision: Envelope := Envelope(17.0, 31.0, 15.0, 15.0)

  /** The bee's collision box around the centre `pos`. */
  function BeeBox(env: Envelope, pos: Coord): (r: Rect)
    ensures env.left >= 0.0 && env.right >= 0.0 && env.top >= 0.0 && env.bottom >= 0.0 ==>
              WellFormedRect(r) && r.x1 <= pos.x <= r.x2 && r.y1 <= pos.y <= r.y2
  {
    Rect(pos.x - env.left, pos.y - env.top, pos.x + env.right, pos.y + env.bottom)
  }

  /** Every leaf has positive width and height and lies strictly inside the border. */
  predicate LeafsInside(t: TrackObjects)
  {
    forall i :: 0 <= i < |t.leafs| ==>
      ProperRect(t.leafs[i]) &&
      t.border.left < t.leafs[i].x1 && t.leafs[i].x2 < t.border.right &&
      t.border.top < t.leafs[i].y1 && t.leafs[i].y2 < t.border.bottom
  }

  /** No two leaves touch or overlap. */
  predicate LeafsApart(t: TrackObjects)
  {
    forall i, j :: 0 <= i < j < |t.leafs| ==> !IsRectIntersection(t.leafs[i], t.leafs[j])
  }

  /** The only track is laid out sensibly: leaves inside the border and apart from each other. */
  lemma TrackLayout()
    ensures Tracks.Keys == {1}
    ensures LeafsInside(Tracks[1]) && LeafsApart(Tracks[1])
    ensures Tracks[1].border.top < Tracks[1].border.bottom && Tracks[1].border.left < Tracks[1].border.right
  {
    var l := Track1.leafs;
    assert !IsRectIntersection(l[0], l[1]) && !IsRectIntersection(l[0], l[2]) && !IsRectIntersection(l[0], l[3]);
    assert !IsRectIntersection(l[0], l[4]) && !IsRectIntersection(l[1], l[2]) && !IsRectIntersection(l[1], l[3]);
    assert !IsRectIntersection(l[1], l[4]) && !IsRectIntersection(l[2], l[3]) && !IsRectIntersection(l[2], l[4]);
    assert !IsRectIntersection(l[3], l[4]);
  }
}
