/**
 * The collision-resolution loop at the end of a frame: every collider the
 * overlap query returned, in the order returned, pushes the character out of
 * itself, and grounded is recomputed from the contacts.
 */
module Collision {
  import opened Vectors

  /** What Collider2D.Distance reports for one collider against the character's box. */
  datatype ColliderDistance = ColliderDistance(
    isOverlapped: bool,
    pointA: Vec2,
    pointB: Vec2,
    normalAngleFromUp: real)  // Vector2.Angle(normal, Vector2.up), in degrees

  /**
   * One collider returned by Physics2D.OverlapBoxAll. The report is asked for
   * inside the loop, after the pushes of the colliders before it, so it is
   * given as a function of the character's position at that moment.
   */
  datatype Hit = Hit(isSelf: bool, distance: Vec2 -> ColliderDistance)

  /** The character's position and grounded flag while the loop runs. */
  datatype Resolution = Resolution(position: Vec2, grounded: bool)

  /** The collider is another one and the character's box at position overlaps it. */
  predicate Overlapping(hit: Hit, position: Vec2) {
    !hit.isSelf && hit.distance(position).isOverlapped
  }

  /** The push-out the collider applies to the character at position. */
  function Push(hit: Hit, position: Vec2): Vec2 {
    if Overlapping(hit, position) then
      Sub(hit.distance(position).pointA, hit.distance(position).pointB)
    else Zero
  }

  /** The collider, met at position, makes the character grounded. */
  predicate Grounds(hit: Hit, position: Vec2, vy: real) {
    Overlapping(hit, position) && hit.distance(position).normalAngleFromUp < 90.0 && vy <= 0.0
  }

  /** One pass of the loop body: skip the own collider, else push out and maybe ground. */
  function ResolveOne(r: Resolution, hit: Hit, vy: real): Resolution {
    if hit.isSelf then r
    else
      var d := hit.distance(r.position);
      if d.isOverlapped then
        Resolution(Add(r.position, Sub(d.pointA, d.pointB)),
                   r.grounded || (d.normalAngleFromUp < 90.0 && vy <= 0.0))
      else r
  }

  /**
   * The whole loop from start, with grounded reset to false first. Only a
   * character that is not moving up can become grounded.
   */
  function Resolve(start: Vec2, hits: seq<Hit>, vy: real): (r: Resolution)
    ensures r.grounded ==> vy <= 0.0
    decreases |hits|
  {
    if hits == [] then Resolution(start, false)
    else ResolveOne(Resolve(start, hits[..|hits| - 1], vy), hits[|hits| - 1], vy)
  }

  /** The position at which hits[i] is examined. */
  function PositionBefore(start: Vec2, hits: seq<Hit>, vy: real, i: nat): Vec2
    requires i <= |hits|
  {
    Resolve(start, hits[..i], vy).position
  }

  /** The push each collider applies, each at the position the earlier ones left. */
  function Pushes(start: Vec2, hits: seq<Hit>, vy: real): (ps: seq<Vec2>)
    ensures |ps| == |hits|
  {
    seq(|hits|, i requires 0 <= i < |hits| => Push(hits[i], PositionBefore(start, hits, vy, i)))
  }

  /** Only the prefix examined so far matters for the position before an element. */
  lemma PositionBeforeOfPrefix(start: Vec2, hits: seq<Hit>, vy: real, n: nat, i: nat)
    requires i <= n <= |hits|
    ensures PositionBefore(start, hits[..n], vy, i) == PositionBefore(start, hits, vy, i)
  {
    assert hits[..n][..i] == hits[..i];
  }

  /**
   * After the loop, grounded holds exactly when some collider, met at the
   * position the earlier pushes left, was another one, overlapped, had its
   * normal less than 90 degrees from up, and the character was not moving up.
   */
  lemma {:induction false} ResolveGroundedIff(start: Vec2, hits: seq<Hit>, vy: real)
    ensures Resolve(start, hits, vy).grounded <==>
            exists i :: 0 <= i < |hits| && Grounds(hits[i], PositionBefore(start, hits, vy, i), vy)
    decreases |hits|
  {
    if hits != [] {
      var n := |hits| - 1;
      var pre := hits[..n];
      ResolveGroundedIff(start, pre, vy);
      assert PositionBefore(start, hits, vy, n) == Resolve(start, pre, vy).position;
      if Resolve(start, hits, vy).grounded {
        if !Grounds(hits[n], PositionBefore(start, hits, vy, n), vy) {
          var i :| 0 <= i < |pre| && Grounds(pre[i], PositionBefore(start, pre, vy, i), vy);
          PositionBeforeOfPrefix(start, hits, vy, n, i);
        }
      } else {
        forall i | 0 <= i < |hits|
          ensures !Grounds(hits[i], PositionBefore(start, hits, vy, i), vy)
        {
          if i < n {
            PositionBeforeOfPrefix(start, hits, vy, n, i);
            assert pre[i] == hits[i];
          }
        }
      }
    }
  }

  /**
   * The loop moves the character by exactly the sum of the pushes of the
   * overlapped colliders other than its own, applied in list order.
   */
  lemma {:induction false} ResolveMovesBySumOfPushes(start: Vec2, hits: seq<Hit>, vy: real)
    ensures Resolve(start, hits, vy).position == Add(start, Sum(Pushes(start, hits, vy)))
    decreases |hits|
  {
    if hits != [] {
      var n := |hits| - 1;
      var pre := hits[..n];
      ResolveMovesBySumOfPushes(start, pre, vy);
      var ps := Pushes(start, hits, vy);
      var r := Resolve(start, pre, vy);
      forall i | 0 <= i < n ensures ps[..n][i] == Pushes(start, pre, vy)[i] {
        PositionBeforeOfPrefix(start, hits, vy, n, i);
        assert pre[i] == hits[i];
      }
      assert ps[..n] == Pushes(start, pre, vy);
      assert ps[n] == Push(hits[n], r.position) by {
        assert PositionBefore(start, hits, vy, n) == r.position;
      }
      assert Resolve(start, hits, vy).position == Add(r.position, Push(hits[n], r.position));
      assert Sum(ps) == Add(Sum(ps[..n]), ps[n]);
    }
  }

  /** Colliders that overlap nothing leave the character where it is and not grounded. */
  lemma {:induction false} ResolveWithoutOverlap(start: Vec2, hits: seq<Hit>, vy: real)
    requires forall i :: 0 <= i < |hits| ==> !Overlapping(hits[i], start)
    ensures Resolve(start, hits, vy) == Resolution(start, false)
    decreases |hits|
  {
    if hits != [] {
      var n := |hits| - 1;
      ResolveWithoutOverlap(start, hits[..n], vy);
    }
  }
}
