/**
 * The discrete part of face alignment in detectFace: choosing the two widest eye boxes,
 * telling left from right, the eye centres, the auxiliary third point with the rotation
 * direction, and the guard that decides whether the image is rotated at all.
 */
module EyeAlignment {

  /** A detector box (x, y, w, h) in pixels. */
  datatype Box = Box(x: int, y: int, w: int, h: int)

  datatype Point = Point(x: int, y: int)

  /** The auxiliary point of the alignment triangle and the sense of rotation (-1 clockwise, 1 counter-clockwise). */
  datatype Triangle = Triangle(point: Point, direction: int)

  /** The outcome of the alignment step for one detected face. */
  datatype Alignment =
    | Skipped   // fewer than two eyes were found
    | Planned(first: nat, second: nat, left: Box, right: Box,
              leftCentre: Point, rightCentre: Point, triangle: Triangle, rotate: bool)

  /**
   * i and j are the first two entries of the eyes ordered by descending width: i is a widest
   * box, j a widest among the others. Any choice among equal widths qualifies, since the
   * sort the source uses is not stable.
   */
  ghost predicate IsTopTwo(eyes: seq<Box>, i: int, j: int)
  {
    && 0 <= i < |eyes| && 0 <= j < |eyes| && i != j
    && eyes[j].w <= eyes[i].w
    && forall k :: 0 <= k < |eyes| && k != i && k != j ==> eyes[k].w <= eyes[j].w
  }

  /**
   * "find the largest 2 eye": the (width, index) list, its descending sort and the first two
   * indices, computed in one pass over the boxes.
   */
  method LargestTwo(eyes: seq<Box>) returns (i: nat, j: nat)
    requires |eyes| >= 2
    ensures IsTopTwo(eyes, i, j)
  {
    if eyes[0].w >= eyes[1].w {
      i, j := 0, 1;
    } else {
      i, j := 1, 0;
    }
    var n := 2;
    while n < |eyes|
      invariant 2 <= n <= |eyes|
      invariant IsTopTwo(eyes[..n], i, j)
    {
      if eyes[n].w > eyes[i].w {
        i, j := n, i;
      } else if eyes[n].w > eyes[j].w {
        j := n;
      }
      n := n + 1;
    }
    assert eyes[..n] == eyes;
  }

  /** order lists every index of eyes once, by descending width, as pandas' sort_values leaves it. */
  ghost predicate IsDescendingOrder(eyes: seq<Box>, order: seq<nat>)
  {
    && |order| == |eyes|
    && (forall m :: 0 <= m < |order| ==> order[m] < |eyes|)
    && (forall m, m' :: 0 <= m < m' < |order| ==> order[m] != order[m'])
    && (forall k :: 0 <= k < |eyes| ==> k in order)
    && (forall m, m' :: 0 <= m < m' < |order| ==> eyes[order[m']].w <= eyes[order[m]].w)
  }

  /** The first two indices of any descending order are a top-two pair, so LargestTwo covers every sort outcome's widths. */
  lemma SortedPrefixIsTopTwo(eyes: seq<Box>, order: seq<nat>)
    requires |eyes| >= 2
    requires IsDescendingOrder(eyes, order)
    ensures IsTopTwo(eyes, order[0], order[1])
  {
    forall k | 0 <= k < |eyes| && k != order[0] && k != order[1]
      ensures eyes[k].w <= eyes[order[1]].w
    {
      assert k in order;
      var m :| 0 <= m < |order| && order[m] == k;
      assert m >= 2;
    }
  }

  /** Two top-two pairs agree on the widths chosen, so ties only change which boxes get picked. */
  lemma TopTwoWidthsUnique(eyes: seq<Box>, i: nat, j: nat, i': nat, j': nat)
    requires IsTopTwo(eyes, i, j) && IsTopTwo(eyes, i', j')
    ensures eyes[i].w == eyes[i'].w && eyes[j].w == eyes[j'].w
  {
  }

  /**
   * "decide left and right eye": the box with the smaller x is the left eye; on equal x the
   * second box (never wider) becomes the left one.
   */
  function OrderEyes(eye1: Box, eye2: Box): (lr: (Box, Box))
    ensures lr == (eye1, eye2) || lr == (eye2, eye1)
    ensures lr.0.x <= lr.1.x
    ensures lr.0 == eye1 && lr.1 == eye2 ==> eye1.x < eye2.x || eye1 == eye2
  {
    if eye1.x < eye2.x then (eye1, eye2) else (eye2, eye1)
  }

  /** Python's int() of a float: truncation toward zero. */
  function Truncate(r: real): (t: int)
    ensures 0.0 <= r ==> 0 <= t && t as real <= r < t as real + 1.0
    ensures r < 0.0 ==> t <= 0 && t as real - 1.0 < r <= t as real
  {
    if r >= 0.0 then r.Floor else -((-r).Floor)
  }

  /** int(x + w / 2), int(y + h / 2) with Python's true division. */
  function Centre(b: Box): (c: Point)
    ensures var vx := b.x as real + b.w as real / 2.0;
            (vx >= 0.0 ==> c.x as real <= vx < c.x as real + 1.0) && (vx < 0.0 ==> c.x as real - 1.0 < vx <= c.x as real)
    ensures var vy := b.y as real + b.h as real / 2.0;
            (vy >= 0.0 ==> c.y as real <= vy < c.y as real + 1.0) && (vy < 0.0 ==> c.y as real - 1.0 < vy <= c.y as real)
  {
    Point(Truncate(b.x as real + b.w as real / 2.0), Truncate(b.y as real + b.h as real / 2.0))
  }

  /** For a non-negative offset plus half a size, the truncated value is plain integer halving. */
  lemma TruncateHalf(x: int, w: int)
    requires 2 * x + w >= 0
    ensures Truncate(x as real + w as real / 2.0) == x + w / 2
  {
    var q, r := w / 2, w % 2;
    assert w == 2 * q + r;
    assert w as real / 2.0 == q as real + r as real / 2.0;
    var v := x as real + w as real / 2.0;
    assert (x + q) as real <= v < (x + q) as real + 1.0;
  }

  /** For boxes with non-negative fields, as the detector returns them, the centre is (x + w div 2, y + h div 2). */
  lemma CentreOfDetectorBox(b: Box)
    requires b.x >= 0 && b.y >= 0 && b.w >= 0 && b.h >= 0
    ensures Centre(b) == Point(b.x + b.w / 2, b.y + b.h / 2)
  {
    TruncateHalf(b.x, b.w);
    TruncateHalf(b.y, b.h);
  }

  /**
   * "find rotation direction": when the left eye is lower (larger y) the third point is below
   * the right eye at the left eye's height and the image turns clockwise; otherwise it is
   * below the left eye at the right eye's height and the image turns counter-clockwise.
   */
  function ThirdPoint(left: Point, right: Point): (t: Triangle)
    ensures t.direction == -1 || t.direction == 1
    ensures t.direction == -1 <==> left.y > right.y
    ensures t.direction == -1 ==> t.point.x == right.x && t.point.y == left.y
    ensures t.direction == 1 ==> t.point.x == left.x && t.point.y == right.y
  {
    if left.y > right.y then Triangle(Point(right.x, left.y), -1)
    else Triangle(Point(left.x, right.y), 1)
  }

  /** The square of the source's Euclidean distance. */
  function SqDist(a: Point, b: Point): (d: int)
    ensures d >= 0
    ensures a == b ==> d == 0
  {
    (b.x - a.x) * (b.x - a.x) + (b.y - a.y) * (b.y - a.y)
  }

  /** A squared distance is zero exactly when the points coincide (and so is the distance). */
  lemma SqDistZero(a: Point, b: Point)
    ensures SqDist(a, b) >= 0
    ensures SqDist(a, b) == 0 <==> a == b
  {
    var dx, dy := b.x - a.x, b.y - a.y;
    assert dx * dx >= 0 && dy * dy >= 0;
    if dx != 0 {
      assert dx * dx > 0;
    }
    if dy != 0 {
      assert dy * dy > 0;
    }
  }

  /** The third point makes a right angle, so a² + b² = c² holds for the three edges. */
  lemma RightAngleAtThirdPoint(left: Point, right: Point)
    ensures var p := ThirdPoint(left, right).point;
            SqDist(left, p) + SqDist(right, p) == SqDist(right, left)
  {
  }

  /** "apply cosine rule" only when b and c, the edges at the right eye, are non-zero. */
  predicate RotationAttempted(leftCentre: Point, rightCentre: Point, t: Triangle)
    ensures RotationAttempted(leftCentre, rightCentre, t) ==> rightCentre != t.point && rightCentre != leftCentre
  {
    SqDist(rightCentre, t.point) != 0 && SqDist(rightCentre, leftCentre) != 0
  }

  /**
   * The rotation happens exactly when the left eye is lower, or the two centres are in
   * different columns; two centres in one column with the left one not lower leave the image as is.
   */
  lemma RotationAttemptedIff(left: Point, right: Point)
    ensures RotationAttempted(left, right, ThirdPoint(left, right)) <==> left.y > right.y || left.x != right.x
  {
    var t := ThirdPoint(left, right);
    SqDistZero(right, t.point);
    SqDistZero(right, left);
  }

  /**
   * a is the alignment step's outcome for these eye boxes: skipped below two eyes, otherwise
   * a top-two pair in left/right order with its centres, third point, direction and the
   * rotation decision.
   */
  ghost predicate IsPlan(eyes: seq<Box>, a: Alignment)
  {
    && (a.Skipped? <==> |eyes| < 2)
    && (a.Planned? ==>
          && IsTopTwo(eyes, a.first, a.second)
          && (a.left, a.right) == OrderEyes(eyes[a.first], eyes[a.second])
          && a.left.x <= a.right.x
          && a.leftCentre == Centre(a.left) && a.rightCentre == Centre(a.right)
          && a.triangle == ThirdPoint(a.leftCentre, a.rightCentre)
          && (a.rotate <==> a.leftCentre.y > a.rightCentre.y || a.leftCentre.x != a.rightCentre.x))
  }

  /** The alignment step for the eye boxes found inside one face (lines 98-155). */
  method PlanAlignment(eyes: seq<Box>) returns (a: Alignment)
    ensures IsPlan(eyes, a)
  {
    if |eyes| < 2 {
      return Skipped;
    }
    var i, j := LargestTwo(eyes);
    var lr := OrderEyes(eyes[i], eyes[j]);
    var lc, rc := Centre(lr.0), Centre(lr.1);
    var t := ThirdPoint(lc, rc);
    RotationAttemptedIff(lc, rc);
    a := Planned(i, j, lr.0, lr.1, lc, rc, t, RotationAttempted(lc, rc, t));
  }
}
