/** The pixel geometry of app/posedetector.py, on the landmarks the
    holistic model returns: the hand-to-mouth decision of `is_smoking_pose`
    and the frame-coordinate points of `get_person_points`. Landmarks are
    normalised coordinates, turned into pixels by `int(x * width)`. */
module PoseDetector {
  import opened Common

  /** A normalised landmark position, nominally in [0, 1) on both axes. */
  datatype Landmark = Landmark(x: real, y: real)

  /** The three face-mesh landmarks used: inner eye corners 33 and 263,
      and the nose, landmark 1. */
  datatype Face = Face(leftEyeInner: Landmark, rightEyeInner: Landmark, nose: Landmark)

  /** The hand landmark used: the index finger tip, landmark 8. */
  datatype Hand = Hand(indexTip: Landmark)

  /** What the holistic model found in one image; a part it did not find
      is None. */
  datatype Holistic = Holistic(face: Option<Face>, leftHand: Option<Hand>, rightHand: Option<Hand>)

  /** Below this eye-to-eye distance the face is too small to judge. */
  const MIN_FACE_WIDTH: nat := 10

  /** Python's `int()` on a real: truncation toward zero. */
  function Trunc(r: real): (n: int)
    ensures r >= 0.0 ==> n as real <= r < n as real + 1.0
    ensures r < 0.0 ==> n as real - 1.0 < r <= n as real
  {
    if r >= 0.0 then r.Floor else -((-r).Floor)
  }

  /** `_get_pixel_coords`: a landmark scaled to an image of the given size. */
  function PixelCoords(lm: Landmark, width: nat, height: nat): Point {
    Point(Trunc(lm.x * width as real), Trunc(lm.y * height as real))
  }

  // ---------------------------------------------------------------------
  // is_smoking_pose
  // ---------------------------------------------------------------------

  /** Squared pixel distance between the inner eye corners. */
  function FaceWidthSq(f: Face, width: nat, height: nat): nat {
    SqDist(PixelCoords(f.leftEyeInner, width, height), PixelCoords(f.rightEyeInner, width, height))
  }

  /** The hand's index tip is nearer the nose than half the face width:
      `d / fw < 0.5` on squares. */
  predicate TipNearNose(hand: Hand, f: Face, width: nat, height: nat) {
    4 * SqDist(PixelCoords(f.nose, width, height), PixelCoords(hand.indexTip, width, height))
      < FaceWidthSq(f, width, height)
  }

  /** The `hands` list: the right hand first, then the left. */
  function PresentHands(h: Holistic): (hands: seq<Hand>)
    ensures |hands| <= 2
    ensures forall hand :: hand in hands <==> Some(hand) == h.rightHand || Some(hand) == h.leftHand
    ensures h.rightHand.Some? ==> hands[0] == h.rightHand.value
    ensures h.leftHand.Some? ==> hands[|hands| - 1] == h.leftHand.value
  {
    (if h.rightHand.Some? then [h.rightHand.value] else []) +
    (if h.leftHand.Some? then [h.leftHand.value] else [])
  }

  /** The hand-to-mouth decision for one frame. */
  predicate SmokingPose(h: Holistic, width: nat, height: nat) {
    && h.face.Some?
    && (h.leftHand.Some? || h.rightHand.Some?)
    && FaceWidthSq(h.face.value, width, height) >= MIN_FACE_WIDTH * MIN_FACE_WIDTH
    && exists i :: 0 <= i < |PresentHands(h)| && TipNearNose(PresentHands(h)[i], h.face.value, width, height)
  }

  /** `is_smoking_pose` after the model has run: build the hand list, then
      search it for a tip near the nose, stopping at the first. */
  method IsSmokingPose(h: Holistic, width: nat, height: nat) returns (event: bool)
    ensures event == SmokingPose(h, width, height)
  {
    event := false;
    if h.face.Some? && (h.leftHand.Some? || h.rightHand.Some?) {
      var face := h.face.value;
      var faceWidthSq := SqDist(PixelCoords(face.leftEyeInner, width, height),
                                PixelCoords(face.rightEyeInner, width, height));
      if faceWidthSq < MIN_FACE_WIDTH * MIN_FACE_WIDTH {
        return false;
      }
      var nose := PixelCoords(face.nose, width, height);
      var hands: seq<Hand> := [];
      if h.rightHand.Some? {
        hands := hands + [h.rightHand.value];
      }
      if h.leftHand.Some? {
        hands := hands + [h.leftHand.value];
      }
      assert hands == PresentHands(h);
      var i := 0;
      while i < |hands|
        invariant 0 <= i <= |hands|
        invariant !event
        invariant forall j :: 0 <= j < i ==> !TipNearNose(hands[j], face, width, height)
      {
        var tip := PixelCoords(hands[i].indexTip, width, height);
        if 4 * SqDist(nose, tip) < faceWidthSq {
          event := true;
          break;
        }
        i := i + 1;
      }
    }
  }

  /** The decision case by case: no face or no hand, or a face narrower
      than 10 px, is never a pose; otherwise it is one exactly when either
      present hand's tip is near the nose, so the right-then-left order of
      the search does not matter. */
  lemma {:induction false} SmokingPoseCases(h: Holistic, width: nat, height: nat)
    ensures h.face.None? ==> !SmokingPose(h, width, height)
    ensures h.leftHand.None? && h.rightHand.None? ==> !SmokingPose(h, width, height)
    ensures h.face.Some? && FaceWidthSq(h.face.value, width, height) < 100 ==> !SmokingPose(h, width, height)
    ensures SmokingPose(h, width, height) <==>
      && h.face.Some?
      && FaceWidthSq(h.face.value, width, height) >= 100
      && ((h.rightHand.Some? && TipNearNose(h.rightHand.value, h.face.value, width, height)) ||
          (h.leftHand.Some? && TipNearNose(h.leftHand.value, h.face.value, width, height)))
    ensures SmokingPose(h, width, height) == SmokingPose(h.(leftHand := h.rightHand, rightHand := h.leftHand), width, height)
  {
    var swapped := h.(leftHand := h.rightHand, rightHand := h.leftHand);
    if h.face.Some? {
      var f := h.face.value;
      var hands := PresentHands(h);
      if h.rightHand.Some? && TipNearNose(h.rightHand.value, f, width, height) {
        assert hands[0] == h.rightHand.value;
      }
      if h.leftHand.Some? && TipNearNose(h.leftHand.value, f, width, height) {
        assert hands[|hands| - 1] == h.leftHand.value;
      }
      if exists i :: 0 <= i < |hands| && TipNearNose(hands[i], f, width, height) {
        var i :| 0 <= i < |hands| && TipNearNose(hands[i], f, width, height);
        assert hands[i] in hands;
      }
      var others := PresentHands(swapped);
      if h.leftHand.Some? && TipNearNose(h.leftHand.value, f, width, height) {
        assert others[0] == h.leftHand.value;
      }
      if h.rightHand.Some? && TipNearNose(h.rightHand.value, f, width, height) {
        assert others[|others| - 1] == h.rightHand.value;
      }
      if exists i :: 0 <= i < |others| && TipNearNose(others[i], f, width, height) {
        var i :| 0 <= i < |others| && TipNearNose(others[i], f, width, height);
        assert others[i] in others;
      }
    }
  }

  /** The source's tests on `sqrt` distances are those on squares: a face
      width below 10 px is a squared width below 100, and, for a face at
      least 10 px wide, `d / fw < 0.5` is `4 d² < fw²`. */
  lemma NormalizedDistanceTest(d: real, fw: real)
    requires d >= 0.0 && fw >= 0.0
    ensures fw < 10.0 <==> fw * fw < 100.0
    ensures fw >= 10.0 ==> (d / fw < 0.5 <==> 4.0 * (d * d) < fw * fw)
  {
    RootComparison(fw, 10.0);
    if fw >= 10.0 {
      RootComparison(2.0 * d, fw);
      assert (2.0 * d) * (2.0 * d) == 4.0 * (d * d);
      HalfQuotient(d, fw);
    }
  }

  /** The ratio test without the division: `d / fw < 0.5` iff `2 d < fw`. */
  lemma HalfQuotient(d: real, fw: real)
    requires fw > 0.0
    ensures d / fw < 0.5 <==> 2.0 * d < fw
  {
    var q := d / fw;
    assert q * fw == d;
    assert 0.5 * fw - d == (0.5 - q) * fw;
    if q < 0.5 {
      PositiveProduct(0.5 - q, fw);
    } else if q > 0.5 {
      PositiveProduct(q - 0.5, fw);
    }
  }

  // ---------------------------------------------------------------------
  // get_person_points
  // ---------------------------------------------------------------------

  /** A slice bound as Python resolves it on an axis of length n: a
      negative bound counts from the end, then it is clamped to [0, n]. */
  function SliceBound(n: nat, i: int): (k: nat)
    ensures k <= n
    ensures 0 <= i <= n ==> k == i
    ensures -(n as int) <= i < 0 ==> k == n + i
    ensures i < -(n as int) ==> k == 0
    ensures i > n ==> k == n
  {
    if i < 0 then (if i + n < 0 then 0 else i + n)
    else if i > n then n
    else i
  }

  /** The length of `a[start:stop]` on an axis of length n. */
  function SliceLen(n: nat, start: int, stop: int): (len: nat)
    ensures len <= n
    ensures 0 <= start <= stop <= n ==> len == stop - start
    ensures 0 <= stop <= start ==> len == 0
  {
    var a := SliceBound(n, start);
    var b := SliceBound(n, stop);
    if b > a then b - a else 0
  }

  /** `get_person_points` after the model has run on the crop
      `frame[y1:y2, x1:x2]`: None for an empty crop or no face, else the
      nose as "mouth" and the right, else the left, index tip as "hand",
      scaled to the crop and shifted by the box's corner. */
  function PersonPoints(frameW: nat, frameH: nat, box: Box, lm: Holistic): (r: Option<PointDict>)
    ensures r.None? <==>
      SliceLen(frameH, box.y1, box.y2) == 0 || SliceLen(frameW, box.x1, box.x2) == 0 || lm.face.None?
    ensures r.Some? ==> r.value.Keys == {"hand", "mouth"} && r.value["mouth"].Some?
    ensures r.Some? ==> (r.value["hand"].None? <==> lm.rightHand.None? && lm.leftHand.None?)
  {
    var hh := SliceLen(frameH, box.y1, box.y2);
    var ww := SliceLen(frameW, box.x1, box.x2);
    if hh * ww == 0 then None
    else if lm.face.None? then None
    else
      var mouth := Offset(PixelCoords(lm.face.value.nose, ww, hh), box.x1, box.y1);
      var chosen := if lm.rightHand.Some? then lm.rightHand else lm.leftHand;
      var hand := if chosen.Some? then Some(Offset(PixelCoords(chosen.value.indexTip, ww, hh), box.x1, box.y1)) else None;
      Some(map["hand" := hand, "mouth" := Some(mouth)])
  }

  /** A landmark that lies inside the unit square. */
  predicate InUnitSquare(lm: Landmark) {
    0.0 <= lm.x < 1.0 && 0.0 <= lm.y < 1.0
  }

  /** For a box inside the frame, the points are in frame coordinates: the
      mouth is the nose landmark scaled into the crop and shifted by the
      box corner, and lies in the box; the hand is the right tip when
      there is one, else the left, and lies in the box too. */
  lemma {:induction false} PersonPointsInBox(frameW: nat, frameH: nat, box: Box, lm: Holistic)
    requires 0 <= box.x1 < box.x2 <= frameW && 0 <= box.y1 < box.y2 <= frameH
    requires lm.face.Some? && InUnitSquare(lm.face.value.nose)
    requires lm.rightHand.Some? ==> InUnitSquare(lm.rightHand.value.indexTip)
    requires lm.rightHand.None? && lm.leftHand.Some? ==> InUnitSquare(lm.leftHand.value.indexTip)
    ensures var r := PersonPoints(frameW, frameH, box, lm);
      var crop := Point(box.x2 - box.x1, box.y2 - box.y1);
      && r.Some?
      && r.value["mouth"] == Some(Offset(PixelCoords(lm.face.value.nose, crop.x, crop.y), box.x1, box.y1))
      && InBox(r.value["mouth"].value, box)
      && (lm.rightHand.Some? ==>
            r.value["hand"] == Some(Offset(PixelCoords(lm.rightHand.value.indexTip, crop.x, crop.y), box.x1, box.y1)))
      && (lm.rightHand.None? && lm.leftHand.Some? ==>
            r.value["hand"] == Some(Offset(PixelCoords(lm.leftHand.value.indexTip, crop.x, crop.y), box.x1, box.y1)))
      && (r.value["hand"].Some? ==> InBox(r.value["hand"].value, box))
  {
    var ww: nat := box.x2 - box.x1;
    var hh: nat := box.y2 - box.y1;
    assert SliceLen(frameW, box.x1, box.x2) == ww && SliceLen(frameH, box.y1, box.y2) == hh;
    PositiveNat(ww, hh);
    PixelInCrop(lm.face.value.nose, ww, hh);
    if lm.rightHand.Some? {
      PixelInCrop(lm.rightHand.value.indexTip, ww, hh);
    } else if lm.leftHand.Some? {
      PixelInCrop(lm.leftHand.value.indexTip, ww, hh);
    }
  }

  /** The half-open pixel box [x1, x2) x [y1, y2). */
  predicate InBox(p: Point, b: Box) {
    b.x1 <= p.x < b.x2 && b.y1 <= p.y < b.y2
  }

  lemma PositiveNat(a: nat, b: nat)
    requires a > 0 && b > 0
    ensures a * b != 0
  {
  }

  /** A landmark in the unit square lands on a pixel of the image. */
  lemma PixelInCrop(lm: Landmark, width: nat, height: nat)
    requires InUnitSquare(lm) && width > 0 && height > 0
    ensures 0 <= PixelCoords(lm, width, height).x < width
    ensures 0 <= PixelCoords(lm, width, height).y < height
  {
    AxisInRange(lm.x, width);
    AxisInRange(lm.y, height);
  }

  /** One axis of `PixelInCrop`: a coordinate in [0, 1) truncates to a
      pixel index of an axis of `n` pixels. */
  lemma AxisInRange(x: real, n: nat)
    requires 0.0 <= x < 1.0 && n > 0
    ensures 0 <= Trunc(x * n as real) < n
  {
    var r := x * n as real;
    ScaledBelow(x, n);
    assert 0.0 <= r < n as real;
    assert Trunc(r) as real <= r;
  }

  lemma ScaledBelow(x: real, n: nat)
    requires 0.0 <= x < 1.0 && n > 0
    ensures 0.0 <= x * n as real < n as real
  {
    assert n as real - x * n as real == (1.0 - x) * n as real;
    PositiveProduct(1.0 - x, n as real);
    if x > 0.0 {
      PositiveProduct(x, n as real);
    }
  }

  /** Python's crop is empty for a box reversed with a non-negative end
      (0 <= x2 <= x1, or 0 <= y2 <= y1) and for a box whose x bounds are
      both at or below -width, or whose y bounds are both at or below
      -height, so no points come back. A box with a negative end less than
      one frame out can still crop to a non-empty image, because a
      negative bound counts from the far edge. */
  /** A box left of the frame by less than its width is cropped from the
      right edge: 40 columns of a 640-px frame for x from -50 to -10. */
  lemma NegativeBoundsCropFromFarEdge()
    ensures SliceLen(640, -50, -10) == 40
    ensures SliceBound(640, -50) == 590
  {
  }

  lemma {:induction false} EmptyCropHasNoPoints(frameW: nat, frameH: nat, box: Box, lm: Holistic)
    requires || (0 <= box.x2 <= box.x1) || (box.x1 < box.x2 <= -(frameW as int))
             || (0 <= box.y2 <= box.y1) || (box.y1 < box.y2 <= -(frameH as int))
    ensures PersonPoints(frameW, frameH, box, lm).None?
  {
    if (0 <= box.x2 <= box.x1) || (box.x1 < box.x2 <= -(frameW as int)) {
      assert SliceLen(frameW, box.x1, box.x2) == 0;
    } else {
      assert SliceLen(frameH, box.y1, box.y2) == 0;
    }
  }
}
