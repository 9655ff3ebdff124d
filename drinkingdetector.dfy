/** The stateless drinking test of app/drinkingdetector.py: a hand close
    to the mouth and some bottle centre close to the hand. Distances are
    compared on squares, so every point stays an integer pixel. */
module DrinkingDetector {
  import opened Common

  /** The distance `_distance` reports when a point is missing. */
  const MISSING_DISTANCE: nat := 9999

  /** Largest hand-to-mouth distance that still counts (inclusive). */
  const HAND_MOUTH_LIMIT: nat := 80

  /** Hand-to-bottle-centre distances strictly below this count. */
  const HAND_BOTTLE_LIMIT: nat := 120

  /** `_distance` squared: the sentinel 9999 when either point is missing,
      otherwise the squared Euclidean distance. */
  function DistanceSq(p1: Option<Point>, p2: Option<Point>): (r: nat)
    ensures p1.Some? && p2.Some? ==> (r == 0 <==> p1.value == p2.value)
    ensures p1.None? || p2.None? ==> r == MISSING_DISTANCE * MISSING_DISTANCE
  {
    if p1.None? || p2.None? then MISSING_DISTANCE * MISSING_DISTANCE
    else SqDist(p1.value, p2.value)
  }

  /** A missing point is farther than both thresholds. */
  lemma MissingPointIsFar(p: Option<Point>)
    ensures DistanceSq(None, p) > HAND_MOUTH_LIMIT * HAND_MOUTH_LIMIT
    ensures DistanceSq(p, None) >= HAND_BOTTLE_LIMIT * HAND_BOTTLE_LIMIT
  {
  }

  /** `_center`: no centre for a missing box, else the floor-division
      midpoint. */
  function Center(box: Option<Box>): (c: Option<Point>)
    ensures c.Some? <==> box.Some?
    ensures c.Some? ==> 2 * c.value.x <= box.value.x1 + box.value.x2 < 2 * c.value.x + 2
    ensures c.Some? ==> 2 * c.value.y <= box.value.y1 + box.value.y2 < 2 * c.value.y + 2
  {
    if box.None? then None else Some(Midpoint(box.value))
  }

  /** On non-negative distances the source's two tests on `sqrt` are the
      tests on squares used here. */
  lemma SquaredThresholds(d: real)
    requires d >= 0.0
    ensures d > 80.0 <==> d * d > 6400.0
    ensures d < 120.0 <==> d * d < 14400.0
  {
    RootComparison(80.0, d);
    RootComparison(d, 120.0);
  }

  /** A bottle whose centre is strictly within 120 px of the hand. */
  predicate BottleNear(hand: Point, b: Option<Box>)
    ensures BottleNear(hand, b) <==> b.Some? && SqDist(hand, Midpoint(b.value)) < 14400
  {
    var c := Center(b);
    c.Some? && DistanceSq(Some(hand), c) < HAND_BOTTLE_LIMIT * HAND_BOTTLE_LIMIT
  }

  /** The early-return loop over the bottle list, front to back. */
  function AnyBottleNear(hand: Point, bottles: seq<Option<Box>>): (r: bool)
    ensures r <==> exists i :: 0 <= i < |bottles| && BottleNear(hand, bottles[i])
    decreases |bottles|
  {
    if bottles == [] then false
    else if BottleNear(hand, bottles[0]) then true
    else
      var rest := AnyBottleNear(hand, bottles[1..]);
      assert forall i :: 1 <= i < |bottles| ==> bottles[i] == bottles[1..][i - 1];
      rest
  }

  /** `detect_drinking`, with the key checks, the None checks, the
      hand-to-mouth test and then the bottle search. */
  function DetectDrinking(person: PointDict, bottles: seq<Option<Box>>): (r: bool)
    ensures r <==>
      && "hand" in person && "mouth" in person
      && person["hand"].Some? && person["mouth"].Some?
      && SqDist(person["hand"].value, person["mouth"].value) <= 6400
      && exists i :: 0 <= i < |bottles| && BottleNear(person["hand"].value, bottles[i])
    ensures bottles == [] ==> !r
  {
    if "hand" !in person || "mouth" !in person then false
    else
      var hand := person["hand"];
      var mouth := person["mouth"];
      if hand.None? || mouth.None? then false
      else if DistanceSq(hand, mouth) > HAND_MOUTH_LIMIT * HAND_MOUTH_LIMIT then false
      else AnyBottleNear(hand.value, bottles)
  }

  /** The search is existential: only which bottles are present matters,
      not their order or repetitions. */
  lemma {:induction false} DrinkingIgnoresBottleOrder(person: PointDict, b1: seq<Option<Box>>, b2: seq<Option<Box>>)
    requires forall b :: b in b1 <==> b in b2
    ensures DetectDrinking(person, b1) == DetectDrinking(person, b2)
  {
    if "hand" in person && person["hand"].Some? {
      var hand := person["hand"].value;
      AnyBottleNearSubset(hand, b1, b2);
      AnyBottleNearSubset(hand, b2, b1);
    }
  }

  lemma AnyBottleNearSubset(hand: Point, b1: seq<Option<Box>>, b2: seq<Option<Box>>)
    requires forall b :: b in b1 ==> b in b2
    ensures AnyBottleNear(hand, b1) ==> AnyBottleNear(hand, b2)
  {
    if AnyBottleNear(hand, b1) {
      var i :| 0 <= i < |b1| && BottleNear(hand, b1[i]);
      assert b1[i] in b2;
      var j :| 0 <= j < |b2| && b2[j] == b1[i];
      assert BottleNear(hand, b2[j]);
    }
  }

  /** The mouth boundary is inclusive: 80 px passes, 81 px does not. */
  lemma MouthThresholdBoundary()
    ensures DetectDrinking(map["hand" := Some(Point(0, 0)), "mouth" := Some(Point(80, 0))],
                           [Some(Box(119, 0, 119, 0))])
    ensures !DetectDrinking(map["hand" := Some(Point(0, 0)), "mouth" := Some(Point(81, 0))],
                            [Some(Box(0, 0, 0, 0))])
  {
    var near := map["hand" := Some(Point(0, 0)), "mouth" := Some(Point(80, 0))];
    assert near["hand"] == Some(Point(0, 0)) && near["mouth"] == Some(Point(80, 0));
    assert BottleNear(Point(0, 0), Some(Box(119, 0, 119, 0)));
    assert AnyBottleNear(Point(0, 0), [Some(Box(119, 0, 119, 0))]);
    var far := map["hand" := Some(Point(0, 0)), "mouth" := Some(Point(81, 0))];
    assert far["hand"] == Some(Point(0, 0)) && far["mouth"] == Some(Point(81, 0));
  }

  /** The bottle boundary is strict: a centre 120 px from the hand does not
      count, and a None entry is skipped. */
  lemma BottleThresholdBoundary()
    ensures !DetectDrinking(map["hand" := Some(Point(0, 0)), "mouth" := Some(Point(0, 0))],
                            [None, Some(Box(120, 0, 120, 0))])
  {
    var same := map["hand" := Some(Point(0, 0)), "mouth" := Some(Point(0, 0))];
    assert same["hand"] == Some(Point(0, 0));
    var b := [None, Some(Box(120, 0, 120, 0))];
    assert !BottleNear(Point(0, 0), b[0]) && !BottleNear(Point(0, 0), b[1]);
    assert !AnyBottleNear(Point(0, 0), b);
  }

  /** A None hand or a missing "hand" key fails even with a bottle on it. */
  lemma MissingHandFails()
    ensures !DetectDrinking(map["hand" := None, "mouth" := Some(Point(0, 0))], [Some(Box(0, 0, 0, 0))])
    ensures !DetectDrinking(map["mouth" := Some(Point(0, 0))], [Some(Box(0, 0, 0, 0))])
  {
    var none := map["hand" := None, "mouth" := Some(Point(0, 0))];
    assert none["hand"].None?;
    var missing := map["mouth" := Some(Point(0, 0))];
    assert "hand" !in missing;
  }
}
