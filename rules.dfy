/** The zone / loiter monitor of app/rules.py: an even-odd ray-casting test
    of each track's box centre against a polygon, and a per-track presence
    map that yields entered, loitering and left events. */
module Rules {
  import opened Common
  import opened Tracker

  /** The zone configured in main.py and app/cctvprocessor.py. */
  const CONFIGURED_ZONE: seq<Point> := [Point(100, 100), Point(500, 100), Point(500, 400), Point(100, 400)]

  /** The constructor's default dwell threshold. */
  const DEFAULT_LOITER_SECONDS: real := 10.0

  /** The dwell threshold main.py passes. */
  const DEMO_LOITER_SECONDS: real := 8.0

  function Min(a: int, b: int): int {
    if a < b then a else b
  }

  function Max(a: int, b: int): int {
    if a < b then b else a
  }

  // ---------------------------------------------------------------------
  // Ray casting.
  // ---------------------------------------------------------------------

  /** The edge from `a` to `b` crosses the horizontal line through `y`,
      counting its upper end and not its lower one; such an edge is never
      horizontal, so the source's `else p1x` fallback is never taken and
      its division never divides by zero. */
  predicate Straddles(a: Point, b: Point, y: int)
    ensures Straddles(a, b, y) ==> a.y != b.y
  {
    Min(a.y, b.y) < y <= Max(a.y, b.y)
  }

  /** The `xinters` of the source: where the edge's supporting line meets
      the horizontal line through `y`, in exact arithmetic. */
  function XIntersect(a: Point, b: Point, y: int): real {
    if a.y != b.y then a.x as real + ((y - a.y) * (b.x - a.x)) as real / (b.y - a.y) as real
    else a.x as real
  }

  /** The edge from `a` to `b` flips the inside flag for point `p`. */
  predicate Toggles(a: Point, b: Point, p: Point) {
    Straddles(a, b, p.y) && p.x as real <= XIntersect(a, b, p.y)
  }

  /** How many of the first `k` edges flip the flag; edge `i` (counted from
      1) joins `poly[i - 1]` to `poly[i % |poly|]`, the last edge closing the
      polygon. */
  function Crossings(poly: seq<Point>, p: Point, k: nat): (c: nat)
    requires 0 < |poly| && k <= |poly|
    ensures c <= k
  {
    if k == 0 then 0
    else Crossings(poly, p, k - 1) + (if Toggles(poly[k - 1], poly[k % |poly|], p) then 1 else 0)
  }

  lemma ParityStep(c: nat)
    ensures (c + 1) % 2 == 1 <==> c % 2 != 1
  {
  }

  lemma NextVertex(i: nat, n: nat)
    requires 0 < i <= n
    ensures i % n == if i < n then i else 0
  {
  }

  /** The even-odd rule: a point is inside when an odd number of edges flip
      the flag. */
  predicate InPolygon(poly: seq<Point>, p: Point)
    requires 0 < |poly|
  {
    Crossings(poly, p, |poly|) % 2 == 1
  }

  /** On the configured zone the test reads as a half-open rectangle: the
      left and top borders are outside, the right and bottom ones inside. */
  lemma ConfiguredZoneIsHalfOpenRectangle(p: Point)
    ensures InPolygon(CONFIGURED_ZONE, p) <==> 100 < p.x <= 500 && 100 < p.y <= 400
  {
    var z := CONFIGURED_ZONE;
    assert !Toggles(z[0], z[1], p);
    assert XIntersect(z[1], z[2], p.y) == 500.0;
    assert Toggles(z[1], z[2], p) <==> 100 < p.y <= 400 && p.x <= 500;
    assert !Toggles(z[2], z[3], p);
    assert XIntersect(z[3], z[0], p.y) == 100.0;
    assert Toggles(z[3], z[0], p) <==> 100 < p.y <= 400 && p.x <= 100;
    assert Crossings(z, p, 1) == 0;
    assert Crossings(z, p, 2) == if Toggles(z[1], z[2], p) then 1 else 0;
    assert Crossings(z, p, 3) == Crossings(z, p, 2);
    assert Crossings(z, p, 4) == Crossings(z, p, 3) + if Toggles(z[3], z[0], p) then 1 else 0;
  }

  /** The two sample points of the configured zone. */
  lemma ConfiguredZoneSamples()
    ensures InPolygon(CONFIGURED_ZONE, Point(300, 300))
    ensures !InPolygon(CONFIGURED_ZONE, Point(0, 0))
  {
    ConfiguredZoneIsHalfOpenRectangle(Point(300, 300));
    ConfiguredZoneIsHalfOpenRectangle(Point(0, 0));
  }

  // ---------------------------------------------------------------------
  // Presence and events.
  // ---------------------------------------------------------------------

  /** One `{in_zone, enter_time}` entry of the presence map. */
  datatype Presence = Presence(inZone: bool, enterTime: Option<real>)

  /** The events of the source, without their text. */
  datatype ZoneEvent = Entered(id: nat) | Loitering(id: nat) | Left(id: nat, duration: real)

  /** The presence invariant: a track is in the zone exactly when it has an
      entry time. */
  predicate Consistent(p: Presence) {
    p.inZone <==> p.enterTime.Some?
  }

  /** Python's `enter_time or t`: the stored time, unless it is None or the
      falsy value 0.0, in which case `t`. */
  function EnterTimeOr(e: Option<real>, t: real): real {
    if e.None? || e.value == 0.0 then t else e.value
  }

  datatype TrackOutcome = TrackOutcome(presence: Presence, events: seq<ZoneEvent>)

  /** One iteration of `update` for a track with stored entry `p` whose box
      centre is (`inZone`) or is not in the zone: the enter check, then the
      loiter check on the stored flag, then the exit check. */
  function ObserveTrack(p: Presence, inZone: bool, id: nat, t: real, loiterSeconds: real): TrackOutcome {
    var (p1, e1) := if inZone && !p.inZone then (Presence(true, Some(t)), [Entered(id)]) else (p, []);
    var (p2, e2) :=
      if p1.inZone && t - EnterTimeOr(p1.enterTime, t) > loiterSeconds
      then (p1.(enterTime := Some(t)), [Loitering(id)])
      else (p1, []);
    var (p3, e3) :=
      if !inZone && p2.inZone
      then (Presence(false, None), [Left(id, t - EnterTimeOr(p2.enterTime, t))])
      else (p2, []);
    TrackOutcome(p3, e1 + e2 + e3)
  }

  /** The entry a track starts from: its stored one, or the fresh
      `{in_zone: False, enter_time: None}` on first sight. */
  function Stored(presence: map<nat, Presence>, id: nat): Presence {
    if id in presence then presence[id] else Presence(false, None)
  }

  datatype ZoneOutcome = ZoneOutcome(presence: map<nat, Presence>, events: seq<ZoneEvent>)

  /** What `update` computes: tracks are observed in list order, each from
      the entry left by the tracks before it, and events are concatenated in
      that order. */
  function MonitorUpdate(poly: seq<Point>, loiterSeconds: real, presence: map<nat, Presence>,
                         tracked: seq<Track>, t: real): ZoneOutcome
    requires tracked != [] ==> 0 < |poly|
    decreases |tracked|
  {
    if tracked == [] then ZoneOutcome(presence, [])
    else
      var prev := MonitorUpdate(poly, loiterSeconds, presence, tracked[..|tracked| - 1], t);
      var tr := tracked[|tracked| - 1];
      var o := ObserveTrack(Stored(prev.presence, tr.id), InPolygon(poly, Midpoint(tr.box)), tr.id, t, loiterSeconds);
      ZoneOutcome(prev.presence[tr.id := o.presence], prev.events + o.events)
  }

  function TrackIds(tracked: seq<Track>): set<nat> {
    set i | 0 <= i < |tracked| :: tracked[i].id
  }

  // ---------------------------------------------------------------------
  // Properties of one observation.
  // ---------------------------------------------------------------------

  /** Each observation keeps the presence invariant, and a first-seen entry
      satisfies it. */
  lemma ObserveKeepsConsistent(p: Presence, inZone: bool, id: nat, t: real, loiterSeconds: real)
    requires Consistent(p)
    ensures Consistent(ObserveTrack(p, inZone, id, t, loiterSeconds).presence)
    ensures Consistent(Presence(false, None))
  {
  }

  /** A track turning inside emits only "entered" and records `t`; with a
      non-negative threshold it cannot also loiter-alert in that call. */
  lemma EnteringTrackDoesNotLoiter(p: Presence, id: nat, t: real, loiterSeconds: real)
    requires !p.inZone && loiterSeconds >= 0.0
    ensures ObserveTrack(p, true, id, t, loiterSeconds) == TrackOutcome(Presence(true, Some(t)), [Entered(id)])
  {
  }

  /** A track that stays inside alerts exactly when more than the
      threshold has passed since its recorded time (strictly), and the
      alert moves that time to `t`, so the next alert needs another full
      period. */
  lemma StayingTrackLoitersPeriodically(p: Presence, id: nat, t: real, loiterSeconds: real)
    requires p.inZone
    ensures var o := ObserveTrack(p, true, id, t, loiterSeconds);
      var fires := t - EnterTimeOr(p.enterTime, t) > loiterSeconds;
      o.events == (if fires then [Loitering(id)] else []) &&
      o.presence == (if fires then Presence(true, Some(t)) else p)
  {
  }

  /** The loiter check reads the stored flag before the exit check, so a
      track leaving after an overdue stay first alerts, then reports a stay
      of 0 seconds; otherwise it reports the time since its recorded time. */
  lemma LeavingTrack(p: Presence, id: nat, t: real, loiterSeconds: real)
    requires p.inZone
    ensures var o := ObserveTrack(p, false, id, t, loiterSeconds);
      var since := t - EnterTimeOr(p.enterTime, t);
      o.presence == Presence(false, None) &&
      o.events == (if since > loiterSeconds then [Loitering(id), Left(id, 0.0)] else [Left(id, since)])
  {
  }

  /** A track recorded at time exactly 0 is treated as if it had no time:
      with a non-negative threshold it never loiter-alerts, and it reports a
      stay of 0 seconds when it leaves. */
  lemma ZeroEnterTimeNeverLoiters(inZone: bool, id: nat, t: real, loiterSeconds: real)
    requires loiterSeconds >= 0.0
    ensures var o := ObserveTrack(Presence(true, Some(0.0)), inZone, id, t, loiterSeconds);
      Loitering(id) !in o.events &&
      (inZone ==> o.presence == Presence(true, Some(0.0))) &&
      (!inZone ==> o.events == [Left(id, 0.0)])
  {
  }

  /** A track outside that stays outside changes nothing and emits nothing. */
  lemma OutsideTrackIsQuiet(p: Presence, id: nat, t: real, loiterSeconds: real)
    requires !p.inZone
    ensures ObserveTrack(p, false, id, t, loiterSeconds) == TrackOutcome(p, [])
  {
  }

  /** Position of an event kind in the order of the checks. */
  function Rank(e: ZoneEvent): nat {
    match e
    case Entered(_) => 0
    case Loitering(_) => 1
    case Left(_, _) => 2
  }

  /** Within one observation the events are about the observed track and
      come in the order enter, loiter, exit, each at most once; a track
      never both enters and leaves in one observation. */
  lemma ObservationEventOrder(p: Presence, inZone: bool, id: nat, t: real, loiterSeconds: real)
    ensures var o := ObserveTrack(p, inZone, id, t, loiterSeconds);
      && (forall e :: e in o.events ==> e.id == id)
      && (forall i, j :: 0 <= i < j < |o.events| ==> Rank(o.events[i]) < Rank(o.events[j]))
      && (Entered(id) in o.events ==> forall e :: e in o.events ==> !e.Left?)
  {
  }

  // ---------------------------------------------------------------------
  // Properties of a whole update.
  // ---------------------------------------------------------------------

  /** Every entry of the presence map keeps the presence invariant. */
  lemma {:induction false} MonitorKeepsConsistent(poly: seq<Point>, loiterSeconds: real, presence: map<nat, Presence>,
                                                 tracked: seq<Track>, t: real)
    requires tracked != [] ==> 0 < |poly|
    requires forall id :: id in presence ==> Consistent(presence[id])
    ensures forall id :: id in MonitorUpdate(poly, loiterSeconds, presence, tracked, t).presence ==>
      Consistent(MonitorUpdate(poly, loiterSeconds, presence, tracked, t).presence[id])
    decreases |tracked|
  {
    if tracked != [] {
      var prev := MonitorUpdate(poly, loiterSeconds, presence, tracked[..|tracked| - 1], t);
      MonitorKeepsConsistent(poly, loiterSeconds, presence, tracked[..|tracked| - 1], t);
      var tr := tracked[|tracked| - 1];
      if tr.id in prev.presence {
        assert Consistent(prev.presence[tr.id]);
      }
      ObserveKeepsConsistent(Stored(prev.presence, tr.id), InPolygon(poly, Midpoint(tr.box)), tr.id, t, loiterSeconds);
    }
  }

  /** The map gains an entry for every listed track, and a track absent
      from the list keeps its entry unchanged. */
  lemma {:induction false} MonitorLeavesAbsentTracks(poly: seq<Point>, loiterSeconds: real, presence: map<nat, Presence>,
                                                    tracked: seq<Track>, t: real)
    requires tracked != [] ==> 0 < |poly|
    ensures var o := MonitorUpdate(poly, loiterSeconds, presence, tracked, t);
      o.presence.Keys == presence.Keys + TrackIds(tracked) &&
      forall id :: id in presence && id !in TrackIds(tracked) ==> o.presence[id] == presence[id]
    decreases |tracked|
  {
    if tracked != [] {
      var init := tracked[..|tracked| - 1];
      MonitorLeavesAbsentTracks(poly, loiterSeconds, presence, init, t);
      assert TrackIds(tracked) == TrackIds(init) + {tracked[|tracked| - 1].id} by {
        forall x | x in TrackIds(tracked) ensures x in TrackIds(init) + {tracked[|tracked| - 1].id} {
          var i :| 0 <= i < |tracked| && tracked[i].id == x;
          if i < |tracked| - 1 { assert init[i].id == x; }
        }
        forall x | x in TrackIds(init) ensures x in TrackIds(tracked) {
          var i :| 0 <= i < |init| && init[i].id == x;
          assert tracked[i].id == x;
        }
      }
    }
  }

  /** The source's rule applied to a track that first enters at t = 1 and
      stays in the configured zone, with main.py's threshold of 8 s: one
      alert at t = 9.5 (8.5 s after entering), the next at t = 18 (8.5 s
      after the first alert), none in between. */
  lemma PeriodicLoiterScenario(id: nat)
    ensures var box := Box(280, 280, 320, 320);
      var o1 := ObserveTrack(Presence(false, None), InPolygon(CONFIGURED_ZONE, Midpoint(box)), id, 1.0, DEMO_LOITER_SECONDS);
      var o2 := ObserveTrack(o1.presence, true, id, 5.0, DEMO_LOITER_SECONDS);
      var o3 := ObserveTrack(o2.presence, true, id, 9.5, DEMO_LOITER_SECONDS);
      var o4 := ObserveTrack(o3.presence, true, id, 12.0, DEMO_LOITER_SECONDS);
      var o5 := ObserveTrack(o4.presence, true, id, 18.0, DEMO_LOITER_SECONDS);
      [o1.events, o2.events, o3.events, o4.events, o5.events] ==
        [[Entered(id)], [], [Loitering(id)], [], [Loitering(id)]]
  {
    var box := Box(280, 280, 320, 320);
    assert Midpoint(box) == Point(300, 300);
    ConfiguredZoneIsHalfOpenRectangle(Point(300, 300));
    var o1 := ObserveTrack(Presence(false, None), true, id, 1.0, DEMO_LOITER_SECONDS);
    assert o1 == TrackOutcome(Presence(true, Some(1.0)), [Entered(id)]);
    var o2 := ObserveTrack(o1.presence, true, id, 5.0, DEMO_LOITER_SECONDS);
    assert o2 == TrackOutcome(Presence(true, Some(1.0)), []);
    var o3 := ObserveTrack(o2.presence, true, id, 9.5, DEMO_LOITER_SECONDS);
    assert o3 == TrackOutcome(Presence(true, Some(9.5)), [Loitering(id)]);
    var o4 := ObserveTrack(o3.presence, true, id, 12.0, DEMO_LOITER_SECONDS);
    assert o4 == TrackOutcome(Presence(true, Some(9.5)), []);
    var o5 := ObserveTrack(o4.presence, true, id, 18.0, DEMO_LOITER_SECONDS);
    assert o5.events == [Loitering(id)];
  }

  // ---------------------------------------------------------------------
  // The monitor object.
  // ---------------------------------------------------------------------

  class ZoneMonitor {
    const poly: seq<Point>
    const loiterSeconds: real
    var presence: map<nat, Presence>

    /** Every stored entry satisfies the presence invariant. */
    predicate Valid()
      reads this
    {
      forall id :: id in presence ==> Consistent(presence[id])
    }

    constructor (polygon: seq<Point>, loiterSeconds: real := DEFAULT_LOITER_SECONDS)
      ensures Valid()
      ensures poly == polygon && this.loiterSeconds == loiterSeconds && presence == map[]
    {
      poly := polygon;
      this.loiterSeconds := loiterSeconds;
      presence := map[];
    }

    /** Even-odd ray casting over the edges in order, flipping the flag at
        every edge that crosses the horizontal ray to the right of (cx, cy).
        The source indexes `poly[0]`, so the polygon must not be empty. */
    method Inside(cx: int, cy: int) returns (inside: bool)
      requires 0 < |poly|
      ensures inside == InPolygon(poly, Point(cx, cy))
    {
      var x, y := cx, cy;
      inside := false;
      var n := |poly|;
      var p1x, p1y := poly[0].x, poly[0].y;
      for i := 1 to n + 1
        invariant inside == (Crossings(poly, Point(x, y), i - 1) % 2 == 1)
        invariant Point(p1x, p1y) == if i <= n then poly[i - 1] else poly[0]
      {
        NextVertex(i, n);
        var p2x, p2y := poly[i % n].x, poly[i % n].y;
        ghost var before := Crossings(poly, Point(x, y), i - 1);
        ghost var flips := Toggles(Point(p1x, p1y), Point(p2x, p2y), Point(x, y));
        assert Crossings(poly, Point(x, y), i) == before + (if flips then 1 else 0);
        ParityStep(before);
        if y > Min(p1y, p2y) && y <= Max(p1y, p2y) {
          var xinters := XIntersect(Point(p1x, p1y), Point(p2x, p2y), y);
          if x as real <= xinters {
            inside := !inside;
          }
        }
        p1x, p1y := p2x, p2y;
      }
    }

    /** The body of `update`'s loop for one track: centre, zone test,
        first-sight entry, then the enter, loiter and exit checks on the
        entry, which is written back. */
    method Observe(tr: Track, t: real) returns (events: seq<ZoneEvent>)
      requires Valid()
      requires 0 < |poly|
      modifies this
      ensures Valid()
      ensures var o := ObserveTrack(Stored(old(presence), tr.id), InPolygon(poly, Midpoint(tr.box)), tr.id, t, loiterSeconds);
        presence == old(presence)[tr.id := o.presence] && events == o.events
    {
      var c := Midpoint(tr.box);
      var inZone := Inside(c.x, c.y);
      if tr.id !in presence {
        presence := presence[tr.id := Presence(false, None)];
      }
      var p := presence[tr.id];
      events := [];
      if inZone && !p.inZone {
        p := Presence(true, Some(t));
        events := events + [Entered(tr.id)];
      }
      if p.inZone && t - EnterTimeOr(p.enterTime, t) > loiterSeconds {
        events := events + [Loitering(tr.id)];
        p := p.(enterTime := Some(t));
      }
      if !inZone && p.inZone {
        var dur := t - EnterTimeOr(p.enterTime, t);
        p := Presence(false, None);
        events := events + [Left(tr.id, dur)];
      }
      presence := presence[tr.id := p];
      ObserveKeepsConsistent(Stored(old(presence), tr.id), InPolygon(poly, Midpoint(tr.box)), tr.id, t, loiterSeconds);
    }

    /** Observes every listed track at time `t` and returns the events, in
        list order. */
    method Update(tracked: seq<Track>, t: real) returns (events: seq<ZoneEvent>)
      requires Valid()
      requires tracked != [] ==> 0 < |poly|
      modifies this
      ensures Valid()
      ensures var o := MonitorUpdate(poly, loiterSeconds, old(presence), tracked, t);
        presence == o.presence && events == o.events
      ensures presence.Keys == old(presence).Keys + TrackIds(tracked)
      ensures forall id :: id in old(presence) && id !in TrackIds(tracked) ==> presence[id] == old(presence)[id]
    {
      events := [];
      var i := 0;
      while i < |tracked|
        invariant 0 <= i <= |tracked|
        invariant Valid()
        invariant var o := MonitorUpdate(poly, loiterSeconds, old(presence), tracked[..i], t);
          presence == o.presence && events == o.events
      {
        var tr := tracked[i];
        var trackEvents := Observe(tr, t);
        events := events + trackEvents;
        assert tracked[..i + 1][..i] == tracked[..i];
        i := i + 1;
      }
      assert tracked[..i] == tracked;
      MonitorKeepsConsistent(poly, loiterSeconds, old(presence), tracked, t);
      MonitorLeavesAbsentTracks(poly, loiterSeconds, old(presence), tracked, t);
    }
  }
}
