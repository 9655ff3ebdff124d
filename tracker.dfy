/** The identity tracker of app/tracker.py: greedy matching of each new
    detection's top-left corner against the previous frame's tracks, fresh
    ids from a counter, and unmatched tracks dropped outright. */
module Tracker {
  import opened Common

  /** A raw detection tuple (x1, y1, x2, y2, conf, cls); the confidence is
      carried along and never inspected. */
  datatype Detection = Detection(x1: int, y1: int, x2: int, y2: int, conf: real, cls: int)

  /** One entry `oid: detection` of the tracker's `objects` dictionary. */
  datatype Entry = Entry(id: nat, det: Detection)

  /** One output tuple (oid, (x1, y1, x2, y2), cls, conf). */
  datatype Track = Track(id: nat, box: Box, cls: int, conf: real)

  /** Matching radius in pixels: `hypot(dx, dy) < 30` holds on integers
      exactly when `dx * dx + dy * dy < 30 * 30`. */
  const MATCH_RADIUS: nat := 30

  function TopLeft(d: Detection): Point {
    Point(d.x1, d.y1)
  }

  /** A previous-frame detection `prev` is close enough to claim `d`. */
  predicate Near(prev: Detection, d: Detection) {
    SqDist(TopLeft(prev), TopLeft(d)) < MATCH_RADIUS * MATCH_RADIUS
  }

  function ToTrack(e: Entry): Track {
    Track(e.id, Box(e.det.x1, e.det.y1, e.det.x2, e.det.y2), e.det.cls, e.det.conf)
  }

  // ---------------------------------------------------------------------
  // The `objects` dictionary: a sequence of entries in insertion order.
  // ---------------------------------------------------------------------

  function Ids(es: seq<Entry>): set<nat> {
    set i | 0 <= i < |es| :: es[i].id
  }

  predicate DistinctIds(es: seq<Entry>) {
    forall i, j :: 0 <= i < j < |es| ==> es[i].id != es[j].id
  }

  lemma IdsCons(e: Entry, es: seq<Entry>)
    ensures Ids([e] + es) == {e.id} + Ids(es)
  {
    var s := [e] + es;
    assert s[0].id == e.id;
    forall k | k in Ids(s) ensures k in {e.id} + Ids(es) {
      var i :| 0 <= i < |s| && s[i].id == k;
      if i > 0 { assert es[i - 1].id == k; }
    }
    forall k | k in Ids(es) ensures k in Ids(s) {
      var i :| 0 <= i < |es| && es[i].id == k;
      assert s[i + 1].id == k;
    }
  }

  /** `d[id]`: the detection stored under `id`, if any. */
  function Lookup(es: seq<Entry>, id: nat): (r: Option<Detection>)
    ensures r.Some? <==> id in Ids(es)
    ensures r.Some? ==> Entry(id, r.value) in es
  {
    if es == [] then None
    else
      IdsCons(es[0], es[1..]);
      assert es == [es[0]] + es[1..];
      if es[0].id == id then Some(es[0].det) else Lookup(es[1..], id)
  }

  /** `d[id] = det` on an insertion-ordered dictionary: an existing key is
      overwritten in place, a new key goes last. */
  function Put(es: seq<Entry>, id: nat, det: Detection): (r: seq<Entry>)
    ensures Ids(r) == Ids(es) + {id}
    ensures |r| <= |es| + 1
  {
    if es == [] then
      assert [Entry(id, det)][0].id == id;
      [Entry(id, det)]
    else
      IdsCons(es[0], es[1..]);
      assert es == [es[0]] + es[1..];
      if es[0].id == id then
        IdsCons(Entry(id, det), es[1..]);
        [Entry(id, det)] + es[1..]
      else
        var rest := Put(es[1..], id, det);
        IdsCons(es[0], rest);
        [es[0]] + rest
  }

  /** A new key is appended after all existing entries. */
  lemma {:induction false} PutNewKey(es: seq<Entry>, id: nat, det: Detection)
    requires id !in Ids(es)
    ensures Put(es, id, det) == es + [Entry(id, det)]
  {
    if es != [] {
      IdsCons(es[0], es[1..]);
      assert es == [es[0]] + es[1..];
      PutNewKey(es[1..], id, det);
    }
  }

  /** An existing key keeps its position; only its detection changes. */
  lemma {:induction false} PutExistingKey(es: seq<Entry>, id: nat, det: Detection)
    requires DistinctIds(es) && id in Ids(es)
    ensures var r := Put(es, id, det);
      |r| == |es| && forall i :: 0 <= i < |es| ==> r[i] == if es[i].id == id then Entry(id, det) else es[i]
  {
    IdsCons(es[0], es[1..]);
    assert es == [es[0]] + es[1..];
    if es[0].id != id {
      PutExistingKey(es[1..], id, det);
    }
  }

  /** Writing keeps the keys distinct. */
  lemma {:induction false} PutDistinct(es: seq<Entry>, id: nat, det: Detection)
    requires DistinctIds(es)
    ensures DistinctIds(Put(es, id, det))
  {
    if es != [] {
      IdsCons(es[0], es[1..]);
      assert es == [es[0]] + es[1..];
      if es[0].id != id {
        PutDistinct(es[1..], id, det);
        var rest := Put(es[1..], id, det);
        assert es[0].id !in Ids(es[1..]) by {
          forall i | 0 <= i < |es[1..]| ensures es[1..][i].id != es[0].id {
            assert es[1..][i] == es[i + 1];
          }
        }
        assert forall i :: 0 <= i < |rest| ==> rest[i].id in Ids(rest);
      } else {
        assert forall i :: 0 < i < |es| ==> es[i].id != id;
      }
    }
  }

  /** The written key reads back the new detection; every other key reads
      what it did before. */
  lemma {:induction false} PutLookup(es: seq<Entry>, id: nat, det: Detection)
    ensures Lookup(Put(es, id, det), id) == Some(det)
    ensures forall k :: k != id ==> Lookup(Put(es, id, det), k) == Lookup(es, k)
  {
    if es != [] {
      if es[0].id != id {
        PutLookup(es[1..], id, det);
        var r := Put(es, id, det);
        assert r[1..] == Put(es[1..], id, det);
      } else {
        var r := Put(es, id, det);
        assert r[1..] == es[1..];
      }
    } else {
      assert Put(es, id, det)[1..] == [];
    }
  }

  /** Assignment keeps the other entries and adds only the written one. */
  lemma {:induction false} PutEntries(es: seq<Entry>, id: nat, det: Detection)
    ensures forall e :: e in Put(es, id, det) ==> e in es || e == Entry(id, det)
  {
    if es != [] && es[0].id != id {
      PutEntries(es[1..], id, det);
    }
  }

  // ---------------------------------------------------------------------
  // Specification of `update`.
  // ---------------------------------------------------------------------

  /** Index of the first previous-frame entry, in dictionary order, close
      enough to claim `d`; `|objs|` when there is none. */
  function FirstNear(objs: seq<Entry>, d: Detection): (k: nat)
    ensures k <= |objs|
    ensures forall j :: 0 <= j < k ==> !Near(objs[j].det, d)
    ensures k < |objs| ==> Near(objs[k].det, d)
  {
    if objs == [] then 0
    else if Near(objs[0].det, d) then 0
    else 1 + FirstNear(objs[1..], d)
  }

  /** The id `d` takes over from the previous frame, if any. */
  function MatchId(objs: seq<Entry>, d: Detection): (r: Option<nat>)
    ensures r.None? <==> forall j :: 0 <= j < |objs| ==> !Near(objs[j].det, d)
    ensures r.Some? ==> r.value in Ids(objs)
  {
    var k := FirstNear(objs, d);
    if k < |objs| then Some(objs[k].id) else None
  }

  /** Result of `update`: the id given to each detection, the new `objects`
      dictionary and the new `next_id`. */
  datatype Assignment = Assignment(ids: seq<nat>, updated: seq<Entry>, nextId: nat)

  /** What `update` computes from the previous `objects`, the previous
      `next_id` and the detections of this frame, one detection at a time. */
  function Assign(objs: seq<Entry>, nextId: nat, dets: seq<Detection>): (a: Assignment)
    ensures |a.ids| == |dets|
    decreases |dets|
  {
    if dets == [] then Assignment([], [], nextId)
    else
      var a := Assign(objs, nextId, dets[..|dets| - 1]);
      var d := dets[|dets| - 1];
      match MatchId(objs, d)
      case Some(id) => Assignment(a.ids + [id], Put(a.updated, id, d), a.nextId)
      case None => Assignment(a.ids + [a.nextId], Put(a.updated, a.nextId, d), a.nextId + 1)
  }

  /** Number of detections no previous-frame entry can claim. */
  function Unmatched(objs: seq<Entry>, dets: seq<Detection>): nat
    decreases |dets|
  {
    if dets == [] then 0
    else Unmatched(objs, dets[..|dets| - 1]) + (if MatchId(objs, dets[|dets| - 1]).None? then 1 else 0)
  }

  function AssignedIds(a: Assignment): set<nat> {
    Elems(a.ids)
  }

  // ---------------------------------------------------------------------
  // Properties of `update`.
  // ---------------------------------------------------------------------

  /** `next_id` grows by exactly the number of unmatched detections. */
  lemma {:induction false} AssignNextId(objs: seq<Entry>, nextId: nat, dets: seq<Detection>)
    ensures Assign(objs, nextId, dets).nextId == nextId + Unmatched(objs, dets)
    decreases |dets|
  {
    if dets != [] {
      AssignNextId(objs, nextId, dets[..|dets| - 1]);
    }
  }

  /** Processing a prefix of the detections gives a prefix of the ids. */
  lemma {:induction false} AssignPrefix(objs: seq<Entry>, nextId: nat, dets: seq<Detection>, n: nat)
    requires n <= |dets|
    ensures Assign(objs, nextId, dets[..n]).ids == Assign(objs, nextId, dets).ids[..n]
    decreases |dets|
  {
    if n < |dets| {
      AssignPrefix(objs, nextId, dets[..|dets| - 1], n);
      assert dets[..|dets| - 1][..n] == dets[..n];
    } else {
      assert dets[..n] == dets;
    }
  }

  /** A matched detection takes the id of the first close previous-frame
      entry; the k-th unmatched detection (from 0) takes `next_id + k`. */
  lemma AssignIdOf(objs: seq<Entry>, nextId: nat, dets: seq<Detection>, i: nat)
    requires i < |dets|
    ensures Assign(objs, nextId, dets).ids[i] ==
      match MatchId(objs, dets[i])
      case Some(id) => id
      case None => nextId + Unmatched(objs, dets[..i])
  {
    AssignPrefix(objs, nextId, dets, i + 1);
    assert dets[..i + 1][..i] == dets[..i];
    AssignNextId(objs, nextId, dets[..i]);
  }

  /** Unmatched counts can only grow along a longer prefix. */
  lemma {:induction false} UnmatchedPrefix(objs: seq<Entry>, dets: seq<Detection>, i: nat, j: nat)
    requires i <= j <= |dets|
    ensures Unmatched(objs, dets[..i]) <= Unmatched(objs, dets[..j])
    decreases j - i
  {
    if i < j {
      UnmatchedPrefix(objs, dets, i, j - 1);
      assert dets[..j][..j - 1] == dets[..j - 1];
    }
  }

  /** Fresh ids are handed out in increasing order: two unmatched
      detections never share an id, even when they lie close together. */
  lemma FreshIdsIncrease(objs: seq<Entry>, nextId: nat, dets: seq<Detection>, i: nat, j: nat)
    requires i < j < |dets|
    requires MatchId(objs, dets[i]).None? && MatchId(objs, dets[j]).None?
    ensures Assign(objs, nextId, dets).ids[i] < Assign(objs, nextId, dets).ids[j]
  {
    AssignIdOf(objs, nextId, dets, i);
    AssignIdOf(objs, nextId, dets, j);
    UnmatchedPrefix(objs, dets, i + 1, j);
    assert dets[..i + 1][..i] == dets[..i];
  }

  /** Every assigned id is a previous-frame id or a fresh one in
      [next_id, new next_id). */
  lemma {:induction false} AssignIdsOrigin(objs: seq<Entry>, nextId: nat, dets: seq<Detection>)
    ensures var a := Assign(objs, nextId, dets);
      a.nextId >= nextId &&
      forall i :: 0 <= i < |a.ids| ==> a.ids[i] in Ids(objs) || nextId <= a.ids[i] < a.nextId
    decreases |dets|
  {
    if dets != [] {
      AssignIdsOrigin(objs, nextId, dets[..|dets| - 1]);
    }
  }

  /** One step of `Assign`: the last detection's id is appended to the ids
      and written into the dictionary. */
  lemma AssignStep(objs: seq<Entry>, nextId: nat, dets: seq<Detection>)
    requires dets != []
    ensures var n := |dets| - 1;
      var prev := Assign(objs, nextId, dets[..n]);
      var a := Assign(objs, nextId, dets);
      && a.ids == prev.ids + [a.ids[n]]
      && a.updated == Put(prev.updated, a.ids[n], dets[n])
      && AssignedIds(a) == AssignedIds(prev) + {a.ids[n]}
  {
    var n := |dets| - 1;
    var prev := Assign(objs, nextId, dets[..n]);
    var a := Assign(objs, nextId, dets);
    assert a.ids == prev.ids + [a.ids[n]];
    ElemsSnoc(prev.ids, a.ids[n]);
  }

  /** The dictionary built by writing `dets[i]` under `ids[i]`, in order,
      into an empty one. */
  function PutAll(ids: seq<nat>, dets: seq<Detection>): seq<Entry>
    requires |ids| == |dets|
    decreases |dets|
  {
    if dets == [] then []
    else Put(PutAll(ids[..|ids| - 1], dets[..|dets| - 1]), ids[|ids| - 1], dets[|dets| - 1])
  }

  /** `update` fills `updated_objects` by exactly these writes. */
  lemma {:induction false} AssignWrites(objs: seq<Entry>, nextId: nat, dets: seq<Detection>)
    ensures Assign(objs, nextId, dets).updated == PutAll(Assign(objs, nextId, dets).ids, dets)
    decreases |dets|
  {
    if dets != [] {
      var n := |dets| - 1;
      AssignWrites(objs, nextId, dets[..n]);
      AssignStep(objs, nextId, dets);
      var a := Assign(objs, nextId, dets);
      assert a.ids[..n] == Assign(objs, nextId, dets[..n]).ids;
    }
  }

  function Elems(ids: seq<nat>): set<nat> {
    set i | 0 <= i < |ids| :: ids[i]
  }

  lemma ElemsSnoc(ids: seq<nat>, x: nat)
    ensures Elems(ids + [x]) == Elems(ids) + {x}
  {
    var s := ids + [x];
    forall y | y in Elems(s) ensures y in Elems(ids) + {x} {
      var i :| 0 <= i < |s| && s[i] == y;
      if i < |ids| { assert ids[i] == y; }
    }
    forall y | y in Elems(ids) ensures y in Elems(s) {
      var i :| 0 <= i < |ids| && ids[i] == y;
      assert s[i] == y;
    }
    assert s[|ids|] == x;
  }

  /** The written dictionary has one entry per distinct id written. */
  lemma {:induction false} PutAllKeys(ids: seq<nat>, dets: seq<Detection>)
    requires |ids| == |dets|
    ensures Ids(PutAll(ids, dets)) == Elems(ids) && |PutAll(ids, dets)| <= |dets|
    decreases |dets|
  {
    if dets != [] {
      var n := |dets| - 1;
      var before := PutAll(ids[..n], dets[..n]);
      assert PutAll(ids, dets) == Put(before, ids[n], dets[n]);
      PutAllKeys(ids[..n], dets[..n]);
      ElemsSnoc(ids[..n], ids[n]);
      assert ids[..n] + [ids[n]] == ids;
    }
  }

  /** Each id is stored once, however often it was written. */
  lemma {:induction false} PutAllDistinct(ids: seq<nat>, dets: seq<Detection>)
    requires |ids| == |dets|
    ensures DistinctIds(PutAll(ids, dets))
    decreases |dets|
  {
    if dets != [] {
      var n := |dets| - 1;
      var before := PutAll(ids[..n], dets[..n]);
      assert PutAll(ids, dets) == Put(before, ids[n], dets[n]);
      PutAllDistinct(ids[..n], dets[..n]);
      PutDistinct(before, ids[n], dets[n]);
    }
  }

  /** Later writes win: an id is bound to the last detection written under it. */
  lemma {:induction false} PutAllLastWins(ids: seq<nat>, dets: seq<Detection>, j: nat)
    requires |ids| == |dets| && j < |dets|
    requires forall k :: j < k < |dets| ==> ids[k] != ids[j]
    ensures Lookup(PutAll(ids, dets), ids[j]) == Some(dets[j])
    decreases |dets|
  {
    var n := |dets| - 1;
    var before := PutAll(ids[..n], dets[..n]);
    assert PutAll(ids, dets) == Put(before, ids[n], dets[n]);
    PutLookup(before, ids[n], dets[n]);
    if j < n {
      assert ids[..n][j] == ids[j] && dets[..n][j] == dets[j];
      assert ids[n] != ids[j];
      forall k | j < k < n ensures ids[..n][k] != ids[..n][j] {
        assert ids[..n][k] == ids[k];
      }
      PutAllLastWins(ids[..n], dets[..n], j);
    }
  }

  /** Every entry written holds one of the written detections. */
  lemma {:induction false} PutAllEntries(ids: seq<nat>, dets: seq<Detection>)
    requires |ids| == |dets|
    ensures forall e :: e in PutAll(ids, dets) ==> e.det in dets
    decreases |dets|
  {
    if dets != [] {
      var n := |dets| - 1;
      PutAllEntries(ids[..n], dets[..n]);
      PutEntries(PutAll(ids[..n], dets[..n]), ids[n], dets[n]);
      assert forall d :: d in dets[..n] ==> d in dets;
    }
  }

  /** The new dictionary holds exactly the ids assigned in this call, each
      once, and has at most as many entries as there were detections. */
  lemma AssignStored(objs: seq<Entry>, nextId: nat, dets: seq<Detection>)
    ensures var a := Assign(objs, nextId, dets);
      && DistinctIds(a.updated)
      && Ids(a.updated) == AssignedIds(a)
      && |a.updated| <= |dets|
  {
    AssignWrites(objs, nextId, dets);
    PutAllKeys(Assign(objs, nextId, dets).ids, dets);
    PutAllDistinct(Assign(objs, nextId, dets).ids, dets);
  }

  /** Later writes win: each id assigned in this call is bound to the LAST
      detection that took it. */
  lemma AssignLastWins(objs: seq<Entry>, nextId: nat, dets: seq<Detection>)
    ensures var a := Assign(objs, nextId, dets);
      forall j :: 0 <= j < |dets| && (forall k :: j < k < |dets| ==> a.ids[k] != a.ids[j]) ==>
        Lookup(a.updated, a.ids[j]) == Some(dets[j])
  {
    var a := Assign(objs, nextId, dets);
    AssignWrites(objs, nextId, dets);
    forall j | 0 <= j < |dets| && (forall k :: j < k < |dets| ==> a.ids[k] != a.ids[j])
      ensures Lookup(a.updated, a.ids[j]) == Some(dets[j])
    {
      PutAllLastWins(a.ids, dets, j);
    }
  }

  /** Every stored entry holds one of this frame's detections. */
  lemma AssignStoresDetections(objs: seq<Entry>, nextId: nat, dets: seq<Detection>)
    ensures forall e :: e in Assign(objs, nextId, dets).updated ==> e.det in dets
  {
    AssignWrites(objs, nextId, dets);
    PutAllEntries(Assign(objs, nextId, dets).ids, dets);
  }

  /** Every stored id stays below the counter: the counter never hands out
      an id that is already in use. */
  lemma AssignBelowCounter(objs: seq<Entry>, nextId: nat, dets: seq<Detection>)
    requires forall i :: 0 <= i < |objs| ==> objs[i].id < nextId
    ensures var a := Assign(objs, nextId, dets);
      nextId <= a.nextId && forall i :: 0 <= i < |a.updated| ==> a.updated[i].id < a.nextId
  {
    var a := Assign(objs, nextId, dets);
    AssignIdsOrigin(objs, nextId, dets);
    AssignStored(objs, nextId, dets);
    forall i | 0 <= i < |a.updated| ensures a.updated[i].id < a.nextId {
      assert a.updated[i].id in Ids(a.updated);
      var j :| 0 <= j < |a.ids| && a.ids[j] == a.updated[i].id;
      if a.ids[j] in Ids(objs) {
        var k :| 0 <= k < |objs| && objs[k].id == a.ids[j];
      }
    }
  }

  /** A dropped id stays dropped: an id that was issued before (below
      `next_id`) and is no longer stored is neither handed out nor stored by
      the next update, and stays below the new `next_id`; so it never
      reappears. */
  lemma DroppedIdNeverReturns(objs: seq<Entry>, nextId: nat, dets: seq<Detection>)
    ensures var a := Assign(objs, nextId, dets);
      forall id :: id < nextId && id !in Ids(objs) ==>
        id !in AssignedIds(a) && id !in Ids(a.updated) && id < a.nextId
  {
    var a := Assign(objs, nextId, dets);
    AssignIdsOrigin(objs, nextId, dets);
    AssignStored(objs, nextId, dets);
  }

  /** What `update` keeps and changes, gathered for the tracker object. */
  lemma UpdateFacts(objs: seq<Entry>, nextId: nat, dets: seq<Detection>)
    requires forall i :: 0 <= i < |objs| ==> objs[i].id < nextId
    ensures var a := Assign(objs, nextId, dets);
      && DistinctIds(a.updated)
      && (forall i :: 0 <= i < |a.updated| ==> a.updated[i].id < a.nextId)
      && a.nextId == nextId + Unmatched(objs, dets)
      && Ids(a.updated) == AssignedIds(a)
      && |a.updated| <= |dets|
      && (forall id :: id < nextId && id !in Ids(objs) ==> id !in Ids(a.updated))
      && (dets == [] ==> a.updated == [] && a.nextId == nextId)
  {
    AssignStored(objs, nextId, dets);
    AssignNextId(objs, nextId, dets);
    DroppedIdNeverReturns(objs, nextId, dets);
    AssignBelowCounter(objs, nextId, dets);
  }

  /** A detection whose top-left corner stays within the radius of the
      track's previous one (and no earlier entry claims it) keeps the id. */
  lemma ContinuingTrackKeepsId(e: Entry, nextId: nat, d: Detection)
    requires Near(e.det, d)
    ensures var a := Assign([e], nextId, [d]);
      a.ids == [e.id] && a.updated == [Entry(e.id, d)] && a.nextId == nextId
  {
    assert [d][..0] == [];
  }

  /** A frame without detections empties the tracker; a detection in the
      following frame then gets a fresh id, whatever was stored before and
      wherever the detection lies. */
  lemma ReappearanceGetsFreshId(objs: seq<Entry>, nextId: nat, d: Detection)
    ensures var gone := Assign(objs, nextId, []);
      var back := Assign(gone.updated, gone.nextId, [d]);
      gone.updated == [] && gone.nextId == nextId &&
      back.ids == [nextId] && back.nextId == nextId + 1
  {
    assert [d][..0] == [];
  }

  /** The output has one track per stored entry, in dictionary order. */
  function Output(es: seq<Entry>): (r: seq<Track>)
    ensures |r| == |es|
    ensures forall i :: 0 <= i < |es| ==> r[i] == ToTrack(es[i])
    ensures DistinctIds(es) ==> forall i, j :: 0 <= i < j < |r| ==> r[i].id != r[j].id
  {
    seq(|es|, i requires 0 <= i < |es| => ToTrack(es[i]))
  }

  // ---------------------------------------------------------------------
  // The tracker object.
  // ---------------------------------------------------------------------

  class SimpleTracker {
    var nextId: nat
    var objects: seq<Entry>

    /** The dictionary has distinct keys, all issued by the counter. */
    predicate Valid()
      reads this
    {
      DistinctIds(objects) && forall i :: 0 <= i < |objects| ==> objects[i].id < nextId
    }

    constructor ()
      ensures Valid()
      ensures nextId == 0 && objects == []
    {
      nextId := 0;
      objects := [];
    }

    /** The inner loop of `update`: scans the stored entries in order and
        stops at the first one whose top-left corner is close to `det`. */
    method Claim(det: Detection) returns (claimed: Option<nat>)
      ensures claimed == MatchId(objects, det)
    {
      claimed := None;
      var j := 0;
      while j < |objects|
        invariant 0 <= j <= |objects|
        invariant claimed.None?
        invariant forall k :: 0 <= k < j ==> !Near(objects[k].det, det)
      {
        if SqDist(TopLeft(objects[j].det), TopLeft(det)) < MATCH_RADIUS * MATCH_RADIUS {
          claimed := Some(objects[j].id);
          break;
        }
        j := j + 1;
      }
      assert j < |objects| ==> FirstNear(objects, det) == j;
    }

    /** Matches this frame's detections against the previous frame's
        entries, replaces `objects` and returns the reshaped tracks. */
    method Update(detections: seq<Detection>) returns (tracked: seq<Track>)
      requires Valid()
      modifies this
      ensures Valid()
      ensures var a := Assign(old(objects), old(nextId), detections);
        objects == a.updated && nextId == a.nextId
      ensures nextId == old(nextId) + Unmatched(old(objects), detections)
      ensures Ids(objects) == AssignedIds(Assign(old(objects), old(nextId), detections))
      ensures forall id :: id < old(nextId) && id !in Ids(old(objects)) ==> id !in Ids(objects)
      ensures detections == [] ==> objects == [] && nextId == old(nextId)
      ensures tracked == Output(objects)
      ensures |tracked| <= |detections|
      ensures forall i, j :: 0 <= i < j < |tracked| ==> tracked[i].id != tracked[j].id
    {
      ghost var prev := objects;
      var updated: seq<Entry> := [];
      var n := 0;
      while n < |detections|
        invariant 0 <= n <= |detections|
        invariant objects == prev
        invariant updated == Assign(prev, old(nextId), detections[..n]).updated
        invariant nextId == Assign(prev, old(nextId), detections[..n]).nextId
      {
        var det := detections[n];
        var claimed := Claim(det);
        var id: nat;
        if claimed.None? {
          id := nextId;
          nextId := nextId + 1;
        } else {
          id := claimed.value;
        }
        updated := Put(updated, id, det);
        assert detections[..n + 1][..n] == detections[..n];
        n := n + 1;
      }
      assert detections[..n] == detections;
      objects := updated;

      UpdateFacts(prev, old(nextId), detections);
      tracked := Report();
    }

    /** The output loop of `update`: one track per stored entry, in order. */
    method Report() returns (tracked: seq<Track>)
      ensures tracked == Output(objects)
    {
      tracked := [];
      var k := 0;
      while k < |objects|
        invariant 0 <= k <= |objects|
        invariant |tracked| == k
        invariant forall m :: 0 <= m < k ==> tracked[m] == ToTrack(objects[m])
      {
        var e := objects[k];
        tracked := tracked + [Track(e.id, Box(e.det.x1, e.det.y1, e.det.x2, e.det.y2), e.det.cls, e.det.conf)];
        k := k + 1;
      }
    }
  }
}
