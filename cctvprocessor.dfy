/** The per-frame decision logic of app/cctvprocessor.py: the person-class
    filter in front of the tracker, the global smoking confirmation state
    machine and the one-session-at-a-time evidence recorder. */
module CctvProcessor {
  import opened Tracker

  const RECORDING_DURATION: real := 5.0
  const SMOKE_WINDOW_SECONDS: real := 3.0

  /** Only class 0 (person) is passed on to the tracker. */
  const TARGET_CLASSES: seq<int> := [0]

  // ---------------------------------------------------------------------
  // Person filter.
  // ---------------------------------------------------------------------

  /** `[d for d in dets if d[5] in TARGET_CLASSES]`: exactly the person
      detections, each as often as it occurs in the input. */
  function PersonDetections(dets: seq<Detection>): (r: seq<Detection>)
    ensures |r| <= |dets|
    ensures forall d :: d in r ==> d.cls == 0
    ensures forall d :: multiset(r)[d] == if d.cls == 0 then multiset(dets)[d] else 0
    decreases |dets|
  {
    if dets == [] then []
    else
      var init := dets[..|dets| - 1];
      var last := dets[|dets| - 1];
      assert dets == init + [last];
      if last.cls in TARGET_CLASSES then PersonDetections(init) + [last] else PersonDetections(init)
  }

  /** The filter works element by element and keeps input order: filtering
      a concatenation is the concatenation of the filtered parts. */
  lemma {:induction false} PersonDetectionsAppend(a: seq<Detection>, b: seq<Detection>)
    ensures PersonDetections(a + b) == PersonDetections(a) + PersonDetections(b)
    decreases |b|
  {
    if b == [] {
      assert a + b == a;
    } else {
      var n := |b| - 1;
      assert (a + b)[..|a + b| - 1] == a + b[..n];
      assert (a + b)[|a + b| - 1] == b[n];
      PersonDetectionsAppend(a, b[..n]);
    }
  }

  /** On one detection the filter keeps it iff it is a person. */
  lemma PersonDetectionsSingle(d: Detection)
    ensures PersonDetections([d]) == if d.cls == 0 then [d] else []
  {
    assert [d][..0] == [];
  }

  /** Behind the filter the tracker only ever stores and reports persons. */
  lemma OnlyPersonsTracked(objs: seq<Entry>, nextId: nat, dets: seq<Detection>)
    ensures var a := Assign(objs, nextId, PersonDetections(dets));
      && (forall e :: e in a.updated ==> e.det.cls == 0)
      && (forall i :: 0 <= i < |Output(a.updated)| ==> Output(a.updated)[i].cls == 0)
  {
    var a := Assign(objs, nextId, PersonDetections(dets));
    AssignStoresDetections(objs, nextId, PersonDetections(dets));
    forall i | 0 <= i < |Output(a.updated)| ensures Output(a.updated)[i].cls == 0 {
      assert a.updated[i] in a.updated;
    }
  }

  // ---------------------------------------------------------------------
  // Smoking confirmation state machine.
  // ---------------------------------------------------------------------

  /** The four values of `POSE_STATE`; `Idle` is the source's "NONE". */
  datatype PoseState = Idle | PoseActive | WaitingForSmoke | ViolationConfirmed

  /** The only entry `smoking_events` ever holds. */
  datatype SmokingEvent = ConfirmedSmokingViolation

  /** `POSE_STATE` together with `POSE_TAKEN_OFF_TIME`. */
  datatype Smoking = Smoking(state: PoseState, takenOffTime: real)

  datatype SmokingOutcome = SmokingOutcome(next: Smoking, violation: bool)

  /** One frame of the if/elif chain, from the hand-on-mouth flag, the
      smoke flag and the frame time. */
  function SmokingStep(s: Smoking, pose: bool, smoke: bool, t: real): (o: SmokingOutcome)
    ensures o.violation <==> !pose && (s.state == ViolationConfirmed || (s.state == WaitingForSmoke && smoke))
    ensures o.violation ==> o.next.state == ViolationConfirmed || o.next.state == Idle
    ensures o.next.takenOffTime != s.takenOffTime ==> !pose && s.state == PoseActive && o.next.takenOffTime == t
  {
    if pose then
      SmokingOutcome(if s.state == Idle || s.state == WaitingForSmoke then s.(state := PoseActive) else s, false)
    else if s.state == PoseActive then
      SmokingOutcome(Smoking(WaitingForSmoke, t), false)
    else if s.state == WaitingForSmoke then
      if smoke then SmokingOutcome(s.(state := ViolationConfirmed), true)
      else if t - s.takenOffTime > SMOKE_WINDOW_SECONDS then SmokingOutcome(s.(state := Idle), false)
      else SmokingOutcome(s, false)
    else if s.state == ViolationConfirmed then
      SmokingOutcome(s.(state := Idle), true)
    else
      SmokingOutcome(s, false)
  }

  /** The transition table, row by row. */
  lemma SmokingTransitionTable(s: Smoking, pose: bool, smoke: bool, t: real)
    ensures var o := SmokingStep(s, pose, smoke, t);
      && (pose ==> !o.violation && o.next.takenOffTime == s.takenOffTime &&
                   o.next.state == (if s.state in {Idle, WaitingForSmoke} then PoseActive else s.state))
      && (!pose && s.state == PoseActive ==> !o.violation && o.next == Smoking(WaitingForSmoke, t))
      && (!pose && s.state == WaitingForSmoke ==>
            o.next.takenOffTime == s.takenOffTime &&
            o.next.state == (if smoke then ViolationConfirmed
                             else if t - s.takenOffTime > SMOKE_WINDOW_SECONDS then Idle
                             else WaitingForSmoke))
      && (!pose && s.state == ViolationConfirmed ==> o.violation && o.next == s.(state := Idle))
      && (!pose && s.state == Idle ==> !o.violation && o.next == s)
  {
  }

  /** One frame of input to the state machine. */
  datatype PoseFrame = PoseFrame(pose: bool, smoke: bool, t: real)

  datatype SmokingRun = SmokingRun(final: Smoking, violations: seq<bool>)

  /** The state machine run over consecutive frames: the final state and,
      per frame, whether the violation event was emitted. */
  function RunSmoking(s: Smoking, frames: seq<PoseFrame>): (r: SmokingRun)
    ensures |r.violations| == |frames|
    decreases |frames|
  {
    if frames == [] then SmokingRun(s, [])
    else
      var o := SmokingStep(s, frames[0].pose, frames[0].smoke, frames[0].t);
      var rest := RunSmoking(o.next, frames[1..]);
      SmokingRun(rest.final, [o.violation] + rest.violations)
  }

  /** Frames are handled in order: running one more frame steps the state
      the earlier frames left behind and appends that frame's flag. */
  lemma {:induction false} RunSmokingSnoc(s: Smoking, frames: seq<PoseFrame>, f: PoseFrame)
    ensures var r := RunSmoking(s, frames);
      var o := SmokingStep(r.final, f.pose, f.smoke, f.t);
      RunSmoking(s, frames + [f]) == SmokingRun(o.next, r.violations + [o.violation])
    decreases |frames|
  {
    if frames == [] {
      assert [] + [f] == [f];
      assert [f][1..] == [];
    } else {
      var o := SmokingStep(s, frames[0].pose, frames[0].smoke, frames[0].t);
      assert (frames + [f])[0] == frames[0];
      assert (frames + [f])[1..] == frames[1..] + [f];
      RunSmokingSnoc(o.next, frames[1..], f);
    }
  }

  /** A puff: hand on mouth, hand off, smoke while waiting, then one more
      frame. The event is emitted on exactly the third and fourth frames,
      whatever the frame times and the smoke flag on the other frames, from
      any state but `ViolationConfirmed`. */
  lemma PuffIsConfirmedTwice(s: Smoking, t1: real, t2: real, t3: real, t4: real, smoke1: bool, smoke2: bool, smoke4: bool)
    requires s.state != ViolationConfirmed
    ensures var r := RunSmoking(s, [PoseFrame(true, smoke1, t1), PoseFrame(false, smoke2, t2),
                                    PoseFrame(false, true, t3), PoseFrame(false, smoke4, t4)]);
      r.violations == [false, false, true, true] && r.final == Smoking(Idle, t2)
  {
    var frames := [PoseFrame(true, smoke1, t1), PoseFrame(false, smoke2, t2),
                   PoseFrame(false, true, t3), PoseFrame(false, smoke4, t4)];
    var s1 := SmokingStep(s, true, smoke1, t1).next;
    assert s1.state == PoseActive;
    var s2 := SmokingStep(s1, false, smoke2, t2).next;
    assert s2 == Smoking(WaitingForSmoke, t2);
    var s3 := SmokingStep(s2, false, true, t3).next;
    assert s3 == Smoking(ViolationConfirmed, t2);
    var s4 := SmokingStep(s3, false, smoke4, t4).next;
    assert s4 == Smoking(Idle, t2);
    assert frames[1..] == [frames[1], frames[2], frames[3]];
    assert frames[1..][1..] == [frames[2], frames[3]];
    assert frames[1..][1..][1..] == [frames[3]];
    assert RunSmoking(s4, []) == SmokingRun(s4, []);
    assert RunSmoking(s3, [frames[3]]) == SmokingRun(s4, [true]);
    assert RunSmoking(s2, [frames[2], frames[3]]) == SmokingRun(s4, [true, true]);
    assert RunSmoking(s1, [frames[1], frames[2], frames[3]]) == SmokingRun(s4, [false, true, true]);
  }

  /** `ViolationConfirmed` is left only on a frame without the pose: with
      the hand on the mouth it is kept and nothing is emitted. */
  lemma ConfirmedStateWaitsForPoseRelease(s: Smoking, smoke: bool, t: real)
    requires s.state == ViolationConfirmed
    ensures SmokingStep(s, true, smoke, t) == SmokingOutcome(s, false)
    ensures SmokingStep(s, false, smoke, t) == SmokingOutcome(s.(state := Idle), true)
  {
  }

  /** Waiting with no pose and no smoke emits nothing; the machine falls
      back to `Idle` exactly when some frame comes more than the window
      after the hand was taken off (exactly 3.0 s still waits). */
  lemma {:induction false} WindowExpiresQuietly(t0: real, frames: seq<PoseFrame>)
    requires forall i :: 0 <= i < |frames| ==> !frames[i].pose && !frames[i].smoke
    ensures var r := RunSmoking(Smoking(WaitingForSmoke, t0), frames);
      && (forall i :: 0 <= i < |frames| ==> !r.violations[i])
      && r.final.takenOffTime == t0
      && r.final.state == (if exists i :: 0 <= i < |frames| && frames[i].t - t0 > SMOKE_WINDOW_SECONDS
                           then Idle else WaitingForSmoke)
    decreases |frames|
  {
    if frames != [] {
      var o := SmokingStep(Smoking(WaitingForSmoke, t0), false, false, frames[0].t);
      if frames[0].t - t0 > SMOKE_WINDOW_SECONDS {
        IdleWithoutPoseStaysIdle(t0, frames[1..]);
      } else {
        WindowExpiresQuietly(t0, frames[1..]);
        if exists i :: 0 <= i < |frames[1..]| && frames[1..][i].t - t0 > SMOKE_WINDOW_SECONDS {
          var i :| 0 <= i < |frames[1..]| && frames[1..][i].t - t0 > SMOKE_WINDOW_SECONDS;
          assert frames[i + 1].t - t0 > SMOKE_WINDOW_SECONDS;
        } else {
          forall i | 0 <= i < |frames| ensures frames[i].t - t0 <= SMOKE_WINDOW_SECONDS {
            if i > 0 { assert frames[1..][i - 1] == frames[i]; }
          }
        }
      }
    }
  }

  /** Without the pose, `Idle` stays `Idle` and emits nothing. */
  lemma {:induction false} IdleWithoutPoseStaysIdle(t0: real, frames: seq<PoseFrame>)
    requires forall i :: 0 <= i < |frames| ==> !frames[i].pose
    ensures var r := RunSmoking(Smoking(Idle, t0), frames);
      r.final == Smoking(Idle, t0) && forall i :: 0 <= i < |frames| ==> !r.violations[i]
    decreases |frames|
  {
    if frames != [] {
      IdleWithoutPoseStaysIdle(t0, frames[1..]);
    }
  }

  /** No violation without smoke: if smoke is never seen, a run that does
      not start in `ViolationConfirmed` never emits and never reaches it. */
  lemma {:induction false} NoSmokeNoViolation(s: Smoking, frames: seq<PoseFrame>)
    requires s.state != ViolationConfirmed
    requires forall i :: 0 <= i < |frames| ==> !frames[i].smoke
    ensures var r := RunSmoking(s, frames);
      r.final.state != ViolationConfirmed && forall i :: 0 <= i < |frames| ==> !r.violations[i]
    decreases |frames|
  {
    if frames != [] {
      NoSmokeNoViolation(SmokingStep(s, frames[0].pose, frames[0].smoke, frames[0].t).next, frames[1..]);
    }
  }

  // ---------------------------------------------------------------------
  // Evidence recorder.
  // ---------------------------------------------------------------------

  /** Where frames come from: a camera index or a file path. Recording is
      only ever started for camera 0. */
  datatype VideoSource = Camera(index: int) | VideoFile(path: string)

  predicate IsLive(source: VideoSource) {
    source == Camera(0)
  }

  /** One evidence file of the video writer: the frames written to it,
      identified by their timestamps, and whether it has been released. */
  datatype Session = Session(frames: seq<real>, released: bool)

  /** `is_recording`, `stop_recording_time` and the writer's log of
      sessions; `video_writer is not None` is "some session was opened". */
  datatype Recorder = Recorder(isRecording: bool, stopTime: real, sessions: seq<Session>)

  /** At most one open session, the last one, and only while recording. */
  predicate RecorderValid(r: Recorder) {
    && (r.isRecording <==> |r.sessions| > 0 && !r.sessions[|r.sessions| - 1].released)
    && forall i :: 0 <= i < |r.sessions| - 1 ==> r.sessions[i].released
  }

  /** A recorder that has never recorded: `is_recording = False`,
      `stop_recording_time = 0`, no writer. */
  const IDLE_RECORDER: Recorder := Recorder(false, 0.0, [])

  /** One frame of the recording policy: start on the smoking event when
      live and idle, then write the frame if recording, then release the
      writer if the frame is past the deadline. */
  function RecordingStep(r: Recorder, triggered: bool, live: bool, t: real): (r': Recorder)
    ensures RecorderValid(r) ==> RecorderValid(r')
    ensures |r'.sessions| == |r.sessions| + (if triggered && live && !r.isRecording then 1 else 0)
  {
    var r1 := if triggered && live && !r.isRecording
              then Recorder(true, t + RECORDING_DURATION, r.sessions + [Session([], false)])
              else r;
    if r1.isRecording && |r1.sessions| > 0 then
      var n := |r1.sessions| - 1;
      var written := r1.sessions[n].(frames := r1.sessions[n].frames + [t]);
      if t > r1.stopTime then Recorder(false, r1.stopTime, r1.sessions[n := written.(released := true)])
      else Recorder(true, r1.stopTime, r1.sessions[n := written])
    else
      r1
  }

  /** What one frame does to the recorder: a start sets the deadline five
      seconds ahead, otherwise the deadline stays; the current or new
      session gets the frame; the recorder stays on up to and including the
      deadline; an idle recorder that does not start is untouched; earlier
      sessions are never changed. */
  lemma RecordingStepEffect(r: Recorder, triggered: bool, live: bool, t: real)
    requires RecorderValid(r)
    ensures var r' := RecordingStep(r, triggered, live, t);
      var starts := triggered && live && !r.isRecording;
      && (starts ==> r'.stopTime == t + RECORDING_DURATION)
      && (!starts ==> r'.stopTime == r.stopTime)
      && (r'.isRecording <==> (r.isRecording || starts) && t <= r'.stopTime)
      && ((r.isRecording || starts) ==>
            r'.sessions[|r'.sessions| - 1].frames ==
              (if starts then [] else r.sessions[|r.sessions| - 1].frames) + [t])
      && (!r.isRecording && !starts ==> r' == r)
      && (forall i :: 0 <= i < |r.sessions| - 1 ==> r'.sessions[i] == r.sessions[i])
      && (starts ==> r'.sessions[..|r.sessions|] == r.sessions)
  {
  }

  /** One frame of input to the recorder. */
  datatype RecordFrame = RecordFrame(triggered: bool, t: real)

  function RunRecorder(r: Recorder, live: bool, frames: seq<RecordFrame>): Recorder
    decreases |frames|
  {
    if frames == [] then r
    else RunRecorder(RecordingStep(r, frames[0].triggered, live, frames[0].t), live, frames[1..])
  }

  /** A frame up to the deadline of an open session: it is written to
      that session, and a trigger on it changes nothing else. */
  lemma OpenSessionStep(r: Recorder, triggered: bool, live: bool, t: real)
    requires RecorderValid(r) && r.isRecording && t <= r.stopTime
    ensures var n := |r.sessions| - 1;
      RecordingStep(r, triggered, live, t) ==
        Recorder(true, r.stopTime, r.sessions[n := Session(r.sessions[n].frames + [t], false)])
  {
  }

  /** First trigger wins: while a session is open, frames up to the
      deadline (triggered or not) are all written to it, and neither move
      the deadline nor open another session. */
  lemma {:induction false} OpenSessionAbsorbsFrames(r: Recorder, live: bool, frames: seq<RecordFrame>)
    requires RecorderValid(r) && r.isRecording
    requires forall i :: 0 <= i < |frames| ==> frames[i].t <= r.stopTime
    ensures var r' := RunRecorder(r, live, frames);
      var n := |r.sessions| - 1;
      && r'.isRecording && r'.stopTime == r.stopTime && |r'.sessions| == |r.sessions|
      && r'.sessions[..n] == r.sessions[..n]
      && r'.sessions[n] == Session(r.sessions[n].frames + FrameTimes(frames), false)
    decreases |frames|
  {
    var n := |r.sessions| - 1;
    if frames == [] {
      assert r.sessions[n] == Session(r.sessions[n].frames + [], false);
    } else {
      OpenSessionStep(r, frames[0].triggered, live, frames[0].t);
      var r1 := Recorder(true, r.stopTime, r.sessions[n := Session(r.sessions[n].frames + [frames[0].t], false)]);
      assert RunRecorder(r, live, frames) == RunRecorder(r1, live, frames[1..]);
      assert r1.sessions[..n] == r.sessions[..n];
      assert forall i :: 0 <= i < |frames[1..]| ==> frames[1..][i].t <= r1.stopTime;
      OpenSessionAbsorbsFrames(r1, live, frames[1..]);
      assert FrameTimes(frames) == [frames[0].t] + FrameTimes(frames[1..]);
      ConcatAssoc(r.sessions[n].frames, [frames[0].t], FrameTimes(frames[1..]));
    }
  }

  lemma ConcatAssoc(a: seq<real>, b: seq<real>, c: seq<real>)
    ensures (a + b) + c == a + (b + c)
  {
  }

  /** The timestamps of the frames, in order. */
  function FrameTimes(frames: seq<RecordFrame>): seq<real> {
    seq(|frames|, i requires 0 <= i < |frames| => frames[i].t)
  }

  /** The first frame past the deadline is still written, then the
      session is released and the recorder is idle again. */
  lemma DeadlineClosesSession(r: Recorder, triggered: bool, live: bool, t: real)
    requires RecorderValid(r) && r.isRecording && t > r.stopTime
    ensures var r' := RecordingStep(r, triggered, live, t);
      var n := |r.sessions| - 1;
      && !r'.isRecording && |r'.sessions| == |r.sessions|
      && r'.sessions[n] == Session(r.sessions[n].frames + [t], true)
  {
  }

  /** A violation at t = 2 on a live source opens one session closing at
      t = 7: a second violation at t = 4 changes nothing, the session is
      still open at t = 6.99 and is released at t = 7.01, holding all four
      frames. */
  lemma EvidenceScenario()
    ensures var r1 := RecordingStep(IDLE_RECORDER, true, true, 2.0);
      var r2 := RecordingStep(r1, true, true, 4.0);
      var r3 := RecordingStep(r2, false, true, 6.99);
      var r4 := RecordingStep(r3, false, true, 7.01);
      && r1.stopTime == 7.0 && r2.stopTime == 7.0
      && r3.isRecording && !r4.isRecording
      && r4.sessions == [Session([2.0, 4.0, 6.99, 7.01], true)]
  {
    var r1 := RecordingStep(IDLE_RECORDER, true, true, 2.0);
    assert [] + [2.0] == [2.0];
    assert ([] + [Session([], false)])[0 := Session([2.0], false)] == [Session([2.0], false)];
    assert r1 == Recorder(true, 7.0, [Session([2.0], false)]);
    var r2 := RecordingStep(r1, true, true, 4.0);
    assert [2.0] + [4.0] == [2.0, 4.0];
    assert r2 == Recorder(true, 7.0, [Session([2.0, 4.0], false)]);
    var r3 := RecordingStep(r2, false, true, 6.99);
    assert [2.0, 4.0] + [6.99] == [2.0, 4.0, 6.99];
    assert r3 == Recorder(true, 7.0, [Session([2.0, 4.0, 6.99], false)]);
    assert [2.0, 4.0, 6.99] + [7.01] == [2.0, 4.0, 6.99, 7.01];
  }

  /** A file source never records, whatever the events. */
  lemma {:induction false} FileSourceNeverRecords(frames: seq<RecordFrame>)
    ensures RunRecorder(IDLE_RECORDER, false, frames) == IDLE_RECORDER
    decreases |frames|
  {
    if frames != [] {
      FileSourceNeverRecords(frames[1..]);
    }
  }

  /** The end of one `run_logic` call and the start of the next: the
      cleanup releases a writer that is still open, and the next call
      starts again with `is_recording = False` and `stop_recording_time = 0`.
      The session log itself, the evidence already written, stays. */
  function RestartRecorder(r: Recorder): (r': Recorder)
    ensures !r'.isRecording && r'.stopTime == 0.0
    ensures |r'.sessions| == |r.sessions|
    ensures forall i :: 0 <= i < |r.sessions| ==> r'.sessions[i].frames == r.sessions[i].frames
    ensures |r.sessions| > 0 ==> r'.sessions[|r.sessions| - 1].released
    ensures forall i :: 0 <= i < |r.sessions| && r.sessions[i].released ==> r'.sessions[i] == r.sessions[i]
  {
    var n := |r.sessions| - 1;
    var closed := if n >= 0 && !r.sessions[n].released then r.sessions[n := r.sessions[n].(released := true)] else r.sessions;
    Recorder(false, 0.0, closed)
  }

  /** A restart leaves a valid recorder with every session released. */
  lemma RestartReleasesEverySession(r: Recorder)
    requires RecorderValid(r)
    ensures RecorderValid(RestartRecorder(r))
    ensures forall i :: 0 <= i < |r.sessions| ==> RestartRecorder(r).sessions[i].released
  {
  }

  /** The state machine is not reset between runs while the clock is: a
      hand released at t = 100 in one run, and smoke 2 s into the next run,
      confirm a violation on the new frame. */
  lemma WindowSurvivesRestart()
    ensures RunSmoking(Smoking(WaitingForSmoke, 100.0),
                       [PoseFrame(false, false, 1.0), PoseFrame(false, true, 2.0)]).violations == [false, true]
  {
    var frames := [PoseFrame(false, false, 1.0), PoseFrame(false, true, 2.0)];
    var s1 := SmokingStep(Smoking(WaitingForSmoke, 100.0), false, false, 1.0).next;
    assert s1 == Smoking(WaitingForSmoke, 100.0);
    assert frames[1..] == [PoseFrame(false, true, 2.0)];
    assert frames[1..][1..] == [];
    assert SmokingStep(s1, false, true, 2.0).violation;
  }

  // ---------------------------------------------------------------------
  // The processor object.
  // ---------------------------------------------------------------------

  /** The state `run_logic` carries from frame to frame: the state machine
      fields, the frame's `smoking_events`, the recording variables and the
      tracker. */
  class Processor {
    const tracker: SimpleTracker
    var poseState: PoseState
    var poseTakenOffTime: real
    var smokingEvents: seq<SmokingEvent>
    var isRecording: bool
    var stopRecordingTime: real
    var sessions: seq<Session>

    function SmokingView(): Smoking
      reads this
    {
      Smoking(poseState, poseTakenOffTime)
    }

    function RecorderView(): Recorder
      reads this
    {
      Recorder(isRecording, stopRecordingTime, sessions)
    }

    predicate Valid()
      reads this, tracker
    {
      tracker.Valid() && RecorderValid(RecorderView())
    }

    constructor ()
      ensures Valid() && fresh(tracker)
      ensures SmokingView() == Smoking(Idle, 0.0) && smokingEvents == []
      ensures RecorderView() == IDLE_RECORDER
      ensures tracker.objects == [] && tracker.nextId == 0
    {
      tracker := new SimpleTracker();
      poseState := Idle;
      poseTakenOffTime := 0.0;
      smokingEvents := [];
      isRecording := false;
      stopRecordingTime := 0.0;
      sessions := [];
    }

    /** Leaving one `run_logic` call and entering the next: the cleanup and
        the call's fresh locals reset the recorder and `smoking_events`; the
        pose state, its release time and the tracker are attributes, so
        they carry over. */
    method StartRun()
      requires Valid()
      modifies this
      ensures Valid()
      ensures RecorderView() == RestartRecorder(old(RecorderView()))
      ensures smokingEvents == []
      ensures SmokingView() == old(SmokingView())
      ensures tracker.objects == old(tracker.objects) && tracker.nextId == old(tracker.nextId)
    {
      var n := |sessions| - 1;
      if n >= 0 && !sessions[n].released {
        sessions := sessions[n := sessions[n].(released := true)];
      }
      isRecording := false;
      stopRecordingTime := 0.0;
      smokingEvents := [];
      RestartReleasesEverySession(old(RecorderView()));
    }

    /** The state machine step: clears `smoking_events`, then runs the
        if/elif chain on the pose flag and the state. */
    method StepSmoking(pose: bool, smoke: bool, t: real)
      requires Valid()
      modifies this
      ensures Valid()
      ensures var o := SmokingStep(old(SmokingView()), pose, smoke, t);
        SmokingView() == o.next && smokingEvents == (if o.violation then [ConfirmedSmokingViolation] else [])
      ensures |smokingEvents| <= 1
      ensures RecorderView() == old(RecorderView())
    {
      smokingEvents := [];
      if pose {
        if poseState == Idle || poseState == WaitingForSmoke {
          poseState := PoseActive;
        }
      } else if poseState == PoseActive {
        poseTakenOffTime := t;
        poseState := WaitingForSmoke;
      } else if poseState == WaitingForSmoke {
        if smoke {
          smokingEvents := smokingEvents + [ConfirmedSmokingViolation];
          poseState := ViolationConfirmed;
        } else if t - poseTakenOffTime > SMOKE_WINDOW_SECONDS {
          poseState := Idle;
        }
      } else if poseState == ViolationConfirmed {
        smokingEvents := smokingEvents + [ConfirmedSmokingViolation];
        poseState := Idle;
      }
    }

    /** The recording step: open a writer on the smoking event if live and
        idle, write the frame while recording, release past the deadline. */
    method StepRecording(t: real, source: VideoSource)
      requires Valid()
      modifies this
      ensures Valid()
      ensures RecorderView() == RecordingStep(old(RecorderView()), ConfirmedSmokingViolation in smokingEvents, IsLive(source), t)
      ensures SmokingView() == old(SmokingView()) && smokingEvents == old(smokingEvents)
    {
      if ConfirmedSmokingViolation in smokingEvents && source == Camera(0) && !isRecording {
        sessions := sessions + [Session([], false)];
        isRecording := true;
        stopRecordingTime := t + RECORDING_DURATION;
      }
      if isRecording && |sessions| > 0 {
        var n := |sessions| - 1;
        sessions := sessions[n := sessions[n].(frames := sessions[n].frames + [t])];
        if t > stopRecordingTime {
          sessions := sessions[n := sessions[n].(released := true)];
          isRecording := false;
        }
      }
    }

    /** The decision part of one loop iteration: person filter and
        tracking, then the state machine, then the recorder. The pose and
        smoke flags are the detectors' answers for this frame. */
    method ProcessFrame(detections: seq<Detection>, pose: bool, smoke: bool, t: real, source: VideoSource)
      returns (tracked: seq<Track>)
      requires Valid()
      modifies this, tracker
      ensures Valid()
      ensures var a := Assign(old(tracker.objects), old(tracker.nextId), PersonDetections(detections));
        tracker.objects == a.updated && tracker.nextId == a.nextId
      ensures tracked == Output(tracker.objects)
      ensures forall i :: 0 <= i < |tracked| ==> tracked[i].cls == 0
      ensures var o := SmokingStep(old(SmokingView()), pose, smoke, t);
        && SmokingView() == o.next
        && smokingEvents == (if o.violation then [ConfirmedSmokingViolation] else [])
        && RecorderView() == RecordingStep(old(RecorderView()), o.violation, IsLive(source), t)
    {
      var persons := PersonDetections(detections);
      tracked := tracker.Update(persons);
      OnlyPersonsTracked(old(tracker.objects), old(tracker.nextId), detections);
      StepSmoking(pose, smoke, t);
      StepRecording(t, source);
    }
  }
}
