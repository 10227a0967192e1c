/** The camera side (`Ak::AzureKinect`): the start/stop/shutdown flags, the
    output directory of a capture session, the per-frame switch between
    opening and closing the output, and the helpers that turn the body
    tracker's first body into a body mask, a joint list and a bone list.
    The Azure Kinect device, the tracker and their images are values handed
    in; what the source does with the helpers' results (nothing yet) is not
    modelled. */
module AzureKinect {
  import opened Common
  import opened Naming
  import opened Pose

  // ---------------------------------------------------------------------
  // One capture of the acquisition loop

  /** `k4a_wait_result_t` */
  datatype WaitResult = Succeeded | Failed | Timeout

  /** What the acquisition loop does with a capture: skip it, go on to pop
      the tracker's result, or leave the loop after reporting. */
  datatype Admission = Skip | Pop | Leave(report: Message)

  /** The start of one turn of the acquisition loop: a capture whose depth
      image is missing is dropped and the loop starts over without asking
      the tracker; a captured frame goes to the tracker, whose outright
      failure ends the loop, as does a failed capture; a timeout only skips
      the enqueue. */
  function Admit(capture: WaitResult, hasDepth: bool, enqueue: WaitResult): (a: Admission)
    ensures a == Skip <==> capture == Succeeded && !hasDepth
    ensures a.Leave? <==> capture == Failed || (capture == Succeeded && hasDepth && enqueue == Failed)
    ensures a.Leave? && capture == Failed ==> a.report == Report("Failed to get capture from K4A camera")
    ensures a.Leave? && capture == Succeeded ==> a.report == Report("Failed to add K4A capture to tracker process queue")
  {
    match capture
    case Succeeded =>
      if !hasDepth then Skip
      else if enqueue == Failed then Leave(Report("Failed to add K4A capture to tracker process queue"))
      else Pop
    case Timeout => Pop
    case Failed => Leave(Report("Failed to get capture from K4A camera"))
  }

  // ---------------------------------------------------------------------
  // The body mask

  /** The mask of body `id` over the first `n` pixels: pixel `i` is marked
      when the tracker's index map holds `id` there. The map holds bytes and
      the id is a 32-bit value, so an id above 255 marks no pixel. */
  function Mask(indexMap: seq<bv8>, id: nat, n: nat): (r: seq<bool>)
    requires n <= |indexMap|
    ensures |r| == n
  {
    if n == 0 then [] else Mask(indexMap, id, n - 1) + [indexMap[n - 1] as int == id]
  }

  /** A pixel is marked exactly when the index map holds the id there. */
  lemma {:induction false} MaskMarks(indexMap: seq<bv8>, id: nat, n: nat, i: nat)
    requires i < n <= |indexMap|
    ensures Mask(indexMap, id, n)[i] <==> indexMap[i] as int == id
  {
    if i < n - 1 {
      MaskMarks(indexMap, id, n - 1, i);
    }
  }

  /** The body mask of the first body over the `width` x `height` depth
      image, filled pixel by pixel. */
  method BodyMask(indexMap: seq<bv8>, id: nat, width: int, height: int) returns (bodyPixel: array<bool>)
    requires width >= 0 && height >= 0 && |indexMap| >= width * height
    ensures bodyPixel[..] == Mask(indexMap, id, width * height)
    ensures forall i :: 0 <= i < width * height ==> bodyPixel[i] == (indexMap[i] as int == id)
  {
    bodyPixel := new bool[width * height];
    var i := 0;
    while i < width * height
      invariant 0 <= i <= width * height
      invariant bodyPixel[..i] == Mask(indexMap, id, i)
      invariant forall k :: 0 <= k < i ==> bodyPixel[k] == (indexMap[k] as int == id)
    {
      var bodyIndex := indexMap[i];
      if bodyIndex as int == id {
        bodyPixel[i] := true;
      } else {
        bodyPixel[i] := false;
      }
      assert bodyPixel[..i + 1] == bodyPixel[..i] + [bodyPixel[i]];
      i := i + 1;
    }
    assert bodyPixel[..] == bodyPixel[..i];
  }

  /** Each pixel is marked for at most one body: the masks `BodyMask`
      builds for two different ids never share a pixel. */
  lemma MasksDisjoint(indexMap: seq<bv8>, a: nat, b: nat, n: nat)
    requires a != b && n <= |indexMap|
    ensures forall i :: 0 <= i < n ==> !(Mask(indexMap, a, n)[i] && Mask(indexMap, b, n)[i])
  {
    forall i | 0 <= i < n
      ensures !(Mask(indexMap, a, n)[i] && Mask(indexMap, b, n)[i])
    {
      MaskMarks(indexMap, a, n, i);
      MaskMarks(indexMap, b, n, i);
    }
  }

  // ---------------------------------------------------------------------
  // Joints and bones

  /** `k4abt_joint_t`: a joint as the body tracker reports it. */
  datatype TrackedJoint = TrackedJoint(position: Position, orientation: Quaternion, confidence: int)

  /** `K4ABT_JOINT_CONFIDENCE_LOW` and `K4ABT_JOINT_CONFIDENCE_MEDIUM` */
  const ConfidenceLow: int := 1
  const ConfidenceMedium: int := 2

  /** A joint is drawn when its confidence is at least low. */
  predicate Seen(t: TrackedJoint) {
    t.confidence >= ConfidenceLow
  }

  /** The joint recorded for a tracked joint, confident when the tracker's
      confidence is at least medium. */
  function AsJoint(t: TrackedJoint): (j: Joint)
    ensures j.position == t.position && j.rotation == t.orientation
    ensures j.confident <==> t.confidence >= ConfidenceMedium
  {
    Joint(t.position, t.orientation, t.confidence >= ConfidenceMedium)
  }

  /** `n` copies of `x`: the value-initialised entries a sized vector
      starts with. */
  function Repeat<T>(x: T, n: nat): (r: seq<T>)
    ensures |r| == n && forall i :: 0 <= i < n ==> r[i] == x
  {
    if n == 0 then [] else Repeat(x, n - 1) + [x]
  }

  /** The joints the filter keeps, in skeleton order. */
  function KeptJoints(skeleton: seq<TrackedJoint>): (kept: seq<Joint>)
    ensures |kept| <= |skeleton|
  {
    if skeleton == [] then []
    else
      var last := skeleton[|skeleton| - 1];
      KeptJoints(skeleton[..|skeleton| - 1]) + (if Seen(last) then [AsJoint(last)] else [])
  }

  /** The joint list of a body: it is created holding `K4ABT_JOINT_COUNT`
      default joints, and every joint of the skeleton seen with at least
      low confidence is appended after them, in id order. */
  method TrackJoints(skeleton: seq<TrackedJoint>) returns (joints: seq<Joint>)
    requires |skeleton| == JointCount
    ensures joints == Repeat(ZeroJoint, JointCount) + KeptJoints(skeleton)
  {
    joints := Repeat(ZeroJoint, JointCount);
    var i := 0;
    while i < |skeleton|
      invariant 0 <= i <= |skeleton|
      invariant joints == Repeat(ZeroJoint, JointCount) + KeptJoints(skeleton[..i])
    {
      assert skeleton[..i + 1][..i] == skeleton[..i];
      if Seen(skeleton[i]) {
        joints := joints + [AsJoint(skeleton[i])];
      }
      i := i + 1;
    }
    assert skeleton[..i] == skeleton;
  }

  /** The filter keeps exactly the seen joints: every seen joint is kept,
      and every kept joint comes from a seen one. */
  lemma {:induction false} KeptJointsExactly(skeleton: seq<TrackedJoint>)
    ensures forall k :: 0 <= k < |skeleton| && Seen(skeleton[k]) ==> AsJoint(skeleton[k]) in KeptJoints(skeleton)
    ensures forall j :: j in KeptJoints(skeleton) ==> exists k :: 0 <= k < |skeleton| && Seen(skeleton[k]) && j == AsJoint(skeleton[k])
  {
    if skeleton != [] {
      var init := skeleton[..|skeleton| - 1];
      KeptJointsExactly(init);
      forall j | j in KeptJoints(skeleton)
        ensures exists k :: 0 <= k < |skeleton| && Seen(skeleton[k]) && j == AsJoint(skeleton[k])
      {
        if j in KeptJoints(init) {
          var k :| 0 <= k < |init| && Seen(init[k]) && j == AsJoint(init[k]);
          assert skeleton[k] == init[k];
        } else {
          assert Seen(skeleton[|skeleton| - 1]) && j == AsJoint(skeleton[|skeleton| - 1]);
        }
      }
      forall k | 0 <= k < |skeleton| && Seen(skeleton[k])
        ensures AsJoint(skeleton[k]) in KeptJoints(skeleton)
      {
        if k < |init| {
          assert skeleton[k] == init[k];
        }
      }
    }
  }

  /** A skeleton seen everywhere keeps every joint, one seen nowhere keeps
      none. */
  lemma {:induction false} KeptJointsBounds(skeleton: seq<TrackedJoint>)
    ensures (forall k :: 0 <= k < |skeleton| ==> Seen(skeleton[k])) ==> |KeptJoints(skeleton)| == |skeleton|
    ensures (forall k :: 0 <= k < |skeleton| ==> !Seen(skeleton[k])) ==> KeptJoints(skeleton) == []
  {
    if skeleton != [] {
      var init := skeleton[..|skeleton| - 1];
      KeptJointsBounds(init);
      assert forall k :: 0 <= k < |init| ==> init[k] == skeleton[k];
    }
  }

  /** A bone between the positions of two joints, confident when both ends
      are. */
  datatype Bone = Bone(joint1: Position, joint2: Position, confident: bool)

  const ZeroBone := Bone(Position(0.0, 0.0, 0.0), Position(0.0, 0.0, 0.0), false)

  /** Every bone of `bones` joins two joints of `skeleton`. */
  predicate InSkeleton(bones: seq<(nat, nat)>, skeleton: seq<TrackedJoint>) {
    forall b :: 0 <= b < |bones| ==> bones[b].0 < |skeleton| && bones[b].1 < |skeleton|
  }

  /** A bone is drawn when both of its joints are seen. */
  predicate Drawn(bone: (nat, nat), skeleton: seq<TrackedJoint>)
    requires bone.0 < |skeleton| && bone.1 < |skeleton|
  {
    Seen(skeleton[bone.0]) && Seen(skeleton[bone.1])
  }

  /** The bone recorded for a pair of joints. */
  function AsBone(bone: (nat, nat), skeleton: seq<TrackedJoint>): (r: Bone)
    requires bone.0 < |skeleton| && bone.1 < |skeleton|
    ensures r.joint1 == skeleton[bone.0].position && r.joint2 == skeleton[bone.1].position
    ensures r.confident <==> skeleton[bone.0].confidence >= ConfidenceMedium && skeleton[bone.1].confidence >= ConfidenceMedium
  {
    Bone(skeleton[bone.0].position, skeleton[bone.1].position,
         skeleton[bone.0].confidence >= ConfidenceMedium && skeleton[bone.1].confidence >= ConfidenceMedium)
  }

  /** The bones the filter keeps, in the order of `bones`. */
  function KeptBones(bones: seq<(nat, nat)>, skeleton: seq<TrackedJoint>): (kept: seq<Bone>)
    requires InSkeleton(bones, skeleton)
    ensures |kept| <= |bones|
  {
    if bones == [] then []
    else
      var last := bones[|bones| - 1];
      KeptBones(bones[..|bones| - 1], skeleton) + (if Drawn(last, skeleton) then [AsBone(last, skeleton)] else [])
  }

  /** The bone list of a body: it is created holding one default bone per
      entry of `s_boneList`, and every bone of the list whose two joints
      are both seen is appended after them, in list order. */
  method TrackBones(skeleton: seq<TrackedJoint>) returns (bones: seq<Bone>)
    requires |skeleton| == JointCount
    ensures InSkeleton(BoneList, skeleton)
    ensures bones == Repeat(ZeroBone, |BoneList|) + KeptBones(BoneList, skeleton)
  {
    BoneListShape();
    bones := Repeat(ZeroBone, |BoneList|);
    var i := 0;
    while i < |BoneList|
      invariant 0 <= i <= |BoneList|
      invariant InSkeleton(BoneList[..i], skeleton)
      invariant bones == Repeat(ZeroBone, |BoneList|) + KeptBones(BoneList[..i], skeleton)
    {
      var bone := BoneList[i];
      assert BoneList[..i + 1][..i] == BoneList[..i];
      if Seen(skeleton[bone.0]) && Seen(skeleton[bone.1]) {
        bones := bones + [AsBone(bone, skeleton)];
      }
      i := i + 1;
    }
    assert BoneList[..i] == BoneList;
  }

  /** The filter keeps exactly the drawn bones: every drawn bone is kept,
      and every kept bone comes from a drawn one. */
  lemma {:induction false} KeptBonesExactly(bones: seq<(nat, nat)>, skeleton: seq<TrackedJoint>)
    requires InSkeleton(bones, skeleton)
    ensures forall k :: 0 <= k < |bones| && Drawn(bones[k], skeleton) ==> AsBone(bones[k], skeleton) in KeptBones(bones, skeleton)
    ensures forall r :: r in KeptBones(bones, skeleton) ==>
      exists k :: 0 <= k < |bones| && Drawn(bones[k], skeleton) && r == AsBone(bones[k], skeleton)
  {
    if bones != [] {
      var init := bones[..|bones| - 1];
      assert InSkeleton(init, skeleton);
      KeptBonesExactly(init, skeleton);
      forall r | r in KeptBones(bones, skeleton)
        ensures exists k :: 0 <= k < |bones| && Drawn(bones[k], skeleton) && r == AsBone(bones[k], skeleton)
      {
        if r in KeptBones(init, skeleton) {
          var k :| 0 <= k < |init| && Drawn(init[k], skeleton) && r == AsBone(init[k], skeleton);
          assert bones[k] == init[k];
        } else {
          assert Drawn(bones[|bones| - 1], skeleton) && r == AsBone(bones[|bones| - 1], skeleton);
        }
      }
      forall k | 0 <= k < |bones| && Drawn(bones[k], skeleton)
        ensures AsBone(bones[k], skeleton) in KeptBones(bones, skeleton)
      {
        if k < |init| {
          assert bones[k] == init[k];
        }
      }
    }
  }

  // ---------------------------------------------------------------------
  // Output names

  /** The two outputs of a capture session, "<stem>.mkv" and "<stem>.csv",
      are different files in the session directory. */
  lemma CaptureNamesDistinct(dir: string, pid: int, date: string)
    ensures var stem := Stem(dir, pid, date);
      stem + CaptureVideoSuffix != stem + PoseSuffix &&
      (stem + CaptureVideoSuffix)[..|dir| + 1] == dir + "/" && (stem + PoseSuffix)[..|dir| + 1] == dir + "/"
  {
    var stem := Stem(dir, pid, date);
    assert (stem + CaptureVideoSuffix)[|stem| + 1] == 'm' && (stem + PoseSuffix)[|stem| + 1] == 'c';
    assert (stem + CaptureVideoSuffix)[..|dir| + 1] == stem[..|dir| + 1];
    assert (stem + PoseSuffix)[..|dir| + 1] == stem[..|dir| + 1];
  }

  // ---------------------------------------------------------------------
  // The camera's flags and session switch

  class Camera {
    /** `m_shutdown`, `m_run` and `m_run2` */
    var shutdown: bool
    var run: bool
    var run2: bool
    /** `m_pid` */
    var pid: int
    /** `m_errorCallback` */
    const log: ErrorLog
    /** The id of the session directory chosen last. */
    ghost var SessionId: int

    /** A camera before `init`: every flag clear. */
    constructor (log: ErrorLog)
      ensures !shutdown && !run && !run2 && pid == 0 && this.log == log
    {
      shutdown, run, run2 := false, false, false;
      pid := 0;
      this.log := log;
      SessionId := 0;
    }

    /** `start`: remember the player id and ask for a recording. */
    method Start(pid: int)
      modifies this`pid, this`run
      ensures this.pid == pid && run
    {
      this.pid := pid;
      run := true;
    }

    /** `stop`: ask for the recording to end. */
    method Stop()
      modifies this`run
      ensures !run
    {
      run := false;
    }

    /** `shutdown`: stop, then ask the acquisition loop to end. */
    method Shutdown()
      modifies this`run, this`shutdown
      ensures !run && shutdown
    {
      Stop();
      shutdown := true;
    }

    /** `initOutput`: find the smallest free session directory
        "./PID<pid>/<id>" and create it; a failed creation is reported
        when the system gave an error and fails the set-up. Otherwise the
        video and pose file names "<dir>/PID<pid><date>.mkv" and ".csv" are
        derived (the source computes them and opens nothing yet). */
    method InitOutput(existing: set<string>, created: bool, createError: Option<int>, date: string)
      returns (ok: bool, videoFile: string, poseFile: string)
      modifies this`SessionId, log`messages
      ensures SmallestFree(pid, existing, SessionId) && ok == created
      ensures ok ==> videoFile == Stem(ScanDir(pid, SessionId), pid, date) + CaptureVideoSuffix &&
                     poseFile == Stem(ScanDir(pid, SessionId), pid, date) + PoseSuffix
      ensures !ok ==> videoFile == "" && poseFile == ""
      ensures log.messages == old(log.messages) +
        (if !created && createError.Some? then [DirectoryMessage(ScanDir(pid, SessionId), createError.value)] else [])
    {
      var digits := ToString(pid, 3);
      var pidString := "PID" + digits;
      var scanID, baseDir := FindSessionDir(pid, existing);
      SessionId := scanID;
      videoFile, poseFile := "", "";
      ok := created;
      if !ok {
        if createError.Some? {
          log.Send(DirectoryMessage(baseDir, createError.value));
        }
        return;
      }
      var stem := baseDir + "/" + pidString + date;
      videoFile := stem + CaptureVideoSuffix;
      poseFile := stem + PoseSuffix;
    }

    /** Reading the first body's skeleton: a failure is reported and ends
        the recording. */
    method ReadSkeleton(ok: bool)
      modifies this`run, log`messages
      ensures run == (old(run) && ok)
      ensures log.messages == old(log.messages) + (if ok then [] else [Report("Failed to get skeleton from K4A capture")])
    {
      if !ok {
        log.Send(Report("Failed to get skeleton from K4A capture"));
        run := false;
      }
    }

    /** The output switch run after each tracked frame: a requested
        recording without output opens it, and stops being requested when
        that fails; output with no recording requested is closed. Either
        way, afterwards the output is open exactly when a recording is
        requested. */
    method SwitchOutput(existing: set<string>, created: bool, createError: Option<int>, date: string)
      modifies this`run, this`run2, this`SessionId, log`messages
      ensures run == run2
      ensures run2 == (old(run) && (old(run2) || created))
      ensures old(run) && !old(run2) ==> SmallestFree(pid, existing, SessionId)
      ensures old(run) && !old(run2) ==>
        log.messages == old(log.messages) +
                        (if !created && createError.Some? then [DirectoryMessage(ScanDir(pid, SessionId), createError.value)] else [])
      ensures !(old(run) && !old(run2)) ==> log.messages == old(log.messages)
    {
      if run {
        if !run2 {
          var ok, videoFile, poseFile := InitOutput(existing, created, createError, date);
          if ok {
            run2 := true;
          } else {
            run := false;
          }
        }
      } else if run2 {
        run2 := false;
      }
    }

    /** The end of one tracked frame: when a body was found its skeleton is
        read, then the output is switched. */
    method TrackedFrame(bodyFound: bool, skeletonOk: bool,
                        existing: set<string>, created: bool, createError: Option<int>, date: string)
      modifies this`run, this`run2, this`SessionId, log`messages
      ensures run == run2
      ensures run2 == (old(run) && (!bodyFound || skeletonOk) && (old(run2) || created))
    {
      if bodyFound {
        ReadSkeleton(skeletonOk);
      }
      SwitchOutput(existing, created, createError, date);
    }
  }
}
