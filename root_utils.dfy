/** The add-on's current helpers (utils.py at the repository root): progress
    counting with a fallback maximum, storing and restoring the initial state by
    bone name, and the per-bone conversion loop over the collected keyframes. */
module RootUtils {
  import opened Host
  import opened Locks
  import opened Frames

  /** Python's int() on a frame: truncation toward zero. */
  function TruncateFrame(x: real): (r: int)
    ensures 0.0 <= x ==> r as real <= x < r as real + 1.0
    ensures x < 0.0 ==> r as real - 1.0 < x <= r as real
  {
    if x >= 0.0 then x.Floor else -((-x).Floor)
  }

  /** int() never reverses the order of two frames. */
  lemma TruncateMonotone(x: real, y: real)
    requires x <= y
    ensures TruncateFrame(x) <= TruncateFrame(y)
  {
  }

  /** The scene frames the loop jumps to, one per collected keyframe frame. */
  function TruncatedFrames(frames: seq<real>): (r: seq<int>)
    ensures |r| == |frames|
    ensures forall i :: 0 <= i < |r| ==> r[i] == TruncateFrame(frames[i])
  {
    seq(|frames|, i requires 0 <= i < |frames| => TruncateFrame(frames[i]))
  }

  /** Jumping to int() of increasing frames never moves the scene backwards. */
  lemma TruncatedFramesNonDecreasing(frames: seq<real>)
    requires StrictlyIncreasing(frames)
    ensures NonDecreasingFrames(TruncatedFrames(frames))
  {
  }

  /** The maximum handed to the progress bar: bones times frames in the scene range,
      or the bone count when that product is not positive. */
  function ProgressMax(totalBones: int, frameStart: int, frameEnd: int): (r: int)
    ensures totalBones * (frameEnd - frameStart + 1) > 0 ==> r == totalBones * (frameEnd - frameStart + 1)
    ensures totalBones > 0 ==> r > 0
    ensures totalBones * (frameEnd - frameStart + 1) <= 0 ==> r == totalBones
  {
    var progressMax := totalBones * (frameEnd - frameStart + 1);
    if progressMax <= 0 then totalBones else progressMax
  }

  /** The module-level _progress_counter. This file gives it no value at load
      time, so it exists (`defined`) only once init_progress has run. */
  class Progress {
    var defined: bool
    var counter: int
    /** The maximum last handed to the progress bar. */
    var maximum: int

    constructor ()
      ensures !defined
    {
      defined := false;
    }

    /** init_progress */
    method InitProgress(scene: Scene, totalBones: int)
      modifies this
      ensures defined && counter == 0
      ensures maximum == ProgressMax(totalBones, scene.frameStart, scene.frameEnd)
    {
      maximum := ProgressMax(totalBones, scene.frameStart, scene.frameEnd);
      counter := 0;
      defined := true;
    }

    /** update_progress: one tick. */
    method UpdateProgress()
      requires defined
      modifies this`counter
      ensures counter == old(counter) + 1
    {
      counter := counter + 1;
    }
  }

  /** The rotation property convert_frame_rotation keyframes for the target mode. */
  function ConvertedProperty(target: RotationMode): (path: string)
    ensures path == "rotation_euler" <==> target.IsEuler()
    ensures path == "rotation_quaternion" <==> target == Quaternion
    ensures path == "rotation_axis_angle" <==> target == AxisAngle
  {
    if target.Identifier() == "QUATERNION" then "rotation_quaternion"
    else if target.Identifier() == "AXIS_ANGLE" then "rotation_axis_angle"
    else "rotation_euler"
  }

  /** process_bone_conversion for one bone, given every F-curve of the armature's
      action. The locks are cleared first; with no keyframe at all the source fails
      on list_frames[0] (`ok` is false) and the locks stay cleared. Otherwise the
      scene visits each collected frame in increasing order, ticking the progress
      counter once and converting the rotation there (`converted` lists the frames
      a conversion ran at), and the lock backup is written back under preserveLocks.
      `path` is the rotation property each conversion keyframes, and `frames` is
      the list get_list_frames returned. */
  method ProcessBoneConversion(scene: Scene, bone: PoseBone, curves: seq<FCurve>, progress: Progress)
    returns (ok: bool, converted: seq<int>, path: string, ghost frames: seq<real>)
    requires progress.defined
    modifies scene`frameCurrent, bone, progress`counter
    ensures StrictlyIncreasing(frames)
    ensures forall f :: f in frames <==> exists c :: c in curves && f in c.keyframes
    ensures ok <==> frames != []
    ensures converted == if ok then TruncatedFrames(frames) else []
    ensures path == if ok then ConvertedProperty(scene.crm.targetRmode) else ""
    ensures progress.counter == old(progress.counter) + |converted|
    ensures RotationLocks(bone) ==
              if ok && scene.crm.preserveLocks then old(RotationLocks(bone)) else AllUnlocked
    ensures scene.frameCurrent ==
              if ok then TruncateFrame(frames[|frames| - 1]) else old(scene.frameCurrent)
  {
    var locks := PrepareBoneLocks(scene, bone);
    var listFrames := GetListFrames(curves);
    frames := listFrames;
    if |listFrames| == 0 {
      ok, converted, path := false, [], "";
      return;
    }
    ok := true;
    // Every conversion keyframes the property of the target mode.
    path := ConvertedProperty(scene.crm.targetRmode);
    // setup_initial_keyframe jumps to the first frame.
    scene.frameCurrent := TruncateFrame(listFrames[0]);
    converted := [];
    for i := 0 to |listFrames|
      invariant converted == TruncatedFrames(listFrames[..i])
      invariant progress.counter == old(progress.counter) + i
      invariant RotationLocks(bone) == AllUnlocked
      invariant scene.frameCurrent == TruncateFrame(listFrames[if i == 0 then 0 else i - 1])
    {
      scene.frameCurrent := TruncateFrame(listFrames[i]);
      progress.UpdateProgress();
      // convert_frame_rotation runs at the current frame.
      converted := converted + [scene.frameCurrent];
    }
    assert listFrames[..|listFrames|] == listFrames;
    RestoreBoneLocks(scene, bone, locks);
  }

  /** The stored values restore_initial_state can read: a frame number and an
      active-bone name, as store_initial_state writes them. */
  predicate KeysWellFormed(props: map<string, IdProp>) {
    (FrameKey in props ==> props[FrameKey].IntProp?) &&
    (ActiveKey in props ==> props[ActiveKey].StrProp?)
  }

  /** scene.get('crm_initial_frame', 1) */
  function StoredFrame(props: map<string, IdProp>): (r: int)
    requires KeysWellFormed(props)
    ensures FrameKey in props ==> props[FrameKey] == IntProp(r)
    ensures FrameKey !in props ==> r == 1
  {
    if FrameKey in props then props[FrameKey].i else 1
  }

  /** The stored selection, or none when the key is missing or holds no list. */
  function StoredSelection(props: map<string, IdProp>): (r: seq<string>)
    ensures SelectionKey in props && props[SelectionKey].StrListProp? ==> r == props[SelectionKey].items
    ensures SelectionKey !in props || !props[SelectionKey].StrListProp? ==> r == []
  {
    if SelectionKey in props && props[SelectionKey].StrListProp? then props[SelectionKey].items else []
  }

  /** scene.get('crm_initial_active', "") */
  function StoredActive(props: map<string, IdProp>): (r: string)
    requires KeysWellFormed(props)
    ensures ActiveKey in props ==> props[ActiveKey] == StrProp(r)
    ensures ActiveKey !in props ==> r == ""
  {
    if ActiveKey in props then props[ActiveKey].s else ""
  }

  /** store_initial_state: the current frame, the selected bones' names, and the
      active bone's name, else the first selected one's, else "". */
  method StoreInitialState(scene: Scene, pose: Pose)
    requires pose.Valid()
    modifies scene`props
    ensures scene.props == old(scene.props)
      [FrameKey := IntProp(scene.frameCurrent)]
      [SelectionKey := StrListProp(pose.SelectedNames())]
      [ActiveKey := StrProp(
         if pose.active.Some? then pose.active.value
         else if pose.SelectedNames() != [] then pose.SelectedNames()[0]
         else "")]
    ensures KeysWellFormed(scene.props)
  {
    var selection := pose.SelectedNames();
    scene.props := scene.props[FrameKey := IntProp(scene.frameCurrent)];
    scene.props := scene.props[SelectionKey := StrListProp(selection)];
    if pose.active.Some? {
      scene.props := scene.props[ActiveKey := StrProp(pose.active.value)];
    } else if selection != [] {
      scene.props := scene.props[ActiveKey := StrProp(selection[0])];
    } else {
      scene.props := scene.props[ActiveKey := StrProp("")];
    }
  }

  /** restore_initial_state. Under jumpInitFrame the stored frame (default 1) becomes
      current. Under preserveSelection exactly the stored names that are bones of the
      pose end up selected, and a non-empty stored active name that is a bone becomes
      active. The three crm_ keys are removed whatever the settings. */
  method RestoreInitialState(scene: Scene, pose: Pose)
    requires pose.Valid() && KeysWellFormed(scene.props)
    modifies scene`frameCurrent, scene`props, pose`select, pose`active
    ensures pose.Valid() && pose.select.Keys == old(pose.select.Keys)
    ensures scene.props == old(scene.props) - {FrameKey, SelectionKey, ActiveKey}
    ensures scene.frameCurrent ==
              if scene.crm.jumpInitFrame then StoredFrame(old(scene.props)) else old(scene.frameCurrent)
    ensures forall n :: n in pose.select ==>
              pose.select[n] ==
                if scene.crm.preserveSelection then n in StoredSelection(old(scene.props))
                else old(pose.select[n])
    ensures pose.active ==
              var name := StoredActive(old(scene.props));
              if scene.crm.preserveSelection && name != "" && name in pose.select then Some(name)
              else old(pose.active)
  {
    if scene.crm.jumpInitFrame {
      scene.frameCurrent := StoredFrame(scene.props);
    }
    if scene.crm.preserveSelection {
      RestoreSelection(pose, StoredSelection(scene.props), StoredActive(scene.props));
    }
    scene.props := scene.props - {FrameKey};
    scene.props := scene.props - {ActiveKey};
    scene.props := scene.props - {SelectionKey};
  }

  /** The selection half of restore_initial_state: every bone is deselected, each
      stored name that is a bone is selected, and a non-empty stored active name
      that is a bone becomes active. */
  method RestoreSelection(pose: Pose, names: seq<string>, activeName: string)
    requires pose.Valid()
    modifies pose`select, pose`active
    ensures pose.Valid() && pose.select.Keys == old(pose.select.Keys)
    ensures forall n :: n in pose.select ==> pose.select[n] == (n in names)
    ensures pose.active ==
              if activeName != "" && activeName in pose.select then Some(activeName) else old(pose.active)
  {
    pose.DeselectAll();
    for i := 0 to |names|
      invariant pose.Valid() && pose.select.Keys == old(pose.select.Keys)
      invariant pose.active == old(pose.active)
      invariant forall n :: n in pose.select ==> pose.select[n] == (n in names[..i])
    {
      if names[i] in pose.select {
        pose.select := pose.select[names[i] := true];
      }
      assert names[..i + 1] == names[..i] + [names[i]];
    }
    assert names[..|names|] == names;
    if activeName != "" && activeName in pose.select {
      pose.active := Some(activeName);
    }
  }

  /** Storing, an arbitrary change of frame and selection (the conversion), and
      restoring with both options on: the frame and every select flag are back,
      the active bone is the one stored, and no crm_ key is left behind. */
  method StoreAndRestore(scene: Scene, pose: Pose,
                         midFrame: int, midSelect: map<string, bool>, midActive: Option<string>)
    requires pose.Valid()
    requires midSelect.Keys == pose.select.Keys && (midActive.Some? ==> midActive.value in pose.select)
    requires scene.crm.jumpInitFrame && scene.crm.preserveSelection
    modifies scene`frameCurrent, scene`props, pose`select, pose`active
    ensures pose.Valid()
    ensures scene.frameCurrent == old(scene.frameCurrent)
    ensures pose.select == old(pose.select)
    ensures pose.active ==
              if old(pose.active).Some? then old(pose.active)
              else if old(pose.SelectedNames()) != [] then Some(old(pose.SelectedNames())[0])
              else midActive
    ensures scene.props == old(scene.props) - {FrameKey, SelectionKey, ActiveKey}
  {
    StoreInitialState(scene, pose);
    ghost var selection := pose.SelectedNames();
    scene.frameCurrent := midFrame;
    pose.select, pose.active := midSelect, midActive;
    RestoreInitialState(scene, pose);
    assert pose.select == old(pose.select);
    assert scene.props == old(scene.props) - {FrameKey, SelectionKey, ActiveKey};
  }
}
