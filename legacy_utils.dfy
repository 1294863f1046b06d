/** The earlier helpers (convert_Rotation_Mode/utils.py): a progress counter with
    no fallback maximum, storing and restoring the initial state by bone reference,
    and a conversion loop that walks the timeline by keyframe jumps until the scene's
    end frame or until no later keyframe is left. */
module LegacyUtils {
  import opened Host
  import opened Locks

  /** Blender's "jump to next keyframe" as seen from the current frame: it never
      moves backwards, and it stays put when there is no later keyframe. */
  ghost predicate NeverBackwards(nextKey: int -> int) {
    forall f :: JumpsForward(nextKey, f)
  }

  /** The jump from one frame does not go back. */
  ghost predicate JumpsForward(nextKey: int -> int, f: int) {
    nextKey(f) >= f
  }

  /** The frames at which the while loop of process_bone_conversion converts, when it
      starts at `frame`: it runs while the frame is at most `frameEnd`, and after each
      conversion jumps on and stops if the jump left the frame where it was. */
  function WalkFrames(frame: int, frameEnd: int, nextKey: int -> int): (r: seq<int>)
    requires NeverBackwards(nextKey)
    ensures r == [] <==> frame > frameEnd
    ensures r != [] ==> r[0] == frame
    decreases frameEnd - frame
  {
    if frame > frameEnd then []
    else if nextKey(frame) == frame then [frame]
    else
      assert JumpsForward(nextKey, frame);
      [frame] + WalkFrames(nextKey(frame), frameEnd, nextKey)
  }

  /** The walk starts at the start frame, climbs strictly by keyframe jumps, stays
      inside the scene range, ends where a jump stays put or leaves the range, and so
      converts at most once per frame of the range. */
  lemma {:induction false} WalkFramesShape(frame: int, frameEnd: int, nextKey: int -> int)
    requires NeverBackwards(nextKey)
    ensures var r := WalkFrames(frame, frameEnd, nextKey);
      && (r == [] <==> frame > frameEnd)
      && (r != [] ==> r[0] == frame)
      && IncreasingFrames(r)
      && (forall k :: 0 <= k < |r| ==> frame <= r[k] <= frameEnd)
      && (forall k :: 0 < k < |r| ==> r[k] == nextKey(r[k - 1]))
      && (r != [] ==> nextKey(r[|r| - 1]) == r[|r| - 1] || nextKey(r[|r| - 1]) > frameEnd)
      && |r| <= (if frame <= frameEnd then frameEnd - frame + 1 else 0)
    decreases frameEnd - frame
  {
    if frame <= frameEnd && nextKey(frame) != frame {
      var next := nextKey(frame);
      assert JumpsForward(nextKey, frame);
      WalkFramesShape(next, frameEnd, nextKey);
      var rest := WalkFrames(next, frameEnd, nextKey);
      var r := WalkFrames(frame, frameEnd, nextKey);
      assert r == [frame] + rest;
      assert forall k :: 0 < k < |r| ==> r[k] == rest[k - 1];
      assert rest != [] ==> rest[0] == next;
    }
  }

  /** The maximum init_progress hands to the progress bar: bones times frames in the
      scene range, with no fallback, so it is not positive for an empty range. */
  function ProgressMax(totalBones: int, frameStart: int, frameEnd: int): (r: int)
    ensures totalBones > 0 && frameStart <= frameEnd ==> r >= totalBones
    ensures totalBones > 0 && frameEnd < frameStart ==> r <= 0
  {
    ProductBounds(totalBones, frameEnd - frameStart + 1);
    totalBones * (frameEnd - frameStart + 1)
  }

  /** Signs of a product with a positive factor, step by step. */
  lemma {:induction false} ProductBounds(b: int, n: int)
    ensures b > 0 && n >= 1 ==> b * n >= b
    ensures b > 0 && n <= 0 ==> b * n <= 0
    decreases if n >= 0 then n else -n
  {
    if b <= 0 {
    } else if n > 1 {
      ProductBounds(b, n - 1);
      assert b * n == b * (n - 1) + b;
    } else if n < 0 {
      ProductBounds(b, n + 1);
      assert b * n == b * (n + 1) - b;
    }
  }

  /** The module-level _progress_counter, 0 when the module is loaded. */
  class Progress {
    var counter: int
    /** The maximum last handed to the progress bar. */
    var maximum: int

    constructor ()
      ensures counter == 0
    {
      counter := 0;
    }

    /** init_progress */
    method InitProgress(scene: Scene, totalBones: int)
      modifies this
      ensures counter == 0
      ensures maximum == ProgressMax(totalBones, scene.frameStart, scene.frameEnd)
    {
      maximum := ProgressMax(totalBones, scene.frameStart, scene.frameEnd);
      counter := 0;
    }

    /** update_progress: one tick. */
    method UpdateProgress()
      modifies this`counter
      ensures counter == old(counter) + 1
    {
      counter := counter + 1;
    }
  }

  /** jump_next_frame: the keyframe jump, then one frame forward and one back, which
      leaves the frame where the jump put it. */
  method JumpNextFrame(scene: Scene, nextKey: int -> int)
    modifies scene`frameCurrent
    ensures scene.frameCurrent == nextKey(old(scene.frameCurrent))
  {
    scene.frameCurrent := nextKey(scene.frameCurrent);
    scene.frameCurrent := scene.frameCurrent + 1;
    scene.frameCurrent := scene.frameCurrent - 1;
  }

  /** The while loop of process_bone_conversion, from the current frame on: it
      converts at each frame WalkFrames lists, ticking the progress counter once per
      conversion. `converted` lists the conversion frames. */
  method ConvertUntilLastKeyframe(scene: Scene, progress: Progress, nextKey: int -> int)
    returns (converted: seq<int>)
    requires NeverBackwards(nextKey)
    modifies scene`frameCurrent, progress`counter
    ensures converted == WalkFrames(old(scene.frameCurrent), scene.frameEnd, nextKey)
    ensures progress.counter == old(progress.counter) + |converted|
    ensures scene.frameCurrent ==
              if converted == [] then old(scene.frameCurrent) else nextKey(converted[|converted| - 1])
  {
    ghost var start, startCounter := scene.frameCurrent, progress.counter;
    var frameEnd := scene.frameEnd;
    converted := [];
    while scene.frameCurrent <= frameEnd
      invariant frameEnd == scene.frameEnd
      invariant converted + WalkFrames(scene.frameCurrent, frameEnd, nextKey) == WalkFrames(start, frameEnd, nextKey)
      invariant progress.counter == startCounter + |converted|
      invariant converted == [] ==> scene.frameCurrent == start
      invariant converted != [] ==> scene.frameCurrent == nextKey(converted[|converted| - 1])
      decreases frameEnd - scene.frameCurrent
    {
      var currentFrame := scene.frameCurrent;
      progress.UpdateProgress();
      // convert_frame_rotation runs at the current frame.
      JumpNextFrame(scene, nextKey);
      WalkFramesStep(currentFrame, frameEnd, nextKey);
      if currentFrame == scene.frameCurrent {
        converted := converted + [currentFrame];
        break;
      }
      assert JumpsForward(nextKey, currentFrame);
      AppendRegroup(converted, currentFrame, WalkFrames(scene.frameCurrent, frameEnd, nextKey));
      converted := converted + [currentFrame];
    }
  }

  lemma AppendRegroup(done: seq<int>, x: int, rest: seq<int>)
    ensures done + [x] + rest == done + ([x] + rest)
  {
  }

  /** One turn of the loop: the walk from an in-range frame is that frame, followed
      by the walk from its jump target unless the jump stays put. */
  lemma WalkFramesStep(frame: int, frameEnd: int, nextKey: int -> int)
    requires NeverBackwards(nextKey) && frame <= frameEnd
    ensures WalkFrames(frame, frameEnd, nextKey) ==
              if nextKey(frame) == frame then [frame]
              else [frame] + WalkFrames(nextKey(frame), frameEnd, nextKey)
  {
  }

  /** process_bone_conversion for one bone. The locks are cleared, the scene jumps to
      its start frame, the loop converts at every frame WalkFrames lists from there,
      ticking the progress counter once per conversion, and under preserveLocks the
      backed-up locks are written back at the end. */
  method ProcessBoneConversion(scene: Scene, bone: PoseBone, progress: Progress, nextKey: int -> int)
    returns (converted: seq<int>)
    requires NeverBackwards(nextKey)
    modifies scene`frameCurrent, bone, progress`counter
    ensures converted == WalkFrames(scene.frameStart, scene.frameEnd, nextKey)
    ensures progress.counter == old(progress.counter) + |converted|
    ensures RotationLocks(bone) ==
              if scene.crm.preserveLocks then old(RotationLocks(bone)) else AllUnlocked
    ensures scene.frameCurrent ==
              if converted == [] then scene.frameStart else nextKey(converted[|converted| - 1])
  {
    var locks := PrepareBoneLocks(scene, bone);
    // setup_initial_keyframe: frame_jump(end=False) goes to the start frame.
    scene.frameCurrent := scene.frameStart;
    converted := ConvertUntilLastKeyframe(scene, progress, nextKey);
    RestoreBoneLocks(scene, bone, locks);
  }

  /** The progress ticks of converting one bone after another, each with its own
      keyframe jumps. */
  function TotalTicks(frameStart: int, frameEnd: int, nextKeys: seq<int -> int>): int
    requires forall i :: 0 <= i < |nextKeys| ==> NeverBackwards(nextKeys[i])
  {
    if nextKeys == [] then 0
    else |WalkFrames(frameStart, frameEnd, nextKeys[0])| + TotalTicks(frameStart, frameEnd, nextKeys[1..])
  }

  /** When the scene range is not empty, converting every bone never ticks the counter
      past the maximum init_progress set for that many bones. */
  lemma {:induction false} TicksWithinProgressMax(frameStart: int, frameEnd: int, nextKeys: seq<int -> int>)
    requires frameStart <= frameEnd
    requires forall i :: 0 <= i < |nextKeys| ==> NeverBackwards(nextKeys[i])
    ensures 0 <= TotalTicks(frameStart, frameEnd, nextKeys) <= ProgressMax(|nextKeys|, frameStart, frameEnd)
  {
    if nextKeys != [] {
      WalkFramesShape(frameStart, frameEnd, nextKeys[0]);
      TicksWithinProgressMax(frameStart, frameEnd, nextKeys[1..]);
      var frames := frameEnd - frameStart + 1;
      assert ProgressMax(|nextKeys|, frameStart, frameEnd) == frames + ProgressMax(|nextKeys| - 1, frameStart, frameEnd) by {
        assert |nextKeys| * frames == frames + (|nextKeys| - 1) * frames;
      }
    }
  }

  /** What restore_initial_state can use: a stored frame number, stored references
      to bones of the pose, and a stored active bone or None. */
  predicate KeysWellFormed(props: map<string, IdProp>, bones: set<string>) {
    (FrameKey in props ==> props[FrameKey].IntProp?) &&
    (SelectionKey in props ==>
       props[SelectionKey].StrListProp? && forall n :: n in props[SelectionKey].items ==> n in bones) &&
    (ActiveKey in props ==>
       props[ActiveKey].NoneProp? || (props[ActiveKey].StrProp? && props[ActiveKey].s in bones))
  }

  /** scene.get('crm_initial_frame', 1) */
  function StoredFrame(props: map<string, IdProp>, bones: set<string>): (r: int)
    requires KeysWellFormed(props, bones)
    ensures FrameKey in props ==> props[FrameKey] == IntProp(r)
    ensures FrameKey !in props ==> r == 1
  {
    if FrameKey in props then props[FrameKey].i else 1
  }

  /** scene.get('crm_initial_selection', []) */
  function StoredSelection(props: map<string, IdProp>, bones: set<string>): (r: seq<string>)
    requires KeysWellFormed(props, bones)
    ensures SelectionKey in props ==> props[SelectionKey] == StrListProp(r)
    ensures SelectionKey !in props ==> r == []
    ensures forall n :: n in r ==> n in bones
  {
    if SelectionKey in props then props[SelectionKey].items else []
  }

  /** scene.get('crm_initial_active', None) */
  function StoredActive(props: map<string, IdProp>, bones: set<string>): (r: Option<string>)
    requires KeysWellFormed(props, bones)
    ensures ActiveKey in props ==> props[ActiveKey] == if r.Some? then StrProp(r.value) else NoneProp
    ensures ActiveKey !in props ==> r.None?
    ensures r.Some? ==> r.value in bones
  {
    if ActiveKey in props && props[ActiveKey].StrProp? then Some(props[ActiveKey].s) else None
  }

  /** store_initial_state: the current frame, the selected bones, and the active bone,
      else the first selected one, else None. A stored bone is written as its name. */
  method StoreInitialState(scene: Scene, pose: Pose)
    requires pose.Valid()
    modifies scene`props
    ensures scene.props == old(scene.props)
      [FrameKey := IntProp(scene.frameCurrent)]
      [SelectionKey := StrListProp(pose.SelectedNames())]
      [ActiveKey :=
         if pose.active.Some? then StrProp(pose.active.value)
         else if pose.SelectedNames() != [] then StrProp(pose.SelectedNames()[0])
         else NoneProp]
    ensures KeysWellFormed(scene.props, pose.select.Keys)
  {
    var selection := pose.SelectedNames();
    scene.props := scene.props[FrameKey := IntProp(scene.frameCurrent)];
    scene.props := scene.props[SelectionKey := StrListProp(selection)];
    if pose.active.Some? {
      scene.props := scene.props[ActiveKey := StrProp(pose.active.value)];
    } else if selection != [] {
      scene.props := scene.props[ActiveKey := StrProp(selection[0])];
    } else {
      scene.props := scene.props[ActiveKey := NoneProp];
    }
  }

  /** The selection half of restore_initial_state: every bone is deselected, each
      stored bone is selected, and a stored active bone becomes active. */
  method RestoreSelection(pose: Pose, bones: seq<string>, active: Option<string>)
    requires pose.Valid()
    requires forall n :: n in bones ==> n in pose.select
    requires active.Some? ==> active.value in pose.select
    modifies pose`select, pose`active
    ensures pose.Valid() && pose.select.Keys == old(pose.select.Keys)
    ensures forall n :: n in pose.select ==> pose.select[n] == (n in bones)
    ensures pose.active == if active.Some? then active else old(pose.active)
  {
    pose.DeselectAll();
    for i := 0 to |bones|
      invariant pose.Valid() && pose.select.Keys == old(pose.select.Keys)
      invariant pose.active == old(pose.active)
      invariant forall n :: n in pose.select ==> pose.select[n] == (n in bones[..i])
    {
      pose.select := pose.select[bones[i] := true];
      assert bones[..i + 1] == bones[..i] + [bones[i]];
    }
    assert bones[..|bones|] == bones;
    if active.Some? {
      pose.active := active;
    }
  }

  /** restore_initial_state. Under jumpInitFrame the stored frame (default 1) becomes
      current. Under preserveSelection exactly the stored bones end up selected and a
      stored active bone becomes active. The three crm_ keys are removed whatever the
      settings. */
  method RestoreInitialState(scene: Scene, pose: Pose)
    requires pose.Valid() && KeysWellFormed(scene.props, pose.select.Keys)
    modifies scene`frameCurrent, scene`props, pose`select, pose`active
    ensures pose.Valid() && pose.select.Keys == old(pose.select.Keys)
    ensures scene.props == old(scene.props) - {FrameKey, SelectionKey, ActiveKey}
    ensures scene.frameCurrent ==
              if scene.crm.jumpInitFrame then StoredFrame(old(scene.props), pose.select.Keys)
              else old(scene.frameCurrent)
    ensures forall n :: n in pose.select ==>
              pose.select[n] ==
                if scene.crm.preserveSelection then n in StoredSelection(old(scene.props), pose.select.Keys)
                else old(pose.select[n])
    ensures pose.active ==
              var active := StoredActive(old(scene.props), pose.select.Keys);
              if scene.crm.preserveSelection && active.Some? then active else old(pose.active)
  {
    if scene.crm.jumpInitFrame {
      scene.frameCurrent := StoredFrame(scene.props, pose.select.Keys);
    }
    if scene.crm.preserveSelection {
      RestoreSelection(pose, StoredSelection(scene.props, pose.select.Keys),
                       StoredActive(scene.props, pose.select.Keys));
    }
    scene.props := scene.props - {FrameKey};
    scene.props := scene.props - {ActiveKey};
    scene.props := scene.props - {SelectionKey};
  }

  /** Storing, an arbitrary change of frame and selection (the conversion), and
      restoring with both options on: the frame and every select flag are back,
      the active bone is the one stored, and no crm_ key is left behind. */
  method StoreAndRestore(scene: Scene, pose: Pose,
                         midFrame: int, midSelect: map<string, bool>, midActive: Option<string>)
    requires pose.Valid()
    requires midSelect.Keys == pose.select.Keys && (midActive.Some? ==> midActive.value in pose.select)
    requires scene.crm.jumpInitFrame && scene.crm.preserveSelection
    modifies scene`frameCurrent, scene`props, pose`select, pose`active
    ensures pose.Valid()
    ensures scene.frameCurrent == old(scene.frameCurrent)
    ensures pose.select == old(pose.select)
    ensures pose.active ==
              if old(pose.active).Some? then old(pose.active)
              else if old(pose.SelectedNames()) != [] then Some(old(pose.SelectedNames())[0])
              else midActive
    ensures scene.props == old(scene.props) - {FrameKey, SelectionKey, ActiveKey}
  {
    StoreInitialState(scene, pose);
    scene.frameCurrent := midFrame;
    pose.select, pose.active := midSelect, midActive;
    RestoreInitialState(scene, pose);
    assert pose.select == old(pose.select);
    assert scene.props == old(scene.props) - {FrameKey, SelectionKey, ActiveKey};
  }
}
