# Convert Rotation Mode: a Dafny model of the add-on's own logic

Convert Rotation Mode is a Blender add-on. It switches the rotation mode of the
selected pose bones (one of six Euler orders, axis-angle or quaternion) across
an animation and keeps each bone's orientation at every keyframe. The rotation
maths belongs to Blender's math library. The add-on itself does bookkeeping
around it, and this project models that bookkeeping and proves properties of it:

- collecting the keyframed frames of the armature's action (`get_list_frames`);
- backing up, clearing and restoring a bone's five rotation locks
  (`get_rotation_locks`, `toggle_rotation_locks`, `prepare_bone_locks`, and the
  restore step of `process_bone_conversion`);
- the progress counter (`init_progress`, `update_progress`);
- storing the current frame, selection and active bone in scene keys, and
  restoring them afterwards (`store_initial_state`, `restore_initial_state`);
- the per-bone driver loop of `process_bone_conversion`.

The repository holds two versions of these helpers. The current one is
`utils.py`, modelled in module `RootUtils`. The earlier one is
`convert_Rotation_Mode/utils.py`, modelled in module `LegacyUtils`.

- `host.dfy` (module `Host`) replaces the Blender objects with plain records.
  - A `Scene` class holds the current frame, the frame range, the custom keys
    and the add-on's settings.
  - A `PoseBone` class holds the five lock flags.
  - A `Pose` class holds the bones' names, a name-to-select-flag map and the
    active bone.
  - `RotationMode` is the target-mode enum of `convert_Rotation_Mode/properties.py`.
    Its `Identifier()` is the string the add-on compares against when it picks the
    rotation property to keyframe (`RootUtils.ConvertedProperty`).
    `RotationModeFromIdentifier` and `IdentifierRoundTrip` only document the enum:
    each string names at most one item, so comparing identifiers is the same as
    comparing modes.
- `locks.dfy` (module `Locks`) models the three lock helpers. Both files carry
  them word for word (`utils.py:65-70`, `84-102` and `114-126`;
  `convert_Rotation_Mode/utils.py:26-31`, `45-63` and `94-106`), so they are
  modelled once and both versions use them.
- `frames.dfy` (module `Frames`) models `get_list_frames`, which only the
  current version has.
- `root_utils.dfy` and `legacy_utils.dfy` model the rest of each version.

Modelling choices:

- Frames are `real`, because a keyframe's frame coordinate is a float.
- When the current version jumps to a frame, it writes `int(frame)`. The model
  writes the same thing, truncating toward zero.
- The earlier version moves through the timeline with Blender's "jump to next
  keyframe". The model takes that jump as a parameter `nextKey: int -> int`.
  Its one promise is that it never moves backwards. It stays put when no later
  keyframe exists.
- The per-frame rotation conversion is opaque. Each loop returns `converted`,
  the list of frames at which a conversion ran.
- The source raises an exception in two places the model covers: a lock list
  that is too short, and a bone without keyframes. Each becomes an `ok` result
  that is false. Everything the source did before the exception is kept.
- `get_list_frames` carries a comment saying non-rotation curves are skipped,
  but the test under it does nothing (`pass`), so every curve of the action
  counts. The model follows the code. The curves are all of the armature's
  action, not only the converted bone's.
- The earlier version writes the selected pose bones and the active pose bone
  themselves into the scene keys. The model writes their names (see
  `LegacyUtils.StoreInitialState` under "## Left out").

## Model

| member | source | states |
|---|---|---|
| `Host.RotationModeFromIdentifier` | convert_Rotation_Mode/properties.py:8-22 | a string maps to a mode exactly when it is that mode's enum identifier; any other string maps to none |
| `Host.IdentifierRoundTrip` | convert_Rotation_Mode/properties.py:11-20 | each of the eight items' identifiers leads back to that item, so no two items share an identifier |
| `Host.Pose.SelectedNames` | utils.py:300 | the selection lists exactly the bones whose select flag is set, each once |
| `Host.Pose.DeselectAll` | utils.py:59-62 | afterwards no bone is selected and the set of bones is unchanged |
| `Locks.RotationLocks` | utils.py:65-70 | the lock state is read as a five-entry list in the order x, y, z, w, 4D (the same function is at convert_Rotation_Mode/utils.py:26-31) |
| `Locks.RotationLocksDetermineBone` | utils.py:65-70 | the five-entry lock list (x, y, z, w, 4D) fixes all five lock fields: two bones with equal lists have equal locks |
| `Locks.ToggledLocks` | utils.py:84-102 | "OFF" clears all five locks; "ON" with a list of at least five copies its first five entries; "ON" with None or an empty list, or any other mode, changes nothing; a shorter non-empty list writes its own entries and then the error stops it |
| `Locks.ToggleRotationLocks` | utils.py:84-102 | the bone's new lock list is `ToggledLocks` of its old one; the call fails exactly for a non-empty "ON" list shorter than five |
| `Locks.BackupRestoreRoundTrip` | utils.py:119-120 | clearing the locks and then switching them "ON" from the backup taken before gives back exactly the backup |
| `Locks.PrepareBoneLocks` | utils.py:114-126 | every lock is cleared; the prior lock list is returned when preserveLocks is set, and None otherwise |
| `Locks.RestoreBoneLocks` | utils.py:246-249 | with preserveLocks the bone's locks become the backup; without it they are left alone |
| `Frames.KeyedFramesMembership` | utils.py:44-54 | a frame is among those the curves define exactly when some keyframe of some curve, whatever its data path, sits on it |
| `Frames.CollectFrames` | utils.py:44-54 | the nested loop produces a list without repeats that holds exactly the keyframed frames of all curves |
| `Frames.InsertSorted` | utils.py:56 | inserting into a sorted list keeps it sorted and adds exactly one copy of the frame; a new frame keeps a strictly increasing list strictly increasing |
| `Frames.InsertionOrdered` | utils.py:56 | placing a frame between the entries not above it and those above it yields a sorted list (strictly increasing when the frame is new) |
| `Frames.SortFrames` | utils.py:56 | `sorted` returns a sorted permutation of its input, strictly increasing when the input has no repeats |
| `Frames.GetListFrames` | utils.py:22-56 | the result is strictly increasing (sorted, no duplicates), and a frame is in it exactly when some curve has a keyframe there |
| `Frames.StrictlyIncreasingUnique` | utils.py:53-56 | two strictly increasing lists with the same elements are equal, so the frame list is fully determined by the keyframes |
| `RootUtils.TruncateFrame` | utils.py:233 | `int(frame)` truncates toward zero: the result is the integer next to the frame on the side of zero, within one frame of it |
| `RootUtils.ProgressMax` | utils.py:259-268 | the maximum is bones times frames in the range when that is positive, and falls back to the bone count otherwise, so it is positive whenever there is a bone |
| `RootUtils.Progress.constructor` | utils.py:1-11 | at load time this file leaves the counter undefined |
| `RootUtils.Progress.InitProgress` | utils.py:254-275 | the counter is defined and reset to 0, and the maximum handed to the progress bar is `ProgressMax` of the bone count and the scene range |
| `RootUtils.Progress.UpdateProgress` | utils.py:278-285 | the counter rises by exactly one |
| `RootUtils.ConvertedProperty` | utils.py:183-197 | comparing the target mode's identifier with "QUATERNION" and "AXIS_ANGLE", the conversion keyframes `rotation_quaternion` exactly for QUATERNION, `rotation_axis_angle` exactly for AXIS_ANGLE, and `rotation_euler` exactly for the six Euler orders |
| `RootUtils.TruncateMonotone` | utils.py:232-233 | `int()` keeps the order of two frames: a later frame never truncates to an earlier scene frame |
| `RootUtils.TruncatedFrames` | utils.py:232-233 | the loop jumps to one scene frame per collected frame, each the `int()` of that frame |
| `RootUtils.TruncatedFramesNonDecreasing` | utils.py:232-233 | jumping to the `int()` of strictly increasing frames never moves the scene backwards |
| `RootUtils.ProcessBoneConversion` | utils.py:218-251 | locks are cleared first; with no keyframe it fails with the locks still cleared; otherwise it converts once per collected frame in increasing order, at the truncated frame, raises the counter by the number of frames, ends on the last frame, keyframes the rotation property of the target mode (`ConvertedProperty`), and has the original locks back exactly under preserveLocks |
| `RootUtils.StoredFrame` | utils.py:321 | the stored frame when the key is present, 1 otherwise |
| `RootUtils.StoredSelection` | utils.py:326-335 | the stored list of names when the key holds one; no names when the key is missing or holds something other than a list |
| `RootUtils.StoredActive` | utils.py:327 | the stored active name when the key is present, "" otherwise |
| `RootUtils.StoreInitialState` | utils.py:297-312 | the three keys hold the current frame, the selected bones' names, and the active bone's name, else the first selected name, else ""; no other key changes |
| `RootUtils.RestoreSelection` | utils.py:331-346 | afterwards exactly the stored names that are bones are selected; a non-empty stored active name that is a bone becomes active, otherwise the active bone stays |
| `RootUtils.RestoreInitialState` | utils.py:315-351 | jumpInitFrame sets the stored frame (default 1); preserveSelection gives the selection and active bone of `RestoreSelection`; a switched-off option leaves its part alone; the three keys are removed in every case, and no other key changes |
| `RootUtils.StoreAndRestore` | utils.py:297-351 | store, any change of frame and selection, then restore with both options on: the frame and every select flag are the original ones, the active bone is the stored one, and the keys are gone; the bones, the settings, the frame range and every other key stay as they were |
| `LegacyUtils.WalkFrames` | convert_Rotation_Mode/utils.py:189-201 | the frames the while loop converts at, from a given frame: none exactly when that frame is past the end frame, and otherwise starting at it |
| `LegacyUtils.WalkFramesShape` | convert_Rotation_Mode/utils.py:189-201 | the walk is empty exactly when the start is past the end frame; it starts at the start frame, climbs strictly by keyframe jumps, stays within the range, stops where a jump stays put or leaves the range, and has at most one entry per frame of the range |
| `LegacyUtils.JumpNextFrame` | convert_Rotation_Mode/utils.py:34-42 | the frame ends where the keyframe jump put it: the +1/-1 pair has no net effect |
| `LegacyUtils.ConvertUntilLastKeyframe` | convert_Rotation_Mode/utils.py:189-201 | the loop terminates; it converts at exactly the frames of the walk, raises the counter once per conversion, and ends at the jump target of the last converted frame |
| `LegacyUtils.ProcessBoneConversion` | convert_Rotation_Mode/utils.py:177-208 | from the scene's start frame it converts along the walk, ticks once per conversion, and has the original locks back exactly under preserveLocks (cleared otherwise) |
| `LegacyUtils.Progress.constructor` | convert_Rotation_Mode/utils.py:7 | the counter is 0 when the module is loaded |
| `LegacyUtils.ProgressMax` | convert_Rotation_Mode/utils.py:215-216 | bones times frames in the range with no fallback: at least the bone count over a non-empty range, and not positive over an empty one |
| `LegacyUtils.Progress.InitProgress` | convert_Rotation_Mode/utils.py:211-218 | the counter is reset to 0 and the maximum is bones times frames in the range, with no fallback |
| `LegacyUtils.Progress.UpdateProgress` | convert_Rotation_Mode/utils.py:221-225 | the counter rises by exactly one |
| `LegacyUtils.TicksWithinProgressMax` | convert_Rotation_Mode/utils.py:211-225 | over a non-empty scene range, converting every bone in turn never takes the counter past the maximum set for that many bones |
| `LegacyUtils.StoredFrame` | convert_Rotation_Mode/utils.py:255 | the stored frame when the key is present, 1 otherwise |
| `LegacyUtils.StoredSelection` | convert_Rotation_Mode/utils.py:260 | the stored bones when the key is present, none otherwise; every entry is a bone of the pose |
| `LegacyUtils.StoredActive` | convert_Rotation_Mode/utils.py:261 | the stored active bone when the key holds one, None when the key is missing or holds None; a stored bone is a bone of the pose |
| `LegacyUtils.StoreInitialState` | convert_Rotation_Mode/utils.py:233-246 | the three keys hold the current frame, the selected bones, and the active bone, else the first selected bone, else None; no other key changes |
| `LegacyUtils.RestoreSelection` | convert_Rotation_Mode/utils.py:263-274 | afterwards exactly the stored bones are selected, and a stored active bone becomes active |
| `LegacyUtils.RestoreInitialState` | convert_Rotation_Mode/utils.py:249-279 | jumpInitFrame sets the stored frame (default 1); preserveSelection re-selects exactly the stored bones and sets a stored active bone; the three keys are removed in every case |
| `LegacyUtils.StoreAndRestore` | convert_Rotation_Mode/utils.py:233-279 | store, any change of frame and selection, then restore with both options on: the frame and every select flag are the original ones, the active bone is the stored one, and the keys are gone; the bones, the settings, the frame range and every other key stay as they were |

## Left out

- `convert_frame_rotation`, in both versions, is left out apart from the choice
  of rotation property. It converts a matrix to a quaternion, an axis-angle or
  Euler angles, and runs a floating-point mismatch check; the earlier version
  calls the copy/paste global-transform operators instead. These are foreign
  calls and floating-point numerics. The loops record only the frame at which
  each conversion runs.
- Keyframe insertion, `frame_set` and `frame_jump` are modelled only as writes
  to the current frame; the keyframe jump is an abstract function. This also
  leaves out the earlier `setup_initial_keyframe`, which keys the rotation mode
  at frame 1 rather than at the start frame. The model takes `frame_jump(end=False)`
  to go to the scene's start frame. Blender goes to the preview-range start when
  a preview range is on, and that case is not modelled.
- The progress bar calls (`progress_begin`, `progress_update`, `progress_end`)
  and their `try` blocks are host UI. The model keeps the maximum that would be
  handed over and the counter.
- `setup_bone_for_conversion`, `is_any_pose_bone_selected` and `get_fcurves` are
  selection queries and attribute access on the host scene graph. The selection
  changes that the conversion makes are left out of `process_bone_conversion`.
  `StoreAndRestore` stands for them with an arbitrary intermediate selection.
- Host.Pose.DeselectAll clears every bone. The source clears only the bones
  Blender lists as selected, so hidden selected bones are not modelled.
- Host.Pose.SelectedNames lists the selection in the armature's bone order. The
  order Blender uses for `selected_pose_bones` is not modelled.
- `jump_next_frame` in `utils.py:73-81` is not called by the current version,
  which visits the collected frames directly. It is modelled in the earlier
  version, which does call it.
- Missing animation data in `get_list_frames` is not modelled: the source would
  fail on the attribute access. The curves are a parameter.
- Blender clamps `frame_current` to a fixed range. The model's frames are
  unbounded, so the +1/-1 in `jump_next_frame` always cancel out.
- RootUtils.RestoreInitialState: requires a stored frame to be an integer
  and a stored active name to be a string, which is what `store_initial_state`
  writes. Any other kind of value is not modelled: the source would raise on
  the frame, or pass the value through `str()` for the active name.
- LegacyUtils.StoreInitialState: the model assumes each pose bone written into a
  scene key comes back from it as the same bone. What Blender's custom properties
  keep for a pose bone, or whether the assignment fails, is host behaviour the
  model does not capture. The earlier version's round trip
  (`LegacyUtils.StoreAndRestore`) is proved under that assumption.
- LegacyUtils.RestoreInitialState: requires the stored selection and active
  bone to name bones of the pose, which is what the assumption above gives.
- RootUtils.ProcessBoneConversion: requires the progress counter to be defined.
  In the source, `update_progress` before `init_progress` raises a NameError.
- Locks.RestoreBoneLocks: requires a five-entry backup when preserveLocks is
  set, which is what `prepare_bone_locks` returns. The model does not let the
  setting change in the middle of a conversion.
- LegacyUtils.TicksWithinProgressMax: requires a non-empty scene range, which
  Blender keeps (the end frame is never before the start frame).
- Exceptions are modelled as a false `ok` result. What the operator does with
  the exception afterwards is not modelled, since operators.py is not part of
  this model.
- The declared defaults of the settings (`convert_Rotation_Mode/properties.py:21-40`)
  are not modelled. The settings are whatever the scene holds, and every contract
  covers each setting both on and off.
- `dprint`, bl_logger.py, the panels, preferences, property registration and
  `update_panel` are logging and UI. `__init__.py` and operators.py hold
  registration and operator orchestration.
