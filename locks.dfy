/** Backing up, clearing and restoring a pose bone's rotation locks. Both
    versions of the add-on carry the same three helpers word for word. */
module Locks {
  import opened Host

  const AllUnlocked: seq<bool> := [false, false, false, false, false]

  /** get_rotation_locks: the lock state as a list, in the order x, y, z, w, 4D. */
  function RotationLocks(bone: PoseBone): (r: seq<bool>)
    reads bone
    ensures |r| == 5
    ensures r[0] == bone.lockX && r[1] == bone.lockY && r[2] == bone.lockZ
    ensures r[3] == bone.lockW && r[4] == bone.lock4D
  {
    [bone.lockX, bone.lockY, bone.lockZ, bone.lockW, bone.lock4D]
  }

  /** The list is a lossless reading: two bones with the same list have the same locks. */
  lemma RotationLocksDetermineBone(a: PoseBone, b: PoseBone)
    requires RotationLocks(a) == RotationLocks(b)
    ensures a.lockX == b.lockX && a.lockY == b.lockY && a.lockZ == b.lockZ
    ensures a.lockW == b.lockW && a.lock4D == b.lock4D
  {
  }

  /** A non-empty list shorter than five makes toggle_rotation_locks index past its end. */
  predicate ToggleRaises(mode: string, locks: Option<seq<bool>>) {
    mode == "ON" && locks.Some? && 0 < |locks.value| < 5
  }

  /** The lock state toggle_rotation_locks leaves behind, given the state before it.
      An "ON" list shorter than five has its leading entries written before the
      index error stops the assignments. */
  function ToggledLocks(current: seq<bool>, mode: string, locks: Option<seq<bool>>): (r: seq<bool>)
    requires |current| == 5
    ensures |r| == 5
    ensures mode == "OFF" ==> r == AllUnlocked
    ensures mode == "ON" && locks.Some? && |locks.value| >= 5 ==> r == locks.value[..5]
    ensures mode != "OFF" && (mode != "ON" || locks.None? || locks.value == []) ==> r == current
    ensures ToggleRaises(mode, locks) ==>
              r == locks.value + current[|locks.value|..]
  {
    if mode == "OFF" then AllUnlocked
    else if mode == "ON" && locks.Some? && |locks.value| > 0 then
      seq(5, i requires 0 <= i < 5 => if i < |locks.value| then locks.value[i] else current[i])
    else current
  }

  /** Clearing the locks and then switching them "ON" from the backup gives the backup back. */
  lemma BackupRestoreRoundTrip(backup: seq<bool>)
    requires |backup| == 5
    ensures ToggledLocks(ToggledLocks(backup, "OFF", None), "ON", Some(backup)) == backup
  {
  }

  /** toggle_rotation_locks. `ok` is false when the source raises an index error. */
  method ToggleRotationLocks(bone: PoseBone, mode: string, locks: Option<seq<bool>>)
    returns (ok: bool)
    modifies bone
    ensures ok == !ToggleRaises(mode, locks)
    ensures RotationLocks(bone) == ToggledLocks(old(RotationLocks(bone)), mode, locks)
  {
    ok := true;
    if mode == "OFF" {
      bone.lockX := false;
      bone.lockY := false;
      bone.lockZ := false;
      bone.lockW := false;
      bone.lock4D := false;
    } else if mode == "ON" && locks.Some? && |locks.value| > 0 {
      var l := locks.value;
      bone.lockX := l[0];
      if |l| < 2 { ok := false; return; }
      bone.lockY := l[1];
      if |l| < 3 { ok := false; return; }
      bone.lockZ := l[2];
      if |l| < 4 { ok := false; return; }
      bone.lockW := l[3];
      if |l| < 5 { ok := false; return; }
      bone.lock4D := l[4];
    }
  }

  /** prepare_bone_locks: always clears the locks; it hands back the prior state
      exactly when the scene's preserveLocks setting is on. */
  method PrepareBoneLocks(scene: Scene, bone: PoseBone) returns (locks: Option<seq<bool>>)
    modifies bone
    ensures RotationLocks(bone) == AllUnlocked
    ensures locks == if scene.crm.preserveLocks then Some(old(RotationLocks(bone))) else None
  {
    if scene.crm.preserveLocks {
      locks := Some(RotationLocks(bone));
      var _ := ToggleRotationLocks(bone, "OFF", None);
    } else {
      var _ := ToggleRotationLocks(bone, "OFF", None);
      locks := None;
    }
  }

  /** The restore step at the end of process_bone_conversion. With preserveLocks the
      backup from PrepareBoneLocks is switched back on; otherwise nothing happens. */
  method RestoreBoneLocks(scene: Scene, bone: PoseBone, locks: Option<seq<bool>>)
    requires scene.crm.preserveLocks ==> locks.Some? && |locks.value| == 5
    modifies bone
    ensures RotationLocks(bone) ==
              if scene.crm.preserveLocks then locks.value else old(RotationLocks(bone))
  {
    if scene.crm.preserveLocks {
      var ok := ToggleRotationLocks(bone, "ON", locks);
      assert ok;
    }
  }
}
