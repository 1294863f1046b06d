/** Plain-record stand-ins for the Blender objects the add-on reads and writes:
    the scene (current frame, frame range, custom keys, the add-on's settings),
    a pose bone's rotation locks, and the armature's bone selection. */
module Host {

  datatype Option<T> = None | Some(value: T)

  predicate Distinct<T(==)>(s: seq<T>) {
    forall i, j :: 0 <= i < j < |s| ==> s[i] != s[j]
  }

  /** Scene frames in strictly increasing order. */
  predicate IncreasingFrames(s: seq<int>) {
    forall i, j :: 0 <= i < j < |s| ==> s[i] < s[j]
  }

  /** Scene frames that never go back. */
  predicate NonDecreasingFrames(s: seq<int>) {
    forall i, j :: 0 <= i < j < |s| ==> s[i] <= s[j]
  }

  /** The target rotation modes offered by the add-on's property group. */
  datatype RotationMode = XYZ | XZY | YXZ | YZX | ZXY | ZYX | AxisAngle | Quaternion
  {
    /** The enum identifier Blender stores for the item. */
    function Identifier(): string {
      match this
      case XYZ => "XYZ"
      case XZY => "XZY"
      case YXZ => "YXZ"
      case YZX => "YZX"
      case ZXY => "ZXY"
      case ZYX => "ZYX"
      case AxisAngle => "AXIS_ANGLE"
      case Quaternion => "QUATERNION"
    }

    predicate IsEuler() {
      !AxisAngle? && !Quaternion?
    }
  }

  /** Looks an enum identifier up among the items; None for a string that is no item. */
  function RotationModeFromIdentifier(s: string): (r: Option<RotationMode>)
    ensures r.Some? ==> r.value.Identifier() == s
    ensures r.None? ==> forall m: RotationMode :: m.Identifier() != s
  {
    if s == "XYZ" then Some(XYZ)
    else if s == "XZY" then Some(XZY)
    else if s == "YXZ" then Some(YXZ)
    else if s == "YZX" then Some(YZX)
    else if s == "ZXY" then Some(ZXY)
    else if s == "ZYX" then Some(ZYX)
    else if s == "AXIS_ANGLE" then Some(AxisAngle)
    else if s == "QUATERNION" then Some(Quaternion)
    else None
  }

  /** Every item's identifier leads back to the item, so no two items share one. */
  lemma IdentifierRoundTrip(m: RotationMode)
    ensures RotationModeFromIdentifier(m.Identifier()) == Some(m)
  {
  }

  /** The add-on's scene settings (CRM_Properties). */
  datatype CrmProps = CrmProps(
    targetRmode: RotationMode,
    jumpInitFrame: bool,
    preserveLocks: bool,
    preserveSelection: bool)

  /** The kinds of value the add-on stores under the scene's custom keys. */
  datatype IdProp = IntProp(i: int) | StrProp(s: string) | StrListProp(items: seq<string>) | NoneProp

  const FrameKey := "crm_initial_frame"
  const SelectionKey := "crm_initial_selection"
  const ActiveKey := "crm_initial_active"

  class Scene {
    var frameCurrent: int
    var frameStart: int
    var frameEnd: int
    /** The scene's custom (ID) properties, by key. */
    var props: map<string, IdProp>
    var crm: CrmProps

    constructor (frameStart: int, frameEnd: int, frameCurrent: int, crm: CrmProps)
      ensures this.frameStart == frameStart && this.frameEnd == frameEnd
      ensures this.frameCurrent == frameCurrent && this.crm == crm
      ensures props == map[]
    {
      this.frameStart := frameStart;
      this.frameEnd := frameEnd;
      this.frameCurrent := frameCurrent;
      this.crm := crm;
      props := map[];
    }
  }

  /** A pose bone's rotation locks: lock_rotation[0..2], lock_rotation_w, lock_rotations_4d. */
  class PoseBone {
    var lockX: bool
    var lockY: bool
    var lockZ: bool
    var lockW: bool
    var lock4D: bool

    constructor (x: bool, y: bool, z: bool, w: bool, fourD: bool)
      ensures lockX == x && lockY == y && lockZ == z && lockW == w && lock4D == fourD
    {
      lockX, lockY, lockZ, lockW, lock4D := x, y, z, w, fourD;
    }
  }

  /** The bones of the armature in pose mode, by name, with their select flags
      and the active bone. Blender gives no bone an empty name. */
  class Pose {
    var names: seq<string>
    var select: map<string, bool>
    var active: Option<string>

    ghost predicate Valid()
      reads this
    {
      Distinct(names) &&
      select.Keys == (set n | n in names) &&
      "" !in select &&
      (active.Some? ==> active.value in select)
    }

    constructor (names: seq<string>, select: map<string, bool>, active: Option<string>)
      requires Distinct(names) && select.Keys == (set n | n in names) && "" !in select
      requires active.Some? ==> active.value in select
      ensures Valid()
      ensures this.names == names && this.select == select && this.active == active
    {
      this.names := names;
      this.select := select;
      this.active := active;
    }

    /** selected_pose_bones: the selected bones' names, in the armature's order. */
    function SelectedNames(): (r: seq<string>)
      reads this
      requires Valid()
      ensures forall n :: n in r <==> n in select && select[n]
      ensures Distinct(r)
    {
      SelectedOf(names, select)
    }

    /** Clears every bone's select flag. */
    method DeselectAll()
      requires Valid()
      modifies this`select
      ensures Valid()
      ensures select.Keys == old(select.Keys)
      ensures forall n :: n in select ==> !select[n]
    {
      select := map n | n in select :: false;
    }
  }

  /** The names among `names` whose select flag is set, in order. */
  function SelectedOf(names: seq<string>, select: map<string, bool>): (r: seq<string>)
    requires forall n :: n in names ==> n in select
    ensures forall n :: n in r <==> n in names && select[n]
    ensures Distinct(names) ==> Distinct(r)
  {
    if names == [] then []
    else
      var rest := SelectedOf(names[1..], select);
      if select[names[0]] then [names[0]] + rest else rest
  }
}
