/** Tracked joints and the layout of the pose file: the 32 named joints in
    id order, the header labels and the cells of one row. Coordinates are
    single-precision floats in the source; here they are `real`s, and their
    decimal text is not modelled. */
module Pose {

  datatype Position = Position(x: real, y: real, z: real)
  datatype Quaternion = Quaternion(x: real, y: real, z: real, w: real)
  datatype Joint = Joint(position: Position, rotation: Quaternion, confident: bool)

  /** A joint with every coordinate 0, which the model reads where the
      source would read past the end of the recorded joints. */
  const ZeroJoint := Joint(Position(0.0, 0.0, 0.0), Quaternion(0.0, 0.0, 0.0, 0.0), false)

  /** `K4ABT_JOINT_COUNT` */
  const JointCount: nat := 32

  /** `s_jointNames`: every joint id with its column name, ids in order. */
  const JointNames: seq<(nat, string)> := [
    (0, "PELVIS"), (1, "SPINE_NAVAL"), (2, "SPINE_CHEST"), (3, "NECK"),
    (4, "CLAVICLE_LEFT"), (5, "SHOULDER_LEFT"), (6, "ELBOW_LEFT"), (7, "WRIST_LEFT"),
    (8, "HAND_LEFT"), (9, "HANDTIP_LEFT"), (10, "THUMB_LEFT"), (11, "CLAVICLE_RIGHT"),
    (12, "SHOULDER_RIGHT"), (13, "ELBOW_RIGHT"), (14, "WRIST_RIGHT"), (15, "HAND_RIGHT"),
    (16, "HANDTIP_RIGHT"), (17, "THUMB_RIGHT"), (18, "HIP_LEFT"), (19, "KNEE_LEFT"),
    (20, "ANKLE_LEFT"), (21, "FOOT_LEFT"), (22, "HIP_RIGHT"), (23, "KNEE_RIGHT"),
    (24, "ANKLE_RIGHT"), (25, "FOOT_RIGHT"), (26, "HEAD"), (27, "NOSE"),
    (28, "EYE_LEFT"), (29, "EAR_LEFT"), (30, "EYE_RIGHT"), (31, "EAR_RIGHT")]

  /** The table names every joint exactly once, at the position of its id. */
  lemma JointNamesById()
    ensures |JointNames| == JointCount
    ensures forall i :: 0 <= i < |JointNames| ==> JointNames[i].0 == i
  {
  }

  /** `s_boneList`: the 31 bones drawn between joints, as pairs of joint
      ids (the same table appears in the camera and the viewer). */
  const BoneList: seq<(nat, nat)> := [
    (2, 1), (1, 0), (2, 3), (3, 26), (26, 27),
    (2, 4), (4, 5), (5, 6), (6, 7), (7, 8), (8, 9), (7, 10),
    (0, 18), (18, 19), (19, 20), (20, 21), (27, 28), (28, 29),
    (2, 11), (11, 12), (12, 13), (13, 14), (14, 15), (15, 16), (14, 17),
    (0, 22), (22, 23), (23, 24), (24, 25), (27, 30), (30, 31)]

  /** There are 31 bones, one fewer than joints, and each joins two
      joint ids of the skeleton. */
  lemma BoneListShape()
    ensures |BoneList| == 31 == JointCount - 1
    ensures forall b :: 0 <= b < |BoneList| ==> BoneList[b].0 < JointCount && BoneList[b].1 < JointCount
  {
  }

  /** The seven columns written for each joint: position, then rotation. */
  const Components: seq<string> := ["X", "Y", "Z", "RX", "RY", "RZ", "RW"]

  /** Component `c` of a joint, in the order of `Components`. */
  function Component(j: Joint, c: nat): real
    requires c < 7
  {
    match c
    case 0 => j.position.x
    case 1 => j.position.y
    case 2 => j.position.z
    case 3 => j.rotation.x
    case 4 => j.rotation.y
    case 5 => j.rotation.z
    case _ => j.rotation.w
  }

  /** The seven column labels of the joint called `name`. */
  function JointLabelsOf(name: string): (l: seq<string>)
    ensures |l| == 7 && forall c :: 0 <= c < 7 ==> l[c] == name + Components[c]
  {
    [name + "X", name + "Y", name + "Z", name + "RX", name + "RY", name + "RZ", name + "RW"]
  }

  /** The labels of every joint of the table, seven per joint, in table order. */
  function Labels(table: seq<(nat, string)>): (l: seq<string>)
    ensures |l| == 7 * |table|
  {
    if table == [] then []
    else Labels(table[..|table| - 1]) + JointLabelsOf(table[|table| - 1].1)
  }

  /** The header: "Timestamp", then the seven labels of each joint. */
  function HeaderLabels(table: seq<(nat, string)>): (h: seq<string>)
    ensures |h| == 1 + 7 * |table| && h[0] == "Timestamp"
  {
    ["Timestamp"] + Labels(table)
  }

  /** The joint a row reads for id `id`: the recorded one, or a zero joint
      past the end. */
  function JointAt(joints: seq<Joint>, id: nat): Joint {
    if id < |joints| then joints[id] else ZeroJoint
  }

  /** One cell of the pose file. */
  datatype Cell = Stamp(time: nat) | Number(value: real)

  /** The seven values of one joint: position, then rotation. */
  function ValuesOf(j: Joint): (v: seq<Cell>)
    ensures |v| == 7 && forall c :: 0 <= c < 7 ==> v[c] == Number(Component(j, c))
  {
    [Number(j.position.x), Number(j.position.y), Number(j.position.z),
     Number(j.rotation.x), Number(j.rotation.y), Number(j.rotation.z), Number(j.rotation.w)]
  }

  /** The values of every joint of the table, read by id, in table order. */
  function Values(table: seq<(nat, string)>, joints: seq<Joint>): (v: seq<Cell>)
    ensures |v| == 7 * |table|
  {
    if table == [] then []
    else Values(table[..|table| - 1], joints) + ValuesOf(JointAt(joints, table[|table| - 1].0))
  }

  /** The cells of one row: the timestamp, then the seven values of each
      joint, in the order of the header. */
  function RowCells(table: seq<(nat, string)>, time: nat, joints: seq<Joint>): (r: seq<Cell>)
    ensures |r| == 1 + 7 * |table| && r[0] == Stamp(time)
  {
    [Stamp(time)] + Values(table, joints)
  }

  /** Writing the header: "Timestamp," then, joint by joint through the
      table, its seven column names, each followed by a comma. */
  method WriteHeader(table: seq<(nat, string)>) returns (labels: seq<string>)
    ensures labels == HeaderLabels(table)
  {
    labels := ["Timestamp"];
    var i := 0;
    while i < |table|
      invariant 0 <= i <= |table|
      invariant labels == HeaderLabels(table[..i])
    {
      assert table[..i + 1][..i] == table[..i];
      labels := labels + JointLabelsOf(table[i].1);
      i := i + 1;
    }
    assert table[..i] == table;
  }

  /** Writing one row: the timestamp, then for each joint in the table its
      position and rotation, reading the joint at the table's id. */
  method WriteRow(table: seq<(nat, string)>, time: nat, joints: seq<Joint>) returns (cells: seq<Cell>)
    ensures cells == RowCells(table, time, joints)
  {
    cells := [Stamp(time)];
    var i := 0;
    while i < |table|
      invariant 0 <= i <= |table|
      invariant cells == RowCells(table[..i], time, joints)
    {
      assert table[..i + 1][..i] == table[..i];
      cells := cells + ValuesOf(JointAt(joints, table[i].0));
      i := i + 1;
    }
    assert table[..i] == table;
  }

  /** Label `7 * i + c` of the table is component `c` of joint `i`. */
  lemma {:induction false} LabelsAt(table: seq<(nat, string)>, i: nat, c: nat)
    requires i < |table| && c < 7
    ensures Labels(table)[7 * i + c] == table[i].1 + Components[c]
    decreases |table|
  {
    var prefix := table[..|table| - 1];
    if i < |table| - 1 {
      LabelsAt(prefix, i, c);
    }
  }

  /** Value `7 * i + c` of a row is component `c` of the joint with the id
      of table entry `i`. */
  lemma {:induction false} ValuesAt(table: seq<(nat, string)>, joints: seq<Joint>, i: nat, c: nat)
    requires i < |table| && c < 7
    ensures Values(table, joints)[7 * i + c] == Number(Component(JointAt(joints, table[i].0), c))
    decreases |table|
  {
    var prefix := table[..|table| - 1];
    if i < |table| - 1 {
      ValuesAt(prefix, joints, i, c);
    }
  }

  /** Header and rows line up: both have one column for the timestamp and
      seven per joint of the table, and the column labelled
      `<joint><component>` holds that component of the joint with that
      id, read from the recorded joints. With `JointNames` (ids 0 to 31,
      see `JointNamesById`) and at least 32 recorded joints this holds for
      every joint of the table. */
  lemma ColumnsAlign(table: seq<(nat, string)>, time: nat, joints: seq<Joint>, i: nat, c: nat)
    requires i < |table| && c < 7 && table[i].0 < |joints|
    ensures |HeaderLabels(table)| == |RowCells(table, time, joints)| == 1 + 7 * |table|
    ensures HeaderLabels(table)[1 + 7 * i + c] == table[i].1 + Components[c]
    ensures RowCells(table, time, joints)[1 + 7 * i + c] == Number(Component(joints[table[i].0], c))
  {
    LabelsAt(table, i, c);
    ValuesAt(table, joints, i, c);
  }
}
