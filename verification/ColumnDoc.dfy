/** The columnar document: what the archive writer serialises and the importer builds. */
module ColumnDoc {
  import opened Bytes

  datatype FieldType =
    | Null | Boolean | Int8 | Int16 | Int32 | Int64
    | UInt8 | UInt16 | UInt32 | UInt64 | Float | Text | Object

  /** An object keeps one property list per kind, in 26 slots. The slot number is also the
      bit of the object's flags, and the slots are written in this order:
      0-11 scalars (Null to Text), 12 objects, 13-24 arrays (Null to Text), 25 object arrays.
      Keys and texts are string ids; a scalar is the bit pattern of its machine value. */
  datatype Obj = Obj(props: seq<Prop>)

  datatype Prop =
    | Fixed(keys: seq<nat>, vals: seq<nat>)
    | Nested(keys: seq<nat>, objs: seq<Obj>)
    | Arrays(keys: seq<nat>, arrs: seq<seq<nat>>)
    | Table(groups: seq<Group>)

  /** One object array, cut into one column per nested key and type. */
  datatype Group = Group(key: nat, cols: seq<Column>)

  /** entries[i] holds the values that the array's object number positions[i] has for this key. */
  datatype Column = Column(name: nat, ty: FieldType, positions: seq<nat>, entries: seq<Entry>)

  datatype Entry = Vals(vals: seq<nat>) | Objs(objs: seq<Obj>)

  const SLOTS: nat := 26
  const OBJECT_SLOT: nat := 12
  const NULL_ARRAY_SLOT: nat := 13
  const UINT8_ARRAY_SLOT: nat := 19
  const TABLE_SLOT: nat := 25

  function TypeIndex(t: FieldType): (i: nat)
    ensures i <= 12
  {
    match t
    case Null => 0
    case Boolean => 1
    case Int8 => 2
    case Int16 => 3
    case Int32 => 4
    case Int64 => 5
    case UInt8 => 6
    case UInt16 => 7
    case UInt32 => 8
    case UInt64 => 9
    case Float => 10
    case Text => 11
    case Object => 12
  }

  /** The bytes of one value of the type, GET_TYPE_SIZE; null columns are written 4 bytes wide. */
  function TypeWidth(t: FieldType): nat {
    match t
    case Null => 4
    case Boolean | Int8 | UInt8 => 1
    case Int16 | UInt16 => 2
    case Int32 | UInt32 | Float => 4
    case Int64 | UInt64 | Text => 8
    case Object => 0
  }

  /** The type whose scalars or arrays a slot holds. */
  function SlotType(slot: nat): FieldType {
    match slot % 13
    case 0 => Null
    case 1 => Boolean
    case 2 => Int8
    case 3 => Int16
    case 4 => Int32
    case 5 => Int64
    case 6 => UInt8
    case 7 => UInt16
    case 8 => UInt32
    case 9 => UInt64
    case 10 => Float
    case 11 => Text
    case _ => Object
  }

  predicate IsFixedSlot(slot: nat) { slot <= 11 || slot == NULL_ARRAY_SLOT }

  predicate IsArraySlot(slot: nat) { 14 <= slot <= 24 }

  function EmptyProp(slot: nat): Prop
    requires slot < SLOTS
  {
    if IsFixedSlot(slot) then Fixed([], [])
    else if slot == OBJECT_SLOT then Nested([], [])
    else if IsArraySlot(slot) then Arrays([], [])
    else Table([])
  }

  predicate IsEmpty(p: Prop) {
    match p
    case Fixed(keys, _) => keys == []
    case Nested(keys, _) => keys == []
    case Arrays(keys, _) => keys == []
    case Table(groups) => groups == []
  }

  /** The shape the writer asserts: as many values as keys, positions as entries, and an
      object entry exactly in an object column. */
  ghost predicate ValidObj(o: Obj)
    decreases o
  {
    |o.props| == SLOTS && forall i :: 0 <= i < SLOTS ==> ValidProp(i, o.props[i])
  }

  ghost predicate ValidProp(slot: nat, p: Prop)
    decreases p
  {
    match p
    case Fixed(keys, vals) => IsFixedSlot(slot) && |keys| == |vals|
    case Nested(keys, objs) => slot == OBJECT_SLOT && |keys| == |objs| && ValidObjs(objs)
    case Arrays(keys, arrs) => IsArraySlot(slot) && |keys| == |arrs|
    case Table(groups) => slot == TABLE_SLOT && forall i :: 0 <= i < |groups| ==> ValidGroup(groups[i])
  }

  ghost predicate ValidObjs(objs: seq<Obj>)
    decreases objs
  {
    forall i :: 0 <= i < |objs| ==> ValidObj(objs[i])
  }

  ghost predicate ValidGroup(g: Group)
    decreases g
  {
    forall i :: 0 <= i < |g.cols| ==> ValidColumn(g.cols[i])
  }

  ghost predicate ValidColumn(c: Column)
    decreases c
  {
    |c.positions| == |c.entries| && forall i :: 0 <= i < |c.entries| ==> ValidEntry(c.ty, c.entries[i])
  }

  ghost predicate ValidEntry(t: FieldType, e: Entry)
    decreases e
  {
    match e
    case Vals(_) => t != Object
    case Objs(objs) => t == Object && ValidObjs(objs)
  }

  // ----- the number of rows

  /** One more than the largest position of any column; the field that holds it has 32 bits. */
  function NumObjects(g: Group): nat {
    (MaxPosition(g.cols, 0) + 1) % 0x1_0000_0000
  }

  function MaxPosition(cols: seq<Column>, i: nat): nat
    decreases |cols| - i
  {
    if i >= |cols| then 0 else Max(MaxOf(cols[i].positions, 0), MaxPosition(cols, i + 1))
  }

  function MaxOf(s: seq<nat>, i: nat): nat
    decreases |s| - i
  {
    if i >= |s| then 0 else Max(s[i], MaxOf(s, i + 1))
  }
}
