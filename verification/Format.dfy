/** The bytes of a serialised object, as a function of the object, the position it starts
    at, the position offsets are relative to, and what is taken from outside while writing. */
module Format {
  import opened Bytes
  import opened ColumnDoc

  /** What writing takes from outside, for each position: the id drawn for an object id field
      there, and the byte that gets there from the memory behind a vector. */
  datatype Env = Env(id: nat -> nat, behind: nat -> Byte)

  const OBJECT_BEGIN: Byte := '{' as int
  const OBJECT_END: Byte := '}' as int
  const COLUMN_GROUP: Byte := 'X' as int
  const COLUMN: Byte := 'x' as int
  const MARKER_SYMBOLS: string := "nbcsilrhegftoNBCSILRHEGFTO"

  /** The marker byte that opens the property list of a slot. */
  function Marker(slot: nat): Byte
    requires slot < SLOTS
  {
    MARKER_SYMBOLS[slot] as int
  }

  /** The bytes written for each value of the slot: 8 for the values of uint8 arrays. */
  function WriteWidth(slot: nat): nat
    requires slot < SLOTS
  {
    [0, 1, 1, 2, 4, 8, 1, 2, 4, 8, 4, 8, 0, 4, 1, 1, 2, 4, 8, 8, 2, 4, 8, 4, 8, 0][slot]
  }

  // ----- sizes

  function SizeObj(o: Obj): nat
    decreases o
  {
    HeadSize(o.props) + SizeProps(o.props, 0) + 1
  }

  /** Header, one offset for every non-empty property list, and the next field. */
  function HeadSize(props: seq<Prop>): nat {
    13 + 8 * CountProps(props, 0) + 8
  }

  function CountProps(props: seq<Prop>, i: nat): nat
    decreases |props| - i
  {
    if i >= |props| then 0 else (if IsEmpty(props[i]) then 0 else 1) + CountProps(props, i + 1)
  }

  function SizeProps(props: seq<Prop>, i: nat): nat
    decreases props, |props| - i
  {
    if i >= |props| then 0 else SizeProp(i, props[i]) + SizeProps(props, i + 1)
  }

  function SizeProp(slot: nat, p: Prop): nat
    decreases p
  {
    if IsEmpty(p) || slot >= SLOTS then 0 else
    match p
    case Fixed(keys, vals) => 5 + 8 * |keys| + |vals| * WriteWidth(slot)
    case Nested(keys, objs) => 5 + 8 * |keys| + 8 * |objs| + SizeObjs(objs, 0)
    case Arrays(keys, arrs) => 5 + 8 * |keys| + 4 * |arrs| + SizeArrays(arrs, 0, WriteWidth(slot))
    case Table(groups) => 2 + 16 * |groups| + SizeGroups(groups, 0)
  }

  function SizeObjs(objs: seq<Obj>, i: nat): nat
    decreases objs, |objs| - i
  {
    if i >= |objs| then 0 else SizeObj(objs[i]) + SizeObjs(objs, i + 1)
  }

  function SizeArrays(arrs: seq<seq<nat>>, i: nat, w: nat): nat
    decreases |arrs| - i
  {
    if i >= |arrs| then 0 else |arrs[i]| * w + SizeArrays(arrs, i + 1, w)
  }

  function SizeGroups(groups: seq<Group>, i: nat): nat
    decreases groups, |groups| - i
  {
    if i >= |groups| then 0 else SizeGroup(groups[i]) + SizeGroups(groups, i + 1)
  }

  function SizeGroup(g: Group): nat
    decreases g
  {
    9 + 8 * NumObjects(g) + 8 * |g.cols| + SizeColumns(g.cols, 0)
  }

  function SizeColumns(cols: seq<Column>, i: nat): nat
    decreases cols, |cols| - i
  {
    if i >= |cols| then 0 else SizeColumn(cols[i]) + SizeColumns(cols, i + 1)
  }

  function SizeColumn(c: Column): nat
    decreases c
  {
    14 + 8 * |c.entries| + 4 * |c.positions| + SizeEntries(c.ty, c.entries, 0)
  }

  function SizeEntries(t: FieldType, entries: seq<Entry>, i: nat): nat
    decreases entries, |entries| - i
  {
    if i >= |entries| then 0 else SizeEntry(t, entries[i]) + SizeEntries(t, entries, i + 1)
  }

  function SizeEntry(t: FieldType, e: Entry): nat
    decreases e
  {
    match e
    case Vals(vals) => 4 + |vals| * TypeWidth(t)
    case Objs(objs) => 4 + SizeObjs(objs, 0)
  }

  // ----- bytes

  /** Where items of the given sizes start when the first one starts at q, from the root. */
  function Offsets(sizes: seq<nat>, q: nat, root: nat): (offs: seq<nat>)
    requires root <= q
    ensures |offs| == |sizes|
  {
    if sizes == [] then [] else [q - root] + Offsets(sizes[1..], q + sizes[0], root)
  }

  lemma OffsetsStep(size: nat, sizes: seq<nat>, q: nat, e: nat, root: nat)
    requires root <= q && e == q + size
    ensures Offsets([size] + sizes, q, root) == [q - root] + Offsets(sizes, e, root)
  {
    assert ([size] + sizes)[1..] == sizes;
  }

  function PropSizes(props: seq<Prop>, i: nat): (sizes: seq<nat>)
    ensures |sizes| == CountProps(props, i)
    decreases |props| - i
  {
    if i >= |props| then []
    else (if IsEmpty(props[i]) then [] else [SizeProp(i, props[i])]) + PropSizes(props, i + 1)
  }

  function ObjSizes(objs: seq<Obj>, i: nat): (sizes: seq<nat>)
    requires i <= |objs|
    ensures |sizes| == |objs| - i
    decreases |objs| - i
  {
    if i == |objs| then [] else [SizeObj(objs[i])] + ObjSizes(objs, i + 1)
  }

  function GroupSizes(groups: seq<Group>, i: nat): (sizes: seq<nat>)
    requires i <= |groups|
    ensures |sizes| == |groups| - i
    decreases |groups| - i
  {
    if i == |groups| then [] else [SizeGroup(groups[i])] + GroupSizes(groups, i + 1)
  }

  function ColumnSizes(cols: seq<Column>, i: nat): (sizes: seq<nat>)
    requires i <= |cols|
    ensures |sizes| == |cols| - i
    decreases |cols| - i
  {
    if i == |cols| then [] else [SizeColumn(cols[i])] + ColumnSizes(cols, i + 1)
  }

  function EntrySizes(t: FieldType, entries: seq<Entry>, i: nat): (sizes: seq<nat>)
    requires i <= |entries|
    ensures |sizes| == |entries| - i
    decreases |entries| - i
  {
    if i == |entries| then [] else [SizeEntry(t, entries[i])] + EntrySizes(t, entries, i + 1)
  }

  /** The object's bytes; next is the content of its next field. */
  function EncObj(o: Obj, p: nat, root: nat, next: nat, env: Env): (bs: seq<Byte>)
    requires ValidObj(o) && root <= p
    ensures |bs| == SizeObj(o)
    decreases o
  {
    EncHead(o, p, root, next, env) + EncProps(o.props, 0, p + HeadSize(o.props), root, env) + [OBJECT_END]
  }

  function EncHead(o: Obj, p: nat, root: nat, next: nat, env: Env): (bs: seq<Byte>)
    requires ValidObj(o) && root <= p
    ensures |bs| == HeadSize(o.props)
  {
    [OBJECT_BEGIN] + Le(env.id(p), 8) + Le(Flags(o.props, 0), 4)
    + EncWords(Offsets(PropSizes(o.props, 0), p + HeadSize(o.props), root), 8) + Le(next, 8)
  }

  /** Bit k of the flags tells whether slot k holds anything. */
  function Flags(props: seq<Prop>, i: nat): nat
    decreases |props| - i
  {
    if i >= |props| then 0 else (if IsEmpty(props[i]) then 0 else 1) + 2 * Flags(props, i + 1)
  }

  function EncProps(props: seq<Prop>, i: nat, q: nat, root: nat, env: Env): (bs: seq<Byte>)
    requires |props| == SLOTS && forall k :: 0 <= k < SLOTS ==> ValidProp(k, props[k])
    requires root <= q
    ensures |bs| == SizeProps(props, i)
    decreases props, |props| - i
  {
    if i >= |props| then []
    else EncProp(i, props[i], q, root, env) + EncProps(props, i + 1, q + SizeProp(i, props[i]), root, env)
  }

  function EncProp(slot: nat, p: Prop, q: nat, root: nat, env: Env): (bs: seq<Byte>)
    requires slot < SLOTS && ValidProp(slot, p) && root <= q
    ensures |bs| == SizeProp(slot, p)
    decreases p
  {
    if IsEmpty(p) then [] else
    match p
    case Fixed(keys, vals) =>
      EncPropHead(slot, keys) + EncWords(vals, WriteWidth(slot))
    case Nested(keys, objs) =>
      var r := q + 5 + 8 * |keys| + 8 * |objs|;
      EncPropHead(slot, keys) + EncWords(Offsets(ObjSizes(objs, 0), r, root), 8) + EncObjs(objs, 0, r, root, false, env)
    case Arrays(keys, arrs) =>
      EncPropHead(slot, keys) + EncWords(Lengths(arrs, 0), 4)
      + EncArrays(slot, arrs, 0, q + 5 + 8 * |keys| + 4 * |arrs|, env)
    case Table(groups) =>
      var r := q + 2 + 16 * |groups|;
      [Marker(slot)] + Le(|groups|, 1) + EncWords(GroupKeys(groups, 0), 8)
      + EncWords(Offsets(GroupSizes(groups, 0), r, root), 8) + EncGroups(groups, 0, r, root, env)
  }

  function EncPropHead(slot: nat, keys: seq<nat>): (bs: seq<Byte>)
    requires slot < SLOTS
    ensures |bs| == 5 + 8 * |keys|
  {
    [Marker(slot)] + Le(|keys|, 4) + EncWords(keys, 8)
  }

  function Lengths(arrs: seq<seq<nat>>, i: nat): (lens: seq<nat>)
    requires i <= |arrs|
    ensures |lens| == |arrs| - i
    decreases |arrs| - i
  {
    if i == |arrs| then [] else [|arrs[i]|] + Lengths(arrs, i + 1)
  }

  function EncArrays(slot: nat, arrs: seq<seq<nat>>, i: nat, q: nat, env: Env): (bs: seq<Byte>)
    requires slot < SLOTS
    ensures |bs| == SizeArrays(arrs, i, WriteWidth(slot))
    decreases |arrs| - i
  {
    if i >= |arrs| then []
    else EncArray(slot, arrs[i], q, env) + EncArrays(slot, arrs, i + 1, q + |arrs[i]| * WriteWidth(slot), env)
  }

  /** The values of an array. A vector holds a uint8 value in 1 byte, but 8 bytes are copied out of it
      for each: the values, and then what memory holds behind them. */
  function EncArray(slot: nat, vals: seq<nat>, q: nat, env: Env): (bs: seq<Byte>)
    requires slot < SLOTS
    ensures |bs| == |vals| * WriteWidth(slot)
  {
    if slot == UINT8_ARRAY_SLOT then EncWords(vals, 1) + Behind(7 * |vals|, q + |vals|, env)
    else EncWords(vals, WriteWidth(slot))
  }

  function Behind(n: nat, q: nat, env: Env): (bs: seq<Byte>)
    ensures |bs| == n
  {
    seq<Byte>(n, k requires 0 <= k => env.behind(q + k))
  }

  /** The next field of object i of a list whose object i starts at q: in an object column
      the offset of object i + 1, otherwise 0. */
  function NextOf(objs: seq<Obj>, i: nat, q: nat, root: nat, chained: bool): nat
    requires i < |objs| && root <= q
  {
    if chained && i + 1 < |objs| then q + SizeObj(objs[i]) - root else 0
  }

  function EncObjs(objs: seq<Obj>, i: nat, q: nat, root: nat, chained: bool, env: Env): (bs: seq<Byte>)
    requires ValidObjs(objs) && root <= q
    ensures |bs| == SizeObjs(objs, i)
    decreases objs, |objs| - i
  {
    if i >= |objs| then []
    else EncObj(objs[i], q, root, NextOf(objs, i, q, root, chained), env)
         + EncObjs(objs, i + 1, q + SizeObj(objs[i]), root, chained, env)
  }

  function GroupKeys(groups: seq<Group>, i: nat): (keys: seq<nat>)
    requires i <= |groups|
    ensures |keys| == |groups| - i
    decreases |groups| - i
  {
    if i == |groups| then [] else [groups[i].key] + GroupKeys(groups, i + 1)
  }

  function EncGroups(groups: seq<Group>, i: nat, q: nat, root: nat, env: Env): (bs: seq<Byte>)
    requires root <= q && forall k :: 0 <= k < |groups| ==> ValidGroup(groups[k])
    ensures |bs| == SizeGroups(groups, i)
    decreases groups, |groups| - i
  {
    if i >= |groups| then []
    else EncGroup(groups[i], q, root, env) + EncGroups(groups, i + 1, q + SizeGroup(groups[i]), root, env)
  }

  function EncGroup(g: Group, q: nat, root: nat, env: Env): (bs: seq<Byte>)
    requires ValidGroup(g) && root <= q
    ensures |bs| == SizeGroup(g)
    decreases g
  {
    var r := q + 9 + 8 * NumObjects(g) + 8 * |g.cols|;
    [COLUMN_GROUP] + Le(|g.cols|, 4) + Le(NumObjects(g), 4) + EncWords(DrawnIds(NumObjects(g), q + 9, env), 8)
    + EncWords(Offsets(ColumnSizes(g.cols, 0), r, root), 8) + EncColumns(g.cols, 0, r, root, env)
  }

  /** The ids drawn for n id fields in a row, the first at q. */
  function DrawnIds(n: nat, q: nat, env: Env): (oids: seq<nat>)
    ensures |oids| == n
    decreases n
  {
    if n == 0 then [] else [env.id(q)] + DrawnIds(n - 1, q + 8, env)
  }

  function EncColumns(cols: seq<Column>, i: nat, q: nat, root: nat, env: Env): (bs: seq<Byte>)
    requires root <= q && forall k :: 0 <= k < |cols| ==> ValidColumn(cols[k])
    ensures |bs| == SizeColumns(cols, i)
    decreases cols, |cols| - i
  {
    if i >= |cols| then []
    else EncColumn(cols[i], q, root, env) + EncColumns(cols, i + 1, q + SizeColumn(cols[i]), root, env)
  }

  function EncColumn(c: Column, q: nat, root: nat, env: Env): (bs: seq<Byte>)
    requires ValidColumn(c) && root <= q
    ensures |bs| == SizeColumn(c)
    decreases c
  {
    var r := q + 14 + 8 * |c.entries| + 4 * |c.positions|;
    EncColumnHead(c) + EncWords(Offsets(EntrySizes(c.ty, c.entries, 0), r, root), 8) + EncWords(c.positions, 4)
    + EncEntries(c.ty, c.entries, 0, r, root, env)
  }

  function EncColumnHead(c: Column): (bs: seq<Byte>)
    ensures |bs| == 14
  {
    [COLUMN] + Le(c.name, 8) + [Marker(NULL_ARRAY_SLOT + TypeIndex(c.ty))] + Le(|c.entries|, 4)
  }

  function EncEntries(t: FieldType, entries: seq<Entry>, i: nat, q: nat, root: nat, env: Env): (bs: seq<Byte>)
    requires root <= q && forall k :: 0 <= k < |entries| ==> ValidEntry(t, entries[k])
    ensures |bs| == SizeEntries(t, entries, i)
    decreases entries, |entries| - i
  {
    if i >= |entries| then []
    else EncEntry(t, entries[i], q, root, env)
         + EncEntries(t, entries, i + 1, q + SizeEntry(t, entries[i]), root, env)
  }

  function EncEntry(t: FieldType, e: Entry, q: nat, root: nat, env: Env): (bs: seq<Byte>)
    requires ValidEntry(t, e) && root <= q
    ensures |bs| == SizeEntry(t, e)
    decreases e
  {
    match e
    case Vals(vals) => Le(|vals|, 4) + EncWords(vals, TypeWidth(t))
    case Objs(objs) => Le(|objs|, 4) + EncObjs(objs, 0, q + 4, root, true, env)
  }
}
