/** The sequential archive reader as a function of the bytes: it meets every object, property
    list, column group, column and entry in the order they lie in the archive and reports what
    it finds and where. */
module Scan {
  import opened Bytes
  import opened ColumnDoc
  import opened Format

  datatype Error = OutOfBounds | Corrupted

  datatype Result<+T> = Ok(value: T, end: nat) | Err(error: Error)

  /** What the reader reports of an object: where it starts, its id, flags, offset list and
      next field, and its property lists. */
  datatype ObjScan = ObjScan(at: nat, oid: nat, flags: nat, offs: seq<nat>, next: nat, items: seq<ItemScan>)

  datatype ItemScan =
    | Values(at: nat, slot: nat, keys: seq<nat>, vals: seq<nat>)
    | Objects(at: nat, slot: nat, keys: seq<nat>, offs: seq<nat>, objs: seq<ObjScan>)
    | Lists(at: nat, slot: nat, keys: seq<nat>, arrs: seq<seq<nat>>)
    | Groups(at: nat, slot: nat, keys: seq<nat>, offs: seq<nat>, groups: seq<GroupScan>)

  datatype GroupScan = GroupScan(at: nat, oids: seq<nat>, offs: seq<nat>, cols: seq<ColumnScan>)

  datatype ColumnScan = ColumnScan(at: nat, name: nat, ty: FieldType, offs: seq<nat>, positions: seq<nat>,
                                   entries: seq<EntryScan>)

  datatype EntryScan = ValuesEntry(at: nat, vals: seq<nat>) | ObjectsEntry(at: nat, objs: seq<ObjScan>)

  // ----- reading words

  function Word(b: seq<Byte>, p: nat, w: nat): nat
    requires p + w <= |b|
  {
    UnLe(b[p..p + w])
  }

  function WordList(b: seq<Byte>, p: nat, n: nat, w: nat): (vs: seq<nat>)
    requires p + n * w <= |b|
    ensures |vs| == n
    decreases n
  {
    if n == 0 then [] else
    assert n * w == w + (n - 1) * w;
    [Word(b, p, w)] + WordList(b, p + w, n - 1, w)
  }

  /** n words of w bytes, unless they pass the end of the block. */
  function Words(b: seq<Byte>, p: nat, n: nat, w: nat): (r: Result<seq<nat>>)
    ensures r.Ok? ==> r.end == p + n * w <= |b| && |r.value| == n
  {
    if p + n * w > |b| then Err(OutOfBounds) else Ok(WordList(b, p, n, w), p + n * w)
  }

  function Prepend<T>(xs: seq<T>, r: Result<seq<T>>): Result<seq<T>> {
    match r
    case Ok(ys, end) => Ok(xs + ys, end)
    case Err(e) => Err(e)
  }

  lemma PrependNothing<T>(r: Result<seq<T>>)
    ensures Prepend([], r) == r
  {
    if r.Ok? {
      Nothing(r.value);
    }
  }

  lemma PrependBoth<T>(xs: seq<T>, x: T, r: Result<seq<T>>)
    ensures Prepend(xs, Prepend([x], r)) == Prepend(xs + [x], r)
  {
    if r.Ok? {
      Assoc(xs, [x], r.value);
    }
  }

  lemma PrependLast<T>(xs: seq<T>, x: T, end: nat)
    ensures Prepend(xs, Ok([x], end)) == Ok(xs + [x], end)
  {
  }

  lemma PrependOk<T>(xs: seq<T>, end: nat)
    ensures Prepend(xs, Ok([], end)) == Ok(xs, end)
  {
    Nothing(xs);
  }

  lemma PrependErr<T>(xs: seq<T>, r: Result<seq<T>>)
    requires r.Err?
    ensures Prepend(xs, r) == r
  {
  }

  // ----- markers and widths

  /** The slot whose marker the byte is, SLOTS for any other byte. */
  function SlotOf(c: Byte): (slot: nat)
    ensures slot <= SLOTS
    ensures slot < SLOTS ==> Marker(slot) == c
  {
    SlotFrom(c, 0)
  }

  function SlotFrom(c: Byte, i: nat): (slot: nat)
    requires i <= SLOTS
    ensures i <= slot <= SLOTS
    ensures slot < SLOTS ==> Marker(slot) == c
    ensures forall k :: i <= k < slot ==> Marker(k) != c
    decreases SLOTS - i
  {
    if i == SLOTS || Marker(i) == c then i else SlotFrom(c, i + 1)
  }

  /** The width a value of the slot is read with: one byte for uint8 arrays. */
  function ReadWidth(slot: nat): nat
    requires slot < SLOTS
  {
    if slot == UINT8_ARRAY_SLOT then 1 else WriteWidth(slot)
  }

  /** The type a column's type marker stands for; an unknown marker counts as null. */
  function TypeOfMarker(c: Byte): FieldType { SlotType(SlotOf(c)) }

  /** How many of the 26 property flags are set. */
  function SetBits(flags: nat, n: nat): (k: nat)
    ensures k <= n
    decreases n
  {
    if n == 0 then 0 else flags % 2 + SetBits(flags / 2, n - 1)
  }

  // ----- objects

  function ScanObj(b: seq<Byte>, p: nat): (r: Result<ObjScan>)
    ensures r.Ok? ==> p < r.end <= |b| && r.value.at == p && b[p] == OBJECT_BEGIN
    decreases |b| - p, 0
  {
    if p + 13 > |b| then Err(OutOfBounds) else
    var flags := Word(b, p + 9, 4);
    match Words(b, p + 13, SetBits(flags, SLOTS), 8)
    case Err(e) => Err(e)
    case Ok(offs, q) =>
      if q + 8 > |b| then Err(OutOfBounds)
      else if b[p] != OBJECT_BEGIN then Err(Corrupted)
      else
        match ScanItems(b, q + 8)
        case Err(e) => Err(e)
        case Ok(items, e) => Ok(ObjScan(p, Word(b, p + 1, 8), flags, offs, Word(b, q, 8), items), e + 1)
  }

  /** Property lists up to the end marker of the object. */
  function ScanItems(b: seq<Byte>, q: nat): (r: Result<seq<ItemScan>>)
    ensures r.Ok? ==> q <= r.end < |b| && b[r.end] == OBJECT_END
    decreases |b| - q, 2
  {
    if q >= |b| then Err(OutOfBounds)
    else if b[q] == OBJECT_END then Ok([], q)
    else
      match ScanItem(b, q)
      case Err(e) => Err(e)
      case Ok(item, e) => Prepend([item], ScanItems(b, e))
  }

  function ScanItem(b: seq<Byte>, q: nat): (r: Result<ItemScan>)
    requires q < |b|
    ensures r.Ok? ==> q < r.end <= |b| && r.value.at == q && r.value.slot == SlotOf(b[q]) < SLOTS
    decreases |b| - q, 1
  {
    var slot := SlotOf(b[q]);
    if slot == SLOTS then Err(Corrupted)
    else if IsFixedSlot(slot) then ScanValues(b, q, slot)
    else if slot == OBJECT_SLOT then ScanNested(b, q, slot)
    else if IsArraySlot(slot) then ScanLists(b, q, slot)
    else ScanTable(b, q, slot)
  }

  function ScanValues(b: seq<Byte>, q: nat, slot: nat): (r: Result<ItemScan>)
    requires slot < SLOTS
    ensures r.Ok? ==> q < r.end <= |b| && r.value.at == q && r.value.slot == slot
  {
    if q + 5 > |b| then Err(OutOfBounds) else
    var n := Word(b, q + 1, 4);
    match Words(b, q + 5, n, 8)
    case Err(e) => Err(e)
    case Ok(keys, k) =>
      match Words(b, k, n, ReadWidth(slot))
      case Err(e) => Err(e)
      case Ok(vals, e) => Ok(Values(q, slot, keys, vals), e)
  }

  /** Keys, offsets, and then objects for as long as the next byte opens one. */
  function ScanNested(b: seq<Byte>, q: nat, slot: nat): (r: Result<ItemScan>)
    ensures r.Ok? ==> q < r.end <= |b| && r.value.at == q && r.value.slot == slot
    decreases |b| - q, 0
  {
    if q + 5 > |b| then Err(OutOfBounds) else
    var n := Word(b, q + 1, 4);
    match Words(b, q + 5, n, 8)
    case Err(e) => Err(e)
    case Ok(keys, k) =>
      match Words(b, k, n, 8)
      case Err(e) => Err(e)
      case Ok(offs, o) =>
        match ScanRow(b, o)
        case Err(e) => Err(e)
        case Ok(objs, e) => Ok(Objects(q, slot, keys, offs, objs), e)
  }

  function ScanRow(b: seq<Byte>, q: nat): (r: Result<seq<ObjScan>>)
    ensures r.Ok? ==> q < r.end <= |b|
    decreases |b| - q, 1
  {
    match ScanObj(b, q)
    case Err(e) => Err(e)
    case Ok(o, e) =>
      if e >= |b| then Err(OutOfBounds)
      else if b[e] == OBJECT_BEGIN then Prepend([o], ScanRow(b, e))
      else Ok([o], e)
  }

  function ScanLists(b: seq<Byte>, q: nat, slot: nat): (r: Result<ItemScan>)
    requires slot < SLOTS
    ensures r.Ok? ==> q < r.end <= |b| && r.value.at == q && r.value.slot == slot
  {
    if q + 5 > |b| then Err(OutOfBounds) else
    var n := Word(b, q + 1, 4);
    match Words(b, q + 5, n, 8)
    case Err(e) => Err(e)
    case Ok(keys, k) =>
      match Words(b, k, n, 4)
      case Err(e) => Err(e)
      case Ok(lens, l) =>
        match ScanArrays(b, l, lens, ReadWidth(slot))
        case Err(e) => Err(e)
        case Ok(arrs, e) => Ok(Lists(q, slot, keys, arrs), e)
  }

  function ScanArrays(b: seq<Byte>, q: nat, lens: seq<nat>, w: nat): (r: Result<seq<seq<nat>>>)
    ensures r.Ok? ==> q <= r.end && (q <= |b| ==> r.end <= |b|)
    ensures r.Ok? ==> |r.value| == |lens| && forall k :: 0 <= k < |lens| ==> |r.value[k]| == lens[k]
    decreases |lens|
  {
    if lens == [] then Ok([], q) else
    match Words(b, q, lens[0], w)
    case Err(e) => Err(e)
    case Ok(vals, e) => Prepend([vals], ScanArrays(b, e, lens[1..], w))
  }

  // ----- object arrays

  function ScanTable(b: seq<Byte>, q: nat, slot: nat): (r: Result<ItemScan>)
    ensures r.Ok? ==> q < r.end <= |b| && r.value.at == q && r.value.slot == slot
    decreases |b| - q, 0
  {
    if q + 2 > |b| then Err(OutOfBounds) else
    var n := Word(b, q + 1, 1);
    match Words(b, q + 2, n, 8)
    case Err(e) => Err(e)
    case Ok(keys, k) =>
      match Words(b, k, n, 8)
      case Err(e) => Err(e)
      case Ok(offs, o) =>
        match ScanGroups(b, o, n)
        case Err(e) => Err(e)
        case Ok(groups, e) => Ok(Groups(q, slot, keys, offs, groups), e)
  }

  function ScanGroups(b: seq<Byte>, q: nat, n: nat): (r: Result<seq<GroupScan>>)
    ensures r.Ok? ==> q <= r.end && (q <= |b| ==> r.end <= |b|) && |r.value| == n
    decreases |b| - q, 1, n
  {
    if n == 0 then Ok([], q) else
    match ScanGroup(b, q)
    case Err(e) => Err(e)
    case Ok(g, e) => Prepend([g], ScanGroups(b, e, n - 1))
  }

  function ScanGroup(b: seq<Byte>, q: nat): (r: Result<GroupScan>)
    ensures r.Ok? ==> q < r.end <= |b| && r.value.at == q && b[q] == COLUMN_GROUP
    decreases |b| - q, 0
  {
    if q + 9 > |b| then Err(OutOfBounds)
    else if b[q] != COLUMN_GROUP then Err(Corrupted)
    else
      match Words(b, q + 9, Word(b, q + 5, 4), 8)
      case Err(e) => Err(e)
      case Ok(oids, k) =>
        match Words(b, k, Word(b, q + 1, 4), 8)
        case Err(e) => Err(e)
        case Ok(offs, c) =>
          match ScanColumns(b, c, Word(b, q + 1, 4))
          case Err(e) => Err(e)
          case Ok(cols, e) => Ok(GroupScan(q, oids, offs, cols), e)
  }

  function ScanColumns(b: seq<Byte>, q: nat, n: nat): (r: Result<seq<ColumnScan>>)
    ensures r.Ok? ==> q <= r.end && (q <= |b| ==> r.end <= |b|) && |r.value| == n
    decreases |b| - q, 1, n
  {
    if n == 0 then Ok([], q) else
    match ScanColumn(b, q)
    case Err(e) => Err(e)
    case Ok(c, e) => Prepend([c], ScanColumns(b, e, n - 1))
  }

  function ScanColumn(b: seq<Byte>, q: nat): (r: Result<ColumnScan>)
    ensures r.Ok? ==> q < r.end <= |b| && r.value.at == q && b[q] == COLUMN
    decreases |b| - q, 0
  {
    if q + 14 > |b| then Err(OutOfBounds)
    else if b[q] != COLUMN then Err(Corrupted)
    else
      var ty, n := TypeOfMarker(b[q + 9]), Word(b, q + 10, 4);
      match Words(b, q + 14, n, 8)
      case Err(e) => Err(e)
      case Ok(offs, k) =>
        match Words(b, k, n, 4)
        case Err(e) => Err(e)
        case Ok(positions, v) =>
          match ScanEntries(b, v, ty, n)
          case Err(e) => Err(e)
          case Ok(entries, e) => Ok(ColumnScan(q, Word(b, q + 1, 8), ty, offs, positions, entries), e)
  }

  function ScanEntries(b: seq<Byte>, q: nat, ty: FieldType, n: nat): (r: Result<seq<EntryScan>>)
    ensures r.Ok? ==> q <= r.end && (q <= |b| ==> r.end <= |b|) && |r.value| == n
    decreases |b| - q, 1, n
  {
    if n == 0 then Ok([], q) else
    match ScanEntry(b, q, ty)
    case Err(e) => Err(e)
    case Ok(entry, e) => Prepend([entry], ScanEntries(b, e, ty, n - 1))
  }

  function ScanEntry(b: seq<Byte>, q: nat, ty: FieldType): (r: Result<EntryScan>)
    ensures r.Ok? ==> q < r.end <= |b| && r.value.at == q
    decreases |b| - q, 0
  {
    if q + 4 > |b| then Err(OutOfBounds) else
    var n := Word(b, q, 4);
    if ty == Object then
      match ScanObjs(b, q + 4, n)
      case Err(e) => Err(e)
      case Ok(objs, e) => Ok(ObjectsEntry(q, objs), e)
    else
      match Words(b, q + 4, n, TypeWidth(ty))
      case Err(e) => Err(e)
      case Ok(vals, e) => Ok(ValuesEntry(q, vals), e)
  }

  function ScanObjs(b: seq<Byte>, q: nat, n: nat): (r: Result<seq<ObjScan>>)
    ensures r.Ok? ==> q <= r.end && (q <= |b| ==> r.end <= |b|) && |r.value| == n
    decreases |b| - q, 1, n
  {
    if n == 0 then Ok([], q) else
    match ScanObj(b, q)
    case Err(e) => Err(e)
    case Ok(o, e) => Prepend([o], ScanObjs(b, e, n - 1))
  }

  // ----- the document behind a scan

  /** The object that a scan describes: the lists it met, each in its slot. */
  function Rebuild(s: ObjScan): (o: Obj)
    decreases s
  {
    Obj(RebuildProps(s.items, 0))
  }

  function RebuildProps(items: seq<ItemScan>, slot: nat): (props: seq<Prop>)
    requires slot <= SLOTS
    ensures |props| == SLOTS - slot
    decreases items, SLOTS - slot
  {
    if slot == SLOTS then []
    else if items != [] && items[0].slot == slot then [RebuildItem(items[0])] + RebuildProps(items[1..], slot + 1)
    else [EmptyProp(slot)] + RebuildProps(items, slot + 1)
  }

  function RebuildItem(item: ItemScan): Prop
    decreases item
  {
    match item
    case Values(_, _, keys, vals) => Fixed(keys, vals)
    case Objects(_, _, keys, _, objs) => Nested(keys, RebuildObjs(objs))
    case Lists(_, _, keys, arrs) => Arrays(keys, arrs)
    case Groups(_, _, keys, _, groups) => Table(RebuildGroups(keys, groups))
  }

  function RebuildObjs(objs: seq<ObjScan>): (os: seq<Obj>)
    ensures |os| == |objs|
    decreases objs
  {
    if objs == [] then [] else [Rebuild(objs[0])] + RebuildObjs(objs[1..])
  }

  function RebuildGroups(keys: seq<nat>, groups: seq<GroupScan>): (gs: seq<Group>)
    ensures |gs| <= |groups|
    decreases groups
  {
    if keys == [] || groups == [] then []
    else [Group(keys[0], RebuildColumns(groups[0].cols))] + RebuildGroups(keys[1..], groups[1..])
  }

  function RebuildColumns(cols: seq<ColumnScan>): (cs: seq<Column>)
    ensures |cs| == |cols|
    decreases cols
  {
    if cols == [] then [] else
    [Column(cols[0].name, cols[0].ty, cols[0].positions, RebuildEntries(cols[0].entries))] + RebuildColumns(cols[1..])
  }

  function RebuildEntries(entries: seq<EntryScan>): (es: seq<Entry>)
    ensures |es| == |entries|
    decreases entries
  {
    if entries == [] then [] else [RebuildEntry(entries[0])] + RebuildEntries(entries[1..])
  }

  function RebuildEntry(e: EntryScan): Entry
    decreases e
  {
    match e
    case ValuesEntry(_, vals) => Vals(vals)
    case ObjectsEntry(_, objs) => Objs(RebuildObjs(objs))
  }

  /** An object is read back from its bytes. */
  ghost predicate ComesBack(b: seq<Byte>, p: nat, o: Obj) {
    var r := ScanObj(b, p);
    r.Ok? && Rebuild(r.value) == o
  }
}
