/** The offset index of an archive agrees with the sequential scan. */
module Index {
  import opened Bytes
  import opened ColumnDoc
  import opened Format
  import opened Scan

  /** Every offset that the object stores, directly or in its property lists, groups, columns
      and entries, at any depth, is the position, from the root, where the scan met the item it
      is meant for, and the byte there is the item's marker. Groups have an id for each row. */
  ghost predicate IndexedObj(b: seq<Byte>, s: ObjScan, root: nat)
    decreases s
  {
    s.at < |b| && b[s.at] == OBJECT_BEGIN && IndexedItems(b, s.items, s.offs, root)
  }

  ghost predicate IndexedItems(b: seq<Byte>, items: seq<ItemScan>, offs: seq<nat>, root: nat)
    decreases items
  {
    && |offs| == |items|
    && (items != [] ==>
          && IndexedItem(b, items[0], offs[0], root)
          && IndexedItems(b, items[1..], offs[1..], root))
  }

  ghost predicate IndexedItem(b: seq<Byte>, item: ItemScan, off: nat, root: nat)
    decreases item
  {
    && item.at == root + off && item.at < |b| && item.slot < SLOTS && b[item.at] == Marker(item.slot)
    && match item
       case Values(_, _, _, _) => true
       case Lists(_, _, _, _) => true
       case Objects(_, _, _, offs, objs) => IndexedObjs(b, objs, offs, root)
       case Groups(_, _, _, offs, groups) => IndexedGroups(b, groups, offs, root)
  }

  ghost predicate IndexedObjs(b: seq<Byte>, objs: seq<ObjScan>, offs: seq<nat>, root: nat)
    decreases objs
  {
    && |offs| == |objs|
    && (objs != [] ==>
          && objs[0].at == root + offs[0] && IndexedObj(b, objs[0], root)
          && IndexedObjs(b, objs[1..], offs[1..], root))
  }

  /** A group has one id for each of its rows. */
  ghost predicate Numbered(g: GroupScan) { |g.oids| == NumObjects(Group(0, RebuildColumns(g.cols))) }

  ghost predicate IndexedGroups(b: seq<Byte>, groups: seq<GroupScan>, offs: seq<nat>, root: nat)
    decreases groups
  {
    && |offs| == |groups|
    && (groups != [] ==>
          && groups[0].at == root + offs[0] && groups[0].at < |b| && b[groups[0].at] == COLUMN_GROUP
          && Numbered(groups[0]) && IndexedColumns(b, groups[0].cols, groups[0].offs, root)
          && IndexedGroups(b, groups[1..], offs[1..], root))
  }

  ghost predicate IndexedColumns(b: seq<Byte>, cols: seq<ColumnScan>, offs: seq<nat>, root: nat)
    decreases cols
  {
    && |offs| == |cols|
    && (cols != [] ==>
          && cols[0].at == root + offs[0] && cols[0].at < |b| && b[cols[0].at] == COLUMN
          && IndexedEntries(b, cols[0].entries, cols[0].offs, root)
          && IndexedColumns(b, cols[1..], offs[1..], root))
  }

  ghost predicate IndexedEntries(b: seq<Byte>, entries: seq<EntryScan>, offs: seq<nat>, root: nat)
    decreases entries
  {
    && |offs| == |entries|
    && (entries != [] ==>
          && entries[0].at == root + offs[0] && IndexedEntry(b, entries[0], root)
          && IndexedEntries(b, entries[1..], offs[1..], root))
  }

  ghost predicate IndexedEntry(b: seq<Byte>, e: EntryScan, root: nat)
    decreases e
  {
    match e
    case ValuesEntry(_, _) => true
    case ObjectsEntry(_, objs) => LinkedObjs(b, objs, root)
  }

  /** Objects of a column entry: the next field of each holds the offset of the one after it,
      that of the last one 0. */
  ghost predicate LinkedObjs(b: seq<Byte>, objs: seq<ObjScan>, root: nat)
    decreases objs
  {
    objs != [] ==>
      && IndexedObj(b, objs[0], root)
      && (if |objs| == 1 then objs[0].next == 0 else objs[0].next > 0 && objs[1].at == root + objs[0].next)
      && LinkedObjs(b, objs[1..], root)
  }
}
