/** What an archive says to its reader: the facts of the lists that the reader met, each in its
    slot. An object array has as many rows as the reader met ids. */
module Reading {
  import opened Bytes
  import opened ColumnDoc
  import opened Document
  import opened Columns
  import opened Reorder
  import opened Scan
  import opened Index

  function ScanFacts(s: ObjScan): multiset<Fact>
    decreases s, 0
  {
    SlotsFacts(s.items, 0)
  }

  function SlotsFacts(items: seq<ItemScan>, slot: nat): multiset<Fact>
    requires slot <= SLOTS
    decreases items, SLOTS - slot
  {
    if slot == SLOTS then multiset{}
    else if items != [] && items[0].slot == slot then ItemFacts(items[0]) + SlotsFacts(items[1..], slot + 1)
    else SlotsFacts(items, slot + 1)
  }

  function ItemFacts(item: ItemScan): multiset<Fact>
    decreases item, 0
  {
    match item
    case Values(_, slot, keys, vals) => FixedFacts(slot, keys, vals)
    case Objects(_, _, keys, _, objs) => ObjectsFacts(keys, objs)
    case Lists(_, slot, keys, arrs) => ArraysFacts(slot, keys, arrs)
    case Groups(_, _, keys, _, groups) => GroupScansFacts(keys, groups)
  }

  function ObjectsFacts(keys: seq<nat>, objs: seq<ObjScan>): multiset<Fact>
    decreases objs, 1
  {
    if objs == [] || |keys| < |objs| then multiset{}
    else
      var n := |objs| - 1;
      ObjectsFacts(keys[..n], objs[..n]) + multiset{ObjectOf(keys[n], Said(ScanFacts(objs[n])))}
  }

  function GroupScansFacts(keys: seq<nat>, groups: seq<GroupScan>): multiset<Fact>
    decreases groups, 0
  {
    if keys == [] || groups == [] then multiset{}
    else ColumnScansFacts(keys[0], groups[0].cols) + multiset{RowsOf(keys[0], |groups[0].oids|)}
         + GroupScansFacts(keys[1..], groups[1..])
  }

  function ColumnScansFacts(key: nat, cols: seq<ColumnScan>): multiset<Fact>
    decreases cols, 0
  {
    if cols == [] then multiset{}
    else CellScansFacts(key, cols[0].name, cols[0].ty, cols[0].positions, cols[0].entries)
         + ColumnScansFacts(key, cols[1..])
  }

  function CellScansFacts(key: nat, name: nat, ty: FieldType, positions: seq<nat>, entries: seq<EntryScan>):
    multiset<Fact>
    decreases entries, 1
  {
    if entries == [] || |positions| < |entries| then multiset{}
    else
      var n := |entries| - 1;
      CellScansFacts(key, name, ty, positions[..n], entries[..n])
      + multiset{CellOf(key, positions[n], name, ty, ScanCell(ty, entries[n]))}
  }

  function ScanCell(ty: FieldType, e: EntryScan): Cell
    decreases e, 1
  {
    match e
    case ValuesEntry(_, vals) => if ty == Null && |vals| == 1 then NullCell(vals[0]) else PlainCell(vals)
    case ObjectsEntry(_, objs) => ObjectCell(AllScanFacts(objs, |objs|))
  }

  function AllScanFacts(objs: seq<ObjScan>, n: nat): (fs: seq<Said>)
    requires n <= |objs|
    ensures |fs| == n
    decreases objs, n
  {
    if n == 0 then [] else AllScanFacts(objs, n - 1) + [Said(ScanFacts(objs[n - 1]))]
  }

  // ----- the document behind the scan says the same

  /** What the reader meets in an archive whose index is right is what the rebuilt object says. */
  lemma {:induction false} ScanSays(b: seq<Byte>, s: ObjScan, root: nat)
    requires IndexedObj(b, s, root)
    ensures ScanFacts(s) == ObjFacts(Rebuild(s))
    decreases s, 0
  {
    hide PropFacts, SlotsFacts, IndexedItems, PropsTail, PropsFacts;
    var props := RebuildProps(s.items, 0);
    assert props[0..] == props;
    SlotsSay(b, s.items, s.offs, root, 0, props);
    TailIsAll(props, 0);
    NothingBefore(props);
  }

  function PropsTail(props: seq<Prop>, i: nat): multiset<Fact>
    decreases |props| - i
  {
    if i >= |props| then multiset{} else PropFacts(i, props[i]) + PropsTail(props, i + 1)
  }

  lemma {:induction false} TailIsAll(props: seq<Prop>, i: nat)
    requires i <= |props|
    ensures PropsFacts(props, i) + PropsTail(props, i) == PropsFacts(props, |props|)
    decreases |props| - i
  {
    hide PropFacts;
    if i < |props| {
      TailIsAll(props, i + 1);
    }
  }

  lemma NothingBefore(props: seq<Prop>)
    ensures PropsFacts(props, 0) == multiset{}
  {
  }

  lemma {:induction false} SlotsSay(b: seq<Byte>, items: seq<ItemScan>, offs: seq<nat>, root: nat, slot: nat,
                                    props: seq<Prop>)
    requires slot <= SLOTS == |props| && IndexedItems(b, items, offs, root)
    requires props[slot..] == RebuildProps(items, slot)
    ensures SlotsFacts(items, slot) == PropsTail(props, slot)
    decreases items, SLOTS - slot
  {
    hide PropFacts, ItemFacts, RebuildItem, IndexedItem;
    if slot < SLOTS {
      assert props[slot] == props[slot..][0] && props[slot + 1..] == props[slot..][1..];
      if items != [] && items[0].slot == slot {
        ItemSays(b, items[0], offs[0], root);
        SlotsSay(b, items[1..], offs[1..], root, slot + 1, props);
      } else {
        EmptySays(slot);
        SlotsSay(b, items, offs, root, slot + 1, props);
      }
    }
  }

  lemma EmptySays(slot: nat)
    requires slot < SLOTS
    ensures PropFacts(slot, EmptyProp(slot)) == multiset{}
  {
  }

  lemma {:induction false} ItemSays(b: seq<Byte>, item: ItemScan, off: nat, root: nat)
    requires IndexedItem(b, item, off, root)
    ensures ItemFacts(item) == PropFacts(item.slot, RebuildItem(item))
    decreases item, 0
  {
    hide FixedFacts, ArraysFacts, ObjectsFacts, NestedFacts, TableFacts, GroupScansFacts, RebuildObjs, RebuildGroups,
        IndexedObj, IndexedObjs, IndexedGroups;
    match item
    case Values(_, _, _, _) =>
    case Lists(_, _, _, _) =>
    case Objects(_, _, keys, offs, objs) =>
      forall i | 0 <= i < |objs|
        ensures ScanFacts(objs[i]) == ObjFacts(Rebuild(objs[i]))
      {
        IndexedAt(b, objs, offs, root, i);
        ScanSays(b, objs[i], root);
      }
      ObjectsSay(keys, objs);
    case Groups(_, _, keys, offs, groups) => GroupsSay(b, keys, groups, offs, root);
  }

  lemma {:induction false} IndexedAt(b: seq<Byte>, objs: seq<ObjScan>, offs: seq<nat>, root: nat, i: nat)
    requires IndexedObjs(b, objs, offs, root) && i < |objs|
    ensures IndexedObj(b, objs[i], root)
    decreases i
  {
    hide IndexedObj;
    if i > 0 {
      IndexedAt(b, objs[1..], offs[1..], root, i - 1);
    }
  }

  lemma {:induction false} RebuiltAt(objs: seq<ObjScan>, i: nat)
    requires i < |objs|
    ensures RebuildObjs(objs)[i] == Rebuild(objs[i])
    decreases i
  {
    hide Rebuild;
    if i > 0 {
      RebuiltAt(objs[1..], i - 1);
    }
  }

  lemma RebuiltFront(objs: seq<ObjScan>, n: nat)
    requires n <= |objs|
    ensures RebuildObjs(objs[..n]) == RebuildObjs(objs)[..n]
  {
    hide RebuildObjs;
    forall i | 0 <= i < n
      ensures RebuildObjs(objs[..n])[i] == RebuildObjs(objs)[i]
    {
      RebuiltAt(objs, i);
      RebuiltAt(objs[..n], i);
    }
  }

  lemma {:induction false} ObjectsSay(keys: seq<nat>, objs: seq<ObjScan>)
    requires forall i :: 0 <= i < |objs| ==> ScanFacts(objs[i]) == ObjFacts(Rebuild(objs[i]))
    ensures ObjectsFacts(keys, objs) == NestedFacts(keys, RebuildObjs(objs))
    decreases |objs|
  {
    hide ScanFacts, ObjFacts, Rebuild, RebuildObjs;
    if objs != [] && |keys| >= |objs| {
      var n := |objs| - 1;
      ObjectsSay(keys[..n], objs[..n]);
      RebuiltFront(objs, n);
      RebuiltAt(objs, n);
    }
  }

  lemma {:induction false} AllSay(objs: seq<ObjScan>, n: nat)
    requires n <= |objs| && forall i :: 0 <= i < |objs| ==> ScanFacts(objs[i]) == ObjFacts(Rebuild(objs[i]))
    ensures AllScanFacts(objs, n) == AllObjFacts(RebuildObjs(objs), n)
    decreases n
  {
    hide ScanFacts, ObjFacts, Rebuild, RebuildObjs;
    if n > 0 {
      AllSay(objs, n - 1);
      RebuiltAt(objs, n - 1);
    }
  }

  lemma {:induction false} GroupsSay(b: seq<Byte>, keys: seq<nat>, groups: seq<GroupScan>, offs: seq<nat>, root: nat)
    requires IndexedGroups(b, groups, offs, root)
    ensures GroupScansFacts(keys, groups) == TableFacts(RebuildGroups(keys, groups))
    decreases groups, 0
  {
    hide TableFacts, GroupFacts, ColumnsFacts, ColumnScansFacts, RebuildColumns, IndexedColumns, Numbered;
    NoTable();
    if keys != [] && groups != [] {
      ColumnsSay(b, keys[0], groups[0].cols, groups[0].offs, root);
      GroupSays(keys[0], groups[0]);
      GroupsSay(b, keys[1..], groups[1..], offs[1..], root);
      TableStep(RebuildGroups(keys, groups));
      assert RebuildGroups(keys, groups)[1..] == RebuildGroups(keys[1..], groups[1..]);
    }
  }

  lemma GroupSays(key: nat, g: GroupScan)
    requires Numbered(g) && ColumnScansFacts(key, g.cols) == ColumnsFacts(key, RebuildColumns(g.cols))
    ensures ColumnScansFacts(key, g.cols) + multiset{RowsOf(key, |g.oids|)}
            == GroupFacts(Group(key, RebuildColumns(g.cols)))
  {
    hide ColumnsFacts, ColumnScansFacts, RebuildColumns, MaxPosition;
  }

  lemma {:induction false} ColumnsSay(b: seq<Byte>, key: nat, cols: seq<ColumnScan>, offs: seq<nat>, root: nat)
    requires IndexedColumns(b, cols, offs, root)
    ensures ColumnScansFacts(key, cols) == ColumnsFacts(key, RebuildColumns(cols))
    decreases cols, 0
  {
    hide CellsFacts, CellScansFacts, RebuildEntries, IndexedEntries;
    if cols != [] {
      var entries := cols[0].entries;
      forall i | 0 <= i < |entries|
        ensures ScanCell(cols[0].ty, entries[i]) == EntryCell(cols[0].ty, RebuildEntry(entries[i]))
      {
        IndexedEntryAt(b, entries, cols[0].offs, root, i);
        EntrySays(b, cols[0].ty, entries[i], root);
      }
      CellsSay(key, cols[0].name, cols[0].ty, cols[0].positions, entries);
      ColumnsSay(b, key, cols[1..], offs[1..], root);
      assert RebuildColumns(cols)[1..] == RebuildColumns(cols[1..]);
    }
  }

  lemma {:induction false} IndexedEntryAt(b: seq<Byte>, entries: seq<EntryScan>, offs: seq<nat>, root: nat, i: nat)
    requires IndexedEntries(b, entries, offs, root) && i < |entries|
    ensures IndexedEntry(b, entries[i], root)
    decreases i
  {
    hide IndexedEntry;
    if i > 0 {
      IndexedEntryAt(b, entries[1..], offs[1..], root, i - 1);
    }
  }

  lemma {:induction false} EntrySays(b: seq<Byte>, ty: FieldType, e: EntryScan, root: nat)
    requires IndexedEntry(b, e, root)
    ensures ScanCell(ty, e) == EntryCell(ty, RebuildEntry(e))
    decreases e, 1
  {
    hide IndexedObj, LinkedObjs, ScanFacts, ObjFacts, Rebuild, RebuildObjs;
    if e.ObjectsEntry? {
      forall i | 0 <= i < |e.objs|
        ensures ScanFacts(e.objs[i]) == ObjFacts(Rebuild(e.objs[i]))
      {
        LinkedAt(b, e.objs, root, i);
        ScanSays(b, e.objs[i], root);
      }
      AllSay(e.objs, |e.objs|);
    }
  }

  lemma {:induction false} LinkedAt(b: seq<Byte>, objs: seq<ObjScan>, root: nat, i: nat)
    requires LinkedObjs(b, objs, root) && i < |objs|
    ensures IndexedObj(b, objs[i], root)
    decreases i
  {
    hide IndexedObj;
    if i > 0 {
      LinkedAt(b, objs[1..], root, i - 1);
    }
  }

  lemma {:induction false} EntryRebuiltAt(entries: seq<EntryScan>, i: nat)
    requires i < |entries|
    ensures RebuildEntries(entries)[i] == RebuildEntry(entries[i])
    decreases i
  {
    hide RebuildEntry;
    if i > 0 {
      EntryRebuiltAt(entries[1..], i - 1);
    }
  }

  lemma EntriesRebuiltFront(entries: seq<EntryScan>, n: nat)
    requires n <= |entries|
    ensures RebuildEntries(entries[..n]) == RebuildEntries(entries)[..n]
  {
    hide RebuildEntries;
    forall i | 0 <= i < n
      ensures RebuildEntries(entries[..n])[i] == RebuildEntries(entries)[i]
    {
      EntryRebuiltAt(entries, i);
      EntryRebuiltAt(entries[..n], i);
    }
  }

  lemma {:induction false} CellsSay(key: nat, name: nat, ty: FieldType, positions: seq<nat>, entries: seq<EntryScan>)
    requires forall i :: 0 <= i < |entries| ==> ScanCell(ty, entries[i]) == EntryCell(ty, RebuildEntry(entries[i]))
    ensures CellScansFacts(key, name, ty, positions, entries)
            == CellsFacts(key, name, ty, positions, RebuildEntries(entries))
    decreases |entries|
  {
    hide ScanCell, EntryCell, RebuildEntry, RebuildEntries;
    if entries != [] && |positions| >= |entries| {
      var n := |entries| - 1;
      assert RebuildEntries(entries) != [];
      CellsSay(key, name, ty, positions[..n], entries[..n]);
      EntriesRebuiltFront(entries, n);
      EntryRebuiltAt(entries, n);
    }
  }
}
