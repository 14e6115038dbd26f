/** Numbers and counts that fit their fields: which documents have only such, that columns made of
    these have only such too, and that then just uint8 arrays can be in the way of reading back. */
module Sizes {
  import opened Bytes
  import opened ColumnDoc
  import opened Document
  import opened Format
  import opened Columns
  import opened CopyFacts
  import opened Faults
  import opened Limits
  import opened Reorder
  import opened Scan
  import Lossless

  // ----- documents

  /** Every number of a document fits its type, every list of entries or values has less than 2^32
      elements, and so have all rows of an object together; an object has at most 255 object arrays. */
  ghost predicate FitsDoc(d: Doc)
    decreases d
  {
    && |d.entries| < Range(4) && TablesOf(d.entries, |d.entries|) < Range(1)
    && PairsOf(d.entries, |d.entries|) < Range(4)
    && forall i :: 0 <= i < |d.entries| ==> EntryFits(d.entries[i])
  }

  ghost predicate EntryFits(e: DocEntry)
    decreases e
  {
    e.key < Range(8)
    && match e.values
       case Nulls(_) => true
       case Plain(vals) => |vals| < Range(4) && Fit(vals, TypeWidth(e.ty))
       case Docs(docs) => forall i :: 0 <= i < |docs| ==> if |docs| == 1 then FitsDoc(docs[i]) else RowFits(docs[i])
  }

  ghost predicate RowFits(d: Doc)
    decreases d
  {
    forall i :: 0 <= i < |d.entries| ==> PairFits(d.entries[i])
  }

  ghost predicate PairFits(pair: DocEntry)
    decreases pair
  {
    pair.key < Range(8)
    && match pair.values
       case Nulls(_) => true
       case Plain(vals) => |vals| < Range(4) && Fit(vals, TypeWidth(pair.ty))
       case Docs(docs) => |docs| < Range(4) && forall i :: 0 <= i < |docs| ==> FitsDoc(docs[i])
  }

  /** The number of object arrays among the first n entries. */
  function TablesOf(entries: seq<DocEntry>, n: nat): nat
    requires n <= |entries|
  {
    if n == 0 then 0 else TablesOf(entries, n - 1) + if IsRows(entries[n - 1]) then 1 else 0
  }

  /** The number of pairs in all rows of the first n entries. */
  function PairsOf(entries: seq<DocEntry>, n: nat): nat
    requires n <= |entries|
  {
    if n == 0 then 0
    else PairsOf(entries, n - 1)
         + if IsRows(entries[n - 1]) then PairsIn(entries[n - 1].values.docs, |entries[n - 1].values.docs|) else 0
  }

  function PairsIn(docs: seq<Doc>, n: nat): nat
    requires n <= |docs|
  {
    if n == 0 then 0 else PairsIn(docs, n - 1) + |docs[n - 1].entries|
  }

  // ----- importing

  ghost predicate FitsProps(props: seq<Prop>, most: Most) {
    |props| == SLOTS && forall i :: 0 <= i < SLOTS ==> FitsProp(i, props[i], most)
  }

  /** The columns of a document that fits fit. */
  lemma {:induction false} ImportFits(d: Doc)
    requires TypedDoc(d) && FitsDoc(d)
    ensures FitsObj(ImportDoc(d))
    decreases d, 0
  {
    hide FitsProp, EntryFits, Typed, ImportEntries;
    Ranges();
    EntriesFit(d.entries, |d.entries|);
    var small := Most(|d.entries|, TablesOf(d.entries, |d.entries|), PairsOf(d.entries, |d.entries|));
    var props := ImportDoc(d).props;
    forall i | 0 <= i < SLOTS
      ensures FitsProp(i, props[i], MOST)
    {
      MoreFit(i, props[i], small, MOST);
    }
  }

  lemma MoreFit(slot: nat, p: Prop, most: Most, more: Most)
    requires slot < SLOTS && FitsProp(slot, p, most)
    requires most.keys <= more.keys && most.groups <= more.groups && most.cells <= more.cells
    ensures FitsProp(slot, p, more)
  {
    hide Fit, FitsArray, FitsGroup, FitsObjs;
    if p.Table? {
      MoreCells(p.groups, most, more);
    }
  }

  /** Groups are bound by the number of cells only. */
  lemma MoreCells(groups: seq<Group>, most: Most, more: Most)
    requires (forall i :: 0 <= i < |groups| ==> FitsGroup(groups[i], most)) && most.cells <= more.cells
    ensures forall i :: 0 <= i < |groups| ==> FitsGroup(groups[i], more)
  {
    hide FitsColumn;
    forall i, k | 0 <= i < |groups| && 0 <= k < |groups[i].cols|
      ensures FitsColumn(groups[i].cols[k], more)
    {
      ColumnMore(groups[i].cols[k], most, more);
    }
  }

  lemma ColumnMore(c: Column, most: Most, more: Most)
    requires FitsColumn(c, most) && most.cells <= more.cells
    ensures FitsColumn(c, more)
  {
    hide Fit, FitsEntry;
  }

  lemma {:induction false} EntriesFit(entries: seq<DocEntry>, n: nat)
    requires n <= |entries| && forall i :: 0 <= i < |entries| ==> Typed(entries[i]) && EntryFits(entries[i])
    ensures FitsProps(ImportEntries(entries, n).props, Most(n, TablesOf(entries, n), PairsOf(entries, n)))
    decreases entries, n
  {
    hide FitsProp, EntryFits, Typed, Put;
    if n == 0 {
      NothingFits();
    } else {
      EntriesFit(entries, n - 1);
      PutFits(ImportEntries(entries, n - 1), entries[n - 1],
              Most(n - 1, TablesOf(entries, n - 1), PairsOf(entries, n - 1)));
    }
  }

  lemma NothingFits()
    ensures FitsProps(EmptyObj().props, Most(0, 0, 0))
  {
    var props := EmptyObj().props;
    forall i | 0 <= i < SLOTS
      ensures FitsProp(i, props[i], Most(0, 0, 0))
    {
      assert props[i] == EmptyProp(i);
    }
  }

  /** Room for one more entry. */
  function More(most: Most, e: DocEntry): Most {
    Most(most.keys + 1, most.groups + (if IsRows(e) then 1 else 0),
         most.cells + if IsRows(e) then PairsIn(e.values.docs, |e.values.docs|) else 0)
  }

  lemma {:induction false} PutFits(o: Obj, e: DocEntry, most: Most)
    requires ValidObj(o) && Typed(e) && EntryFits(e) && FitsProps(o.props, most)
    ensures FitsProps(Put(o, e).props, More(most, e))
    decreases e, 1
  {
    hide FitsProp, ValidProp, FitsDoc, RowFits, TypedDoc, TypedRow, ImportDoc, ImportRows, ValidObjs, WriteWidth,
        ReadWidth, TypeWidth, Range;
    SlotWidths(e.ty);
    var more := More(most, e);
    forall i | 0 <= i < SLOTS
      ensures FitsProp(i, o.props[i], more)
    {
      MoreFit(i, o.props[i], most, more);
    }
    assert forall i :: 0 <= i < SLOTS ==> ValidProp(i, o.props[i]);
    match e.values
    case Nulls(n) =>
      FixedFits(0, o.props[0], e.key, 0, most, more);
      FixedFits(NULL_ARRAY_SLOT, o.props[NULL_ARRAY_SLOT], e.key, n % NULL_RANGE, most, more);
    case Plain(vals) =>
      FixedFits(0, o.props[0], e.key, 0, most, more);
      if |vals| == 1 {
        FixedFits(TypeIndex(e.ty), o.props[TypeIndex(e.ty)], e.key, vals[0], most, more);
      } else if |vals| > 1 {
        var slot := NULL_ARRAY_SLOT + TypeIndex(e.ty);
        ArrayFits(slot, o.props[slot], e.key, vals, most, more);
      }
    case Docs(docs) =>
      FixedFits(0, o.props[0], e.key, 0, most, more);
      if |docs| == 1 {
        ImportFits(docs[0]);
        NestedFits(o.props[OBJECT_SLOT], e.key, ImportDoc(docs[0]), most, more);
      } else if |docs| > 1 {
        TableFits(o.props[TABLE_SLOT], e, most);
      }
  }

  /** Values are written as wide as their type, and null keys are all zero. */
  lemma SlotWidths(ty: FieldType)
    ensures ty != Null && ty != Object ==>
      ReadWidth(TypeIndex(ty)) == TypeWidth(ty) == ReadWidth(NULL_ARRAY_SLOT + TypeIndex(ty))
    ensures 0 < Range(ReadWidth(0)) && NULL_RANGE <= Range(ReadWidth(NULL_ARRAY_SLOT))
  {
    Ranges();
  }

  lemma FixedFits(slot: nat, p: Prop, key: nat, val: nat, most: Most, more: Most)
    requires slot < SLOTS && ValidProp(slot, p) && FitsProp(slot, p, most) && IsFixedSlot(slot)
    requires key < Range(8) && val < Range(ReadWidth(slot)) && more.keys == most.keys + 1
    ensures FitsProp(slot, Fixed(p.keys + [key], p.vals + [val]), more)
  {
    hide Range, ReadWidth;
  }

  lemma ArrayFits(slot: nat, p: Prop, key: nat, vals: seq<nat>, most: Most, more: Most)
    requires slot < SLOTS && ValidProp(slot, p) && FitsProp(slot, p, most) && IsArraySlot(slot)
    requires key < Range(8) && FitsArray(slot, vals) && more.keys == most.keys + 1
    ensures FitsProp(slot, Arrays(p.keys + [key], p.arrs + [vals]), more)
  {
    hide Range, ReadWidth, FitsArray;
  }

  lemma NestedFits(p: Prop, key: nat, o: Obj, most: Most, more: Most)
    requires ValidProp(OBJECT_SLOT, p) && FitsProp(OBJECT_SLOT, p, most)
    requires key < Range(8) && FitsObj(o) && more.keys == most.keys + 1
    ensures FitsProp(OBJECT_SLOT, Nested(p.keys + [key], p.objs + [o]), more)
  {
    hide Range, FitsObj, ValidObjs;
  }

  // ----- object arrays

  ghost predicate FitsGroups(groups: seq<Group>, cells: nat) {
    forall i :: 0 <= i < |groups| ==> FitsGroup(groups[i], Most(0, 0, cells))
  }

  lemma {:induction false} TableFits(p: Prop, e: DocEntry, most: Most)
    requires ValidProp(TABLE_SLOT, p) && FitsProp(TABLE_SLOT, p, most) && IsRows(e) && Typed(e) && EntryFits(e)
    ensures FitsProp(TABLE_SLOT, Table(ImportRows(p.groups, e.key, e.values.docs, |e.values.docs|)), More(most, e))
    decreases e, 0
  {
    hide FitsGroup, TypedRow, RowFits, ImportRows, ValidGroup, TypedDoc, FitsDoc;
    var docs := e.values.docs;
    MoreCells(p.groups, most, Most(0, 0, most.cells));
    RowsFit(p.groups, e.key, docs, |docs|, most.cells);
    var more := More(most, e);
    MoreCells(ImportRows(p.groups, e.key, docs, |docs|), Most(0, 0, more.cells), more);
  }

  predicate HasKey(groups: seq<Group>, key: nat) { exists i :: 0 <= i < |groups| && groups[i].key == key }

  /** One more group at most, and then of the key. */
  ghost predicate OneMore(groups: seq<Group>, gs: seq<Group>, key: nat) {
    |gs| == |groups| || (|gs| == |groups| + 1 && HasKey(gs, key))
  }

  lemma {:induction false} RowsFit(groups: seq<Group>, key: nat, docs: seq<Doc>, n: nat, cells: nat)
    requires ValidGroups(groups) && FitsGroups(groups, cells) && n <= |docs| < 0x1_0000_0000 && key < Range(8)
    requires forall i :: 0 <= i < |docs| ==> TypedRow(docs[i]) && RowFits(docs[i])
    ensures FitsGroups(ImportRows(groups, key, docs, n), cells + PairsIn(docs, n))
    ensures OneMore(groups, ImportRows(groups, key, docs, n), key)
    decreases docs, n
  {
    hide FitsGroups, TypedRow, RowFits, ImportRow, ValidGroups, HasKey;
    if n > 0 {
      RowsFit(groups, key, docs, n - 1, cells);
      var pairs := docs[n - 1].entries;
      WholeRowFits(groups, ImportRows(groups, key, docs, n - 1), key, n - 1, docs[n - 1], cells + PairsIn(docs, n - 1));
    }
  }

  lemma {:induction false} WholeRowFits(groups: seq<Group>, gs: seq<Group>, key: nat, row: nat, d: Doc, cells: nat)
    requires ValidGroups(gs) && FitsGroups(gs, cells) && OneMore(groups, gs, key) && key < Range(8)
    requires row < 0x1_0000_0000 && TypedRow(d) && RowFits(d)
    ensures FitsGroups(ImportRow(gs, key, row, d.entries, |d.entries|), cells + |d.entries|)
    ensures OneMore(groups, ImportRow(gs, key, row, d.entries, |d.entries|), key)
    decreases d, 0
  {
    hide FitsGroups, ImportRow, ValidGroups, HasKey, TypedPair, PairFits;
    RowFitsUpTo(groups, gs, key, row, d.entries, |d.entries|, cells);
  }

  lemma {:induction false} RowFitsUpTo(groups: seq<Group>, gs: seq<Group>, key: nat, row: nat, pairs: seq<DocEntry>,
                                       n: nat, cells: nat)
    requires ValidGroups(gs) && FitsGroups(gs, cells) && OneMore(groups, gs, key) && key < Range(8)
    requires row < 0x1_0000_0000 && n <= |pairs|
    requires forall i :: 0 <= i < |pairs| ==> TypedPair(pairs[i]) && PairFits(pairs[i])
    ensures FitsGroups(ImportRow(gs, key, row, pairs, n), cells + n)
    ensures OneMore(groups, ImportRow(gs, key, row, pairs, n), key)
    decreases pairs, n
  {
    hide FitsGroups, TypedPair, PairFits, AddCell, ValidGroups, HasKey, StoredEntry, FitsEntry;
    if n > 0 {
      RowFitsUpTo(groups, gs, key, row, pairs, n - 1, cells);
      StoredFits(pairs[n - 1]);
      CellFits(ImportRow(gs, key, row, pairs, n - 1), key, pairs[n - 1].key, pairs[n - 1].ty, row,
               StoredEntry(pairs[n - 1]), cells + n - 1);
    }
  }

  lemma {:induction false} StoredFits(pair: DocEntry)
    requires TypedPair(pair) && PairFits(pair)
    ensures FitsEntry(pair.ty, StoredEntry(pair)) && pair.key < Range(8)
    decreases pair, 1
  {
    hide FitsDoc, FitsObj, TypedDoc, ImportAll, ImportDoc;
    Ranges();
    if pair.values.Docs? {
      var docs := pair.values.docs;
      forall i | 0 <= i < |docs|
        ensures FitsObj(ImportAll(docs, |docs|)[i])
      {
        Lossless.ImportAllAt(docs, |docs|, i);
        ImportFits(docs[i]);
      }
    }
  }

  lemma {:induction false} CellFits(groups: seq<Group>, key: nat, name: nat, ty: FieldType, row: nat, e: Entry,
                                    cells: nat)
    requires ValidGroups(groups) && FitsGroups(groups, cells) && ValidEntry(ty, e) && FitsEntry(ty, e)
    requires key < Range(8) && name < Range(8) && row < Range(4)
    ensures var gs := AddCell(groups, key, name, ty, row, e);
      && FitsGroups(gs, cells + 1) && HasKey(gs, key)
      && |gs| == |groups| + if HasKey(groups, key) then 0 else 1
    decreases groups
  {
    hide FitsGroup, ValidGroup, AddValue, Range, FitsEntry, ValidEntry;
    var gs := AddCell(groups, key, name, ty, row, e);
    if groups == [] {
      NewGroupFits(key, cells);
      GroupFits(Group(key, []), name, ty, row, e, cells);
      assert gs[0].key == key;
    } else if groups[0].key == key {
      GroupFits(groups[0], name, ty, row, e, cells);
      MoreCells(groups, Most(0, 0, cells), Most(0, 0, cells + 1));
      assert gs[0].key == key;
    } else {
      CellFits(groups[1..], key, name, ty, row, e, cells);
      MoreCells(groups, Most(0, 0, cells), Most(0, 0, cells + 1));
      KeyBehind(groups, key);
      KeyBehind(gs, key);
    }
  }

  lemma KeyBehind(groups: seq<Group>, key: nat)
    requires groups != [] && groups[0].key != key
    ensures HasKey(groups, key) <==> HasKey(groups[1..], key)
  {
    if HasKey(groups, key) {
      var i :| 0 <= i < |groups| && groups[i].key == key;
      assert groups[1..][i - 1].key == key;
    }
    if HasKey(groups[1..], key) {
      var i :| 0 <= i < |groups| - 1 && groups[1..][i].key == key;
      assert groups[i + 1].key == key;
    }
  }

  lemma NewGroupFits(key: nat, cells: nat)
    requires key < Range(8)
    ensures ValidGroup(Group(key, [])) && FitsGroup(Group(key, []), Most(0, 0, cells))
  {
  }

  ghost predicate FitsColumns(cols: seq<Column>, cells: nat) {
    forall i :: 0 <= i < |cols| ==> FitsColumn(cols[i], Most(0, 0, cells))
  }

  lemma GroupFits(g: Group, name: nat, ty: FieldType, row: nat, e: Entry, cells: nat)
    requires ValidGroup(g) && FitsGroup(g, Most(0, 0, cells))
    requires ValidEntry(ty, e) && FitsEntry(ty, e) && name < Range(8) && row < Range(4)
    ensures FitsGroup(Group(g.key, AddValue(g.cols, name, ty, row, e)), Most(0, 0, cells + 1))
  {
    hide FitsColumn, ValidColumn, AddValue, Range;
    ColumnsFit(g.cols, name, ty, row, e, cells);
  }

  lemma {:induction false} ColumnsFit(cols: seq<Column>, name: nat, ty: FieldType, row: nat, e: Entry, cells: nat)
    requires (forall i :: 0 <= i < |cols| ==> ValidColumn(cols[i])) && FitsColumns(cols, cells)
    requires ValidEntry(ty, e) && FitsEntry(ty, e) && name < Range(8) && row < Range(4)
    ensures var cs := AddValue(cols, name, ty, row, e); FitsColumns(cs, cells + 1) && |cs| <= |cols| + 1
    decreases cols
  {
    hide FitsEntry, ValidEntry, Range;
    if cols != [] {
      ColumnsFit(cols[1..], name, ty, row, e, cells);
    }
  }

  // ----- what is in the way of reading back

  ghost predicate SaysOctets(o: Obj) { SaysFault(Said(ObjFacts(o)), Octets) }

  /** An object is counted only if it says nothing of an array of uint8 values, and if it fits that
      is enough. */
  lemma {:induction false} CountedExactly(o: Obj)
    requires ValidObj(o)
    ensures CountedObj(o) ==> !SaysOctets(o)
    ensures FitsObj(o) ==> TypedObj(o) && (CountedObj(o) <==> !SaysOctets(o))
    decreases o
  {
    hide ValidProp, CountedProp, FitsProp, TypedProp, HasFault, PropFacts, ObjFacts;
    Faulty(ObjFacts(o), Octets);
    PropsOctets(o);
    forall i | 0 <= i < SLOTS
      ensures CountedProp(i, o.props[i]) ==> !HasFault(PropFacts(i, o.props[i]), Octets)
      ensures FitsProp(i, o.props[i], MOST) ==> TypedProp(i, o.props[i])
      ensures FitsProp(i, o.props[i], MOST) && !HasFault(PropFacts(i, o.props[i]), Octets) ==>
        CountedProp(i, o.props[i])
    {
      PropCounted(i, o.props[i]);
    }
  }

  lemma PropsOctets(o: Obj)
    requires |o.props| == SLOTS
    ensures HasFault(ObjFacts(o), Octets) <==>
            exists i :: 0 <= i < SLOTS && HasFault(PropFacts(i, o.props[i]), Octets)
  {
    hide HasFault, PropFacts, PropsFacts;
    PropsFaults(o.props, SLOTS, Octets);
  }

  lemma {:induction false} PropCounted(slot: nat, p: Prop)
    requires slot < SLOTS && ValidProp(slot, p)
    ensures CountedProp(slot, p) ==> !HasFault(PropFacts(slot, p), Octets)
    ensures FitsProp(slot, p, MOST) ==> TypedProp(slot, p)
    ensures FitsProp(slot, p, MOST) && !HasFault(PropFacts(slot, p), Octets) ==> CountedProp(slot, p)
    decreases p
  {
    hide HasFault, FixedFacts, NestedFacts, ArraysFacts, TableFacts, Fit, ReadWidth, ValidObjs, TypedObjs, FitsObjs,
        CountedObjs, CountedArrays, ValidGroup, TypedGroup, FitsGroup, CountedGroup;
    Ranges();
    match p
    case Fixed(keys, vals) => NoArrays(FixedFacts(slot, keys, vals));
    case Arrays(keys, arrs) => ArraysCounted(slot, keys, arrs);
    case Nested(keys, objs) => NestedCounted(keys, objs);
    case Table(groups) => TableCounted(groups);
  }

  lemma NoArrays(facts: multiset<Fact>)
    requires forall f :: f in facts ==> f.NullOf? || f.ScalarOf? || f.NullsOf?
    ensures !HasFault(facts, Octets)
  {
  }

  lemma ArraysCounted(slot: nat, keys: seq<nat>, arrs: seq<seq<nat>>)
    requires IsArraySlot(slot) && |keys| == |arrs|
    ensures HasFault(ArraysFacts(slot, keys, arrs), Octets) <==>
            slot == UINT8_ARRAY_SLOT && exists i :: 0 <= i < |arrs| && arrs[i] != []
    ensures CountedArrays(slot, arrs) ==> !HasFault(ArraysFacts(slot, keys, arrs), Octets)
    ensures !HasFault(ArraysFacts(slot, keys, arrs), Octets) && (forall i :: 0 <= i < |arrs| ==>
      FitsArray(slot, arrs[i])) ==>
        CountedArrays(slot, arrs)
  {
    hide HasFault, ArraysFacts, ArraysTerms, Sum, Fit, ReadWidth, Range, SlotType, IsFault;
    ArraysSum(slot, keys, arrs);
    SumFaults(ArraysTerms(slot, keys, arrs), Octets);
    forall i | 0 <= i < |arrs|
      ensures HasFault(ArraysTerms(slot, keys, arrs)[i], Octets) <==> slot == UINT8_ARRAY_SLOT && arrs[i] != []
    {
      ArrayFault(slot, keys[i], arrs[i]);
    }
  }

  lemma ArrayFault(slot: nat, key: nat, vals: seq<nat>)
    requires IsArraySlot(slot)
    ensures HasFault(multiset{ArrayOf(key, SlotType(slot), vals)}, Octets) <==>
            slot == UINT8_ARRAY_SLOT && vals != []
  {
    hide HasFault;
    FaultOne(ArrayOf(key, SlotType(slot), vals), Octets);
  }

  lemma {:induction false} ObjsCounted(objs: seq<Obj>)
    requires ValidObjs(objs)
    ensures CountedObjs(objs) ==> forall i :: 0 <= i < |objs| ==> !SaysOctets(objs[i])
    ensures FitsObjs(objs) ==> TypedObjs(objs)
    ensures FitsObjs(objs) && (forall i :: 0 <= i < |objs| ==> !SaysOctets(objs[i])) ==> CountedObjs(objs)
    decreases objs, 0
  {
    hide SaysOctets, ValidObj, TypedObj, FitsObj, CountedObj;
    forall i | 0 <= i < |objs|
      ensures CountedObj(objs[i]) ==> !SaysOctets(objs[i])
      ensures FitsObj(objs[i]) ==> TypedObj(objs[i]) && (CountedObj(objs[i]) <==> !SaysOctets(objs[i]))
    {
      CountedExactly(objs[i]);
    }
  }

  lemma {:induction false} NestedCounted(keys: seq<nat>, objs: seq<Obj>)
    requires |keys| == |objs| && ValidObjs(objs)
    ensures CountedObjs(objs) ==> !HasFault(NestedFacts(keys, objs), Octets)
    ensures FitsObjs(objs) ==> TypedObjs(objs)
    ensures FitsObjs(objs) && !HasFault(NestedFacts(keys, objs), Octets) ==> CountedObjs(objs)
    decreases objs, 1
  {
    hide HasFault, NestedFacts, ObjFacts, SaysFault, ValidObjs, TypedObjs, FitsObjs, CountedObjs;
    NestedFaults(keys, objs, Octets);
    ObjsCounted(objs);
  }

  lemma {:induction false} TableCounted(groups: seq<Group>)
    requires forall i :: 0 <= i < |groups| ==> ValidGroup(groups[i])
    ensures (forall i :: 0 <= i < |groups| ==> CountedGroup(groups[i])) ==> !HasFault(TableFacts(groups), Octets)
    ensures (forall i :: 0 <= i < |groups| ==> FitsGroup(groups[i], MOST)) ==>
              forall i :: 0 <= i < |groups| ==> TypedGroup(groups[i])
    ensures (forall i :: 0 <= i < |groups| ==> FitsGroup(groups[i], MOST)) && !HasFault(TableFacts(groups), Octets)
            ==> forall i :: 0 <= i < |groups| ==> CountedGroup(groups[i])
    decreases groups
  {
    hide HasFault, TableFacts, GroupFacts, ValidGroup, TypedGroup, FitsGroup, CountedGroup;
    TableFaults(groups, Octets);
    forall i | 0 <= i < |groups|
      ensures CountedGroup(groups[i]) ==> !HasFault(GroupFacts(groups[i]), Octets)
      ensures FitsGroup(groups[i], MOST) ==> TypedGroup(groups[i])
      ensures FitsGroup(groups[i], MOST) && !HasFault(GroupFacts(groups[i]), Octets) ==> CountedGroup(groups[i])
    {
      GroupCounted(groups[i]);
    }
  }

  lemma {:induction false} GroupCounted(g: Group)
    requires ValidGroup(g)
    ensures CountedGroup(g) ==> !HasFault(GroupFacts(g), Octets)
    ensures FitsGroup(g, MOST) ==> TypedGroup(g)
    ensures FitsGroup(g, MOST) && !HasFault(GroupFacts(g), Octets) ==> CountedGroup(g)
    decreases g
  {
    hide HasFault, GroupFacts, ColumnFacts, ValidColumn, TypedColumn, FitsColumn, CountedColumn;
    Ranges();
    GroupFaults(g, Octets);
    forall i | 0 <= i < |g.cols|
      ensures CountedColumn(g.cols[i]) ==> !HasFault(ColumnFacts(g.key, g.cols[i]), Octets)
      ensures FitsColumn(g.cols[i], MOST) ==> TypedColumn(g.cols[i])
      ensures FitsColumn(g.cols[i], MOST) && !HasFault(ColumnFacts(g.key, g.cols[i]), Octets) ==>
        CountedColumn(g.cols[i])
    {
      ColumnCounted(g.key, g.cols[i]);
    }
  }

  lemma {:induction false} ColumnCounted(key: nat, c: Column)
    requires ValidColumn(c)
    ensures CountedColumn(c) ==> !HasFault(ColumnFacts(key, c), Octets)
    ensures FitsColumn(c, MOST) ==> TypedColumn(c)
    ensures FitsColumn(c, MOST) && !HasFault(ColumnFacts(key, c), Octets) ==> CountedColumn(c)
    decreases c
  {
    hide HasFault, ColumnFacts, CellFault, EntryCell, Fit, ValidEntry, TypedEntry, FitsEntry, CountedEntry;
    Ranges();
    ColumnFaults(key, c, Octets);
    forall i | 0 <= i < |c.entries|
      ensures CountedEntry(c.entries[i]) ==> !CellFault(c.ty, EntryCell(c.ty, c.entries[i]), Octets)
      ensures FitsEntry(c.ty, c.entries[i]) ==> TypedEntry(c.ty, c.entries[i])
      ensures FitsEntry(c.ty, c.entries[i]) && !CellFault(c.ty, EntryCell(c.ty, c.entries[i]), Octets) ==>
        CountedEntry(c.entries[i])
    {
      EntryCounted(c.ty, c.entries[i]);
    }
  }

  lemma {:induction false} EntryCounted(ty: FieldType, e: Entry)
    requires ValidEntry(ty, e)
    ensures CountedEntry(e) ==> !CellFault(ty, EntryCell(ty, e), Octets)
    ensures FitsEntry(ty, e) ==> TypedEntry(ty, e)
    ensures FitsEntry(ty, e) && !CellFault(ty, EntryCell(ty, e), Octets) ==> CountedEntry(e)
    decreases e
  {
    hide ObjFacts, AllObjFacts, SaysFault, Fit, TypeWidth, Range, ValidObjs, TypedObjs, FitsObjs, CountedObjs;
    match e
    case Vals(vals) =>
    case Objs(objs) =>
      ObjsCounted(objs);
      forall i | 0 <= i < |objs|
        ensures SaysFault(AllObjFacts(objs, |objs|)[i], Octets) <==> SaysOctets(objs[i])
      {
        Lossless.AllObjFactsAt(objs, |objs|, i);
      }
  }
}
