/** The columnar form says what the document says. */
module Lossless {
  import opened ColumnDoc
  import opened Document
  import opened Columns
  import opened Faults
  import opened Reorder
  import opened Rows

  // ----- one more entry in one slot

  lemma {:induction false} PropsGain(props: seq<Prop>, slot: nat, p: Prop, gain: multiset<Fact>, n: nat)
    requires slot < |props| && n <= |props| && PropFacts(slot, p) == PropFacts(slot, props[slot]) + gain
    ensures PropsFacts(props[slot := p], n) == PropsFacts(props, n) + if slot < n then gain else multiset{}
    decreases n
  {
    hide PropFacts;
    if n > 0 {
      PropsGain(props, slot, p, gain, n - 1);
    }
  }

  lemma FixedGain(o: Obj, slot: nat, key: nat, val: nat)
    requires ValidObj(o) && IsFixedSlot(slot)
    ensures ObjFacts(PutFixed(o, slot, key, val)) == ObjFacts(o) + multiset{
      if slot == 0 then NullOf(key) else if slot == NULL_ARRAY_SLOT then NullsOf(key, val)
      else ScalarOf(key, SlotType(slot), val)}
  {
    hide PropsFacts;
    var p := o.props[slot];
    assert ValidProp(slot, p);
    var keys, vals := p.keys + [key], p.vals + [val];
    assert keys[..|p.keys|] == p.keys && vals[..|p.keys|] == p.vals;
    PropsGain(o.props, slot, Fixed(keys, vals), multiset{
      if slot == 0 then NullOf(key) else if slot == NULL_ARRAY_SLOT then NullsOf(key, val)
      else ScalarOf(key, SlotType(slot), val)}, |o.props|);
  }

  lemma NestedGain(o: Obj, key: nat, nested: Obj)
    requires ValidObj(o) && ValidObj(nested)
    ensures ObjFacts(PutNested(o, key, nested)) == ObjFacts(o) + multiset{ObjectOf(key, Said(ObjFacts(nested)))}
  {
    hide PropsFacts;
    var p := o.props[OBJECT_SLOT];
    assert ValidProp(OBJECT_SLOT, p);
    var keys, objs := p.keys + [key], p.objs + [nested];
    assert keys[..|p.objs|] == p.keys && objs[..|p.objs|] == p.objs;
    PropsGain(o.props, OBJECT_SLOT, Nested(keys, objs), multiset{ObjectOf(key, Said(ObjFacts(nested)))}, |o.props|);
  }

  lemma ArrayGain(o: Obj, slot: nat, key: nat, vals: seq<nat>)
    requires ValidObj(o) && IsArraySlot(slot)
    ensures ObjFacts(PutArray(o, slot, key, vals)) == ObjFacts(o) + multiset{ArrayOf(key, SlotType(slot), vals)}
  {
    hide PropsFacts;
    var p := o.props[slot];
    assert ValidProp(slot, p);
    var keys, arrs := p.keys + [key], p.arrs + [vals];
    assert keys[..|p.keys|] == p.keys && arrs[..|p.keys|] == p.arrs;
    PropsGain(o.props, slot, Arrays(keys, arrs), multiset{ArrayOf(key, SlotType(slot), vals)}, |o.props|);
  }

  lemma TableGain(o: Obj, groups: seq<Group>, gain: multiset<Fact>)
    requires ValidObj(o) && ValidGroups(groups) && o.props[TABLE_SLOT].Table?
    requires var before := o.props[TABLE_SLOT].groups;
      TableFacts(groups) == TableFacts(before) + gain
    ensures ObjFacts(PutGroups(o, groups)) == ObjFacts(o) + gain
  {
    hide PropsFacts, GroupsCells, GroupRows;
    PropsGain(o.props, TABLE_SLOT, Table(groups), gain, |o.props|);
  }

  // ----- one more cell in a group

  lemma PushGain(key: nat, c: Column, row: nat, e: Entry)
    requires ValidColumn(c) && ValidEntry(c.ty, e)
    ensures var r := Push(c, row, e);
      CellsFacts(key, r.name, r.ty, r.positions, r.entries)
      == CellsFacts(key, c.name, c.ty, c.positions, c.entries) +
         multiset{CellOf(key, row, c.name, c.ty, EntryCell(c.ty, e))}
  {
    hide EntryCell;
    var n, positions, entries := |c.entries|, c.positions + [row], c.entries + [e];
    assert positions[..n] == c.positions && entries[..n] == c.entries;
  }

  lemma {:induction false} ValueGain(key: nat, cols: seq<Column>, name: nat, ty: FieldType, row: nat, e: Entry)
    requires ValidEntry(ty, e) && forall i :: 0 <= i < |cols| ==> ValidColumn(cols[i])
    ensures ColumnsFacts(key, AddValue(cols, name, ty, row, e))
            == ColumnsFacts(key, cols) + multiset{CellOf(key, row, name, ty, EntryCell(ty, e))}
    decreases cols
  {
    hide EntryCell, CellsFacts, Push, ValidEntry, ValidColumn, ColumnsFacts;
    NoColumns(key);
    FirstColumn(key, cols);
    FirstColumn(key, AddValue(cols, name, ty, row, e));
    if cols == [] {
      OneCell(key, name, ty, row, e);
      assert AddValue(cols, name, ty, row, e)[1..] == [];
    } else if cols[0].name == name && cols[0].ty == ty {
      PushGain(key, cols[0], row, e);
      PushSame(cols[0], row, e);
      assert ([Push(cols[0], row, e)] + cols[1..])[1..] == cols[1..];
    } else {
      ValueGain(key, cols[1..], name, ty, row, e);
      var rest := AddValue(cols[1..], name, ty, row, e);
      assert ([cols[0]] + rest)[1..] == rest;
    }
  }

  lemma FirstColumn(key: nat, cols: seq<Column>)
    ensures cols != [] ==>
      ColumnsFacts(key, cols)
      == CellsFacts(key, cols[0].name, cols[0].ty, cols[0].positions, cols[0].entries) + ColumnsFacts(key, cols[1..])
  {
    hide CellsFacts;
  }

  lemma PushSame(c: Column, row: nat, e: Entry)
    requires ValidColumn(c) && ValidEntry(c.ty, e)
    ensures Push(c, row, e).name == c.name && Push(c, row, e).ty == c.ty
  {
  }

  lemma OneCell(key: nat, name: nat, ty: FieldType, row: nat, e: Entry)
    ensures CellsFacts(key, name, ty, [row], [e]) == multiset{CellOf(key, row, name, ty, EntryCell(ty, e))}
  {
    hide EntryCell;
    assert [row][..0] == [] && [e][..0] == [];
  }

  lemma {:induction false} CellGain(groups: seq<Group>, key: nat, name: nat, ty: FieldType, row: nat, e: Entry)
    requires ValidGroups(groups) && ValidEntry(ty, e)
    ensures GroupsCells(AddCell(groups, key, name, ty, row, e))
            == GroupsCells(groups) + multiset{CellOf(key, row, name, ty, EntryCell(ty, e))}
    decreases groups
  {
    hide EntryCell, ColumnsFacts, AddValue, ValidEntry, ValidColumn;
    if groups == [] {
      ValueGain(key, [], name, ty, row, e);
      NoColumns(key);
      assert AddCell(groups, key, name, ty, row, e)[1..] == [];
    } else if groups[0].key == key {
      assert ValidGroup(groups[0]);
      ValueGain(key, groups[0].cols, name, ty, row, e);
      assert AddCell(groups, key, name, ty, row, e)[1..] == groups[1..];
    } else {
      CellGain(groups[1..], key, name, ty, row, e);
      var rest := AddCell(groups[1..], key, name, ty, row, e);
      assert ([groups[0]] + rest)[1..] == rest;
    }
  }

  lemma NoColumns(key: nat)
    ensures ColumnsFacts(key, []) == multiset{}
  {
  }

  // ----- documents

  /** Import keeps every fact of a tidy document whose numbers of nulls fit. */
  lemma {:induction false} ImportKeeps(d: Doc)
    requires TypedDoc(d) && Tidy(d) && NullsBelow(d, NULL_RANGE)
    ensures ObjFacts(ImportDoc(d)) == DocFacts(d)
    decreases d, 0
  {
    hide ObjFacts, ImportEntries, EntriesFacts, EntryWithout, RowsKept;
    EntriesKeep(d.entries, |d.entries|);
  }

  lemma {:induction false} EntriesKeep(entries: seq<DocEntry>, n: nat)
    requires n <= |entries| && RowsKept(entries)
    requires forall i :: 0 <= i < |entries| ==>
      Typed(entries[i]) && EntryWithout(entries[i], Gap) && EntryWithout(entries[i], NullCount(NULL_RANGE))
    ensures ObjFacts(ImportEntries(entries, n)) == EntriesFacts(entries, n)
    decreases entries, n
  {
    hide ObjFacts, Put, EntryFacts, EntryWithout, Typed, NoGroup, Sound, LastFilled, ValidObj;
    if n == 0 {
      NothingSaid();
    } else {
      EntriesKeep(entries, n - 1);
      EntriesSound(entries, n - 1);
      TableThere(ImportEntries(entries, n - 1));
      PutKeeps(ImportEntries(entries, n - 1), entries[n - 1]);
    }
  }

  lemma NothingSaid()
    ensures ObjFacts(EmptyObj()) == multiset{}
  {
    NoProps(SLOTS);
  }

  lemma {:induction false} NoProps(n: nat)
    requires n <= SLOTS
    ensures PropsFacts(EmptyObj().props, n) == multiset{}
    decreases n
  {
    if n > 0 {
      NoProps(n - 1);
      assert EmptyObj().props[n - 1] == EmptyProp(n - 1);
    }
  }

  lemma SlotTypes(ty: FieldType)
    ensures SlotType(TypeIndex(ty)) == ty && SlotType(NULL_ARRAY_SLOT + TypeIndex(ty)) == ty
  {
  }

  lemma {:induction false} PutKeeps(o: Obj, e: DocEntry)
    requires ValidObj(o) && Typed(e) && EntryWithout(e, Gap) && EntryWithout(e, NullCount(NULL_RANGE))
    requires o.props[TABLE_SLOT].Table?
    requires IsRows(e) ==> NoGroup(o.props[TABLE_SLOT].groups, e.key) && LastFilled(e.values.docs)
    ensures ObjFacts(Put(o, e)) == ObjFacts(o) + EntryFacts(e)
    decreases e, 1
  {
    hide ObjFacts, PutFixed, PutNested, PutArray, PutGroups, ImportDoc, ImportRows, DocFacts, RowsFacts, SlotType,
        ValidObj, NoGroup, GroupsCells, GroupRows;
    hide TypedDoc, TypedRow, Without, RowWithout, LastFilled;
    SlotTypes(e.ty);
    match e.values
    case Nulls(n) =>
      FixedGain(o, if n < 2 then 0 else NULL_ARRAY_SLOT, e.key, if n < 2 then 0 else n);
    case Plain(vals) =>
      if |vals| == 0 {
        FixedGain(o, 0, e.key, 0);
      } else if |vals| == 1 {
        FixedGain(o, TypeIndex(e.ty), e.key, vals[0]);
      } else {
        ArrayGain(o, NULL_ARRAY_SLOT + TypeIndex(e.ty), e.key, vals);
      }
    case Docs(docs) =>
      if |docs| == 1 {
        ImportKeeps(docs[0]);
        NestedGain(o, e.key, ImportDoc(docs[0]));
      } else if |docs| > 1 {
        TableThere(o);
        var groups := o.props[TABLE_SLOT].groups;
        RowsKeep(groups, e.key, docs, |docs|);
        LengthKept(groups, e.key, docs);
        TableGain(o, ImportRows(groups, e.key, docs, |docs|), EntryFacts(e));
      } else {
        FixedGain(o, 0, e.key, 0);
      }
  }

  /** A valid object has its groups in the last slot. */
  lemma TableThere(o: Obj)
    requires ValidObj(o)
    ensures |o.props| == SLOTS && o.props[TABLE_SLOT].Table? && ValidGroups(o.props[TABLE_SLOT].groups)
  {
    assert ValidProp(TABLE_SLOT, o.props[TABLE_SLOT]);
  }

  lemma {:induction false} RowsKeep(groups: seq<Group>, key: nat, docs: seq<Doc>, n: nat)
    requires ValidGroups(groups) && n <= |docs|
    requires forall i :: 0 <= i < |docs| ==>
      TypedRow(docs[i]) && RowWithout(docs[i], Gap) && RowWithout(docs[i], NullCount(NULL_RANGE))
    ensures GroupsCells(ImportRows(groups, key, docs, n)) == GroupsCells(groups) + RowsFacts(key, docs, n)
    decreases docs, n
  {
    hide GroupsCells, ImportRow, RowFacts, TypedRow, RowWithout, ValidGroup, ImportRows, RowsFacts;
    if n == 0 {
      NoRowsYet(groups, key, docs);
    } else {
      RowsKeep(groups, key, docs, n - 1);
      NextRow(groups, key, docs, n);
      WholeRowKeeps(ImportRows(groups, key, docs, n - 1), key, n - 1, docs[n - 1]);
    }
  }

  lemma NoRowsYet(groups: seq<Group>, key: nat, docs: seq<Doc>)
    requires ValidGroups(groups) && forall i :: 0 <= i < |docs| ==> TypedRow(docs[i])
    ensures ImportRows(groups, key, docs, 0) == groups && RowsFacts(key, docs, 0) == multiset{}
  {
  }

  lemma NextRow(groups: seq<Group>, key: nat, docs: seq<Doc>, n: nat)
    requires ValidGroups(groups) && 0 < n <= |docs| && forall i :: 0 <= i < |docs| ==> TypedRow(docs[i])
    ensures var pairs := docs[n - 1].entries;
      && (forall i :: 0 <= i < |pairs| ==> TypedPair(pairs[i]))
      && ImportRows(groups, key, docs, n)
         == ImportRow(ImportRows(groups, key, docs, n - 1), key, n - 1, pairs, |pairs|)
      && RowsFacts(key, docs, n) == RowsFacts(key, docs, n - 1) + RowFacts(key, n - 1, pairs, |pairs|)
  {
    hide ImportRow, RowFacts, TypedPair;
  }

  lemma {:induction false} WholeRowKeeps(groups: seq<Group>, key: nat, row: nat, d: Doc)
    requires ValidGroups(groups) && TypedRow(d) && RowWithout(d, Gap) && RowWithout(d, NullCount(NULL_RANGE))
    ensures forall i :: 0 <= i < |d.entries| ==> TypedPair(d.entries[i])
    ensures GroupsCells(ImportRow(groups, key, row, d.entries, |d.entries|))
            == GroupsCells(groups) + RowFacts(key, row, d.entries, |d.entries|)
    decreases d, 0
  {
    hide GroupsCells, ImportRow, RowFacts, TypedPair, PairWithout, ValidGroup;
    RowKeeps(groups, key, row, d.entries, |d.entries|);
  }

  lemma {:induction false} RowKeeps(groups: seq<Group>, key: nat, row: nat, pairs: seq<DocEntry>, n: nat)
    requires ValidGroups(groups) && n <= |pairs|
    requires forall i :: 0 <= i < |pairs| ==>
      TypedPair(pairs[i]) && PairWithout(pairs[i], Gap) && PairWithout(pairs[i], NullCount(NULL_RANGE))
    ensures GroupsCells(ImportRow(groups, key, row, pairs, n)) == GroupsCells(groups) + RowFacts(key, row, pairs, n)
    decreases pairs, n
  {
    hide GroupsCells, AddCell, StoredEntry, PairCell, EntryCell, TypedPair, PairWithout;
    if n > 0 {
      RowKeeps(groups, key, row, pairs, n - 1);
      var pair := pairs[n - 1];
      PairKeeps(pair);
      CellGain(ImportRow(groups, key, row, pairs, n - 1), key, pair.key, pair.ty, row, StoredEntry(pair));
    }
  }

  /** A pair with values is stored as it is. */
  lemma {:induction false} PairKeeps(pair: DocEntry)
    requires TypedPair(pair) && PairWithout(pair, Gap) && PairWithout(pair, NullCount(NULL_RANGE))
    ensures EntryCell(pair.ty, StoredEntry(pair)) == PairCell(pair)
    decreases pair, 1
  {
    hide ImportAll, AllObjFacts, AllDocFacts;
    if pair.values.Docs? {
      var docs := pair.values.docs;
      AllKeep(docs, |docs|, ImportAll(docs, |docs|));
    }
  }

  lemma {:induction false} AllKeep(docs: seq<Doc>, n: nat, objs: seq<Obj>)
    requires n <= |docs| && forall i :: 0 <= i < |docs| ==>
      TypedDoc(docs[i]) && Tidy(docs[i]) && NullsBelow(docs[i], NULL_RANGE)
    requires n <= |objs| && ImportAll(docs, n) == objs[..n]
    ensures AllObjFacts(objs, n) == AllDocFacts(docs, n)
    decreases docs, n
  {
    hide ObjFacts, DocFacts, ImportDoc;
    if n > 0 {
      var init := ImportAll(docs, n - 1);
      assert objs[..n] == init + [ImportDoc(docs[n - 1])];
      assert objs[..n - 1] == objs[..n][..n - 1] == init;
      assert objs[n - 1] == objs[..n][n - 1];
      AllKeep(docs, n - 1, objs);
      ImportKeeps(docs[n - 1]);
    }
  }

  // ----- the other half: the columnar form never says anything faulty

  /** The columnar form has no row without cells, no empty cell and no key with two object arrays,
      and every number of nulls in it has 16 bits. */
  lemma {:induction false} ImportFaultless(d: Doc, k: Fault)
    requires TypedDoc(d) && (k == NullCount(NULL_RANGE) || (k.Gap? && NullsBelow(d, NULL_RANGE)))
    ensures !SaysFault(Said(ObjFacts(ImportDoc(d))), k)
    decreases d, 0
  {
    hide ObjFacts, ImportEntries, IsFault, Ragged, EntryWithout, Typed, Sound, NoGroup;
    EntriesFaultless(d.entries, |d.entries|, k);
    EntriesSound(d.entries, |d.entries|);
    SoundNotRagged(ImportDoc(d));
  }

  lemma {:induction false} EntriesFaultless(entries: seq<DocEntry>, n: nat, k: Fault)
    requires n <= |entries| && (k.Gap? || k == NullCount(NULL_RANGE)) && forall i :: 0 <= i < |entries| ==>
      Typed(entries[i]) && (k.Gap? ==> EntryWithout(entries[i], NullCount(NULL_RANGE)))
    ensures !HasFault(ObjFacts(ImportEntries(entries, n)), k)
    decreases entries, n
  {
    hide HasFault, ObjFacts, Put, EntryWithout, Typed;
    if n == 0 {
      NothingSaid();
      FaultNone(k);
    } else {
      EntriesFaultless(entries, n - 1, k);
      PutFaultless(ImportEntries(entries, n - 1), entries[n - 1], k);
    }
  }

  lemma OneMore(said: multiset<Fact>, f: Fact, k: Fault)
    requires !HasFault(said, k) && !IsFault(f, k)
    ensures !HasFault(said + multiset{f}, k)
  {
    FaultOne(f, k);
    FaultSum(said, multiset{f}, k);
  }

  lemma {:induction false} PutFaultless(o: Obj, e: DocEntry, k: Fault)
    requires ValidObj(o) && Typed(e) && !HasFault(ObjFacts(o), k) && (k.Gap? || k == NullCount(NULL_RANGE))
    requires k.Gap? ==> EntryWithout(e, NullCount(NULL_RANGE))
    ensures !HasFault(ObjFacts(Put(o, e)), k)
    decreases e, 1
  {
    hide HasFault, ObjFacts, PutFixed, PutNested, PutArray, PutGroups, ImportDoc, ImportRows, SlotType, ValidObj,
        TypedDoc, TypedRow, Without, RowWithout, SaysFault;
    var said := ObjFacts(o);
    if Count(e.values) == 0 {
      FixedGain(o, 0, e.key, 0);
      OneMore(said, NullOf(e.key), k);
    } else {
      match e.values
      case Nulls(n) =>
        var slot, val := if n < 2 then 0 else NULL_ARRAY_SLOT, if n < 2 then 0 else n % NULL_RANGE;
        FixedGain(o, slot, e.key, val);
        OneMore(said, if slot == 0 then NullOf(e.key) else NullsOf(e.key, val), k);
      case Plain(vals) =>
        var slot := (if |vals| == 1 then 0 else NULL_ARRAY_SLOT) + TypeIndex(e.ty);
        if |vals| == 1 {
          FixedGain(o, slot, e.key, vals[0]);
          OneMore(said, ScalarOf(e.key, SlotType(slot), vals[0]), k);
        } else {
          ArrayGain(o, slot, e.key, vals);
          OneMore(said, ArrayOf(e.key, SlotType(slot), vals), k);
        }
      case Docs(docs) =>
        if |docs| == 1 {
          ImportFaultless(docs[0], k);
          NestedGain(o, e.key, ImportDoc(docs[0]));
          OneMore(said, ObjectOf(e.key, Said(ObjFacts(ImportDoc(docs[0])))), k);
        } else {
          TableThere(o);
          RowsFaultless(o.props[TABLE_SLOT].groups, e.key, docs, |docs|, k);
          TableFaultless(o, ImportRows(o.props[TABLE_SLOT].groups, e.key, docs, |docs|), k);
        }
    }
  }

  lemma {:induction false} PropsReplaced(props: seq<Prop>, slot: nat, p: Prop, n: nat)
    requires slot < |props| && n <= |props|
    ensures PropsFacts(props[slot := p], n)
            <= PropsFacts(props, n) + if slot < n then PropFacts(slot, p) else multiset{}
    decreases n
  {
    hide PropFacts;
    if n > 0 {
      PropsReplaced(props, slot, p, n - 1);
    }
  }

  lemma TableFaultless(o: Obj, groups: seq<Group>, k: Fault)
    requires ValidObj(o) && ValidGroups(groups) && !HasFault(ObjFacts(o), k)
    requires o.props[TABLE_SLOT].Table?
    requires HasFault(GroupsCells(groups), k) ==> HasFault(GroupsCells(o.props[TABLE_SLOT].groups), k)
    ensures !HasFault(ObjFacts(PutGroups(o, groups)), k)
  {
    hide PropsFacts, GroupsCells, IsFault;
    TableThere(o);
    var before := o.props[TABLE_SLOT].groups;
    PropsHave(o.props, TABLE_SLOT, |o.props|);
    PropsReplaced(o.props, TABLE_SLOT, Table(groups), |o.props|);
    assert !HasFault(GroupsCells(before), k);
    RowsNoFault(groups, k);
    FaultSum(GroupsCells(groups), GroupRows(groups), k);
    FaultSum(ObjFacts(o), PropFacts(TABLE_SLOT, Table(groups)), k);
  }

  lemma {:induction false} RowsNoFault(groups: seq<Group>, k: Fault)
    ensures !HasFault(GroupRows(groups), k)
    decreases groups
  {
    hide NumObjects;
    if groups == [] {
      FaultNone(k);
    } else {
      RowsNoFault(groups[1..], k);
      OneMore(GroupRows(groups[1..]), RowsOf(groups[0].key, NumObjects(groups[0])), k);
    }
  }

  lemma {:induction false} RowsFaultless(groups: seq<Group>, key: nat, docs: seq<Doc>, n: nat, k: Fault)
    requires ValidGroups(groups) && n <= |docs| && (k.Gap? || k == NullCount(NULL_RANGE))
    requires forall i :: 0 <= i < |docs| ==>
      TypedRow(docs[i]) && (k.Gap? ==> RowWithout(docs[i], NullCount(NULL_RANGE)))
    ensures HasFault(GroupsCells(ImportRows(groups, key, docs, n)), k) ==> HasFault(GroupsCells(groups), k)
    decreases docs, n
  {
    hide HasFault, GroupsCells, ImportRow;
    if n > 0 {
      RowsFaultless(groups, key, docs, n - 1, k);
      var pairs := docs[n - 1].entries;
      RowFaultless(ImportRows(groups, key, docs, n - 1), key, n - 1, pairs, |pairs|, k);
    }
  }

  lemma {:induction false} RowFaultless(groups: seq<Group>, key: nat, row: nat, pairs: seq<DocEntry>, n: nat, k: Fault)
    requires ValidGroups(groups) && n <= |pairs| && (k.Gap? || k == NullCount(NULL_RANGE))
    requires forall i :: 0 <= i < |pairs| ==>
      TypedPair(pairs[i]) && (k.Gap? ==> PairWithout(pairs[i], NullCount(NULL_RANGE)))
    ensures HasFault(GroupsCells(ImportRow(groups, key, row, pairs, n)), k) ==> HasFault(GroupsCells(groups), k)
    decreases pairs, n
  {
    hide HasFault, GroupsCells, AddCell, StoredEntry, EntryCell, TypedPair, PairWithout, IsFault;
    if n > 0 {
      RowFaultless(groups, key, row, pairs, n - 1, k);
      var before, pair := ImportRow(groups, key, row, pairs, n - 1), pairs[n - 1];
      CellGain(before, key, pair.key, pair.ty, row, StoredEntry(pair));
      var f := CellOf(key, row, pair.key, pair.ty, EntryCell(pair.ty, StoredEntry(pair)));
      PairFaultless(pair, f, k);
      FaultOne(f, k);
      FaultSum(GroupsCells(before), multiset{f}, k);
    }
  }

  lemma {:induction false} PairFaultless(pair: DocEntry, f: Fact, k: Fault)
    requires TypedPair(pair) && (k.Gap? || k == NullCount(NULL_RANGE))
    requires k.Gap? ==> PairWithout(pair, NullCount(NULL_RANGE))
    requires f.CellOf? && f.ty == pair.ty && f.cell == EntryCell(pair.ty, StoredEntry(pair))
    ensures !IsFault(f, k)
    decreases pair, 1
  {
    hide SaysFault, ObjFacts, AllObjFacts, ImportAll, ImportDoc, Without;
    if pair.values.Docs? {
      var docs := pair.values.docs;
      var objs := ImportAll(docs, |docs|);
      forall i | 0 <= i < |docs|
        ensures !SaysFault(AllObjFacts(objs, |objs|)[i], k)
      {
        AllObjFactsAt(objs, |objs|, i);
        ImportAllAt(docs, |docs|, i);
        ImportFaultless(docs[i], k);
      }
    }
  }

  lemma {:induction false} AllObjFactsAt(objs: seq<Obj>, n: nat, i: nat)
    requires i < n <= |objs|
    ensures AllObjFacts(objs, n)[i] == Said(ObjFacts(objs[i]))
    decreases n
  {
    hide ObjFacts;
    if i < n - 1 {
      AllObjFactsAt(objs, n - 1, i);
    }
  }

  lemma {:induction false} ImportAllAt(docs: seq<Doc>, n: nat, i: nat)
    requires i < n <= |docs| && forall k :: 0 <= k < |docs| ==> TypedDoc(docs[k])
    ensures ImportAll(docs, n)[i] == ImportDoc(docs[i])
    decreases n
  {
    hide ImportDoc;
    if i < n - 1 {
      ImportAllAt(docs, n - 1, i);
    }
  }

  // ----- rows of the columnar form

  lemma {:induction false} NoTableRows(props: seq<Prop>, n: nat, f: Fact)
    requires n <= |props| && f.RowsOf? && forall i :: 0 <= i < n ==> !props[i].Table?
    ensures f !in PropsFacts(props, n)
    decreases n
  {
    if n > 0 {
      NoTableRows(props, n - 1, f);
    }
  }

  /** Numbers of rows are said of the groups only. */
  lemma RowsOfGroups(o: Obj, f: Fact)
    requires ValidObj(o) && f.RowsOf?
    ensures o.props[TABLE_SLOT].Table? && ObjFacts(o)[f] == GroupRows(o.props[TABLE_SLOT].groups)[f]
  {
    hide GroupsCells, GroupRows;
    TableThere(o);
    forall i | 0 <= i < TABLE_SLOT
      ensures !o.props[i].Table?
    {
      assert ValidProp(i, o.props[i]);
    }
    NoTableRows(o.props, TABLE_SLOT, f);
    assert PropsFacts(o.props, SLOTS) == PropsFacts(o.props, TABLE_SLOT) + PropFacts(TABLE_SLOT, o.props[TABLE_SLOT]);
  }

  lemma TableSaid(o: Obj)
    requires ValidObj(o) && o.props[TABLE_SLOT].Table?
    ensures TableFacts(o.props[TABLE_SLOT].groups) <= ObjFacts(o)
  {
    hide PropsFacts, TableFacts;
    PropsHave(o.props, TABLE_SLOT, |o.props|);
  }

  /** A cell of a group is said of the object. */
  lemma CellSaid(o: Obj, g: nat, c: nat, i: nat)
    requires ValidObj(o) && o.props[TABLE_SLOT].Table? && g < |o.props[TABLE_SLOT].groups|
    requires var group := o.props[TABLE_SLOT].groups[g];
      c < |group.cols| && |group.cols[c].positions| == |group.cols[c].entries| && i < |group.cols[c].positions|
    ensures var group := o.props[TABLE_SLOT].groups[g];
      exists f :: f in ObjFacts(o) && f.CellOf? && f.key == group.key && f.row == group.cols[c].positions[i]
  {
    hide ObjFacts, TableFacts, ColumnsFacts, CellsFacts, EntryCell, ValidObj, Sum;
    TableThere(o);
    var groups := o.props[TABLE_SLOT].groups;
    var group := groups[g];
    var col := group.cols[c];
    TableSaid(o);
    GroupsSum(groups);
    SumHas(GroupsTerms(groups), g);
    ColumnsSum(group.key, group.cols);
    SumHas(ColumnsTerms(group.key, group.cols), c);
    CellsSum(group.key, col.name, col.ty, col.positions, col.entries);
    SumHas(CellsTerms(group.key, col.name, col.ty, col.positions, col.entries), i);
    var f := CellOf(group.key, col.positions[i], col.name, col.ty, EntryCell(col.ty, col.entries[i]));
    assert f in CellsTerms(group.key, col.name, col.ty, col.positions, col.entries)[i];
  }

  lemma SoundNotRagged(o: Obj)
    requires ValidObj(o) && o.props[TABLE_SLOT].Table? && Sound(o.props[TABLE_SLOT].groups)
    ensures !Ragged(ObjFacts(o))
  {
    hide ObjFacts, GroupRows, Sound, ValidObj;
    TableThere(o);
    var groups := o.props[TABLE_SLOT].groups;
    var facts := ObjFacts(o);
    GroupRowsOnce(groups);
    forall f | f in facts && f.RowsOf?
      ensures !RaggedRows(facts, f)
    {
      RowsOfGroups(o, f);
      forall g | g in facts && g.RowsOf? && g.key == f.key
        ensures g == f
      {
        RowsOfGroups(o, g);
      }
      LastCellSaid(o, f);
    }
  }

  lemma LastCellSaid(o: Obj, f: Fact)
    requires ValidObj(o) && o.props[TABLE_SLOT].Table? && Sound(o.props[TABLE_SLOT].groups)
    requires f in GroupRows(o.props[TABLE_SLOT].groups)
    ensures f.RowsOf? && exists g :: g in ObjFacts(o) && g.CellOf? && g.key == f.key && g.row + 1 == f.n
  {
    hide ObjFacts, ValidObj, MaxPosition, SoundColumn, GroupRows, Sound, ValidGroup;
    TableThere(o);
    var groups := o.props[TABLE_SLOT].groups;
    var g := GroupOfRows(groups, f);
    LargestHeld(groups[g].cols, 0);
    var c, i :| 0 <= c < |groups[g].cols| && 0 <= i < |groups[g].cols[c].positions|
                && groups[g].cols[c].positions[i] == MaxPosition(groups[g].cols, 0);
    SoundAt(groups[g].cols[c], i);
    CellSaid(o, g, c, i);
  }

  lemma SoundAt(c: Column, i: nat)
    requires SoundColumn(c) && i < |c.positions|
    ensures c.positions[i] + 1 < 0x1_0000_0000 && |c.positions| == |c.entries|
  {
  }

  lemma {:induction false} GroupOfRows(groups: seq<Group>, f: Fact) returns (g: nat)
    requires f in GroupRows(groups) && Sound(groups)
    ensures g < |groups| && f == RowsOf(groups[g].key, NumObjects(groups[g])) && SoundGroup(groups[g])
    decreases groups
  {
    hide NumObjects, SoundGroup;
    if f == RowsOf(groups[0].key, NumObjects(groups[0])) {
      g := 0;
    } else {
      var rest := GroupOfRows(groups[1..], f);
      g := rest + 1;
    }
  }

  /** Import is lossless, exactly: the columnar form says what the document says if and only if
      the document is tidy and each of its numbers of nulls has 16 bits. */
  lemma ImportLossless(d: Doc)
    requires TypedDoc(d)
    ensures ObjFacts(ImportDoc(d)) == DocFacts(d) <==> Tidy(d) && NullsBelow(d, NULL_RANGE)
  {
    hide ObjFacts, DocFacts, ImportDoc, TypedDoc, Without, SaysFault;
    DocFaults(d, NullCount(NULL_RANGE));
    ImportFaultless(d, NullCount(NULL_RANGE));
    if NullsBelow(d, NULL_RANGE) {
      DocFaults(d, Gap);
      ImportFaultless(d, Gap);
      if Tidy(d) {
        ImportKeeps(d);
      }
    }
  }

  // ----- pairs without values

  /** The document with the value 1, or with one null, in every pair of a row that has no values. */
  function Filled(d: Doc): (r: Doc)
    ensures |r.entries| == |d.entries|
    decreases d
  {
    Doc(seq(|d.entries|, (i: nat) requires i < |d.entries| => FilledEntry(d.entries[i])))
  }

  function FilledEntry(e: DocEntry): (r: DocEntry)
    ensures r.key == e.key && r.ty == e.ty && Count(r.values) == Count(e.values)
    decreases e
  {
    match e.values
    case Nulls(_) => e
    case Plain(_) => e
    case Docs(docs) =>
      DocEntry(e.key, e.ty, Docs(seq(|docs|, (i: nat) requires i < |docs| =>
        if |docs| == 1 then Filled(docs[i]) else FilledRow(docs[i]))))
  }

  function FilledRow(d: Doc): (r: Doc)
    ensures |r.entries| == |d.entries|
    decreases d
  {
    Doc(seq(|d.entries|, (i: nat) requires i < |d.entries| => FilledPair(d.entries[i])))
  }

  function FilledPair(pair: DocEntry): (r: DocEntry)
    decreases pair
  {
    match pair.values
    case Nulls(n) => DocEntry(pair.key, pair.ty, Nulls(if n == 0 then 1 else n))
    case Plain(vals) => DocEntry(pair.key, pair.ty, Plain(if vals == [] then [1] else vals))
    case Docs(docs) =>
      DocEntry(pair.key, pair.ty, Docs(seq(|docs|, (i: nat) requires i < |docs| => Filled(docs[i]))))
  }

  /** A pair without values is stored as one with the value 1: the columns of a document are those of
      the filled document. */
  lemma {:induction false} ImportFilled(d: Doc)
    requires TypedDoc(d)
    ensures TypedDoc(Filled(d)) && ImportDoc(Filled(d)) == ImportDoc(d)
    decreases d, 0
  {
    hide Typed, FilledEntry, ImportEntries;
    forall i | 0 <= i < |d.entries|
      ensures Typed(FilledEntry(d.entries[i]))
    {
      EntryFilled(d.entries[i]);
    }
    EntriesFilled(d.entries, Filled(d).entries, |d.entries|);
  }

  lemma {:induction false} EntriesFilled(entries: seq<DocEntry>, filled: seq<DocEntry>, n: nat)
    requires n <= |entries| == |filled| && forall i :: 0 <= i < |entries| ==> Typed(entries[i]) && Typed(filled[i])
    requires forall i :: 0 <= i < |entries| ==> filled[i] == FilledEntry(entries[i])
    ensures ImportEntries(filled, n) == ImportEntries(entries, n)
    decreases entries, n
  {
    hide Typed, FilledEntry, Put;
    if n > 0 {
      EntriesFilled(entries, filled, n - 1);
      PutFilled(ImportEntries(entries, n - 1), entries[n - 1]);
    }
  }

  lemma {:induction false} EntryFilled(e: DocEntry)
    requires Typed(e)
    ensures Typed(FilledEntry(e))
    decreases e
  {
    hide TypedDoc, TypedRow, Filled, FilledRow;
    if e.values.Docs? {
      var docs := e.values.docs;
      forall i | 0 <= i < |docs|
        ensures |docs| == 1 ==> TypedDoc(Filled(docs[i]))
        ensures |docs| != 1 ==> TypedRow(FilledRow(docs[i]))
      {
        if |docs| == 1 {
          ImportFilled(docs[i]);
        } else {
          RowFilled(docs[i]);
        }
      }
    }
  }

  lemma {:induction false} RowFilled(d: Doc)
    requires TypedRow(d)
    ensures TypedRow(FilledRow(d))
    decreases d
  {
    hide TypedPair, FilledPair;
    forall i | 0 <= i < |d.entries|
      ensures TypedPair(FilledPair(d.entries[i]))
    {
      PairFilled(d.entries[i]);
    }
  }

  /** A pair and the filled pair are stored alike. */
  lemma {:induction false} PairFilled(pair: DocEntry)
    requires TypedPair(pair)
    ensures TypedPair(FilledPair(pair)) && StoredEntry(FilledPair(pair)) == StoredEntry(pair)
    decreases pair
  {
    hide TypedDoc, Filled, ImportAll, ImportDoc;
    if pair.values.Docs? {
      var docs, filled := pair.values.docs, FilledPair(pair).values.docs;
      forall i | 0 <= i < |docs|
        ensures TypedDoc(Filled(docs[i])) && ImportDoc(Filled(docs[i])) == ImportDoc(docs[i])
      {
        ImportFilled(docs[i]);
      }
      assert forall i :: 0 <= i < |docs| ==> filled[i] == Filled(docs[i]);
      SameImports(docs, filled, |docs|);
    }
  }

  lemma {:induction false} SameImports(docs: seq<Doc>, filled: seq<Doc>, n: nat)
    requires n <= |docs| == |filled| && forall i :: 0 <= i < |docs| ==> TypedDoc(docs[i]) && TypedDoc(filled[i])
    requires forall i :: 0 <= i < |docs| ==> ImportDoc(filled[i]) == ImportDoc(docs[i])
    ensures ImportAll(filled, n) == ImportAll(docs, n)
    decreases n
  {
    hide TypedDoc, ImportDoc;
    if n > 0 {
      SameImports(docs, filled, n - 1);
    }
  }

  lemma {:induction false} PutFilled(o: Obj, e: DocEntry)
    requires ValidObj(o) && Typed(e) && Typed(FilledEntry(e))
    ensures Put(o, FilledEntry(e)) == Put(o, e)
    decreases e
  {
    hide TypedDoc, TypedRow, Filled, FilledRow, ImportDoc, ImportRows, ValidObj;
    if e.values.Docs? {
      var docs, filled := e.values.docs, FilledEntry(e).values.docs;
      if |docs| == 1 {
        ImportFilled(docs[0]);
      } else if |docs| > 1 {
        TableThere(o);
        RowsFilled(o.props[TABLE_SLOT].groups, e.key, docs, filled, |docs|);
      }
    }
  }

  lemma {:induction false} RowsFilled(groups: seq<Group>, key: nat, docs: seq<Doc>, filled: seq<Doc>, n: nat)
    requires ValidGroups(groups) && n <= |docs| == |filled|
    requires forall i :: 0 <= i < |docs| ==> TypedRow(docs[i]) && TypedRow(filled[i]) && filled[i] == FilledRow(docs[i])
    ensures ImportRows(groups, key, filled, n) == ImportRows(groups, key, docs, n)
    decreases docs, n
  {
    hide TypedRow, FilledRow, ImportRow, ValidGroups;
    if n > 0 {
      RowsFilled(groups, key, docs, filled, n - 1);
      WholeRowFilled(ImportRows(groups, key, docs, n - 1), key, n - 1, docs[n - 1]);
    }
  }

  lemma {:induction false} WholeRowFilled(groups: seq<Group>, key: nat, row: nat, d: Doc)
    requires ValidGroups(groups) && TypedRow(d) && TypedRow(FilledRow(d))
    ensures ImportRow(groups, key, row, FilledRow(d).entries, |d.entries|)
            == ImportRow(groups, key, row, d.entries, |d.entries|)
    decreases d, 0
  {
    hide TypedPair, FilledPair, ImportRow, ValidGroups;
    PairsFilled(groups, key, row, d.entries, FilledRow(d).entries, |d.entries|);
  }

  lemma {:induction false} PairsFilled(groups: seq<Group>, key: nat, row: nat, pairs: seq<DocEntry>,
                                       filled: seq<DocEntry>, n: nat)
    requires ValidGroups(groups) && n <= |pairs| == |filled|
    requires forall i :: 0 <= i < |pairs| ==>
      TypedPair(pairs[i]) && TypedPair(filled[i]) && filled[i] == FilledPair(pairs[i])
    ensures ImportRow(groups, key, row, filled, n) == ImportRow(groups, key, row, pairs, n)
    decreases pairs, n
  {
    hide TypedPair, StoredEntry, AddCell, ValidGroups;
    if n > 0 {
      PairsFilled(groups, key, row, pairs, filled, n - 1);
      PairFilled(pairs[n - 1]);
    }
  }
}
