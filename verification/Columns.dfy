/** The columnar form of a document: how it is built up, entry by entry, and what it says. */
module Columns {
  import opened ColumnDoc
  import opened Document

  // ----- building

  function EmptyObj(): (o: Obj)
    ensures ValidObj(o)
  {
    Obj(seq(SLOTS, (i: nat) requires i < SLOTS => EmptyProp(i)))
  }

  function PutFixed(o: Obj, slot: nat, key: nat, val: nat): (r: Obj)
    requires ValidObj(o) && IsFixedSlot(slot)
    ensures ValidObj(r)
  {
    assert ValidProp(slot, o.props[slot]);
    Obj(o.props[slot := Fixed(o.props[slot].keys + [key], o.props[slot].vals + [val])])
  }

  lemma MoreObjs(objs: seq<Obj>, o: Obj)
    requires ValidObjs(objs) && ValidObj(o)
    ensures ValidObjs(objs + [o])
  {
  }

  function PutNested(o: Obj, key: nat, nested: Obj): (r: Obj)
    requires ValidObj(o) && ValidObj(nested)
    ensures ValidObj(r)
  {
    var p := o.props[OBJECT_SLOT];
    assert ValidProp(OBJECT_SLOT, p);
    MoreObjs(p.objs, nested);
    Obj(o.props[OBJECT_SLOT := Nested(p.keys + [key], p.objs + [nested])])
  }

  function PutArray(o: Obj, slot: nat, key: nat, vals: seq<nat>): (r: Obj)
    requires ValidObj(o) && IsArraySlot(slot)
    ensures ValidObj(r)
  {
    assert ValidProp(slot, o.props[slot]);
    Obj(o.props[slot := Arrays(o.props[slot].keys + [key], o.props[slot].arrs + [vals])])
  }

  function PutGroups(o: Obj, groups: seq<Group>): (r: Obj)
    requires ValidObj(o) && ValidGroups(groups)
    ensures ValidObj(r)
  {
    Obj(o.props[TABLE_SLOT := Table(groups)])
  }

  ghost predicate ValidGroups(groups: seq<Group>) {
    forall i :: 0 <= i < |groups| ==> ValidGroup(groups[i])
  }

  /** Adds a value to the column of its name and type in the first group of the key; the column
      and the group are made when they are missing. */
  function AddCell(groups: seq<Group>, key: nat, name: nat, ty: FieldType, row: nat, e: Entry): (gs: seq<Group>)
    requires ValidGroups(groups) && ValidEntry(ty, e)
    ensures ValidGroups(gs)
  {
    if groups == [] then [Group(key, AddValue([], name, ty, row, e))]
    else if groups[0].key == key then [Group(key, AddValue(groups[0].cols, name, ty, row, e))] + groups[1..]
    else [groups[0]] + AddCell(groups[1..], key, name, ty, row, e)
  }

  function AddValue(cols: seq<Column>, name: nat, ty: FieldType, row: nat, e: Entry): (cs: seq<Column>)
    requires ValidEntry(ty, e) && forall i :: 0 <= i < |cols| ==> ValidColumn(cols[i])
    ensures forall i :: 0 <= i < |cs| ==> ValidColumn(cs[i])
  {
    if cols == [] then [Column(name, ty, [row], [e])]
    else if cols[0].name == name && cols[0].ty == ty then [Push(cols[0], row, e)] + cols[1..]
    else [cols[0]] + AddValue(cols[1..], name, ty, row, e)
  }

  function Push(c: Column, row: nat, e: Entry): (r: Column)
    requires ValidColumn(c) && ValidEntry(c.ty, e)
    ensures ValidColumn(r)
  {
    Column(c.name, c.ty, c.positions + [row], c.entries + [e])
  }

  // ----- importing

  function ImportDoc(d: Doc): (o: Obj)
    requires TypedDoc(d)
    ensures ValidObj(o)
    decreases d, 0
  {
    ImportEntries(d.entries, |d.entries|)
  }

  /** The object after the first n entries. */
  function ImportEntries(entries: seq<DocEntry>, n: nat): (o: Obj)
    requires n <= |entries| && forall i :: 0 <= i < |entries| ==> Typed(entries[i])
    ensures ValidObj(o)
    decreases entries, n
  {
    if n == 0 then EmptyObj() else Put(ImportEntries(entries, n - 1), entries[n - 1])
  }

  /** An entry without values counts as null; one value is a property, more are an array. */
  function Put(o: Obj, e: DocEntry): (r: Obj)
    requires ValidObj(o) && Typed(e)
    ensures ValidObj(r)
    decreases e, 1
  {
    if Count(e.values) == 0 then PutFixed(o, 0, e.key, 0)
    else if Count(e.values) == 1 then PutPrimitive(o, e)
    else PutMany(o, e)
  }

  function PutPrimitive(o: Obj, e: DocEntry): (r: Obj)
    requires ValidObj(o) && Typed(e) && Count(e.values) == 1
    ensures ValidObj(r)
    decreases e, 0
  {
    match e.values
    case Nulls(_) => PutFixed(o, 0, e.key, 0)
    case Plain(vals) => PutFixed(o, TypeIndex(e.ty), e.key, vals[0])
    case Docs(docs) => PutNested(o, e.key, ImportDoc(docs[0]))
  }

  function PutMany(o: Obj, e: DocEntry): (r: Obj)
    requires ValidObj(o) && Typed(e) && Count(e.values) > 1
    ensures ValidObj(r)
    decreases e, 0
  {
    match e.values
    case Nulls(n) => PutFixed(o, NULL_ARRAY_SLOT, e.key, n % NULL_RANGE)
    case Plain(vals) => PutArray(o, NULL_ARRAY_SLOT + TypeIndex(e.ty), e.key, vals)
    case Docs(docs) =>
      assert ValidProp(TABLE_SLOT, o.props[TABLE_SLOT]);
      PutGroups(o, ImportRows(o.props[TABLE_SLOT].groups, e.key, docs, |docs|))
  }

  /** The groups after the first n rows of an object array. */
  function ImportRows(groups: seq<Group>, key: nat, docs: seq<Doc>, n: nat): (gs: seq<Group>)
    requires ValidGroups(groups) && n <= |docs| && forall i :: 0 <= i < |docs| ==> TypedRow(docs[i])
    ensures ValidGroups(gs)
    decreases docs, n
  {
    if n == 0 then groups
    else ImportRow(ImportRows(groups, key, docs, n - 1), key, n - 1, docs[n - 1].entries, |docs[n - 1].entries|)
  }

  function ImportRow(groups: seq<Group>, key: nat, row: nat, pairs: seq<DocEntry>, n: nat): (gs: seq<Group>)
    requires ValidGroups(groups) && n <= |pairs| && forall i :: 0 <= i < |pairs| ==> TypedPair(pairs[i])
    ensures ValidGroups(gs)
    decreases pairs, n
  {
    if n == 0 then groups
    else AddCell(ImportRow(groups, key, row, pairs, n - 1), key, pairs[n - 1].key, pairs[n - 1].ty, row,
                 StoredEntry(pairs[n - 1]))
  }

  /** What a column stores of a pair; of a pair without values it stores 1. */
  function StoredEntry(pair: DocEntry): (e: Entry)
    requires TypedPair(pair)
    ensures ValidEntry(pair.ty, e)
    decreases pair, 1
  {
    if Count(pair.values) == 0 then Vals([1])
    else match pair.values
    case Nulls(n) => Vals([n % NULL_RANGE])
    case Plain(vals) => Vals(vals)
    case Docs(docs) => Objs(ImportAll(docs, |docs|))
  }

  function ImportAll(docs: seq<Doc>, n: nat): (os: seq<Obj>)
    requires n <= |docs| && forall i :: 0 <= i < |docs| ==> TypedDoc(docs[i])
    ensures |os| == n && ValidObjs(os)
    decreases docs, n
  {
    if n == 0 then [] else ImportAll(docs, n - 1) + [ImportDoc(docs[n - 1])]
  }

  // ----- the facts of the columnar form

  function ObjFacts(o: Obj): multiset<Fact>
    decreases o, 0
  {
    PropsFacts(o.props, |o.props|)
  }

  function PropsFacts(props: seq<Prop>, n: nat): multiset<Fact>
    requires n <= |props|
    decreases props, n
  {
    if n == 0 then multiset{} else PropsFacts(props, n - 1) + PropFacts(n - 1, props[n - 1])
  }

  function PropFacts(slot: nat, p: Prop): multiset<Fact>
    decreases p, 0
  {
    match p
    case Fixed(keys, vals) => FixedFacts(slot, keys, vals)
    case Nested(keys, objs) => NestedFacts(keys, objs)
    case Arrays(keys, arrs) => ArraysFacts(slot, keys, arrs)
    case Table(groups) => TableFacts(groups)
  }

  function FixedFacts(slot: nat, keys: seq<nat>, vals: seq<nat>): (fs: multiset<Fact>)
    ensures forall f :: f in fs ==> f.NullOf? || f.ScalarOf? || (f.NullsOf? && slot == NULL_ARRAY_SLOT)
    decreases |keys|
  {
    if keys == [] || |vals| < |keys| then multiset{}
    else
      var n := |keys| - 1;
      FixedFacts(slot, keys[..n], vals[..n])
      + multiset{if slot == 0 then NullOf(keys[n]) else if slot == NULL_ARRAY_SLOT then NullsOf(keys[n], vals[n])
                 else ScalarOf(keys[n], SlotType(slot), vals[n])}
  }

  function NestedFacts(keys: seq<nat>, objs: seq<Obj>): (fs: multiset<Fact>)
    ensures forall f :: f in fs ==> f.ObjectOf?
    decreases objs, 1
  {
    if objs == [] || |keys| < |objs| then multiset{}
    else
      var n := |objs| - 1;
      NestedFacts(keys[..n], objs[..n]) + multiset{ObjectOf(keys[n], Said(ObjFacts(objs[n])))}
  }

  function ArraysFacts(slot: nat, keys: seq<nat>, arrs: seq<seq<nat>>): (fs: multiset<Fact>)
    ensures forall f :: f in fs ==> f.ArrayOf?
    decreases |keys|
  {
    if keys == [] || |arrs| < |keys| then multiset{}
    else
      var n := |keys| - 1;
      ArraysFacts(slot, keys[..n], arrs[..n]) + multiset{ArrayOf(keys[n], SlotType(slot), arrs[n])}
  }

  function TableFacts(groups: seq<Group>): multiset<Fact>
    decreases groups, 1
  {
    GroupsCells(groups) + GroupRows(groups)
  }

  /** The number of rows that the writer finds for each object array. */
  function GroupRows(groups: seq<Group>): (fs: multiset<Fact>)
    ensures forall f :: f in fs ==> f.RowsOf?
  {
    if groups == [] then multiset{}
    else multiset{RowsOf(groups[0].key, NumObjects(groups[0]))} + GroupRows(groups[1..])
  }

  /** The cells of object arrays. */
  function GroupsCells(groups: seq<Group>): (fs: multiset<Fact>)
    ensures forall f :: f in fs ==> f.CellOf?
    decreases groups, 0
  {
    if groups == [] then multiset{} else ColumnsFacts(groups[0].key, groups[0].cols) + GroupsCells(groups[1..])
  }

  function ColumnsFacts(key: nat, cols: seq<Column>): (fs: multiset<Fact>)
    ensures forall f :: f in fs ==> f.CellOf?
    decreases cols, 0
  {
    if cols == [] then multiset{}
    else CellsFacts(key, cols[0].name, cols[0].ty, cols[0].positions, cols[0].entries) + ColumnsFacts(key, cols[1..])
  }

  function CellsFacts(key: nat, name: nat, ty: FieldType, positions: seq<nat>, entries: seq<Entry>):
    (fs: multiset<Fact>)
    ensures forall f :: f in fs ==> f.CellOf?
    decreases entries, 1
  {
    if entries == [] || |positions| < |entries| then multiset{}
    else
      var n := |entries| - 1;
      CellsFacts(key, name, ty, positions[..n], entries[..n])
      + multiset{CellOf(key, positions[n], name, ty, EntryCell(ty, entries[n]))}
  }

  /** A cell of a null column is one number of nulls. */
  function EntryCell(ty: FieldType, e: Entry): Cell
    decreases e, 1
  {
    match e
    case Vals(vals) => if ty == Null && |vals| == 1 then NullCell(vals[0]) else PlainCell(vals)
    case Objs(objs) => ObjectCell(AllObjFacts(objs, |objs|))
  }

  function AllObjFacts(objs: seq<Obj>, n: nat): (fs: seq<Said>)
    requires n <= |objs|
    ensures |fs| == n
    decreases objs, n
  {
    if n == 0 then [] else AllObjFacts(objs, n - 1) + [Said(ObjFacts(objs[n - 1]))]
  }
}
