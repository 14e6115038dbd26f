/** The importer: it fills the property lists of a columnar object in place. */
module Importer {
  import opened ColumnDoc
  import opened Document
  import opened Columns
  import opened Rows

  // ----- where a column is found

  function FirstGroup(groups: seq<Group>, key: nat): (g: nat)
    ensures g <= |groups| && (g < |groups| ==> groups[g].key == key)
    ensures forall i :: 0 <= i < g ==> groups[i].key != key
  {
    if groups == [] || groups[0].key == key then 0 else 1 + FirstGroup(groups[1..], key)
  }

  function FirstColumn(cols: seq<Column>, name: nat, ty: FieldType): (c: nat)
    ensures c <= |cols| && (c < |cols| ==> cols[c].name == name && cols[c].ty == ty)
    ensures forall i :: 0 <= i < c ==> cols[i].name != name || cols[i].ty != ty
  {
    if cols == [] || (cols[0].name == name && cols[0].ty == ty) then 0 else 1 + FirstColumn(cols[1..], name, ty)
  }

  lemma {:induction false} AddValueAt(cols: seq<Column>, name: nat, ty: FieldType, row: nat, e: Entry)
    requires ValidEntry(ty, e) && forall i :: 0 <= i < |cols| ==> ValidColumn(cols[i])
    ensures var c := FirstColumn(cols, name, ty);
      AddValue(cols, name, ty, row, e)
      == if c < |cols| then cols[c := Push(cols[c], row, e)] else cols + [Column(name, ty, [row], [e])]
    decreases cols
  {
    hide ValidColumn, ValidEntry, Push;
    if cols != [] && !(cols[0].name == name && cols[0].ty == ty) {
      AddValueAt(cols[1..], name, ty, row, e);
    }
  }

  lemma FirstGroupIs(groups: seq<Group>, key: nat)
    ensures FirstGroup(groups, key)
            == if groups == [] || groups[0].key == key then 0 else 1 + FirstGroup(groups[1..], key)
  {
  }

  lemma {:induction false} AddCellAt(groups: seq<Group>, key: nat, name: nat, ty: FieldType, row: nat, e: Entry)
    requires ValidGroups(groups) && ValidEntry(ty, e)
    ensures var g := FirstGroup(groups, key);
      && (g < |groups| ==> ValidGroup(groups[g]))
      && AddCell(groups, key, name, ty, row, e)
         == if g < |groups| then groups[g := Group(key, AddValue(groups[g].cols, name, ty, row, e))]
            else groups + [Group(key, AddValue([], name, ty, row, e))]
    decreases groups
  {
    hide ValidColumn, ValidEntry, AddValue, FirstGroup;
    FirstGroupIs(groups, key);
    assert groups != [] ==> ValidGroup(groups[0]);
    if groups != [] && groups[0].key != key {
      AddCellAt(groups[1..], key, name, ty, row, e);
      var g := FirstGroup(groups[1..], key);
      if g < |groups| - 1 {
        assert ValidGroup(groups[1..][g]);
        var x := Group(key, AddValue(groups[g + 1].cols, name, ty, row, e));
        assert [groups[0]] + groups[1..][g := x] == groups[g + 1 := x];
      } else {
        assert [groups[0]] + groups[1..] == groups;
      }
    } else if groups != [] {
      assert groups[0 := Group(key, AddValue(groups[0].cols, name, ty, row, e))]
             == [Group(key, AddValue(groups[0].cols, name, ty, row, e))] + groups[1..];
    }
  }

  /** An object under construction. */
  class ColumnDocObj {
    var props: seq<Prop>

    ghost predicate Valid()
      reads this
    {
      ValidObj(Obj(props))
    }

    constructor Setup()
      ensures Obj(props) == EmptyObj()
    {
      props := EmptyObj().props;
    }

    constructor Holding(o: Obj)
      ensures Obj(props) == o
    {
      props := o.props;
    }

    method ImportObject(d: Doc)
      requires TypedDoc(d) && Obj(props) == EmptyObj()
      modifies this
      ensures Obj(props) == ImportDoc(d)
      decreases d, 0
    {
      hide Put, Typed, EmptyObj;
      for i := 0 to |d.entries|
        invariant Obj(props) == ImportEntries(d.entries, i)
      {
        PutEntry(d.entries[i]);
      }
    }

    method PutEntry(e: DocEntry)
      requires Valid() && Typed(e)
      modifies this
      ensures Obj(props) == Put(old(Obj(props)), e)
      decreases e, 2
    {
      hide ValidObj, PutPrimitive, PutMany, Typed;
      if Count(e.values) == 0 {
        PushFixed(0, e.key, 0);
      } else if Count(e.values) == 1 {
        PutOne(e);
      } else {
        PutSeveral(e);
      }
    }

    static method NestedObject(d: Doc) returns (o: Obj)
      requires TypedDoc(d)
      ensures o == ImportDoc(d)
      decreases d, 1
    {
      var nested := new ColumnDocObj.Setup();
      nested.ImportObject(d);
      o := Obj(nested.props);
    }

    method PushFixed(slot: nat, key: nat, val: nat)
      requires Valid() && IsFixedSlot(slot)
      modifies this
      ensures Obj(props) == PutFixed(old(Obj(props)), slot, key, val)
    {
      assert ValidProp(slot, props[slot]);
      props := props[slot := Fixed(props[slot].keys + [key], props[slot].vals + [val])];
    }

    method PutOne(e: DocEntry)
      requires Valid() && Typed(e) && Count(e.values) == 1
      modifies this
      ensures Obj(props) == PutPrimitive(old(Obj(props)), e)
      decreases e, 1
    {
      hide ImportDoc, TypedDoc;
      match e.values
      case Nulls(_) => PushFixed(0, e.key, 0);
      case Plain(vals) => PushFixed(TypeIndex(e.ty), e.key, vals[0]);
      case Docs(docs) =>
        var nested := NestedObject(docs[0]);
        assert ValidProp(OBJECT_SLOT, props[OBJECT_SLOT]);
        props := props[OBJECT_SLOT := Nested(props[OBJECT_SLOT].keys + [e.key], props[OBJECT_SLOT].objs + [nested])];
    }

    method PutSeveral(e: DocEntry)
      requires Valid() && Typed(e) && Count(e.values) > 1
      modifies this
      ensures Obj(props) == PutMany(old(Obj(props)), e)
      decreases e, 1
    {
      hide ImportRows, TypedRow;
      match e.values
      case Nulls(n) => PushFixed(NULL_ARRAY_SLOT, e.key, n % NULL_RANGE);
      case Plain(vals) =>
        var slot := NULL_ARRAY_SLOT + TypeIndex(e.ty);
        assert ValidProp(slot, props[slot]);
        props := props[slot := Arrays(props[slot].keys + [e.key], props[slot].arrs + [vals])];
      case Docs(docs) =>
        assert ValidProp(TABLE_SLOT, props[TABLE_SLOT]);
        PutRows(e.key, docs);
    }

    /** The groups of object arrays. */
    function Groups(): seq<Group>
      requires |props| == SLOTS && props[TABLE_SLOT].Table?
      reads this
    {
      props[TABLE_SLOT].groups
    }

    method PutRows(key: nat, docs: seq<Doc>)
      requires Valid() && |props| == SLOTS && props[TABLE_SLOT].Table? && ValidGroups(Groups())
      requires forall i :: 0 <= i < |docs| ==> TypedRow(docs[i])
      modifies this
      ensures props == old(props)[TABLE_SLOT := Table(ImportRows(old(Groups()), key, docs, |docs|))]
      decreases docs, 1
    {
      hide ValidObj, ImportRow, AddCell, StoredEntry, TypedPair, ValidGroup;
      ghost var before, groups := props, Groups();
      for arrayIdx := 0 to |docs|
        invariant |props| == SLOTS && props[TABLE_SLOT].Table?
        invariant props == before[TABLE_SLOT := Table(ImportRows(groups, key, docs, arrayIdx))]
      {
        ghost var done := Groups();
        var pairs := docs[arrayIdx].entries;
        NoPairs(done, key, arrayIdx, pairs);
        for pairIdx := 0 to |pairs|
          invariant |props| == SLOTS && props[TABLE_SLOT].Table?
          invariant props == before[TABLE_SLOT := Table(ImportRow(done, key, arrayIdx, pairs, pairIdx))]
        {
          RowStep(done, key, arrayIdx, pairs, pairIdx);
          PutPair(key, arrayIdx, pairs[pairIdx]);
        }
      }
    }

    /** Finds or makes the column of a pair and pushes the pair's values onto it. */
    method PutPair(key: nat, row: nat, pair: DocEntry)
      requires TypedPair(pair) && |props| == SLOTS && props[TABLE_SLOT].Table? && ValidGroups(Groups())
      modifies this
      ensures props
              == old(props)[TABLE_SLOT := Table(AddCell(old(Groups()), key, pair.key, pair.ty, row, StoredEntry(pair)))]
      decreases pair, 2
    {
      hide StoredEntry, ValidGroup, ValidColumn, ValidEntry, AddCell, AddValue, Push, TypedPair;
      ghost var groups := Groups();
      var e := ColumnEntry(pair);
      AddCellAt(groups, key, pair.key, pair.ty, row, e);
      var g := FindGroup(key);
      if g == |Groups()| {
        SetGroups(Groups() + [Group(key, [])]);
      }
      var cols := Groups()[g].cols;
      AddValueHere(groups, g, cols, pair.key, pair.ty, row, e);
      var c := FindColumn(cols, pair.key, pair.ty);
      if c == |cols| {
        cols := cols + [Column(pair.key, pair.ty, [], [])];
      }
      cols := cols[c := Column(cols[c].name, cols[c].ty, cols[c].positions + [row], cols[c].entries + [e])];
      assert g == |groups| ==> (groups + [Group(key, [])])[g := Group(key, cols)] == groups + [Group(key, cols)];
      SetGroups(Groups()[g := Group(key, cols)]);
    }

    method SetGroups(groups: seq<Group>)
      requires |props| == SLOTS
      modifies this
      ensures props == old(props)[TABLE_SLOT := Table(groups)]
    {
      props := props[TABLE_SLOT := Table(groups)];
    }

    method FindGroup(key: nat) returns (g: nat)
      requires |props| == SLOTS && props[TABLE_SLOT].Table?
      ensures g == FirstGroup(Groups(), key)
    {
      g := 0;
      while g < |Groups()| && Groups()[g].key != key
        invariant g <= FirstGroup(Groups(), key)
      {
        g := g + 1;
      }
    }

    static method FindColumn(cols: seq<Column>, name: nat, ty: FieldType) returns (c: nat)
      ensures c == FirstColumn(cols, name, ty)
    {
      c := 0;
      while c < |cols| && (cols[c].name != name || cols[c].ty != ty)
        invariant c <= FirstColumn(cols, name, ty)
      {
        c := c + 1;
      }
    }

    /** What a column stores of a pair. */
    static method ColumnEntry(pair: DocEntry) returns (e: Entry)
      requires TypedPair(pair)
      ensures e == StoredEntry(pair)
      decreases pair, 1
    {
      hide ImportDoc, TypedDoc;
      if Count(pair.values) == 0 {
        return Vals([1]);
      }
      match pair.values
      case Nulls(n) => e := Vals([n % NULL_RANGE]);
      case Plain(vals) => e := Vals(vals);
      case Docs(docs) =>
        var objs: seq<Obj> := [];
        for arrayIdx := 0 to |docs|
          invariant objs == ImportAll(docs, arrayIdx)
        {
          var nested := NestedObject(docs[arrayIdx]);
          objs := objs + [nested];
        }
        e := Objs(objs);
    }
  }

  lemma RowStep(groups: seq<Group>, key: nat, row: nat, pairs: seq<DocEntry>, n: nat)
    requires ValidGroups(groups) && n < |pairs| && forall i :: 0 <= i < |pairs| ==> TypedPair(pairs[i])
    ensures ImportRow(groups, key, row, pairs, n + 1)
            == AddCell(ImportRow(groups, key, row, pairs, n), key, pairs[n].key, pairs[n].ty, row,
                StoredEntry(pairs[n]))
  {
  }

  /** Pushing onto the column that was found or made is what AddValue does. */
  lemma AddValueHere(groups: seq<Group>, g: nat, cols: seq<Column>, name: nat, ty: FieldType, row: nat, e: Entry)
    requires ValidGroups(groups) && ValidEntry(ty, e) && cols == if g < |groups| then groups[g].cols else []
    ensures forall i :: 0 <= i < |cols| ==> ValidColumn(cols[i])
    ensures var c := FirstColumn(cols, name, ty);
      var more := if c < |cols| then cols else cols + [Column(name, ty, [], [])];
      AddValue(cols, name, ty, row, e)
      == more[c := Column(more[c].name, more[c].ty, more[c].positions + [row], more[c].entries + [e])]
  {
    if g < |groups| {
      assert ValidGroup(groups[g]);
    }
    AddValueAt(cols, name, ty, row, e);
    assert [] + [row] == [row] && [] + [e] == [e];
    var x := Column(name, ty, [row], [e]);
    assert (cols + [Column(name, ty, [], [])])[|cols| := x] == cols + [x];
  }
}
