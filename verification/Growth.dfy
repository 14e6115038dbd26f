/** Importing only appends: what an entry of a document adds to the columns comes behind what is
    there, so entries keep the order of the document, rows that of the array. */
module Growth {
  import opened ColumnDoc
  import opened Document
  import opened Columns
  import Lossless

  ghost predicate ObjGrows(o: Obj, r: Obj) {
    |o.props| == |r.props| && forall i :: 0 <= i < |o.props| ==> PropGrows(o.props[i], r.props[i])
  }

  ghost predicate PropGrows(p: Prop, q: Prop) {
    match p
    case Fixed(keys, vals) => q.Fixed? && keys <= q.keys && vals <= q.vals
    case Nested(keys, objs) => q.Nested? && keys <= q.keys && objs <= q.objs
    case Arrays(keys, arrs) => q.Arrays? && keys <= q.keys && arrs <= q.arrs
    case Table(groups) => q.Table? && GroupsGrow(groups, q.groups)
  }

  ghost predicate GroupsGrow(groups: seq<Group>, gs: seq<Group>) {
    |groups| <= |gs| && forall i :: 0 <= i < |groups| ==> GroupGrows(groups[i], gs[i])
  }

  ghost predicate GroupGrows(g: Group, h: Group) {
    h.key == g.key && ColumnsGrow(g.cols, h.cols)
  }

  ghost predicate ColumnsGrow(cols: seq<Column>, cs: seq<Column>) {
    |cols| <= |cs| && forall i :: 0 <= i < |cols| ==> ColumnGrows(cols[i], cs[i])
  }

  ghost predicate ColumnGrows(c: Column, d: Column) {
    d.name == c.name && d.ty == c.ty && c.positions <= d.positions && c.entries <= d.entries
  }

  /** After more entries everything is still there, in the same places. */
  lemma {:induction false} ImportGrows(entries: seq<DocEntry>, m: nat, n: nat)
    requires m <= n <= |entries| && forall i :: 0 <= i < |entries| ==> Typed(entries[i])
    ensures ObjGrows(ImportEntries(entries, m), ImportEntries(entries, n))
    decreases n
  {
    hide Typed, ObjGrows, Put, PropGrows;
    var o := ImportEntries(entries, m);
    if m == n {
      ObjSame(o);
    } else {
      var r := ImportEntries(entries, n - 1);
      ImportGrows(entries, m, n - 1);
      PutGrows(r, entries[n - 1]);
      ObjTwice(o, r, ImportEntries(entries, n));
    }
  }

  lemma ObjSame(o: Obj)
    ensures ObjGrows(o, o)
  {
  }

  lemma ObjTwice(o: Obj, r: Obj, s: Obj)
    requires ObjGrows(o, r) && ObjGrows(r, s)
    ensures ObjGrows(o, s)
  {
    hide GroupGrows;
    forall i | 0 <= i < |o.props|
      ensures PropGrows(o.props[i], s.props[i])
    {
      assert PropGrows(o.props[i], r.props[i]) && PropGrows(r.props[i], s.props[i]);
      if o.props[i].Table? {
        GroupsTwice(o.props[i].groups, r.props[i].groups, s.props[i].groups);
      }
    }
  }

  lemma GroupsTwice(a: seq<Group>, b: seq<Group>, c: seq<Group>)
    requires GroupsGrow(a, b) && GroupsGrow(b, c)
    ensures GroupsGrow(a, c)
  {
    hide ColumnGrows;
    forall i | 0 <= i < |a|
      ensures GroupGrows(a[i], c[i])
    {
      ColumnsTwice(a[i].cols, b[i].cols, c[i].cols);
    }
  }

  lemma ColumnsTwice(a: seq<Column>, b: seq<Column>, c: seq<Column>)
    requires ColumnsGrow(a, b) && ColumnsGrow(b, c)
    ensures ColumnsGrow(a, c)
  {
    forall i | 0 <= i < |a|
      ensures ColumnGrows(a[i], c[i])
    {
      assert ColumnGrows(a[i], b[i]) && ColumnGrows(b[i], c[i]);
    }
  }

  lemma PutGrows(o: Obj, e: DocEntry)
    requires ValidObj(o) && Typed(e)
    ensures ObjGrows(o, Put(o, e))
  {
    hide TypedDoc, TypedRow, ImportDoc, ImportRows, GroupsGrow;
    ObjSame(o);
    Lossless.TableThere(o);
    var groups := o.props[TABLE_SLOT].groups;
    if IsRows(e) {
      RowsGrow(groups, e.key, e.values.docs, |e.values.docs|);
    }
  }

  lemma {:induction false} RowsGrow(groups: seq<Group>, key: nat, docs: seq<Doc>, n: nat)
    requires ValidGroups(groups) && n <= |docs| && forall i :: 0 <= i < |docs| ==> TypedRow(docs[i])
    ensures GroupsGrow(groups, ImportRows(groups, key, docs, n))
    decreases n
  {
    hide TypedRow, ImportRow, GroupsGrow, ValidGroups;
    if n == 0 {
      GroupsSame(groups);
    } else {
      var gs := ImportRows(groups, key, docs, n - 1);
      RowsGrow(groups, key, docs, n - 1);
      WholeRowGrows(gs, key, n - 1, docs[n - 1]);
      GroupsTwice(groups, gs, ImportRows(groups, key, docs, n));
    }
  }

  lemma GroupsSame(groups: seq<Group>)
    ensures GroupsGrow(groups, groups)
  {
  }

  lemma WholeRowGrows(groups: seq<Group>, key: nat, row: nat, d: Doc)
    requires ValidGroups(groups) && TypedRow(d)
    ensures GroupsGrow(groups, ImportRow(groups, key, row, d.entries, |d.entries|))
  {
    hide TypedPair, ImportRow, GroupsGrow, ValidGroups;
    RowGrows(groups, key, row, d.entries, |d.entries|);
  }

  lemma {:induction false} RowGrows(groups: seq<Group>, key: nat, row: nat, pairs: seq<DocEntry>, n: nat)
    requires ValidGroups(groups) && n <= |pairs| && forall i :: 0 <= i < |pairs| ==> TypedPair(pairs[i])
    ensures GroupsGrow(groups, ImportRow(groups, key, row, pairs, n))
    decreases n
  {
    hide TypedPair, AddCell, StoredEntry, GroupsGrow, ValidGroups;
    if n == 0 {
      GroupsSame(groups);
    } else {
      var gs, pair := ImportRow(groups, key, row, pairs, n - 1), pairs[n - 1];
      RowGrows(groups, key, row, pairs, n - 1);
      CellGrows(gs, key, pair.key, pair.ty, row, StoredEntry(pair));
      GroupsTwice(groups, gs, ImportRow(groups, key, row, pairs, n));
    }
  }

  lemma {:induction false} CellGrows(groups: seq<Group>, key: nat, name: nat, ty: FieldType, row: nat, e: Entry)
    requires ValidGroups(groups) && ValidEntry(ty, e)
    ensures GroupsGrow(groups, AddCell(groups, key, name, ty, row, e))
    decreases groups
  {
    hide AddValue, ColumnsGrow, ValidEntry, ValidColumn;
    GroupsSame(groups);
    if groups != [] {
      if groups[0].key == key {
        assert ValidGroup(groups[0]);
        ValueGrows(groups[0].cols, name, ty, row, e);
      } else {
        CellGrows(groups[1..], key, name, ty, row, e);
      }
    }
  }

  lemma {:induction false} ValueGrows(cols: seq<Column>, name: nat, ty: FieldType, row: nat, e: Entry)
    requires ValidEntry(ty, e) && forall i :: 0 <= i < |cols| ==> ValidColumn(cols[i])
    ensures ColumnsGrow(cols, AddValue(cols, name, ty, row, e))
    decreases cols
  {
    hide ValidEntry, ValidColumn;
    if cols != [] && !(cols[0].name == name && cols[0].ty == ty) {
      ValueGrows(cols[1..], name, ty, row, e);
    }
  }
}
