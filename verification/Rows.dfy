/** The rows of object arrays: how the groups of columns that an import makes keep them, and how
    the writer finds their number. */
module Rows {
  import opened Bytes
  import opened ColumnDoc
  import opened Document
  import opened Columns

  // ----- the largest row

  lemma {:induction false} MaxOfSnoc(s: seq<nat>, x: nat, i: nat)
    requires i <= |s|
    ensures MaxOf(s + [x], i) == Max(MaxOf(s, i), x)
    decreases |s| - i
  {
    if i < |s| {
      MaxOfSnoc(s, x, i + 1);
    }
  }

  lemma {:induction false} MaxOfRest(cols: seq<Column>, i: nat)
    requires i < |cols|
    ensures MaxPosition(cols, i + 1) == MaxPosition(cols[1..], i)
    decreases |cols| - i
  {
    if i + 1 < |cols| {
      MaxOfRest(cols, i + 1);
    }
  }

  lemma {:induction false} MaxAdded(cols: seq<Column>, name: nat, ty: FieldType, row: nat, e: Entry)
    requires ValidEntry(ty, e) && forall i :: 0 <= i < |cols| ==> ValidColumn(cols[i])
    ensures MaxPosition(AddValue(cols, name, ty, row, e), 0) == Max(MaxPosition(cols, 0), row)
    decreases cols
  {
    hide ValidColumn, ValidEntry, MaxOf;
    var added := AddValue(cols, name, ty, row, e);
    MaxOfRest(added, 0);
    if cols == [] {
      assert added[1..] == [];
      MaxOfOne(row);
    } else {
      MaxOfRest(cols, 0);
      if cols[0].name == name && cols[0].ty == ty {
        assert added[1..] == cols[1..];
        MaxOfSnoc(cols[0].positions, row, 0);
      } else {
        MaxAdded(cols[1..], name, ty, row, e);
        assert added[1..] == AddValue(cols[1..], name, ty, row, e);
      }
    }
  }

  lemma MaxOfOne(x: nat)
    ensures MaxOf([x], 0) == x
  {
    assert MaxOf([x], 1) == 0;
  }

  // ----- an object array without a group of its key yet

  ghost predicate NoGroup(groups: seq<Group>, key: nat) {
    forall i :: 0 <= i < |groups| ==> groups[i].key != key
  }

  /** The one group of the key, if there is one, with its largest row. */
  ghost predicate UpTo(groups: seq<Group>, key: nat, row: nat) {
    |groups| == 1 && groups[0].key == key && MaxPosition(groups[0].cols, 0) == row
  }

  lemma {:induction false} RowUpTo(groups: seq<Group>, key: nat, row: nat, pairs: seq<DocEntry>, n: nat)
    requires ValidGroups(groups) && n <= |pairs| && forall i :: 0 <= i < |pairs| ==> TypedPair(pairs[i])
    requires groups == [] || exists r :: 0 <= r <= row && UpTo(groups, key, r)
    ensures n > 0 ==> UpTo(ImportRow(groups, key, row, pairs, n), key, row)
    decreases n
  {
    hide StoredEntry, MaxPosition, ValidEntry, ValidColumn, TypedPair;
    if n > 0 {
      RowUpTo(groups, key, row, pairs, n - 1);
      var before, pair := ImportRow(groups, key, row, pairs, n - 1), pairs[n - 1];
      var cols := if before == [] then [] else before[0].cols;
      assert forall i :: 0 <= i < |cols| ==> ValidColumn(cols[i]) by {
        if before != [] { assert ValidGroup(before[0]); }
      }
      MaxAdded(cols, pair.key, pair.ty, row, StoredEntry(pair));
      NoRows();
      assert AddCell(before, key, pair.key, pair.ty, row, StoredEntry(pair))
             == [Group(key, AddValue(cols, pair.key, pair.ty, row, StoredEntry(pair)))];
    }
  }

  lemma NoRows()
    ensures MaxPosition([], 0) == 0
  {
  }

  lemma {:induction false} LargestRow(key: nat, docs: seq<Doc>, n: nat)
    requires n <= |docs| && forall i :: 0 <= i < |docs| ==> TypedRow(docs[i])
    ensures var groups := ImportRows([], key, docs, n);
      && (groups == [] || exists r :: 0 <= r < n && UpTo(groups, key, r))
      && (n > 0 ==> (UpTo(groups, key, n - 1) <==> docs[n - 1].entries != []))
    decreases n
  {
    hide ImportRow, MaxPosition, TypedRow;
    if n > 0 {
      LargestRow(key, docs, n - 1);
      var before, pairs := ImportRows([], key, docs, n - 1), docs[n - 1].entries;
      TypedPairs(docs[n - 1]);
      RowUpTo(before, key, n - 1, pairs, |pairs|);
      NoPairs(before, key, n - 1, pairs);
    }
  }

  lemma TypedPairs(d: Doc)
    requires TypedRow(d)
    ensures forall i :: 0 <= i < |d.entries| ==> TypedPair(d.entries[i])
  {
  }

  lemma NoPairs(groups: seq<Group>, key: nat, row: nat, pairs: seq<DocEntry>)
    requires ValidGroups(groups) && forall i :: 0 <= i < |pairs| ==> TypedPair(pairs[i])
    ensures ImportRow(groups, key, row, pairs, 0) == groups
  {
  }

  /** A cell of a key without a group goes behind the groups there are. */
  lemma {:induction false} CellBehind(groups: seq<Group>, more: seq<Group>, key: nat, name: nat, ty: FieldType,
                                      row: nat, e: Entry)
    requires ValidGroups(groups) && ValidGroups(more) && ValidGroups(groups + more) && ValidEntry(ty, e)
    requires NoGroup(groups, key)
    ensures AddCell(groups + more, key, name, ty, row, e) == groups + AddCell(more, key, name, ty, row, e)
    decreases groups
  {
    hide ValidEntry, ValidGroup, AddValue;
    if groups == [] {
      Nothing(more);
      Nothing(AddCell(more, key, name, ty, row, e));
    } else {
      var rest := groups[1..];
      assert (groups + more)[1..] == rest + more;
      assert groups == [groups[0]] + rest;
      CellBehind(rest, more, key, name, ty, row, e);
      Assoc([groups[0]], rest, AddCell(more, key, name, ty, row, e));
    }
  }

  lemma {:induction false} RowBehind(groups: seq<Group>, more: seq<Group>, key: nat, row: nat, pairs: seq<DocEntry>,
                                     n: nat)
    requires ValidGroups(groups) && ValidGroups(more) && ValidGroups(groups + more) && NoGroup(groups, key)
    requires n <= |pairs| && forall i :: 0 <= i < |pairs| ==> TypedPair(pairs[i])
    ensures ImportRow(groups + more, key, row, pairs, n) == groups + ImportRow(more, key, row, pairs, n)
    decreases n
  {
    hide AddCell, StoredEntry, TypedPair, ValidGroup;
    if n > 0 {
      RowBehind(groups, more, key, row, pairs, n - 1);
      var pair := pairs[n - 1];
      CellBehind(groups, ImportRow(more, key, row, pairs, n - 1), key, pair.key, pair.ty, row, StoredEntry(pair));
    }
  }

  lemma {:induction false} RowsBehind(groups: seq<Group>, key: nat, docs: seq<Doc>, n: nat)
    requires ValidGroups(groups) && NoGroup(groups, key)
    requires n <= |docs| && forall i :: 0 <= i < |docs| ==> TypedRow(docs[i])
    ensures ImportRows(groups, key, docs, n) == groups + ImportRows([], key, docs, n)
    decreases n
  {
    hide ImportRow, ValidGroup;
    if n == 0 {
      Nothing(groups);
    } else {
      RowsBehind(groups, key, docs, n - 1);
      var pairs := docs[n - 1].entries;
      RowBehind(groups, ImportRows([], key, docs, n - 1), key, n - 1, pairs, |pairs|);
    }
  }

  lemma {:induction false} GroupRowsBoth(groups: seq<Group>, more: seq<Group>)
    ensures GroupRows(groups + more) == GroupRows(groups) + GroupRows(more)
    decreases groups
  {
    hide NumObjects;
    if groups == [] {
      Nothing(more);
    } else {
      assert (groups + more)[1..] == groups[1..] + more;
      GroupRowsBoth(groups[1..], more);
    }
  }

  lemma OneGroup(g: Group)
    ensures GroupRows([g]) == multiset{RowsOf(g.key, NumObjects(g))}
  {
    hide NumObjects;
    assert [g][1..] == [];
  }

  /** An object array whose key has no group yet gets one, and keeps its length, which the writer
      finds as the largest row plus one, exactly when its last object is not empty. */
  lemma LengthKept(groups: seq<Group>, key: nat, docs: seq<Doc>)
    requires ValidGroups(groups) && NoGroup(groups, key) && 0 < |docs| < 0x1_0000_0000
    requires forall i :: 0 <= i < |docs| ==> TypedRow(docs[i])
    ensures GroupRows(ImportRows(groups, key, docs, |docs|)) == GroupRows(groups) + multiset{RowsOf(key, |docs|)}
            <==> LastFilled(docs)
  {
    hide ImportRows, GroupRows, MaxPosition;
    LargestRow(key, docs, |docs|);
    RowsBehind(groups, key, docs, |docs|);
    var more := ImportRows([], key, docs, |docs|);
    GroupRowsBoth(groups, more);
    if more == [] {
      NoGroups();
      assert RowsOf(key, |docs|) in GroupRows(groups) + multiset{RowsOf(key, |docs|)};
      assert (GroupRows(groups) + multiset{RowsOf(key, |docs|)})[RowsOf(key, |docs|)]
             == GroupRows(groups)[RowsOf(key, |docs|)] + 1;
    } else {
      assert more == [more[0]];
      OneGroup(more[0]);
      var f := RowsOf(key, |docs|);
      assert (GroupRows(groups) + multiset{f})[f] == GroupRows(groups)[f] + 1;
    }
  }

  lemma NoGroups()
    ensures GroupRows([]) == multiset{}
  {
  }

  // ----- the groups of an object: one per key, and the largest row is a cell

  ghost predicate Sound(groups: seq<Group>)
    decreases |groups|
  {
    groups == [] || (SoundGroup(groups[0]) && NoGroup(groups[1..], groups[0].key) && Sound(groups[1..]))
  }

  ghost predicate SoundGroup(g: Group) {
    g.cols != [] && forall c :: 0 <= c < |g.cols| ==> SoundColumn(g.cols[c])
  }

  ghost predicate SoundColumn(c: Column) {
    c.positions != [] && |c.positions| == |c.entries| && forall i :: 0 <= i < |c.positions| ==>
      c.positions[i] + 1 < 0x1_0000_0000
  }

  lemma {:induction false} ValueSound(cols: seq<Column>, name: nat, ty: FieldType, row: nat, e: Entry)
    requires ValidEntry(ty, e) && forall i :: 0 <= i < |cols| ==> ValidColumn(cols[i]) && SoundColumn(cols[i])
    requires row + 1 < 0x1_0000_0000
    ensures var cs := AddValue(cols, name, ty, row, e);
      cs != [] && forall i :: 0 <= i < |cs| ==> SoundColumn(cs[i])
    decreases cols
  {
    hide ValidColumn, ValidEntry;
    if cols != [] && !(cols[0].name == name && cols[0].ty == ty) {
      ValueSound(cols[1..], name, ty, row, e);
    }
  }

  lemma {:induction false} CellKeys(groups: seq<Group>, key: nat, name: nat, ty: FieldType, row: nat, e: Entry,
                                    other: nat)
    requires ValidGroups(groups) && ValidEntry(ty, e) && NoGroup(groups, other) && other != key
    ensures NoGroup(AddCell(groups, key, name, ty, row, e), other)
    decreases groups
  {
    hide ValidEntry, ValidGroup, AddValue;
    if groups != [] && groups[0].key != key {
      CellKeys(groups[1..], key, name, ty, row, e, other);
    }
  }

  lemma {:induction false} CellSound(groups: seq<Group>, key: nat, name: nat, ty: FieldType, row: nat, e: Entry)
    requires ValidGroups(groups) && ValidEntry(ty, e) && Sound(groups) && row + 1 < 0x1_0000_0000
    ensures Sound(AddCell(groups, key, name, ty, row, e))
    decreases groups
  {
    hide ValidEntry, ValidColumn, SoundColumn, AddValue;
    if groups == [] {
      ValueSound([], name, ty, row, e);
    } else if groups[0].key == key {
      assert ValidGroup(groups[0]);
      ValueSound(groups[0].cols, name, ty, row, e);
      assert AddCell(groups, key, name, ty, row, e)[1..] == groups[1..];
    } else {
      CellSound(groups[1..], key, name, ty, row, e);
      CellKeys(groups[1..], key, name, ty, row, e, groups[0].key);
      assert AddCell(groups, key, name, ty, row, e)[1..] == AddCell(groups[1..], key, name, ty, row, e);
    }
  }

  lemma {:induction false} RowSound(groups: seq<Group>, key: nat, row: nat, pairs: seq<DocEntry>, n: nat)
    requires ValidGroups(groups) && Sound(groups) && row + 1 < 0x1_0000_0000
    requires n <= |pairs| && forall i :: 0 <= i < |pairs| ==> TypedPair(pairs[i])
    ensures Sound(ImportRow(groups, key, row, pairs, n))
    ensures forall k :: k != key && NoGroup(groups, k) ==> NoGroup(ImportRow(groups, key, row, pairs, n), k)
    decreases n
  {
    hide AddCell, StoredEntry, TypedPair, ValidGroup, Sound, NoGroup;
    if n > 0 {
      RowSound(groups, key, row, pairs, n - 1);
      var before, pair := ImportRow(groups, key, row, pairs, n - 1), pairs[n - 1];
      CellSound(before, key, pair.key, pair.ty, row, StoredEntry(pair));
      forall k | k != key && NoGroup(groups, k)
        ensures NoGroup(ImportRow(groups, key, row, pairs, n), k)
      {
        CellKeys(before, key, pair.key, pair.ty, row, StoredEntry(pair), k);
      }
    }
  }

  lemma {:induction false} RowsSound(groups: seq<Group>, key: nat, docs: seq<Doc>, n: nat)
    requires ValidGroups(groups) && Sound(groups) && n <= |docs| < 0x1_0000_0000
    requires forall i :: 0 <= i < |docs| ==> TypedRow(docs[i])
    ensures Sound(ImportRows(groups, key, docs, n))
    ensures forall k :: k != key && NoGroup(groups, k) ==> NoGroup(ImportRows(groups, key, docs, n), k)
    decreases n
  {
    hide ImportRow, ValidGroup, Sound, NoGroup;
    if n > 0 {
      RowsSound(groups, key, docs, n - 1);
      var pairs := docs[n - 1].entries;
      RowSound(ImportRows(groups, key, docs, n - 1), key, n - 1, pairs, |pairs|);
    }
  }

  /** Only an object array of its key gives an object a group. */
  lemma {:induction false} EntriesSound(entries: seq<DocEntry>, n: nat)
    requires n <= |entries| && forall i :: 0 <= i < |entries| ==> Typed(entries[i])
    ensures ImportEntries(entries, n).props[TABLE_SLOT].Table?
    ensures Sound(ImportEntries(entries, n).props[TABLE_SLOT].groups)
    ensures forall k :: (forall i :: 0 <= i < n && IsRows(entries[i]) ==> entries[i].key != k) ==>
        NoGroup(ImportEntries(entries, n).props[TABLE_SLOT].groups, k)
    decreases n
  {
    hide Put, Typed, Sound, NoGroup;
    if n == 0 {
      NothingSound();
    } else {
      EntriesSound(entries, n - 1);
      PutSound(ImportEntries(entries, n - 1), entries[n - 1]);
    }
  }

  lemma NothingSound()
    ensures EmptyObj().props[TABLE_SLOT] == Table([]) && Sound([]) && forall k :: NoGroup([], k)
  {
  }

  lemma PutSound(o: Obj, e: DocEntry)
    requires ValidObj(o) && Typed(e) && o.props[TABLE_SLOT].Table? && Sound(o.props[TABLE_SLOT].groups)
    ensures Put(o, e).props[TABLE_SLOT].Table? && Sound(Put(o, e).props[TABLE_SLOT].groups)
    ensures forall k :: (IsRows(e) ==> e.key != k) && NoGroup(o.props[TABLE_SLOT].groups, k) ==>
        NoGroup(Put(o, e).props[TABLE_SLOT].groups, k)
  {
    hide ImportDoc, ImportRows, TypedRow, TypedDoc, Sound, NoGroup;
    if IsRows(e) {
      assert ValidProp(TABLE_SLOT, o.props[TABLE_SLOT]);
      RowsSound(o.props[TABLE_SLOT].groups, e.key, e.values.docs, |e.values.docs|);
    } else {
      assert Put(o, e).props[TABLE_SLOT] == o.props[TABLE_SLOT];
    }
  }

  // ----- what the rows say

  /** Keys with one group each have one number of rows each. */
  lemma {:induction false} GroupRowsOnce(groups: seq<Group>)
    requires Sound(groups)
    ensures forall f :: f in GroupRows(groups) ==>
      f.RowsOf? && GroupRows(groups)[f] == 1 && exists i :: 0 <= i < |groups| && groups[i].key == f.key
    ensures forall f, g :: f in GroupRows(groups) && g in GroupRows(groups) && f.key == g.key ==> f == g
    decreases |groups|
  {
    hide NumObjects, SoundGroup;
    if groups != [] {
      GroupRowsOnce(groups[1..]);
    }
  }

  lemma {:induction false} MaxHeld(s: seq<nat>, i: nat)
    requires i < |s|
    ensures exists k :: i <= k < |s| && s[k] == MaxOf(s, i)
    decreases |s| - i
  {
    if i + 1 < |s| {
      MaxHeld(s, i + 1);
      var k :| i < k < |s| && s[k] == MaxOf(s, i + 1);
      assert s[k] == MaxOf(s, i) || s[i] == MaxOf(s, i);
    } else {
      assert s[i] == MaxOf(s, i);
    }
  }

  lemma {:induction false} LargestHeld(cols: seq<Column>, i: nat)
    requires i < |cols| && forall c :: 0 <= c < |cols| ==> SoundColumn(cols[c])
    ensures exists c, k :: i <= c < |cols| && 0 <= k < |cols[c].positions|
                           && cols[c].positions[k] == MaxPosition(cols, i)
    decreases |cols| - i
  {
    MaxHeld(cols[i].positions, 0);
    var j :| 0 <= j < |cols[i].positions| && cols[i].positions[j] == MaxOf(cols[i].positions, 0);
    assert cols[i].positions[j] == MaxPosition(cols, i) || MaxPosition(cols, i) == MaxPosition(cols, i + 1);
    if i + 1 < |cols| {
      LargestHeld(cols, i + 1);
      var c, k :| i < c < |cols| && 0 <= k < |cols[c].positions| && cols[c].positions[k] == MaxPosition(cols, i + 1);
      assert cols[c].positions[k] == MaxPosition(cols, i) || cols[i].positions[j] == MaxPosition(cols, i);
    }
  }

  // ----- the number of rows is what the cells say

  lemma {:induction false} CellsBelow(key: nat, name: nat, ty: FieldType, positions: seq<nat>, entries: seq<Entry>,
                                      m: nat)
    requires |positions| == |entries|
    ensures MaxOf(positions, 0) <= m <==>
            forall f :: f in CellsFacts(key, name, ty, positions, entries) ==> f.row <= m
    decreases |entries|
  {
    hide EntryCell;
    if entries != [] {
      var n := |entries| - 1;
      CellsBelow(key, name, ty, positions[..n], entries[..n], m);
      MaxOfSnoc(positions[..n], positions[n], 0);
      assert positions == positions[..n] + [positions[n]];
      assert CellOf(key, positions[n], name, ty, EntryCell(ty, entries[n]))
             in CellsFacts(key, name, ty, positions, entries);
    }
  }

  lemma {:induction false} ColumnsBelow(key: nat, cols: seq<Column>, m: nat)
    requires forall c :: 0 <= c < |cols| ==> |cols[c].positions| == |cols[c].entries|
    ensures MaxPosition(cols, 0) <= m <==> forall f :: f in ColumnsFacts(key, cols) ==> f.row <= m
    decreases |cols|
  {
    hide CellsFacts, MaxOf;
    if cols != [] {
      CellsBelow(key, cols[0].name, cols[0].ty, cols[0].positions, cols[0].entries, m);
      ColumnsBelow(key, cols[1..], m);
      MaxOfRest(cols, 0);
    }
  }

  lemma NoRowsMore(key: nat, cols: seq<Column>, cols': seq<Column>)
    requires ColumnsFacts(key, cols) == ColumnsFacts(key, cols')
    requires forall c :: 0 <= c < |cols| ==> |cols[c].positions| == |cols[c].entries|
    requires forall c :: 0 <= c < |cols'| ==> |cols'[c].positions| == |cols'[c].entries|
    ensures MaxPosition(cols', 0) <= MaxPosition(cols, 0)
  {
    hide ColumnsFacts, MaxPosition;
    ColumnsBelow(key, cols, MaxPosition(cols, 0));
    ColumnsBelow(key, cols', MaxPosition(cols, 0));
  }

  /** Columns with the same cells have the same number of rows. */
  lemma SameRows(key: nat, cols: seq<Column>, cols': seq<Column>)
    requires ColumnsFacts(key, cols) == ColumnsFacts(key, cols')
    requires ValidGroup(Group(key, cols)) && ValidGroup(Group(key, cols'))
    ensures NumObjects(Group(key, cols)) == NumObjects(Group(key, cols'))
  {
    hide ColumnsFacts, MaxPosition, ValidEntry;
    NoRowsMore(key, cols, cols');
    NoRowsMore(key, cols', cols);
  }
}
