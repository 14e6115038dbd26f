/** Whatever bytes are read, the numbers and counts of what is rebuilt from them fit their fields;
    an object with others is never read back. */
module ReadLimits {
  import opened Bytes
  import opened ColumnDoc
  import opened Format
  import opened Limits
  import opened Scan

  /** Only objects whose numbers and counts fit are ever read back, from whatever bytes. */
  lemma OnlyFitting(b: seq<Byte>, p: nat, o: Obj)
    requires ComesBack(b, p, o)
    ensures FitsObj(o)
  {
    hide ScanObj, Rebuild, FitsObj;
    ObjFits(b, p);
  }

  lemma WordFits(b: seq<Byte>, p: nat, w: nat)
    requires p + w <= |b|
    ensures Word(b, p, w) < Range(w)
  {
    hide UnLe, Range;
    UnLeFits(b[p..p + w]);
  }

  lemma {:induction false} WordListFits(b: seq<Byte>, p: nat, n: nat, w: nat)
    requires p + n * w <= |b|
    ensures Fit(WordList(b, p, n, w), w)
    decreases n
  {
    hide Word, Range;
    if n > 0 {
      assert n * w == w + (n - 1) * w;
      WordFits(b, p, w);
      WordListFits(b, p + w, n - 1, w);
    }
  }

  lemma WordsFit(b: seq<Byte>, p: nat, n: nat, w: nat)
    requires Words(b, p, n, w).Ok?
    ensures Fit(Words(b, p, n, w).value, w)
  {
    hide WordList, Fit;
    WordListFits(b, p, n, w);
  }

  lemma {:induction false} ObjFits(b: seq<Byte>, p: nat)
    requires ScanObj(b, p).Ok?
    ensures FitsObj(Rebuild(ScanObj(b, p).value))
    decreases |b| - p, 0
  {
    hide ScanItems, ItemsFit, RebuildProps, Words, Word, SetBits, FitsProp;
    var q := p + 13 + 8 * SetBits(Word(b, p + 9, 4), SLOTS);
    AllItemsFit(b, q + 8);
    RebuiltFit(ScanObj(b, p).value.items, 0);
  }

  ghost predicate ItemsFit(items: seq<ItemScan>) {
    forall i :: 0 <= i < |items| ==> items[i].slot < SLOTS && FitsProp(items[i].slot, RebuildItem(items[i]), MOST)
  }

  ghost predicate PropsFit(props: seq<Prop>, slot: nat) {
    |props| + slot == SLOTS && forall i :: 0 <= i < |props| ==> FitsProp(slot + i, props[i], MOST)
  }

  lemma {:induction false} RebuiltFit(items: seq<ItemScan>, slot: nat)
    requires slot <= SLOTS && ItemsFit(items)
    ensures PropsFit(RebuildProps(items, slot), slot)
    decreases SLOTS - slot
  {
    hide RebuildItem, FitsProp, EmptyProp, PropsFit;
    if slot == SLOTS {
      NoneFit();
    } else {
      NothingFits(slot);
      var later := if items != [] && items[0].slot == slot then items[1..] else items;
      RebuiltFit(later, slot + 1);
      OneMoreFits(RebuildProps(items, slot)[0], RebuildProps(later, slot + 1), slot);
    }
  }

  lemma NoneFit()
    ensures PropsFit([], SLOTS)
  {
  }

  lemma OneMoreFits(p: Prop, rest: seq<Prop>, slot: nat)
    requires slot < SLOTS && FitsProp(slot, p, MOST) && PropsFit(rest, slot + 1)
    ensures PropsFit([p] + rest, slot)
  {
    hide FitsProp;
    var props := [p] + rest;
    forall i | 0 <= i < |props|
      ensures FitsProp(slot + i, props[i], MOST)
    {
      if i > 0 {
        assert props[i] == rest[i - 1] && slot + 1 + (i - 1) == slot + i;
      }
    }
  }

  lemma NothingFits(slot: nat)
    requires slot < SLOTS
    ensures FitsProp(slot, EmptyProp(slot), MOST)
  {
  }

  lemma {:induction false} AllItemsFit(b: seq<Byte>, q: nat)
    requires ScanItems(b, q).Ok?
    ensures ItemsFit(ScanItems(b, q).value)
    decreases |b| - q, 2
  {
    hide ScanItem, RebuildItem, FitsProp;
    if b[q] != OBJECT_END {
      ItemFits(b, q);
      AllItemsFit(b, ScanItem(b, q).end);
    }
  }

  lemma {:induction false} ItemFits(b: seq<Byte>, q: nat)
    requires q < |b| && ScanItem(b, q).Ok?
    ensures ScanItem(b, q).value.slot < SLOTS
    ensures FitsProp(ScanItem(b, q).value.slot, RebuildItem(ScanItem(b, q).value), MOST)
    decreases |b| - q, 1
  {
    hide ScanValues, ScanNested, ScanLists, ScanTable, RebuildItem, FitsProp, SlotOf;
    var slot := SlotOf(b[q]);
    if IsFixedSlot(slot) {
      ValuesFit(b, q, slot);
    } else if slot == OBJECT_SLOT {
      NestedFit(b, q, slot);
    } else if IsArraySlot(slot) {
      ListsFit(b, q, slot);
    } else {
      TableFits(b, q, slot);
    }
  }

  lemma ValuesFit(b: seq<Byte>, q: nat, slot: nat)
    requires slot < SLOTS && ScanValues(b, q, slot).Ok?
    ensures FitsProp(slot, RebuildItem(ScanValues(b, q, slot).value), MOST)
  {
    hide Words, Word, Range, Fit, ReadWidth;
    var n := Word(b, q + 1, 4);
    CountFits(b, q + 1);
    WordsFit(b, q + 5, n, 8);
    WordsFit(b, q + 5 + n * 8, n, ReadWidth(slot));
  }

  lemma CountFits(b: seq<Byte>, p: nat)
    requires p + 4 <= |b|
    ensures Word(b, p, 4) < Range(4) && Word(b, p, 4) <= 0xFFFF_FFFF
  {
    hide Word;
    WordFits(b, p, 4);
    Ranges();
  }

  lemma {:induction false} NestedFit(b: seq<Byte>, q: nat, slot: nat)
    requires slot < SLOTS && ScanNested(b, q, slot).Ok?
    ensures FitsProp(slot, RebuildItem(ScanNested(b, q, slot).value), MOST)
    decreases |b| - q, 0
  {
    hide Words, Word, Range, Fit, ScanRow, RebuildObjs, FitsObjs;
    var n := Word(b, q + 1, 4);
    CountFits(b, q + 1);
    WordsFit(b, q + 5, n, 8);
    RowFits(b, q + 5 + n * 8 + n * 8);
  }

  lemma {:induction false} RowFits(b: seq<Byte>, q: nat)
    requires ScanRow(b, q).Ok?
    ensures FitsObjs(RebuildObjs(ScanRow(b, q).value))
    decreases |b| - q, 1
  {
    hide ScanObj, Rebuild, FitsObj;
    ObjFits(b, q);
    var e := ScanObj(b, q).end;
    if b[e] == OBJECT_BEGIN {
      RowFits(b, e);
      assert ScanRow(b, q).value[1..] == ScanRow(b, e).value;
    } else {
      assert ScanRow(b, q).value[1..] == [];
    }
  }

  lemma ListsFit(b: seq<Byte>, q: nat, slot: nat)
    requires slot < SLOTS && ScanLists(b, q, slot).Ok?
    ensures FitsProp(slot, RebuildItem(ScanLists(b, q, slot).value), MOST)
  {
    hide Words, Word, Range, Fit, ReadWidth, ScanArrays;
    var n := Word(b, q + 1, 4);
    CountFits(b, q + 1);
    WordsFit(b, q + 5, n, 8);
    WordsFit(b, q + 5 + n * 8, n, 4);
    var lens := Words(b, q + 5 + n * 8, n, 4).value;
    ArraysFit(b, q + 5 + n * 8 + n * 4, lens, slot);
  }

  lemma {:induction false} ArraysFit(b: seq<Byte>, q: nat, lens: seq<nat>, slot: nat)
    requires slot < SLOTS && Fit(lens, 4) && ScanArrays(b, q, lens, ReadWidth(slot)).Ok?
    ensures var arrs := ScanArrays(b, q, lens, ReadWidth(slot)).value;
      forall i :: 0 <= i < |arrs| ==> FitsArray(slot, arrs[i])
    decreases |lens|
  {
    hide Words, Range, ReadWidth;
    if lens != [] {
      WordsFit(b, q, lens[0], ReadWidth(slot));
      ArraysFit(b, Words(b, q, lens[0], ReadWidth(slot)).end, lens[1..], slot);
    }
  }

  // ----- object arrays

  lemma {:induction false} TableFits(b: seq<Byte>, q: nat, slot: nat)
    requires slot < SLOTS && ScanTable(b, q, slot).Ok?
    ensures FitsProp(slot, RebuildItem(ScanTable(b, q, slot).value), MOST)
    decreases |b| - q, 0
  {
    hide Words, Word, Range, Fit, ScanGroups, RebuildGroups, FitsGroup;
    var n := Word(b, q + 1, 1);
    WordFits(b, q + 1, 1);
    Ranges();
    WordsFit(b, q + 2, n, 8);
    GroupsFit(b, q + 2 + n * 8 + n * 8, n, Words(b, q + 2, n, 8).value);
  }

  lemma {:induction false} GroupsFit(b: seq<Byte>, q: nat, n: nat, keys: seq<nat>)
    requires ScanGroups(b, q, n).Ok? && |keys| == n && Fit(keys, 8)
    ensures var gs := RebuildGroups(keys, ScanGroups(b, q, n).value);
      |gs| <= n && forall i :: 0 <= i < |gs| ==> FitsGroup(gs[i], MOST)
    decreases |b| - q, 1, n
  {
    hide ScanGroup, RebuildColumns, FitsGroup, Range;
    if n > 0 {
      GroupFits(b, q, keys[0]);
      var e := ScanGroup(b, q).end;
      GroupsFit(b, e, n - 1, keys[1..]);
      assert ScanGroups(b, q, n).value[1..] == ScanGroups(b, e, n - 1).value;
    }
  }

  lemma {:induction false} GroupFits(b: seq<Byte>, q: nat, key: nat)
    requires ScanGroup(b, q).Ok? && key < Range(8)
    ensures FitsGroup(Group(key, RebuildColumns(ScanGroup(b, q).value.cols)), MOST)
    decreases |b| - q, 0
  {
    hide Words, Word, Range, ScanColumns, RebuildColumns, FitsColumn;
    var n, m := Word(b, q + 1, 4), Word(b, q + 5, 4);
    CountFits(b, q + 1);
    ColumnsFit(b, q + 9 + m * 8 + n * 8, n);
  }

  ghost predicate AllColumnsFit(cols: seq<Column>) { forall i :: 0 <= i < |cols| ==> FitsColumn(cols[i], MOST) }

  lemma {:induction false} ColumnsFit(b: seq<Byte>, q: nat, n: nat)
    requires ScanColumns(b, q, n).Ok?
    ensures AllColumnsFit(RebuildColumns(ScanColumns(b, q, n).value))
    decreases |b| - q, 1, n
  {
    hide ScanColumn, RebuildEntries, FitsColumn;
    if n > 0 {
      ColumnFits(b, q);
      var e := ScanColumn(b, q).end;
      ColumnsFit(b, e, n - 1);
      assert ScanColumns(b, q, n).value[1..] == ScanColumns(b, e, n - 1).value;
    }
  }

  lemma {:induction false} ColumnFits(b: seq<Byte>, q: nat)
    requires ScanColumn(b, q).Ok?
    ensures var c := ScanColumn(b, q).value;
      FitsColumn(Column(c.name, c.ty, c.positions, RebuildEntries(c.entries)), MOST)
    decreases |b| - q, 0
  {
    hide Words, Word, Range, Fit, ScanEntries, RebuildEntries, FitsEntry, TypeOfMarker;
    var ty, n := TypeOfMarker(b[q + 9]), Word(b, q + 10, 4);
    WordFits(b, q + 1, 8);
    CountFits(b, q + 10);
    WordsFit(b, q + 14 + n * 8, n, 4);
    EntriesFit(b, q + 14 + n * 8 + n * 4, ty, n);
  }

  ghost predicate AllEntriesFit(ty: FieldType, entries: seq<Entry>) {
    forall i :: 0 <= i < |entries| ==> FitsEntry(ty, entries[i])
  }

  lemma {:induction false} EntriesFit(b: seq<Byte>, q: nat, ty: FieldType, n: nat)
    requires ScanEntries(b, q, ty, n).Ok?
    ensures AllEntriesFit(ty, RebuildEntries(ScanEntries(b, q, ty, n).value))
    decreases |b| - q, 1, n
  {
    hide ScanEntry, RebuildEntry, FitsEntry;
    if n > 0 {
      EntryFits(b, q, ty);
      var e := ScanEntry(b, q, ty).end;
      EntriesFit(b, e, ty, n - 1);
      assert ScanEntries(b, q, ty, n).value[1..] == ScanEntries(b, e, ty, n - 1).value;
    }
  }

  lemma {:induction false} EntryFits(b: seq<Byte>, q: nat, ty: FieldType)
    requires ScanEntry(b, q, ty).Ok?
    ensures FitsEntry(ty, RebuildEntry(ScanEntry(b, q, ty).value))
    decreases |b| - q, 0
  {
    hide Words, Word, Range, Fit, ScanObjs, RebuildObjs, FitsObjs, TypeWidth;
    var n := Word(b, q, 4);
    CountFits(b, q);
    if ty == Object {
      ObjsFit(b, q + 4, n);
    } else {
      WordsFit(b, q + 4, n, TypeWidth(ty));
    }
  }

  lemma {:induction false} ObjsFit(b: seq<Byte>, q: nat, n: nat)
    requires ScanObjs(b, q, n).Ok?
    ensures FitsObjs(RebuildObjs(ScanObjs(b, q, n).value)) && |ScanObjs(b, q, n).value| == n
    decreases |b| - q, 1, n
  {
    hide ScanObj, Rebuild, FitsObj;
    if n > 0 {
      ObjFits(b, q);
      var e := ScanObj(b, q).end;
      ObjsFit(b, e, n - 1);
      assert ScanObjs(b, q, n).value[1..] == ScanObjs(b, e, n - 1).value;
    }
  }
}
