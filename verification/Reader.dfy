/** The sequential archive reader: it moves a cursor through the block and reports what it
    meets. Each method computes the Scan function of the same name and leaves the cursor behind
    what it read; the block itself is never changed. */
module Reader {
  import opened Bytes
  import opened Memory
  import opened ColumnDoc
  import opened Format
  import opened Scan

  method ReadWords(mf: Memfile, n: nat, w: nat) returns (r: Result<seq<nat>>)
    modifies mf`pos
    ensures r == Words(mf.data, old(mf.pos), n, w)
    ensures r.Ok? ==> mf.pos == r.end
  {
    var p := mf.pos;
    var ok, _ := mf.Read(n * w);
    r := if ok then Ok(WordList(mf.data, p, n, w), mf.pos) else Err(OutOfBounds);
  }

  /** Reads the words one at a time. */
  method ReadEach(mf: Memfile, n: nat, w: nat) returns (r: Result<seq<nat>>)
    requires mf.pos <= |mf.data|
    modifies mf`pos
    ensures r == Words(mf.data, old(mf.pos), n, w)
    ensures r.Ok? ==> mf.pos == r.end
  {
    hide Words, WordList, UnLe;
    ghost var b, p := mf.data, mf.pos;
    var vs: seq<nat> := [];
    PrependNothing(Words(b, p, n, w));
    for i := 0 to n
      invariant mf.pos <= |b| && Prepend(vs, Words(b, mf.pos, n - i, w)) == Words(b, p, n, w)
    {
      WordsStep(b, mf.pos, n - i, w);
      ghost var rest := Words(b, mf.pos + w, n - i - 1, w);
      var q := mf.pos;
      var ok, bs := mf.Read(w);
      if !ok {
        return Err(OutOfBounds);
      }
      PrependBoth(vs, UnLe(bs), rest);
      vs := vs + [UnLe(bs)];
    }
    NoWords(b, mf.pos, w);
    Nothing(vs);
    r := Ok(vs, mf.pos);
  }

  lemma WordsStep(b: seq<Byte>, p: nat, n: nat, w: nat)
    requires n > 0
    ensures Words(b, p, n, w) == if p + w > |b| then Err(OutOfBounds)
                                 else Prepend([Word(b, p, w)], Words(b, p + w, n - 1, w))
  {
    assert n * w == w + (n - 1) * w;
  }

  lemma NoWords(b: seq<Byte>, p: nat, w: nat)
    requires p <= |b|
    ensures Words(b, p, 0, w) == Ok([], p)
  {
  }

  /** Objects: the header, the offsets whose flag is set, the next field, then everything up to
      the end marker. */
  method ReadObj(mf: Memfile) returns (r: Result<ObjScan>)
    requires mf.pos <= |mf.data|
    modifies mf`pos
    ensures r == ScanObj(mf.data, old(mf.pos))
    ensures r.Ok? ==> mf.pos == r.end
    decreases |mf.data| - mf.pos, 0
  {
    hide ScanItems, Words, SetBits, UnLe;
    var p := mf.pos;
    var ok, header := mf.Read(13);
    if !ok { return Err(OutOfBounds); }
    HeaderFields(mf.data, p, header);
    var marker, oid, flags := header[0], UnLe(header[1..9]), UnLe(header[9..13]);
    var offs := ReadPropOffsets(mf, flags);
    if offs.Err? { return Err(offs.error); }
    var ok', next := mf.Read(8);
    if !ok' { return Err(OutOfBounds); }
    if marker != OBJECT_BEGIN { return Err(Corrupted); }
    var items := ReadItems(mf);
    if items.Err? { return Err(items.error); }
    var _, _ := mf.Read(1);
    r := Ok(ObjScan(p, oid, flags, offs.value, UnLe(next), items.value), mf.pos);
  }

  /** A word inside a block of bytes that was read at once. */
  lemma Field(b: seq<Byte>, p: nat, n: nat, i: nat, w: nat)
    requires p + n <= |b| && i + w <= n
    ensures b[p..p + n][i..i + w] == b[p + i..p + i + w]
  {
    var x, y := b[p..p + n][i..i + w], b[p + i..p + i + w];
    assert |x| == |y|;
    assert forall k :: 0 <= k < w ==> x[k] == y[k];
  }

  lemma HeaderFields(b: seq<Byte>, p: nat, header: seq<Byte>)
    requires p + 13 <= |b| && header == b[p..p + 13]
    ensures header[0] == b[p] && UnLe(header[1..9]) == Word(b, p + 1, 8) && UnLe(header[9..13]) == Word(b, p + 9, 4)
  {
    Field(b, p, 13, 1, 8);
    Field(b, p, 13, 9, 4);
  }

  method ReadPropOffsets(mf: Memfile, flags: nat) returns (r: Result<seq<nat>>)
    requires mf.pos <= |mf.data|
    modifies mf`pos
    ensures r == Words(mf.data, old(mf.pos), SetBits(flags, SLOTS), 8)
    ensures r.Ok? ==> mf.pos == r.end
  {
    hide Words, WordList, UnLe, SetBits, Prepend;
    ghost var b, all := mf.data, Words(mf.data, mf.pos, SetBits(flags, SLOTS), 8);
    var vs: seq<nat>, bits := [], flags;
    PrependNothing(all);
    for i := 0 to SLOTS
      invariant mf.pos <= |b| && Prepend(vs, Words(b, mf.pos, SetBits(bits, SLOTS - i), 8)) == all
    {
      NextBit(bits, SLOTS - i);
      if bits % 2 == 1 {
        ghost var q, n := mf.pos, SetBits(bits / 2, SLOTS - i - 1);
        WordsStep(b, mf.pos, n + 1, 8);
        ghost var rest := Words(b, mf.pos + 8, n, 8);
        var ok, bs := mf.Read(8);
        if !ok {
          PrependErr(vs, Words(b, q, n + 1, 8));
          return Err(OutOfBounds);
        }
        PrependBoth(vs, UnLe(bs), rest);
        vs := vs + [UnLe(bs)];
      }
      bits := bits / 2;
    }
    NoBits(bits);
    NoWords(b, mf.pos, 8);
    PrependOk(vs, mf.pos);
    r := Ok(vs, mf.pos);
  }

  lemma NextBit(flags: nat, n: nat)
    requires n > 0
    ensures SetBits(flags, n) == flags % 2 + SetBits(flags / 2, n - 1)
  {
  }

  lemma NoBits(flags: nat)
    ensures SetBits(flags, 0) == 0
  {
  }

  /** Property lists, until the next byte is the object's end marker. */
  method ReadItems(mf: Memfile) returns (r: Result<seq<ItemScan>>)
    requires mf.pos <= |mf.data|
    modifies mf`pos
    ensures r == ScanItems(mf.data, old(mf.pos))
    ensures r.Ok? ==> mf.pos == r.end
    decreases |mf.data| - mf.pos, 2
  {
    hide ScanItem, Prepend;
    ghost var b, p := mf.data, mf.pos;
    var items: seq<ItemScan> := [];
    PrependNothing(ScanItems(b, p));
    while mf.pos < |mf.data| && mf.data[mf.pos] != OBJECT_END
      invariant p <= mf.pos <= |b| && Prepend(items, ScanItems(b, mf.pos)) == ScanItems(b, p)
      decreases |mf.data| - mf.pos
    {
      ghost var q := mf.pos;
      var item := ReadItem(mf);
      if item.Err? {
        PrependErr(items, ScanItems(b, q));
        return Err(item.error);
      }
      PrependBoth(items, item.value, ScanItems(b, item.end));
      items := items + [item.value];
    }
    if mf.pos >= |mf.data| {
      PrependErr(items, ScanItems(b, mf.pos));
      return Err(OutOfBounds);
    }
    PrependOk(items, mf.pos);
    r := Ok(items, mf.pos);
  }

  method ReadItem(mf: Memfile) returns (r: Result<ItemScan>)
    requires mf.pos < |mf.data|
    modifies mf`pos
    ensures r == ScanItem(mf.data, old(mf.pos))
    ensures r.Ok? ==> mf.pos == r.end
    decreases |mf.data| - mf.pos, 1
  {
    hide SlotOf, ScanValues, ScanNested, ScanLists, ScanTable;
    var slot := SlotOf(mf.data[mf.pos]);
    if slot == SLOTS {
      r := Err(Corrupted);
    } else if IsFixedSlot(slot) {
      r := ReadValues(mf, slot);
    } else if slot == OBJECT_SLOT {
      r := ReadNested(mf, slot);
    } else if IsArraySlot(slot) {
      r := ReadLists(mf, slot);
    } else {
      r := ReadTable(mf, slot);
    }
  }

  /** A property header and its keys. */
  method ReadHeadAndKeys(mf: Memfile) returns (r: Result<seq<nat>>)
    requires mf.pos <= |mf.data|
    modifies mf`pos
    ensures r == if old(mf.pos) + 5 > |mf.data| then Err(OutOfBounds)
                 else Words(mf.data, old(mf.pos) + 5, Word(mf.data, old(mf.pos) + 1, 4), 8)
    ensures r.Ok? ==> mf.pos == r.end
  {
    hide Words, UnLe;
    var ok, head := mf.Read(5);
    if !ok { return Err(OutOfBounds); }
    Field(mf.data, old(mf.pos), 5, 1, 4);
    r := ReadWords(mf, UnLe(head[1..5]), 8);
  }

  method ReadValues(mf: Memfile, slot: nat) returns (r: Result<ItemScan>)
    requires slot < SLOTS
    requires mf.pos <= |mf.data|
    modifies mf`pos
    ensures r == ScanValues(mf.data, old(mf.pos), slot)
    ensures r.Ok? ==> mf.pos == r.end
  {
    hide WordList, UnLe;
    var q := mf.pos;
    var keys := ReadHeadAndKeys(mf);
    if keys.Err? { return Err(keys.error); }
    var vals := ReadWords(mf, |keys.value|, ReadWidth(slot));
    if vals.Err? { return Err(vals.error); }
    r := Ok(Values(q, slot, keys.value, vals.value), mf.pos);
  }

  method ReadNested(mf: Memfile, slot: nat) returns (r: Result<ItemScan>)
    requires mf.pos <= |mf.data|
    modifies mf`pos
    ensures r == ScanNested(mf.data, old(mf.pos), slot)
    ensures r.Ok? ==> mf.pos == r.end
    decreases |mf.data| - mf.pos, 0
  {
    hide WordList, UnLe, ScanRow;
    var q := mf.pos;
    var keys := ReadHeadAndKeys(mf);
    if keys.Err? { return Err(keys.error); }
    var offs := ReadWords(mf, |keys.value|, 8);
    if offs.Err? { return Err(offs.error); }
    var objs := ReadRow(mf);
    if objs.Err? { return Err(objs.error); }
    r := Ok(Objects(q, slot, keys.value, offs.value, objs.value), mf.pos);
  }

  /** Reads one object, and more for as long as the next byte opens one. */
  method ReadRow(mf: Memfile) returns (r: Result<seq<ObjScan>>)
    requires mf.pos <= |mf.data|
    modifies mf`pos
    ensures r == ScanRow(mf.data, old(mf.pos))
    ensures r.Ok? ==> mf.pos == r.end
    decreases |mf.data| - mf.pos, 1
  {
    hide ScanObj, Prepend;
    ghost var b, p := mf.data, mf.pos;
    var objs: seq<ObjScan>, more := [], true;
    PrependNothing(ScanRow(b, p));
    while more
      invariant p <= mf.pos <= |b|
      invariant more ==> Prepend(objs, ScanRow(b, mf.pos)) == ScanRow(b, p)
      invariant !more ==> ScanRow(b, p) == Ok(objs, mf.pos)
      decreases more, |mf.data| - mf.pos
    {
      ghost var q := mf.pos;
      var obj := ReadObj(mf);
      if obj.Err? || mf.pos >= |mf.data| {
        PrependErr(objs, ScanRow(b, q));
        return Err(if obj.Err? then obj.error else OutOfBounds);
      }
      more := mf.data[mf.pos] == OBJECT_BEGIN;
      if more {
        PrependBoth(objs, obj.value, ScanRow(b, mf.pos));
      } else {
        PrependLast(objs, obj.value, mf.pos);
      }
      objs := objs + [obj.value];
    }
    r := Ok(objs, mf.pos);
  }

  method ReadLists(mf: Memfile, slot: nat) returns (r: Result<ItemScan>)
    requires slot < SLOTS
    requires mf.pos <= |mf.data|
    modifies mf`pos
    ensures r == ScanLists(mf.data, old(mf.pos), slot)
    ensures r.Ok? ==> mf.pos == r.end
  {
    hide WordList, UnLe, ScanArrays;
    var q := mf.pos;
    var keys := ReadHeadAndKeys(mf);
    if keys.Err? { return Err(keys.error); }
    var lens := ReadWords(mf, |keys.value|, 4);
    if lens.Err? { return Err(lens.error); }
    var arrs := ReadArrays(mf, lens.value, ReadWidth(slot));
    if arrs.Err? { return Err(arrs.error); }
    r := Ok(Lists(q, slot, keys.value, arrs.value), mf.pos);
  }

  method ReadArrays(mf: Memfile, lens: seq<nat>, w: nat) returns (r: Result<seq<seq<nat>>>)
    requires mf.pos <= |mf.data|
    modifies mf`pos
    ensures r == ScanArrays(mf.data, old(mf.pos), lens, w)
    ensures r.Ok? ==> mf.pos == r.end
  {
    hide Words, Prepend;
    ghost var b, all := mf.data, ScanArrays(mf.data, mf.pos, lens, w);
    var arrs: seq<seq<nat>> := [];
    PrependNothing(all);
    for i := 0 to |lens|
      invariant Prepend(arrs, ScanArrays(b, mf.pos, lens[i..], w)) == all
    {
      ghost var q := mf.pos;
      assert lens[i..][1..] == lens[i + 1..];
      var vals := ReadWords(mf, lens[i], w);
      if vals.Err? {
        PrependErr(arrs, ScanArrays(b, q, lens[i..], w));
        return Err(vals.error);
      }
      PrependBoth(arrs, vals.value, ScanArrays(b, mf.pos, lens[i + 1..], w));
      arrs := arrs + [vals.value];
    }
    PrependOk(arrs, mf.pos);
    r := Ok(arrs, mf.pos);
  }

  method ReadTable(mf: Memfile, slot: nat) returns (r: Result<ItemScan>)
    requires mf.pos <= |mf.data|
    modifies mf`pos
    ensures r == ScanTable(mf.data, old(mf.pos), slot)
    ensures r.Ok? ==> mf.pos == r.end
    decreases |mf.data| - mf.pos, 0
  {
    hide Words, WordList, UnLe, ScanGroups;
    var q := mf.pos;
    var ok, head := mf.Read(2);
    if !ok { return Err(OutOfBounds); }
    Field(mf.data, q, 2, 1, 1);
    var n := UnLe(head[1..2]);
    var keys := ReadEach(mf, n, 8);
    if keys.Err? { return Err(keys.error); }
    var offs := ReadEach(mf, n, 8);
    if offs.Err? { return Err(offs.error); }
    var groups := ReadGroups(mf, n);
    if groups.Err? { return Err(groups.error); }
    r := Ok(Groups(q, slot, keys.value, offs.value, groups.value), mf.pos);
  }

  method ReadGroups(mf: Memfile, n: nat) returns (r: Result<seq<GroupScan>>)
    requires mf.pos <= |mf.data|
    modifies mf`pos
    ensures r == ScanGroups(mf.data, old(mf.pos), n)
    ensures r.Ok? ==> mf.pos == r.end
    decreases |mf.data| - mf.pos, 1
  {
    hide ScanGroup, Prepend;
    ghost var b, p, all := mf.data, mf.pos, ScanGroups(mf.data, mf.pos, n);
    var groups: seq<GroupScan> := [];
    PrependNothing(all);
    for i := 0 to n
      invariant p <= mf.pos <= |b| && Prepend(groups, ScanGroups(b, mf.pos, n - i)) == all
    {
      ghost var q := mf.pos;
      var g := ReadGroup(mf);
      if g.Err? {
        PrependErr(groups, ScanGroups(b, q, n - i));
        return Err(g.error);
      }
      PrependBoth(groups, g.value, ScanGroups(b, mf.pos, n - i - 1));
      groups := groups + [g.value];
    }
    PrependOk(groups, mf.pos);
    r := Ok(groups, mf.pos);
  }

  method ReadGroup(mf: Memfile) returns (r: Result<GroupScan>)
    requires mf.pos <= |mf.data|
    modifies mf`pos
    ensures r == ScanGroup(mf.data, old(mf.pos))
    ensures r.Ok? ==> mf.pos == r.end
    decreases |mf.data| - mf.pos, 0
  {
    hide Words, UnLe, ScanColumns;
    var q := mf.pos;
    var ok, header := mf.Read(9);
    if !ok { return Err(OutOfBounds); }
    if header[0] != COLUMN_GROUP { return Err(Corrupted); }
    Field(mf.data, q, 9, 1, 4);
    Field(mf.data, q, 9, 5, 4);
    var numColumns, numObjects := UnLe(header[1..5]), UnLe(header[5..9]);
    var oids := ReadWords(mf, numObjects, 8);
    if oids.Err? { return Err(oids.error); }
    var offs := ReadEach(mf, numColumns, 8);
    if offs.Err? { return Err(offs.error); }
    var cols := ReadColumns(mf, numColumns);
    if cols.Err? { return Err(cols.error); }
    r := Ok(GroupScan(q, oids.value, offs.value, cols.value), mf.pos);
  }

  method ReadColumns(mf: Memfile, n: nat) returns (r: Result<seq<ColumnScan>>)
    requires mf.pos <= |mf.data|
    modifies mf`pos
    ensures r == ScanColumns(mf.data, old(mf.pos), n)
    ensures r.Ok? ==> mf.pos == r.end
    decreases |mf.data| - mf.pos, 1
  {
    hide ScanColumn, Prepend;
    ghost var b, p, all := mf.data, mf.pos, ScanColumns(mf.data, mf.pos, n);
    var cols: seq<ColumnScan> := [];
    PrependNothing(all);
    for k := 0 to n
      invariant p <= mf.pos <= |b| && Prepend(cols, ScanColumns(b, mf.pos, n - k)) == all
    {
      ghost var q := mf.pos;
      var c := ReadColumn(mf);
      if c.Err? {
        PrependErr(cols, ScanColumns(b, q, n - k));
        return Err(c.error);
      }
      PrependBoth(cols, c.value, ScanColumns(b, mf.pos, n - k - 1));
      cols := cols + [c.value];
    }
    PrependOk(cols, mf.pos);
    r := Ok(cols, mf.pos);
  }

  method ReadColumn(mf: Memfile) returns (r: Result<ColumnScan>)
    requires mf.pos <= |mf.data|
    modifies mf`pos
    ensures r == ScanColumn(mf.data, old(mf.pos))
    ensures r.Ok? ==> mf.pos == r.end
    decreases |mf.data| - mf.pos, 0
  {
    hide Words, UnLe, ScanEntries, TypeOfMarker;
    var q := mf.pos;
    var ok, header := mf.Read(14);
    if !ok { return Err(OutOfBounds); }
    if header[0] != COLUMN { return Err(Corrupted); }
    Field(mf.data, q, 14, 1, 8);
    Field(mf.data, q, 14, 10, 4);
    var name, ty, n := UnLe(header[1..9]), TypeOfMarker(header[9]), UnLe(header[10..14]);
    var offs := ReadEach(mf, n, 8);
    if offs.Err? { return Err(offs.error); }
    var positions := ReadWords(mf, n, 4);
    if positions.Err? { return Err(positions.error); }
    var entries := ReadEntries(mf, ty, n);
    if entries.Err? { return Err(entries.error); }
    r := Ok(ColumnScan(q, name, ty, offs.value, positions.value, entries.value), mf.pos);
  }

  method ReadEntries(mf: Memfile, ty: FieldType, n: nat) returns (r: Result<seq<EntryScan>>)
    requires mf.pos <= |mf.data|
    modifies mf`pos
    ensures r == ScanEntries(mf.data, old(mf.pos), ty, n)
    ensures r.Ok? ==> mf.pos == r.end
    decreases |mf.data| - mf.pos, 1
  {
    hide ScanEntry, Prepend;
    ghost var b, p, all := mf.data, mf.pos, ScanEntries(mf.data, mf.pos, ty, n);
    var entries: seq<EntryScan> := [];
    PrependNothing(all);
    for i := 0 to n
      invariant p <= mf.pos <= |b| && Prepend(entries, ScanEntries(b, mf.pos, ty, n - i)) == all
    {
      ghost var q := mf.pos;
      var entry := ReadEntry(mf, ty);
      if entry.Err? {
        PrependErr(entries, ScanEntries(b, q, ty, n - i));
        return Err(entry.error);
      }
      PrependBoth(entries, entry.value, ScanEntries(b, mf.pos, ty, n - i - 1));
      entries := entries + [entry.value];
    }
    PrependOk(entries, mf.pos);
    r := Ok(entries, mf.pos);
  }

  method ReadEntry(mf: Memfile, ty: FieldType) returns (r: Result<EntryScan>)
    requires mf.pos <= |mf.data|
    modifies mf`pos
    ensures r == ScanEntry(mf.data, old(mf.pos), ty)
    ensures r.Ok? ==> mf.pos == r.end
    decreases |mf.data| - mf.pos, 0
  {
    hide Words, UnLe, ScanObjs;
    var q := mf.pos;
    var ok, count := mf.Read(4);
    if !ok { return Err(OutOfBounds); }
    var n := UnLe(count);
    if ty == Object {
      var objs := ReadObjs(mf, n);
      if objs.Err? { return Err(objs.error); }
      r := Ok(ObjectsEntry(q, objs.value), mf.pos);
    } else {
      var vals := ReadWords(mf, n, TypeWidth(ty));
      if vals.Err? { return Err(vals.error); }
      r := Ok(ValuesEntry(q, vals.value), mf.pos);
    }
  }

  method ReadObjs(mf: Memfile, n: nat) returns (r: Result<seq<ObjScan>>)
    requires mf.pos <= |mf.data|
    modifies mf`pos
    ensures r == ScanObjs(mf.data, old(mf.pos), n)
    ensures r.Ok? ==> mf.pos == r.end
    decreases |mf.data| - mf.pos, 1
  {
    hide ScanObj, Prepend;
    ghost var b, p, all := mf.data, mf.pos, ScanObjs(mf.data, mf.pos, n);
    var objs: seq<ObjScan> := [];
    PrependNothing(all);
    for i := 0 to n
      invariant p <= mf.pos <= |b| && Prepend(objs, ScanObjs(b, mf.pos, n - i)) == all
    {
      ghost var q := mf.pos;
      var o := ReadObj(mf);
      if o.Err? {
        PrependErr(objs, ScanObjs(b, q, n - i));
        return Err(o.error);
      }
      PrependBoth(objs, o.value, ScanObjs(b, mf.pos, n - i - 1));
      objs := objs + [o.value];
    }
    PrependOk(objs, mf.pos);
    r := Ok(objs, mf.pos);
  }
}
