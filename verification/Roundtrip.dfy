/** Reading back what the writer wrote: on the bytes of a document the sequential reader
    consumes exactly those bytes, rebuilds the document, and meets every item where the offset
    index says it is. */
module Roundtrip {
  import opened Bytes
  import opened ColumnDoc
  import opened Format
  import opened Scan
  import opened Limits
  import opened Index

  // ----- words

  lemma ReadWord(b: seq<Byte>, p: nat, v: nat, w: nat)
    requires At(b, p, Le(v, w))
    ensures p + w <= |b| && Word(b, p, w) == v % Range(w)
    ensures v < Range(w) ==> Word(b, p, w) == v
  {
    UnLeLe(v, w);
    LeFits(v, w);
  }

  lemma {:induction false} ReadWordList(b: seq<Byte>, p: nat, vs: seq<nat>, w: nat)
    requires At(b, p, EncWords(vs, w)) && Fit(vs, w)
    ensures p + |vs| * w <= |b| && WordList(b, p, |vs|, w) == vs
    decreases vs
  {
    if vs != [] {
      AtSplit(b, p, Le(vs[0], w), EncWords(vs[1..], w));
      assert |vs| * w == w + (|vs| - 1) * w;
      ReadWord(b, p, vs[0], w);
      ReadWordList(b, p + w, vs[1..], w);
      assert vs == [vs[0]] + vs[1..];
    }
  }

  lemma ReadWords(b: seq<Byte>, p: nat, vs: seq<nat>, w: nat)
    requires At(b, p, EncWords(vs, w)) && Fit(vs, w)
    ensures Words(b, p, |vs|, w) == Ok(vs, p + |vs| * w)
  {
    ReadWordList(b, p, vs, w);
  }

  /** Two parts in a row, read where they lie. */
  lemma AtBoth(b: seq<Byte>, p: nat, e: seq<Byte>, f: seq<Byte>, q: nat)
    requires At(b, p, e + f) && q == p + |e|
    ensures At(b, p, e) && At(b, q, f)
  {
    AtSplit(b, p, e, f);
  }

  lemma AtByte(b: seq<Byte>, p: nat, c: Byte, f: seq<Byte>)
    requires At(b, p, [c] + f)
    ensures p < |b| && b[p] == c && At(b, p + 1, f)
  {
    AtSplit(b, p, [c], f);
    assert b[p..p + 1][0] == c;
  }

  // ----- markers, flags, offsets

  lemma MarkersDiffer(i: nat, j: nat)
    requires i < j < SLOTS
    ensures Marker(i) != Marker(j)
  {
  }

  lemma MarkersPlain(i: nat)
    requires i < SLOTS
    ensures Marker(i) != OBJECT_BEGIN && Marker(i) != OBJECT_END && Marker(i) != 0
  {
  }

  lemma SlotOfMarker(slot: nat)
    requires slot < SLOTS
    ensures SlotOf(Marker(slot)) == slot
  {
    var s := SlotFrom(Marker(slot), 0);
    if s < slot {
      MarkersDiffer(s, slot);
    }
  }

  lemma TypeOfColumnMarker(t: FieldType)
    ensures TypeOfMarker(Marker(NULL_ARRAY_SLOT + TypeIndex(t))) == t
  {
    hide SlotOf, Marker;
    SlotOfMarker(NULL_ARRAY_SLOT + TypeIndex(t));
  }

  /** The flags have one bit per slot, set for the non-empty ones. */
  lemma {:induction false} FlagBits(props: seq<Prop>, i: nat)
    requires i <= |props|
    ensures Flags(props, i) < Pow2(|props| - i)
    ensures SetBits(Flags(props, i), |props| - i) == CountProps(props, i)
    decreases |props| - i
  {
    if i < |props| {
      FlagBits(props, i + 1);
    }
  }

  lemma ReadFlags(props: seq<Prop>)
    requires |props| == SLOTS
    ensures Flags(props, 0) < Range(4) && SetBits(Flags(props, 0), SLOTS) == CountProps(props, 0)
  {
    hide CountProps, Flags, SetBits;
    FlagBits(props, 0);
    FlagRange();
  }

  lemma FlagRange()
    ensures Pow2(SLOTS) < Range(4)
  {
    assert Pow2(10) == 1024;
    assert Pow2(18) == 1024 * 256;
    Ranges();
  }

  /** Offsets to items that all start before the end fit their field. */
  lemma {:induction false} OffsetsFit(sizes: seq<nat>, q: nat, root: nat)
    requires root <= q && (sizes != [] ==> q + Sum(sizes) - root <= Range(8))
    requires forall i :: 0 <= i < |sizes| ==> sizes[i] > 0
    ensures Fit(Offsets(sizes, q, root), 8)
  {
    if sizes != [] {
      OffsetsFit(sizes[1..], q + sizes[0], root);
    }
  }

  function Sum(sizes: seq<nat>): nat { if sizes == [] then 0 else sizes[0] + Sum(sizes[1..]) }

  lemma PropSize(slot: nat, p: Prop)
    requires slot < SLOTS && ValidProp(slot, p)
    ensures SizeProp(slot, p) == 0 <==> IsEmpty(p)
  {
  }

  lemma {:induction false} PropSizesSum(props: seq<Prop>, i: nat)
    requires |props| == SLOTS && forall k :: 0 <= k < SLOTS ==> ValidProp(k, props[k])
    ensures Sum(PropSizes(props, i)) == SizeProps(props, i)
    ensures forall k :: 0 <= k < |PropSizes(props, i)| ==> PropSizes(props, i)[k] > 0
    decreases |props| - i
  {
    hide SizeProp;
    if i < |props| {
      PropSizesSum(props, i + 1);
      PropSize(i, props[i]);
      if IsEmpty(props[i]) {
        Nothing(PropSizes(props, i + 1));
      } else {
        assert ([SizeProp(i, props[i])] + PropSizes(props, i + 1))[1..] == PropSizes(props, i + 1);
      }
    }
  }

  lemma {:induction false} ObjSizesSum(objs: seq<Obj>, i: nat)
    requires i <= |objs|
    ensures Sum(ObjSizes(objs, i)) == SizeObjs(objs, i)
    ensures forall k :: 0 <= k < |ObjSizes(objs, i)| ==> ObjSizes(objs, i)[k] > 0
    decreases |objs| - i
  {
    if i < |objs| {
      ObjSizesSum(objs, i + 1);
      assert ([SizeObj(objs[i])] + ObjSizes(objs, i + 1))[1..] == ObjSizes(objs, i + 1);
    }
  }

  lemma {:induction false} GroupSizesSum(groups: seq<Group>, i: nat)
    requires i <= |groups|
    ensures Sum(GroupSizes(groups, i)) == SizeGroups(groups, i)
    ensures forall k :: 0 <= k < |GroupSizes(groups, i)| ==> GroupSizes(groups, i)[k] > 0
    decreases |groups| - i
  {
    if i < |groups| {
      GroupSizesSum(groups, i + 1);
      assert ([SizeGroup(groups[i])] + GroupSizes(groups, i + 1))[1..] == GroupSizes(groups, i + 1);
    }
  }

  lemma {:induction false} ColumnSizesSum(cols: seq<Column>, i: nat)
    requires i <= |cols|
    ensures Sum(ColumnSizes(cols, i)) == SizeColumns(cols, i)
    ensures forall k :: 0 <= k < |ColumnSizes(cols, i)| ==> ColumnSizes(cols, i)[k] > 0
    decreases |cols| - i
  {
    if i < |cols| {
      ColumnSizesSum(cols, i + 1);
      assert ([SizeColumn(cols[i])] + ColumnSizes(cols, i + 1))[1..] == ColumnSizes(cols, i + 1);
    }
  }

  lemma {:induction false} EntrySizesSum(t: FieldType, entries: seq<Entry>, i: nat)
    requires i <= |entries|
    ensures Sum(EntrySizes(t, entries, i)) == SizeEntries(t, entries, i)
    ensures forall k :: 0 <= k < |EntrySizes(t, entries, i)| ==> EntrySizes(t, entries, i)[k] > 0
    decreases |entries| - i
  {
    if i < |entries| {
      EntrySizesSum(t, entries, i + 1);
      assert ([SizeEntry(t, entries[i])] + EntrySizes(t, entries, i + 1))[1..] == EntrySizes(t, entries, i + 1);
    }
  }

  // ----- objects

  /** An object's bytes are its header, its property lists and the end marker. */
  lemma ObjParts(b: seq<Byte>, o: Obj, p: nat, root: nat, next: nat, env: Env)
    requires ValidObj(o) && root <= p && At(b, p, EncObj(o, p, root, next, env))
    ensures At(b, p, EncHead(o, p, root, next, env))
    ensures At(b, p + HeadSize(o.props), EncProps(o.props, 0, p + HeadSize(o.props), root, env) + [OBJECT_END])
  {
    hide EncHead, EncProps, At;
    Assoc(EncHead(o, p, root, next, env), EncProps(o.props, 0, p + HeadSize(o.props), root, env), [OBJECT_END]);
    AtSplit(b, p, EncHead(o, p, root, next, env), EncProps(o.props, 0, p + HeadSize(o.props), root,
        env) + [OBJECT_END]);
  }

  /** The header's fields, as ScanObj reads them. */
  lemma ReadHead(b: seq<Byte>, o: Obj, p: nat, root: nat, next: nat, env: Env)
    requires ValidObj(o) && root <= p && At(b, p, EncHead(o, p, root, next, env))
    requires next < Range(8) && p + SizeObj(o) - root <= Range(8)
    ensures var n := CountProps(o.props, 0); var q := p + 13 + 8 * n;
      && q + 8 <= |b| && b[p] == OBJECT_BEGIN
      && Word(b, p + 9, 4) == Flags(o.props, 0) && SetBits(Word(b, p + 9, 4), SLOTS) == n
      && Words(b, p + 13, n, 8) == Ok(Offsets(PropSizes(o.props, 0), p + HeadSize(o.props), root), q)
      && Word(b, q, 8) == next
  {
    hide Offsets, PropSizes, SizeProps, Flags, Le, EncWords, At, EncProps, Words, WordList, Word, SetBits, CountProps;
    var n := CountProps(o.props, 0);
    var q := p + 13 + 8 * n;
    var offs := Offsets(PropSizes(o.props, 0), p + HeadSize(o.props), root);
    var id, flags := Le(env.id(p), 8), Le(Flags(o.props, 0), 4);
    AtBoth(b, p, [OBJECT_BEGIN] + id + flags + EncWords(offs, 8), Le(next, 8), q);
    AtBoth(b, p, [OBJECT_BEGIN] + id + flags, EncWords(offs, 8), p + 13);
    AtBoth(b, p, [OBJECT_BEGIN] + id, flags, p + 9);
    AtByte(b, p, OBJECT_BEGIN, id);
    ReadFlags(o.props);
    ReadWord(b, p + 9, Flags(o.props, 0), 4);
    PropSizesSum(o.props, 0);
    OffsetsFit(PropSizes(o.props, 0), p + HeadSize(o.props), root);
    ReadWords(b, p + 13, offs, 8);
    ReadWord(b, q, next, 8);
  }

  /** Reading an object's bytes gives the object back, stops at their end, and finds every
      offset of the object right. */
  lemma {:induction false} ObjReads(b: seq<Byte>, o: Obj, p: nat, root: nat, next: nat, env: Env)
    requires ValidObj(o) && TypedObj(o) && CountedObj(o) && root <= p && next < Range(8)
    requires p + SizeObj(o) - root <= Range(8) && At(b, p, EncObj(o, p, root, next, env))
    ensures var r := ScanObj(b, p);
      && r.Ok? && r.end == p + SizeObj(o) && r.value.next == next
      && Rebuild(r.value) == o && IndexedObj(b, r.value, root)
    decreases o, 0
  {
    hide EncObj, EncHead, EncProps, At, Offsets, PropSizes, SizeProps, Words, Word, SetBits;
    hide ScanObj, ScanItems, RebuildProps, IndexedItems, CountProps;
    ObjParts(b, o, p, root, next, env);
    ReadHead(b, o, p, root, next, env);
    var q := p + HeadSize(o.props);
    ItemsRead(b, o.props, 0, q, root, env);
    assert o.props[0..] == o.props;
    ScanObjSteps(b, p, CountProps(o.props, 0), q - 8, Offsets(PropSizes(o.props, 0), q, root), ScanItems(b, q));
  }

  lemma ScanObjSteps(b: seq<Byte>, p: nat, n: nat, q: nat, offs: seq<nat>, items: Result<seq<ItemScan>>)
    requires p + 13 <= q && q + 8 <= |b| && b[p] == OBJECT_BEGIN && SetBits(Word(b, p + 9, 4), SLOTS) == n
    requires Words(b, p + 13, n, 8) == Ok(offs, q) && items == ScanItems(b, q + 8)
    ensures ScanObj(b, p) == match items
      case Err(e) => Err(e)
      case Ok(its, e) => Ok(ObjScan(p, Word(b, p + 1, 8), Word(b, p + 9, 4), offs, Word(b, q, 8), its), e + 1)
  {
    hide ScanItems, Words, Word, SetBits;
  }

  lemma {:induction false} ItemsRead(b: seq<Byte>, props: seq<Prop>, i: nat, q: nat, root: nat, env: Env)
    requires |props| == SLOTS && i <= SLOTS && root <= q
    requires forall k :: 0 <= k < SLOTS ==> ValidProp(k, props[k]) && TypedProp(k, props[k]) && CountedProp(k, props[k])
    requires q + SizeProps(props, i) - root <= Range(8) && At(b, q, EncProps(props, i, q, root, env) + [OBJECT_END])
    ensures var r := ScanItems(b, q);
      && r.Ok? && r.end == q + SizeProps(props, i) && RebuildProps(r.value, i) == props[i..]
      && (r.value != [] ==> r.value[0].slot >= i)
      && IndexedItems(b, r.value, Offsets(PropSizes(props, i), q, root), root)
    decreases props, |props| - i
  {
    hide EncProps, EncProp, SizeProp, At, Offsets, ScanItems, ScanItem, RebuildProps, RebuildItem;
    hide IndexedItems, IndexedItem, ValidProp, TypedProp, CountedProp, EmptyProp, SizeProps, PropSizes;
    hide IsEmpty, CountProps, Marker, SlotOf, Range;
    PropSizesStep(props, i);
    if i == SLOTS {
      NoItems(b, props, q, root, env);
    } else if IsEmpty(props[i]) {
      PropAbsent(b, props, i, q, root, env);
      ItemsRead(b, props, i + 1, q, root, env);
      RebuildSkip(ScanItems(b, q).value, props, i);
    } else {
      var e := q + SizeProp(i, props[i]);
      PropPresent(b, props, i, q, e, root, env);
      ItemsFollow(b, props, i + 1, e, root, env);
      ItemReads(b, i, props[i], q, root, env);
      ItemsRead(b, props, i + 1, e, root, env);
      var item, rest := ScanItem(b, q).value, ScanItems(b, e).value;
      ScanItemsStep(b, q);
      RebuildStep(item, rest, props, i);
      OffsetsStep(SizeProp(i, props[i]), PropSizes(props, i + 1), q, e, root);
      IndexedStep(b, item, rest, q - root, Offsets(PropSizes(props, i + 1), e, root), root);
    }
  }

  lemma PropSizesStep(props: seq<Prop>, i: nat)
    requires |props| == SLOTS && i <= SLOTS && forall k :: 0 <= k < SLOTS ==> ValidProp(k, props[k])
    ensures PropSizes(props, i) == if i == SLOTS then [] else if IsEmpty(props[i]) then PropSizes(props, i + 1)
                                   else [SizeProp(i, props[i])] + PropSizes(props, i + 1)
    ensures SizeProps(props, i) == if i == SLOTS then 0 else if IsEmpty(props[i]) then SizeProps(props, i + 1)
                                   else SizeProp(i, props[i]) + SizeProps(props, i + 1)
  {
    hide SizeProp, ValidProp;
    if i < SLOTS {
      PropSize(i, props[i]);
      Nothing(PropSizes(props, i + 1));
    }
  }

  /** The end marker follows the last property list. */
  lemma NoItems(b: seq<Byte>, props: seq<Prop>, q: nat, root: nat, env: Env)
    requires |props| == SLOTS && root <= q && forall k :: 0 <= k < SLOTS ==> ValidProp(k, props[k])
    requires At(b, q, EncProps(props, SLOTS, q, root, env) + [OBJECT_END])
    ensures ScanItems(b, q) == Ok([], q) && RebuildProps([], SLOTS) == props[SLOTS..]
    ensures IndexedItems(b, [], Offsets([], q, root), root)
  {
    AtByte(b, q, OBJECT_END, []);
  }

  lemma PropAbsent(b: seq<Byte>, props: seq<Prop>, i: nat, q: nat, root: nat, env: Env)
    requires |props| == SLOTS && i < SLOTS && root <= q && forall k :: 0 <= k < SLOTS ==> ValidProp(k, props[k])
    requires IsEmpty(props[i])
    ensures EncProps(props, i, q, root, env) == EncProps(props, i + 1, q, root, env) && props[i] == EmptyProp(i)
  {
    hide EncProps, PropSizes, SizeProps;
    PropSize(i, props[i]);
    EncPropsStep(props, i, q, q, root, env);
    Nothing(EncProps(props, i + 1, q, root, env));
  }

  lemma EncPropsStep(props: seq<Prop>, i: nat, q: nat, e: nat, root: nat, env: Env)
    requires |props| == SLOTS && i < SLOTS && root <= q && forall k :: 0 <= k < SLOTS ==> ValidProp(k, props[k])
    requires e == q + SizeProp(i, props[i])
    ensures EncProps(props, i, q, root, env)
            == EncProp(i, props[i], q, root, env) + EncProps(props, i + 1, e, root, env)
  {
    hide SizeProp, EncProp, ValidProp;
  }

  lemma PropPresent(b: seq<Byte>, props: seq<Prop>, i: nat, q: nat, e: nat, root: nat, env: Env)
    requires |props| == SLOTS && i < SLOTS && root <= q && forall k :: 0 <= k < SLOTS ==> ValidProp(k, props[k])
    requires e == q + SizeProp(i, props[i]) && At(b, q, EncProps(props, i, q, root, env) + [OBJECT_END])
    ensures At(b, q, EncProp(i, props[i], q, root, env))
    ensures At(b, e, EncProps(props, i + 1, e, root, env) + [OBJECT_END])
  {
    hide SizeProp, EncProps, EncProp, ValidProp, At;
    EncPropsStep(props, i, q, e, root, env);
    Assoc(EncProp(i, props[i], q, root, env), EncProps(props, i + 1, e, root, env), [OBJECT_END]);
    AtBoth(b, q, EncProp(i, props[i], q, root, env), EncProps(props, i + 1, e, root, env) + [OBJECT_END], e);
  }

  /** What follows a property list is another one's marker or the end marker. */
  lemma {:induction false} ItemsFollow(b: seq<Byte>, props: seq<Prop>, i: nat, q: nat, root: nat, env: Env)
    requires |props| == SLOTS && i <= SLOTS && root <= q && forall k :: 0 <= k < SLOTS ==> ValidProp(k, props[k])
    requires At(b, q, EncProps(props, i, q, root, env) + [OBJECT_END])
    ensures q < |b| && b[q] != OBJECT_BEGIN
    ensures b[q] != OBJECT_END ==> exists k :: i <= k < SLOTS && b[q] == Marker(k)
    decreases SLOTS - i
  {
    hide EncProps, EncProp, SizeProp, ValidProp, At;
    if i == SLOTS {
      NoItems(b, props, q, root, env);
    } else if IsEmpty(props[i]) {
      PropAbsent(b, props, i, q, root, env);
      ItemsFollow(b, props, i + 1, q, root, env);
    } else {
      PropPresent(b, props, i, q, q + SizeProp(i, props[i]), root, env);
      PropMarker(b, i, props[i], q, root, env);
      MarkersPlain(i);
    }
  }

  lemma PropMarker(b: seq<Byte>, slot: nat, p: Prop, q: nat, root: nat, env: Env)
    requires slot < SLOTS && root <= q && ValidProp(slot, p) && !IsEmpty(p) && At(b, q, EncProp(slot, p, q, root, env))
    ensures q < |b| && b[q] == Marker(slot)
  {
    assert EncProp(slot, p, q, root, env)[0] == Marker(slot);
    assert b[q] == b[q..q + |EncProp(slot, p, q, root, env)|][0];
  }

  lemma ScanItemsStep(b: seq<Byte>, q: nat)
    requires q < |b| && b[q] != OBJECT_END && ScanItem(b, q).Ok?
    ensures ScanItems(b, q) == Prepend([ScanItem(b, q).value], ScanItems(b, ScanItem(b, q).end))
  {
    hide ScanItem, Prepend;
  }

  lemma RebuildSkip(items: seq<ItemScan>, props: seq<Prop>, i: nat)
    requires |props| == SLOTS && i < SLOTS && (items == [] || items[0].slot > i) && props[i] == EmptyProp(i)
    requires RebuildProps(items, i + 1) == props[i + 1..]
    ensures RebuildProps(items, i) == props[i..]
  {
    hide EmptyProp;
    assert props[i..] == [props[i]] + props[i + 1..];
  }

  lemma RebuildStep(item: ItemScan, rest: seq<ItemScan>, props: seq<Prop>, i: nat)
    requires |props| == SLOTS && item.slot == i < SLOTS && RebuildItem(item) == props[i]
    requires RebuildProps(rest, i + 1) == props[i + 1..]
    ensures RebuildProps([item] + rest, i) == props[i..]
  {
    hide RebuildItem;
    assert ([item] + rest)[1..] == rest;
    assert props[i..] == [props[i]] + props[i + 1..];
  }

  lemma IndexedStep(b: seq<Byte>, item: ItemScan, rest: seq<ItemScan>, off: nat, offs: seq<nat>, root: nat)
    requires IndexedItem(b, item, off, root) && IndexedItems(b, rest, offs, root)
    ensures IndexedItems(b, [item] + rest, [off] + offs, root)
  {
    hide IndexedItem;
    assert ([item] + rest)[1..] == rest && ([off] + offs)[1..] == offs;
  }

  /** A property list reads back as it is, when it is one the writer writes. */
  lemma {:induction false} ItemReads(b: seq<Byte>, slot: nat, p: Prop, q: nat, root: nat, env: Env)
    requires slot < SLOTS && ValidProp(slot, p) && TypedProp(slot, p) && CountedProp(slot, p) && !IsEmpty(p)
    requires root <= q && q + SizeProp(slot, p) - root <= Range(8) && At(b, q, EncProp(slot, p, q, root, env))
    requires q + SizeProp(slot, p) < |b| && b[q + SizeProp(slot, p)] != OBJECT_BEGIN
    ensures var r := ScanItem(b, q);
      && q < |b| && b[q] != OBJECT_END && r.Ok? && r.end == q + SizeProp(slot, p) && RebuildItem(r.value) == p
          && r.value.slot == slot
      && IndexedItem(b, r.value, q - root, root)
    decreases p, 1
  {
    hide EncProp, SizeProp, At, ScanValues, ScanLists, ScanNested, ScanTable, RebuildItem, IndexedItem, SlotOf;
    hide TypedProp, CountedProp;
    PropMarker(b, slot, p, q, root, env);
    MarkersPlain(slot);
    SlotOfMarker(slot);
    match p
    case Fixed(keys, vals) => ValuesRead(b, slot, keys, vals, q, root, env);
    case Arrays(keys, arrs) => ListsRead(b, slot, keys, arrs, q, root, env);
    case Nested(keys, objs) => NestedReads(b, slot, keys, objs, q, root, env);
    case Table(groups) => TableReads(b, slot, groups, q, root, env);
  }

  lemma ReadPropHead(b: seq<Byte>, slot: nat, keys: seq<nat>, q: nat)
    requires slot < SLOTS && At(b, q, EncPropHead(slot, keys)) && Fit(keys, 8)
    ensures q + 5 <= |b| && b[q] == Marker(slot) && Word(b, q + 1, 4) == |keys| % Range(4)
    ensures |keys| < Range(4) ==> Word(b, q + 1, 4) == |keys|
    ensures Words(b, q + 5, |keys|, 8) == Ok(keys, q + 5 + 8 * |keys|)
  {
    hide At, Le, EncWords, Word, Words, Fit, Marker;
    AtBoth(b, q, [Marker(slot)] + Le(|keys|, 4), EncWords(keys, 8), q + 5);
    AtByte(b, q, Marker(slot), Le(|keys|, 4));
    ReadWord(b, q + 1, |keys|, 4);
    ReadWords(b, q + 5, keys, 8);
  }

  lemma ValuesRead(b: seq<Byte>, slot: nat, keys: seq<nat>, vals: seq<nat>, q: nat, root: nat, env: Env)
    requires slot < SLOTS && ValidProp(slot, Fixed(keys, vals)) && TypedProp(slot, Fixed(keys, vals))
    requires CountedProp(slot, Fixed(keys, vals))
    requires keys != [] && root <= q && At(b, q, EncProp(slot, Fixed(keys, vals), q, root, env))
    ensures var r := ScanValues(b, q, slot);
      && r.Ok? && r.end == q + SizeProp(slot, Fixed(keys, vals)) && RebuildItem(r.value) == Fixed(keys, vals)
      && IndexedItem(b, r.value, q - root, root)
  {
    hide At, EncPropHead, EncWords, Words, Word, Fit, Marker, WriteWidth;
    var w := WriteWidth(slot);
    AtBoth(b, q, EncPropHead(slot, keys), EncWords(vals, w), q + 5 + 8 * |keys|);
    ReadPropHead(b, slot, keys, q);
    ReadWords(b, q + 5 + 8 * |keys|, vals, w);
  }

  lemma ListsRead(b: seq<Byte>, slot: nat, keys: seq<nat>, arrs: seq<seq<nat>>, q: nat, root: nat, env: Env)
    requires slot < SLOTS && var p := Arrays(keys, arrs);
      ValidProp(slot, p) && TypedProp(slot, p) && CountedProp(slot, p)
    requires keys != [] && root <= q && At(b, q, EncProp(slot, Arrays(keys, arrs), q, root, env))
    ensures var r := ScanLists(b, q, slot);
      && r.Ok? && r.end == q + SizeProp(slot, Arrays(keys, arrs)) && RebuildItem(r.value) == Arrays(keys, arrs)
      && IndexedItem(b, r.value, q - root, root)
  {
    hide At, EncPropHead, EncWords, EncArrays, Words, Word, Fit, Marker, WriteWidth, ScanArrays, Lengths, CountedArrays;
    var k := q + 5 + 8 * |keys|;
    var l := k + 4 * |keys|;
    AtBoth(b, q, EncPropHead(slot, keys) + EncWords(Lengths(arrs, 0), 4), EncArrays(slot, arrs, 0, l, env), l);
    AtBoth(b, q, EncPropHead(slot, keys), EncWords(Lengths(arrs, 0), 4), k);
    ReadPropHead(b, slot, keys, q);
    LengthsFit(slot, arrs, 0);
    ReadWords(b, k, Lengths(arrs, 0), 4);
    ArraysRead(b, slot, arrs, 0, l, env);
    assert arrs[0..] == arrs;
  }

  lemma {:induction false} LengthsFit(slot: nat, arrs: seq<seq<nat>>, i: nat)
    requires i <= |arrs| && CountedArrays(slot, arrs)
    ensures Fit(Lengths(arrs, i), 4)
    decreases |arrs| - i
  {
    if i < |arrs| {
      LengthsFit(slot, arrs, i + 1);
    }
  }

  lemma {:induction false} ArraysRead(b: seq<Byte>, slot: nat, arrs: seq<seq<nat>>, i: nat, q: nat, env: Env)
    requires slot < SLOTS && i <= |arrs| && CountedArrays(slot, arrs)
    requires forall k :: 0 <= k < |arrs| ==> Fit(arrs[k], ReadWidth(slot))
    requires At(b, q, EncArrays(slot, arrs, i, q, env))
    ensures ScanArrays(b, q, Lengths(arrs, i), ReadWidth(slot))
        == Ok(arrs[i..], q + SizeArrays(arrs, i, WriteWidth(slot)))
    decreases |arrs| - i
  {
    hide At, EncArray, EncWords, Words, Fit, WriteWidth, ScanArrays, SizeArrays;
    SizeArraysStep(arrs, i, WriteWidth(slot));
    if i < |arrs| {
      var w := WriteWidth(slot);
      var e := q + |arrs[i]| * w;
      AtBoth(b, q, EncArray(slot, arrs[i], q, env), EncArrays(slot, arrs, i + 1, e, env), e);
      CopiedWhole(slot, arrs[i], q, env);
      ReadWords(b, q, arrs[i], ReadWidth(slot));
      ArraysRead(b, slot, arrs, i + 1, e, env);
      ScanMoreArrays(b, q, arrs[i], e, Lengths(arrs, i + 1), ReadWidth(slot));
      assert arrs[i..] == [arrs[i]] + arrs[i + 1..];
    } else {
      ScanArraysStep(b, q, [], ReadWidth(slot));
    }
  }

  lemma ScanArraysStep(b: seq<Byte>, q: nat, lens: seq<nat>, w: nat)
    ensures lens == [] ==> ScanArrays(b, q, lens, w) == Ok([], q)
    ensures lens != [] && Words(b, q, lens[0], w).Ok? ==>
      var r := Words(b, q, lens[0], w);
      ScanArrays(b, q, lens, w) == Prepend([r.value], ScanArrays(b, r.end, lens[1..], w))
  {
    hide Words, Prepend;
  }

  lemma ScanMoreArrays(b: seq<Byte>, q: nat, vals: seq<nat>, e: nat, lens: seq<nat>, w: nat)
    requires Words(b, q, |vals|, w) == Ok(vals, e)
    ensures ScanArrays(b, q, [|vals|] + lens, w) == Prepend([vals], ScanArrays(b, e, lens, w))
  {
    hide Words, Prepend, ScanArrays;
    ScanArraysStep(b, q, [|vals|] + lens, w);
    assert ([|vals|] + lens)[1..] == lens;
  }

  lemma SizeArraysStep(arrs: seq<seq<nat>>, i: nat, w: nat)
    requires i <= |arrs|
    ensures SizeArrays(arrs, i, w) == if i == |arrs| then 0 else |arrs[i]| * w + SizeArrays(arrs, i + 1, w)
  {
  }

  /** Only values are copied of an array that is not one of uint8 values, or has none. */
  lemma CopiedWhole(slot: nat, vals: seq<nat>, q: nat, env: Env)
    requires slot < SLOTS && (slot == UINT8_ARRAY_SLOT ==> vals == [])
    ensures EncArray(slot, vals, q, env) == EncWords(vals, ReadWidth(slot))
    ensures |vals| * ReadWidth(slot) == |vals| * WriteWidth(slot)
  {
    hide WriteWidth;
  }

  lemma {:induction false} NestedReads(b: seq<Byte>, slot: nat, keys: seq<nat>, objs: seq<Obj>, q: nat, root: nat,
      env: Env)
    requires slot < SLOTS && var p := Nested(keys, objs);
      ValidProp(slot, p) && TypedProp(slot, p) && CountedProp(slot, p)
    requires keys != [] && root <= q && At(b, q, EncProp(slot, Nested(keys, objs), q, root, env))
    requires var e := q + SizeProp(slot, Nested(keys, objs)); e - root <= Range(8) && e < |b| && b[e] != OBJECT_BEGIN
    ensures var r := ScanNested(b, q, slot);
      && r.Ok? && r.end == q + SizeProp(slot, Nested(keys, objs)) && RebuildItem(r.value) == Nested(keys, objs)
      && IndexedItem(b, r.value, q - root, root)
    decreases objs, |objs| + 1
  {
    hide At, EncPropHead, EncWords, EncObjs, Offsets, ObjSizes, Words, Word, Fit, Marker, ScanRow, RebuildObjs,
        IndexedObjs, Range, SlotOf;
    hide SizeObjs, WriteWidth, ReadWidth;
    var k := q + 5 + 8 * |keys|;
    var r := k + 8 * |objs|;
    var offs := Offsets(ObjSizes(objs, 0), r, root);
    AtBoth(b, q, EncPropHead(slot, keys) + EncWords(offs, 8), EncObjs(objs, 0, r, root, false, env), r);
    AtBoth(b, q, EncPropHead(slot, keys), EncWords(offs, 8), k);
    ReadPropHead(b, slot, keys, q);
    ObjSizesSum(objs, 0);
    OffsetsFit(ObjSizes(objs, 0), r, root);
    ReadWords(b, k, offs, 8);
    RowReads(b, objs, 0, r, root, env);
    assert objs[0..] == objs;
  }

  /** Nested objects: the reader goes on while the next byte opens an object. */
  lemma {:induction false} RowReads(b: seq<Byte>, objs: seq<Obj>, i: nat, q: nat, root: nat, env: Env)
    requires i < |objs| && ValidObjs(objs) && TypedObjs(objs) && CountedObjs(objs) && root <= q
    requires At(b, q, EncObjs(objs, i, q, root, false, env))
    requires var e := q + SizeObjs(objs, i); e - root <= Range(8) && e < |b| && b[e] != OBJECT_BEGIN
    ensures var r := ScanRow(b, q);
      && r.Ok? && r.end == q + SizeObjs(objs, i) && RebuildObjs(r.value) == objs[i..]
      && IndexedObjs(b, r.value, Offsets(ObjSizes(objs, i), q, root), root)
    decreases objs, |objs| - i
  {
    hide At, EncObjs, EncObj, SizeObj, Offsets, ObjSizes, ScanObj, ScanRow, RebuildObjs, Rebuild, IndexedObjs,
        IndexedObj, SizeObjs;
    hide ValidObj, TypedObj, CountedObj;
    var e := q + SizeObj(objs[i]);
    ObjsStep(objs, i, q, e, root, false, env);
    AtBoth(b, q, EncObj(objs[i], q, root, 0, env), EncObjs(objs, i + 1, e, root, false, env), e);
    Ranges();
    ObjReads(b, objs[i], q, root, 0, env);
    var o := ScanObj(b, q).value;
    OffsetsStep(SizeObj(objs[i]), ObjSizes(objs, i + 1), q, e, root);
    if i + 1 < |objs| {
      ObjBegins(b, objs, i + 1, e, root, false, env);
      RowReads(b, objs, i + 1, e, root, env);
      RowMore(b, q);
      ObjsIndexedStep(b, o, ScanRow(b, e).value, q - root, Offsets(ObjSizes(objs, i + 1), e, root), root);
      RebuildObjsStep(o, ScanRow(b, e).value, objs, i);
    } else {
      RowEnds(b, q);
      NoObjs(b, root, e);
      ObjsIndexedStep(b, o, [], q - root, Offsets(ObjSizes(objs, i + 1), e, root), root);
      RebuildObjsStep(o, [], objs, i);
    }
  }

  lemma ObjsStep(objs: seq<Obj>, i: nat, q: nat, e: nat, root: nat, chained: bool, env: Env)
    requires i < |objs| && ValidObjs(objs) && root <= q && e == q + SizeObj(objs[i])
    ensures EncObjs(objs, i, q, root, chained, env)
            == EncObj(objs[i], q, root, NextOf(objs, i, q, root, chained), env)
               + EncObjs(objs, i + 1, e, root, chained, env)
    ensures ObjSizes(objs, i) == [SizeObj(objs[i])] + ObjSizes(objs, i + 1)
    ensures SizeObjs(objs, i) == SizeObj(objs[i]) + SizeObjs(objs, i + 1)
    ensures i + 1 == |objs| ==> ObjSizes(objs, i + 1) == [] && SizeObjs(objs, i + 1) == 0
  {
    hide EncObj, SizeObj, ValidObj, NextOf;
  }

  lemma ObjBegins(b: seq<Byte>, objs: seq<Obj>, i: nat, q: nat, root: nat, chained: bool, env: Env)
    requires i < |objs| && ValidObjs(objs) && root <= q && At(b, q, EncObjs(objs, i, q, root, chained, env))
    ensures q < |b| && b[q] == OBJECT_BEGIN
  {
    hide EncProps, SizeProps;
    var next := NextOf(objs, i, q, root, chained);
    ObjsStep(objs, i, q, q + SizeObj(objs[i]), root, chained, env);
    AtSplit(b, q, EncObj(objs[i], q, root, next, env), EncObjs(objs, i + 1, q + SizeObj(objs[i]), root, chained, env));
    assert EncObj(objs[i], q, root, next, env)[0] == OBJECT_BEGIN;
    assert b[q] == b[q..q + SizeObj(objs[i])][0];
  }

  lemma RowMore(b: seq<Byte>, q: nat)
    requires ScanObj(b, q).Ok? && ScanObj(b, q).end < |b| && b[ScanObj(b, q).end] == OBJECT_BEGIN
    ensures ScanRow(b, q) == Prepend([ScanObj(b, q).value], ScanRow(b, ScanObj(b, q).end))
  {
    hide ScanObj, Prepend;
  }

  lemma RowEnds(b: seq<Byte>, q: nat)
    requires ScanObj(b, q).Ok? && ScanObj(b, q).end < |b| && b[ScanObj(b, q).end] != OBJECT_BEGIN
    ensures ScanRow(b, q) == Ok([ScanObj(b, q).value] + [], ScanObj(b, q).end)
  {
    hide ScanObj;
    Nothing([ScanObj(b, q).value]);
  }

  lemma NoObjs(b: seq<Byte>, root: nat, q: nat)
    requires root <= q
    ensures IndexedObjs(b, [], Offsets([], q, root), root) && RebuildObjs([]) == [] && LinkedObjs(b, [], root)
  {
  }

  lemma ObjsIndexedStep(b: seq<Byte>, o: ObjScan, rest: seq<ObjScan>, off: nat, offs: seq<nat>, root: nat)
    requires o.at == root + off && IndexedObj(b, o, root) && IndexedObjs(b, rest, offs, root)
    ensures IndexedObjs(b, [o] + rest, [off] + offs, root)
  {
    hide IndexedObj;
    assert ([o] + rest)[1..] == rest && ([off] + offs)[1..] == offs;
  }

  lemma RebuildObjsStep(o: ObjScan, rest: seq<ObjScan>, objs: seq<Obj>, i: nat)
    requires i < |objs| && Rebuild(o) == objs[i] && RebuildObjs(rest) == objs[i + 1..]
    ensures RebuildObjs([o] + rest) == objs[i..]
  {
    hide Rebuild;
    assert ([o] + rest)[1..] == rest;
  }

  // ----- object arrays

  lemma {:induction false} TableReads(b: seq<Byte>, slot: nat, groups: seq<Group>, q: nat, root: nat, env: Env)
    requires slot < SLOTS && ValidProp(slot, Table(groups)) && TypedProp(slot, Table(groups))
        && CountedProp(slot, Table(groups))
    requires groups != [] && root <= q && q + SizeProp(slot, Table(groups)) - root <= Range(8)
    requires At(b, q, EncProp(slot, Table(groups), q, root, env))
    ensures var r := ScanTable(b, q, slot);
      && r.Ok? && r.end == q + SizeProp(slot, Table(groups)) && RebuildItem(r.value) == Table(groups)
      && IndexedItem(b, r.value, q - root, root)
    decreases groups, |groups| + 1
  {
    hide At, EncWords, Le, EncGroups, Offsets, GroupSizes, GroupKeys, Words, Word, Fit, Marker, ScanGroups,
        RebuildGroups, Range, SlotOf;
    hide IndexedGroups, SizeGroups, ValidGroup, TypedGroup, CountedGroup;
    var r := q + 2 + 16 * |groups|;
    TableParts(b, slot, groups, q, r, root, env);
    GroupSizesSum(groups, 0);
    OffsetsFit(GroupSizes(groups, 0), r, root);
    ReadWords(b, q + 2 + 8 * |groups|, Offsets(GroupSizes(groups, 0), r, root), 8);
    GroupsRead(b, groups, 0, r, root, env);
    assert groups[0..] == groups;
  }

  lemma TableParts(b: seq<Byte>, slot: nat, groups: seq<Group>, q: nat, r: nat, root: nat, env: Env)
    requires slot < SLOTS && ValidProp(slot, Table(groups)) && TypedProp(slot, Table(groups))
    requires groups != [] && root <= q && r == q + 2 + 16 * |groups|
    requires At(b, q, EncProp(slot, Table(groups), q, root, env))
    ensures q + 2 <= |b| && b[q] == Marker(slot) && Word(b, q + 1, 1) == |groups| % Range(1)
    ensures |groups| < Range(1) ==> Word(b, q + 1, 1) == |groups|
    ensures var k := q + 2 + 8 * |groups|;
      && Words(b, q + 2, |groups|, 8) == Ok(GroupKeys(groups, 0), k)
      && At(b, k, EncWords(Offsets(GroupSizes(groups, 0), r, root), 8))
    ensures At(b, r, EncGroups(groups, 0, r, root, env))
  {
    hide At, EncWords, Le, EncGroups, Offsets, GroupSizes, GroupKeys, Words, Word, Fit, Marker;
    hide SizeGroups, ValidGroup, TypedGroup;
    var k := q + 2 + 8 * |groups|;
    var keys, offs := GroupKeys(groups, 0), Offsets(GroupSizes(groups, 0), r, root);
    AtBoth(b, q, [Marker(slot)] + Le(|groups|, 1) + EncWords(keys, 8) + EncWords(offs, 8),
           EncGroups(groups, 0, r, root, env), r);
    AtBoth(b, q, [Marker(slot)] + Le(|groups|, 1) + EncWords(keys, 8), EncWords(offs, 8), k);
    AtBoth(b, q, [Marker(slot)] + Le(|groups|, 1), EncWords(keys, 8), q + 2);
    AtByte(b, q, Marker(slot), Le(|groups|, 1));
    ReadWord(b, q + 1, |groups|, 1);
    GroupKeysFit(groups, 0);
    ReadWords(b, q + 2, keys, 8);
  }

  lemma {:induction false} GroupKeysFit(groups: seq<Group>, i: nat)
    requires i <= |groups| && forall k :: 0 <= k < |groups| ==> TypedGroup(groups[k])
    ensures Fit(GroupKeys(groups, i), 8)
    decreases |groups| - i
  {
    if i < |groups| {
      GroupKeysFit(groups, i + 1);
    }
  }

  lemma {:induction false} GroupsRead(b: seq<Byte>, groups: seq<Group>, i: nat, q: nat, root: nat, env: Env)
    requires i <= |groups| && root <= q
    requires forall k :: 0 <= k < |groups| ==> ValidGroup(groups[k]) && TypedGroup(groups[k]) && CountedGroup(groups[k])
    requires q + SizeGroups(groups, i) - root <= Range(8) && At(b, q, EncGroups(groups, i, q, root, env))
    ensures var r := ScanGroups(b, q, |groups| - i);
      && r.Ok? && r.end == q + SizeGroups(groups, i) && RebuildGroups(GroupKeys(groups, i), r.value) == groups[i..]
      && IndexedGroups(b, r.value, Offsets(GroupSizes(groups, i), q, root), root)
    decreases groups, |groups| - i
  {
    hide At, EncGroup, EncGroups, SizeGroup, SizeGroups, Offsets, GroupSizes, GroupKeys, ScanGroup, ScanGroups;
    hide RebuildGroups, RebuildColumns, IndexedGroups, IndexedColumns, ValidGroup, TypedGroup, CountedGroup, Numbered;
    if i == |groups| {
      NoGroups(b, groups, q, root);
    } else {
      var e := q + SizeGroup(groups[i]);
      GroupsStep(groups, i, q, e, root, env);
      AtBoth(b, q, EncGroup(groups[i], q, root, env), EncGroups(groups, i + 1, e, root, env), e);
      GroupReads(b, groups[i], q, root, env);
      GroupsRead(b, groups, i + 1, e, root, env);
      OffsetsStep(SizeGroup(groups[i]), GroupSizes(groups, i + 1), q, e, root);
      ScanGroupsStep(b, q, |groups| - i);
      GroupsIndexedStep(b, ScanGroup(b, q).value, ScanGroups(b, e, |groups| - i - 1).value, q - root,
                        Offsets(GroupSizes(groups, i + 1), e, root), root);
      RebuildGroupsStep(ScanGroup(b, q).value, ScanGroups(b, e, |groups| - i - 1).value, groups, i);
    }
  }

  lemma NoGroups(b: seq<Byte>, groups: seq<Group>, q: nat, root: nat)
    requires root <= q
    ensures ScanGroups(b, q, 0) == Ok([], q) && SizeGroups(groups, |groups|) == 0
    ensures RebuildGroups(GroupKeys(groups, |groups|), []) == groups[|groups|..]
    ensures IndexedGroups(b, [], Offsets(GroupSizes(groups, |groups|), q, root), root)
  {
  }

  lemma GroupsStep(groups: seq<Group>, i: nat, q: nat, e: nat, root: nat, env: Env)
    requires i < |groups| && root <= q && e == q + SizeGroup(groups[i])
    requires forall k :: 0 <= k < |groups| ==> ValidGroup(groups[k])
    ensures EncGroups(groups, i, q, root, env)
            == EncGroup(groups[i], q, root, env) + EncGroups(groups, i + 1, e, root, env)
    ensures GroupSizes(groups, i) == [SizeGroup(groups[i])] + GroupSizes(groups, i + 1)
    ensures SizeGroups(groups, i) == SizeGroup(groups[i]) + SizeGroups(groups, i + 1)
  {
    hide EncGroup, SizeGroup, ValidGroup;
  }

  lemma ScanGroupsStep(b: seq<Byte>, q: nat, n: nat)
    requires n > 0 && ScanGroup(b, q).Ok?
    ensures ScanGroups(b, q, n) == Prepend([ScanGroup(b, q).value], ScanGroups(b, ScanGroup(b, q).end, n - 1))
  {
    hide ScanGroup, Prepend;
  }

  lemma GroupsIndexedStep(b: seq<Byte>, g: GroupScan, rest: seq<GroupScan>, off: nat, offs: seq<nat>, root: nat)
    requires g.at == root + off && g.at < |b| && b[g.at] == COLUMN_GROUP && Numbered(g)
    requires IndexedColumns(b, g.cols, g.offs, root) && IndexedGroups(b, rest, offs, root)
    ensures IndexedGroups(b, [g] + rest, [off] + offs, root)
  {
    hide IndexedColumns, Numbered;
    assert ([g] + rest)[1..] == rest && ([off] + offs)[1..] == offs;
  }

  lemma RebuildGroupsStep(g: GroupScan, rest: seq<GroupScan>, groups: seq<Group>, i: nat)
    requires i < |groups| && RebuildColumns(g.cols) == groups[i].cols
    requires RebuildGroups(GroupKeys(groups, i + 1), rest) == groups[i + 1..]
    ensures RebuildGroups(GroupKeys(groups, i), [g] + rest) == groups[i..]
  {
    hide RebuildColumns;
    assert ([g] + rest)[1..] == rest && GroupKeys(groups, i)[1..] == GroupKeys(groups, i + 1);
    assert groups[i..] == [groups[i]] + groups[i + 1..];
  }

  lemma {:induction false} GroupReads(b: seq<Byte>, g: Group, q: nat, root: nat, env: Env)
    requires ValidGroup(g) && TypedGroup(g) && CountedGroup(g) && root <= q
    requires q + SizeGroup(g) - root <= Range(8) && At(b, q, EncGroup(g, q, root, env))
    ensures var r := ScanGroup(b, q);
      && r.Ok? && r.end == q + SizeGroup(g) && RebuildColumns(r.value.cols) == g.cols && Numbered(r.value)
      && IndexedColumns(b, r.value.cols, r.value.offs, root)
    decreases g, 1
  {
    hide At, EncWords, Le, EncColumns, Offsets, ColumnSizes, NumObjects, DrawnIds, Words, Word, Fit, ScanColumns;
    hide Numbered, RebuildColumns, IndexedColumns, SizeColumns, ValidColumn, TypedColumn, CountedColumn;
    var r := q + 9 + 8 * NumObjects(g) + 8 * |g.cols|;
    GroupParts(b, g, q, r, root, env);
    ReadAnyWords(b, q + 9, DrawnIds(NumObjects(g), q + 9, env), 8);
    ColumnSizesSum(g.cols, 0);
    OffsetsFit(ColumnSizes(g.cols, 0), r, root);
    ReadWords(b, r - 8 * |g.cols|, Offsets(ColumnSizes(g.cols, 0), r, root), 8);
    ColumnsRead(b, g.cols, 0, r, root, env);
    assert g.cols[0..] == g.cols;
    RowsNumbered(ScanGroup(b, q).value, g);
  }

  lemma RowsNumbered(s: GroupScan, g: Group)
    requires |s.oids| == NumObjects(g) && RebuildColumns(s.cols) == g.cols
    ensures Numbered(s)
  {
    hide MaxPosition, RebuildColumns;
  }

  lemma GroupParts(b: seq<Byte>, g: Group, q: nat, r: nat, root: nat, env: Env)
    requires ValidGroup(g) && root <= q && r == q + 9 + 8 * NumObjects(g) + 8 * |g.cols|
    requires At(b, q, EncGroup(g, q, root, env))
    ensures q + 9 <= |b| && b[q] == COLUMN_GROUP && Word(b, q + 5, 4) == NumObjects(g)
    ensures Word(b, q + 1, 4) == |g.cols| % Range(4) && (|g.cols| < Range(4) ==> Word(b, q + 1, 4) == |g.cols|)
    ensures At(b, q + 9, EncWords(DrawnIds(NumObjects(g), q + 9, env), 8))
    ensures At(b, r - 8 * |g.cols|, EncWords(Offsets(ColumnSizes(g.cols, 0), r, root), 8))
    ensures At(b, r, EncColumns(g.cols, 0, r, root, env))
  {
    hide At, EncWords, Le, EncColumns, Offsets, ColumnSizes, NumObjects, DrawnIds, Word, SizeColumns, ValidColumn;
    var n, m := |g.cols|, NumObjects(g);
    var oids, offs := DrawnIds(m, q + 9, env), Offsets(ColumnSizes(g.cols, 0), r, root);
    var head := [COLUMN_GROUP] + Le(n, 4) + Le(m, 4);
    AtBoth(b, q, head + EncWords(oids, 8) + EncWords(offs, 8), EncColumns(g.cols, 0, r, root, env), r);
    AtBoth(b, q, head + EncWords(oids, 8), EncWords(offs, 8), r - 8 * n);
    AtBoth(b, q, head, EncWords(oids, 8), q + 9);
    AtBoth(b, q, [COLUMN_GROUP] + Le(n, 4), Le(m, 4), q + 5);
    AtByte(b, q, COLUMN_GROUP, Le(n, 4));
    ReadWord(b, q + 1, n, 4);
    NumObjectsFit(g);
    ReadWord(b, q + 5, m, 4);
  }

  lemma NumObjectsFit(g: Group)
    ensures NumObjects(g) < Range(4)
  {
    hide MaxPosition;
    Ranges();
  }

  lemma ReadAnyWords(b: seq<Byte>, p: nat, vs: seq<nat>, w: nat)
    requires At(b, p, EncWords(vs, w))
    ensures Words(b, p, |vs|, w).Ok? && Words(b, p, |vs|, w).end == p + |vs| * w
  {
  }

  lemma {:induction false} ColumnsRead(b: seq<Byte>, cols: seq<Column>, i: nat, q: nat, root: nat, env: Env)
    requires i <= |cols| && root <= q
    requires forall k :: 0 <= k < |cols| ==> ValidColumn(cols[k]) && TypedColumn(cols[k]) && CountedColumn(cols[k])
    requires q + SizeColumns(cols, i) - root <= Range(8) && At(b, q, EncColumns(cols, i, q, root, env))
    ensures var r := ScanColumns(b, q, |cols| - i);
      && r.Ok? && r.end == q + SizeColumns(cols, i) && RebuildColumns(r.value) == cols[i..]
      && IndexedColumns(b, r.value, Offsets(ColumnSizes(cols, i), q, root), root)
    decreases cols, |cols| - i
  {
    hide At, EncColumn, EncColumns, SizeColumn, SizeColumns, Offsets, ColumnSizes, ScanColumn, ScanColumns;
    hide RebuildColumns, RebuildEntries, IndexedColumns, IndexedEntries, ValidColumn, TypedColumn, CountedColumn;
    if i == |cols| {
      NoColumns(b, cols, q, root);
    } else {
      var e := q + SizeColumn(cols[i]);
      ColumnsStep(cols, i, q, e, root, env);
      AtBoth(b, q, EncColumn(cols[i], q, root, env), EncColumns(cols, i + 1, e, root, env), e);
      ColumnReads(b, cols[i], q, root, env);
      ColumnsRead(b, cols, i + 1, e, root, env);
      OffsetsStep(SizeColumn(cols[i]), ColumnSizes(cols, i + 1), q, e, root);
      ScanColumnsStep(b, q, |cols| - i);
      ColumnsIndexedStep(b, ScanColumn(b, q).value, ScanColumns(b, e, |cols| - i - 1).value, q - root,
                         Offsets(ColumnSizes(cols, i + 1), e, root), root);
      RebuildColumnsStep(ScanColumn(b, q).value, ScanColumns(b, e, |cols| - i - 1).value, cols, i);
    }
  }

  lemma NoColumns(b: seq<Byte>, cols: seq<Column>, q: nat, root: nat)
    requires root <= q
    ensures ScanColumns(b, q, 0) == Ok([], q) && SizeColumns(cols, |cols|) == 0
    ensures RebuildColumns([]) == cols[|cols|..]
    ensures IndexedColumns(b, [], Offsets(ColumnSizes(cols, |cols|), q, root), root)
  {
  }

  lemma ColumnsStep(cols: seq<Column>, i: nat, q: nat, e: nat, root: nat, env: Env)
    requires i < |cols| && root <= q && e == q + SizeColumn(cols[i])
    requires forall k :: 0 <= k < |cols| ==> ValidColumn(cols[k])
    ensures EncColumns(cols, i, q, root, env)
            == EncColumn(cols[i], q, root, env) + EncColumns(cols, i + 1, e, root, env)
    ensures ColumnSizes(cols, i) == [SizeColumn(cols[i])] + ColumnSizes(cols, i + 1)
    ensures SizeColumns(cols, i) == SizeColumn(cols[i]) + SizeColumns(cols, i + 1)
  {
    hide EncColumn, SizeColumn, ValidColumn;
  }

  lemma ScanColumnsStep(b: seq<Byte>, q: nat, n: nat)
    requires n > 0 && ScanColumn(b, q).Ok?
    ensures ScanColumns(b, q, n) == Prepend([ScanColumn(b, q).value], ScanColumns(b, ScanColumn(b, q).end, n - 1))
  {
    hide ScanColumn, Prepend;
  }

  lemma ColumnsIndexedStep(b: seq<Byte>, c: ColumnScan, rest: seq<ColumnScan>, off: nat, offs: seq<nat>, root: nat)
    requires c.at == root + off && c.at < |b| && b[c.at] == COLUMN && IndexedEntries(b, c.entries, c.offs, root)
    requires IndexedColumns(b, rest, offs, root)
    ensures IndexedColumns(b, [c] + rest, [off] + offs, root)
  {
    hide IndexedEntries;
    assert ([c] + rest)[1..] == rest && ([off] + offs)[1..] == offs;
  }

  lemma RebuildColumnsStep(c: ColumnScan, rest: seq<ColumnScan>, cols: seq<Column>, i: nat)
    requires i < |cols| && Column(c.name, c.ty, c.positions, RebuildEntries(c.entries)) == cols[i]
    requires RebuildColumns(rest) == cols[i + 1..]
    ensures RebuildColumns([c] + rest) == cols[i..]
  {
    hide RebuildEntries;
    assert ([c] + rest)[1..] == rest;
    assert cols[i..] == [cols[i]] + cols[i + 1..];
  }

  lemma {:induction false} ColumnReads(b: seq<Byte>, c: Column, q: nat, root: nat, env: Env)
    requires ValidColumn(c) && TypedColumn(c) && CountedColumn(c) && root <= q
    requires q + SizeColumn(c) - root <= Range(8) && At(b, q, EncColumn(c, q, root, env))
    ensures var r := ScanColumn(b, q);
      && r.Ok? && r.end == q + SizeColumn(c)
      && Column(r.value.name, r.value.ty, r.value.positions, RebuildEntries(r.value.entries)) == c
      && IndexedEntries(b, r.value.entries, r.value.offs, root)
    decreases c, 1
  {
    hide At, EncWords, EncEntries, EncColumnHead, Offsets, EntrySizes, Words, Word, Fit, ScanEntries, TypeOfMarker;
    hide RebuildEntries, IndexedEntries, SizeEntries, ValidEntry, TypedEntry, CountedEntry;
    var n := |c.entries|;
    var r := q + 14 + 12 * n;
    ColumnParts(b, c, q, r, root, env);
    ReadColumnHead(b, c, q);
    EntrySizesSum(c.ty, c.entries, 0);
    OffsetsFit(EntrySizes(c.ty, c.entries, 0), r, root);
    ReadWords(b, q + 14, Offsets(EntrySizes(c.ty, c.entries, 0), r, root), 8);
    ReadWords(b, q + 14 + 8 * n, c.positions, 4);
    EntriesRead(b, c.ty, c.entries, 0, r, root, env);
    assert c.entries[0..] == c.entries;
  }

  lemma ColumnParts(b: seq<Byte>, c: Column, q: nat, r: nat, root: nat, env: Env)
    requires ValidColumn(c) && root <= q && r == q + 14 + 12 * |c.entries| && At(b, q, EncColumn(c, q, root, env))
    ensures At(b, q, EncColumnHead(c))
    ensures At(b, q + 14, EncWords(Offsets(EntrySizes(c.ty, c.entries, 0), r, root), 8))
    ensures At(b, q + 14 + 8 * |c.entries|, EncWords(c.positions, 4))
    ensures At(b, r, EncEntries(c.ty, c.entries, 0, r, root, env))
  {
    hide At, EncWords, EncEntries, EncColumnHead, Offsets, EntrySizes, SizeEntries, ValidEntry;
    var offs := Offsets(EntrySizes(c.ty, c.entries, 0), r, root);
    AtBoth(b, q, EncColumnHead(c) + EncWords(offs, 8) + EncWords(c.positions, 4),
           EncEntries(c.ty, c.entries, 0, r, root, env), r);
    AtBoth(b, q, EncColumnHead(c) + EncWords(offs, 8), EncWords(c.positions, 4), q + 14 + 8 * |c.entries|);
    AtBoth(b, q, EncColumnHead(c), EncWords(offs, 8), q + 14);
  }

  lemma ReadColumnHead(b: seq<Byte>, c: Column, q: nat)
    requires At(b, q, EncColumnHead(c)) && c.name < Range(8)
    ensures q + 14 <= |b| && b[q] == COLUMN && Word(b, q + 1, 8) == c.name && TypeOfMarker(b[q + 9]) == c.ty
    ensures Word(b, q + 10, 4) == |c.entries| % Range(4)
    ensures |c.entries| < Range(4) ==> Word(b, q + 10, 4) == |c.entries|
  {
    hide At, Le, Word, TypeOfMarker, Marker;
    var marker := Marker(NULL_ARRAY_SLOT + TypeIndex(c.ty));
    AtBoth(b, q, [COLUMN] + Le(c.name, 8) + [marker], Le(|c.entries|, 4), q + 10);
    AtBoth(b, q, [COLUMN] + Le(c.name, 8), [marker], q + 9);
    AtByte(b, q, COLUMN, Le(c.name, 8));
    Nothing([marker]);
    AtByte(b, q + 9, marker, []);
    ReadWord(b, q + 1, c.name, 8);
    ReadWord(b, q + 10, |c.entries|, 4);
    TypeOfColumnMarker(c.ty);
  }

  lemma {:induction false} EntriesRead(b: seq<Byte>, t: FieldType, entries: seq<Entry>, i: nat, q: nat, root: nat,
      env: Env)
    requires i <= |entries| && root <= q
    requires forall k :: 0 <= k < |entries| ==>
      ValidEntry(t, entries[k]) && TypedEntry(t, entries[k]) && CountedEntry(entries[k])
    requires q + SizeEntries(t, entries, i) - root <= Range(8) && At(b, q, EncEntries(t, entries, i, q, root, env))
    ensures var r := ScanEntries(b, q, t, |entries| - i);
      && r.Ok? && r.end == q + SizeEntries(t, entries, i) && RebuildEntries(r.value) == entries[i..]
      && IndexedEntries(b, r.value, Offsets(EntrySizes(t, entries, i), q, root), root)
    decreases entries, |entries| - i
  {
    hide At, EncEntry, EncEntries, SizeEntry, SizeEntries, Offsets, EntrySizes, ScanEntry, ScanEntries, Range;
    hide RebuildEntry, RebuildEntries, IndexedEntries, IndexedEntry, ValidEntry, TypedEntry, CountedEntry;
    if i == |entries| {
      NoEntries(b, t, entries, q, root);
    } else {
      var e := q + SizeEntry(t, entries[i]);
      EntriesStep(t, entries, i, q, e, root, env);
      AtBoth(b, q, EncEntry(t, entries[i], q, root, env), EncEntries(t, entries, i + 1, e, root, env), e);
      EntryReads(b, t, entries[i], q, root, env);
      EntriesRead(b, t, entries, i + 1, e, root, env);
      OffsetsStep(SizeEntry(t, entries[i]), EntrySizes(t, entries, i + 1), q, e, root);
      ScanEntriesStep(b, q, t, |entries| - i);
      EntriesIndexedStep(b, ScanEntry(b, q, t).value, ScanEntries(b, e, t, |entries| - i - 1).value, q - root,
                         Offsets(EntrySizes(t, entries, i + 1), e, root), root);
      RebuildEntriesStep(ScanEntry(b, q, t).value, ScanEntries(b, e, t, |entries| - i - 1).value, entries, i);
    }
  }

  lemma NoEntries(b: seq<Byte>, t: FieldType, entries: seq<Entry>, q: nat, root: nat)
    requires root <= q
    ensures ScanEntries(b, q, t, 0) == Ok([], q) && SizeEntries(t, entries, |entries|) == 0
    ensures RebuildEntries([]) == entries[|entries|..]
    ensures IndexedEntries(b, [], Offsets(EntrySizes(t, entries, |entries|), q, root), root)
  {
  }

  lemma EntriesStep(t: FieldType, entries: seq<Entry>, i: nat, q: nat, e: nat, root: nat, env: Env)
    requires i < |entries| && root <= q && e == q + SizeEntry(t, entries[i])
    requires forall k :: 0 <= k < |entries| ==> ValidEntry(t, entries[k])
    ensures EncEntries(t, entries, i, q, root, env)
            == EncEntry(t, entries[i], q, root, env) + EncEntries(t, entries, i + 1, e, root, env)
    ensures EntrySizes(t, entries, i) == [SizeEntry(t, entries[i])] + EntrySizes(t, entries, i + 1)
    ensures SizeEntries(t, entries, i) == SizeEntry(t, entries[i]) + SizeEntries(t, entries, i + 1)
  {
    hide EncEntry, SizeEntry, ValidEntry;
  }

  lemma ScanEntriesStep(b: seq<Byte>, q: nat, t: FieldType, n: nat)
    requires n > 0 && ScanEntry(b, q, t).Ok?
    ensures ScanEntries(b, q, t, n)
            == Prepend([ScanEntry(b, q, t).value], ScanEntries(b, ScanEntry(b, q, t).end, t, n - 1))
  {
    hide ScanEntry, Prepend;
  }

  lemma EntriesIndexedStep(b: seq<Byte>, e: EntryScan, rest: seq<EntryScan>, off: nat, offs: seq<nat>, root: nat)
    requires e.at == root + off && IndexedEntry(b, e, root) && IndexedEntries(b, rest, offs, root)
    ensures IndexedEntries(b, [e] + rest, [off] + offs, root)
  {
    hide IndexedEntry;
    assert ([e] + rest)[1..] == rest && ([off] + offs)[1..] == offs;
  }

  lemma RebuildEntriesStep(e: EntryScan, rest: seq<EntryScan>, entries: seq<Entry>, i: nat)
    requires i < |entries| && RebuildEntry(e) == entries[i] && RebuildEntries(rest) == entries[i + 1..]
    ensures RebuildEntries([e] + rest) == entries[i..]
  {
    hide RebuildEntry;
    assert ([e] + rest)[1..] == rest;
    assert entries[i..] == [entries[i]] + entries[i + 1..];
  }

  lemma {:induction false} EntryReads(b: seq<Byte>, t: FieldType, e: Entry, q: nat, root: nat, env: Env)
    requires ValidEntry(t, e) && TypedEntry(t, e) && CountedEntry(e) && root <= q
    requires q + SizeEntry(t, e) - root <= Range(8) && At(b, q, EncEntry(t, e, q, root, env))
    ensures var r := ScanEntry(b, q, t);
      && r.Ok? && r.end == q + SizeEntry(t, e) && RebuildEntry(r.value) == e && IndexedEntry(b, r.value, root)
    decreases e, 1
  {
    hide At, EncWords, Le, EncObjs, Words, Word, Fit, ScanObjs, RebuildObjs, LinkedObjs, SizeObjs, TypeWidth;
    match e
    case Vals(vals) =>
      AtBoth(b, q, Le(|vals|, 4), EncWords(vals, TypeWidth(t)), q + 4);
      ReadWord(b, q, |vals|, 4);
      ReadWords(b, q + 4, vals, TypeWidth(t));
    case Objs(objs) =>
      AtBoth(b, q, Le(|objs|, 4), EncObjs(objs, 0, q + 4, root, true, env), q + 4);
      ReadWord(b, q, |objs|, 4);
      ChainReads(b, objs, 0, q + 4, root, env);
      assert objs[0..] == objs;
  }

  /** The objects of a column entry, each linked to the next. */
  lemma {:induction false} ChainReads(b: seq<Byte>, objs: seq<Obj>, i: nat, q: nat, root: nat, env: Env)
    requires i <= |objs| && ValidObjs(objs) && TypedObjs(objs) && CountedObjs(objs) && root < q
    requires q + SizeObjs(objs, i) - root <= Range(8) && At(b, q, EncObjs(objs, i, q, root, true, env))
    ensures var r := ScanObjs(b, q, |objs| - i);
      && r.Ok? && r.end == q + SizeObjs(objs, i) && RebuildObjs(r.value) == objs[i..] && LinkedObjs(b, r.value, root)
      && |r.value| == |objs| - i && (i < |objs| ==> r.value[0].at == q)
    decreases objs, |objs| - i
  {
    hide At, EncObjs, EncObj, SizeObj, ScanObj, ScanObjs, RebuildObjs, Rebuild, LinkedObjs, IndexedObj, SizeObjs;
    hide ValidObj, TypedObj, CountedObj;
    if i == |objs| {
      NoChain(b, objs, q, root);
    } else {
      var e, next := q + SizeObj(objs[i]), NextOf(objs, i, q, root, true);
      ObjsStep(objs, i, q, e, root, true, env);
      AtBoth(b, q, EncObj(objs[i], q, root, next, env), EncObjs(objs, i + 1, e, root, true, env), e);
      NextFits(objs, i, q, root);
      ObjReads(b, objs[i], q, root, next, env);
      ChainReads(b, objs, i + 1, e, root, env);
      ScanObjsStep(b, q, |objs| - i);
      LinkedStep(b, ScanObj(b, q).value, ScanObjs(b, e, |objs| - i - 1).value, root);
      RebuildObjsStep(ScanObj(b, q).value, ScanObjs(b, e, |objs| - i - 1).value, objs, i);
    }
  }

  lemma NoChain(b: seq<Byte>, objs: seq<Obj>, q: nat, root: nat)
    ensures ScanObjs(b, q, 0) == Ok([], q) && SizeObjs(objs, |objs|) == 0
    ensures RebuildObjs([]) == objs[|objs|..] && LinkedObjs(b, [], root)
  {
  }

  lemma NextFits(objs: seq<Obj>, i: nat, q: nat, root: nat)
    requires i < |objs| && root < q && q + SizeObjs(objs, i) - root <= Range(8)
    ensures NextOf(objs, i, q, root, true) < Range(8)
  {
    hide SizeObj;
    if i + 1 < |objs| {
      assert SizeObjs(objs, i + 1) == SizeObj(objs[i + 1]) + SizeObjs(objs, i + 2);
      ObjSize(objs[i + 1]);
    }
    Ranges();
  }

  lemma ObjSize(o: Obj)
    ensures SizeObj(o) >= 22
  {
    hide SizeProps, CountProps;
  }

  lemma ScanObjsStep(b: seq<Byte>, q: nat, n: nat)
    requires n > 0 && ScanObj(b, q).Ok?
    ensures ScanObjs(b, q, n) == Prepend([ScanObj(b, q).value], ScanObjs(b, ScanObj(b, q).end, n - 1))
  {
    hide ScanObj, Prepend;
  }

  lemma LinkedStep(b: seq<Byte>, o: ObjScan, rest: seq<ObjScan>, root: nat)
    requires IndexedObj(b, o, root) && LinkedObjs(b, rest, root)
    requires if rest == [] then o.next == 0 else o.next > 0 && rest[0].at == root + o.next
    ensures LinkedObjs(b, [o] + rest, root)
  {
    hide IndexedObj;
    assert ([o] + rest)[1..] == rest;
  }
}
