/** What the writer makes of the columns of a document: everything stays as it is but the numbers
    of nulls. */
module NullCopy {
  import opened Bytes
  import opened ColumnDoc
  import opened Document
  import opened Columns
  import opened Format
  import opened Limits
  import opened NullWords

  /** The bytes of a new vector of numbers of null arrays, which has place for ten. */
  const ARRAYS_SPACE: nat := 20

  /** The bytes of a new vector for a cell of nulls, which has a place for each null: of one null the
      number 1 is stored in one place, and any other number in more than one. */
  function CellSpace(counts: seq<nat>): nat { if counts == [1] then 2 else 4 * |counts| }

  /** r is what the writer can make of o: the numbers of nulls are copied, all else stays. */
  ghost predicate Copied(o: Obj, r: Obj)
    decreases o
  {
    |r.props| == |o.props| && forall i :: 0 <= i < |o.props| ==> CopiedProp(i, o.props[i], r.props[i])
  }

  ghost predicate CopiedProp(slot: nat, p: Prop, q: Prop)
    decreases p
  {
    match p
    case Fixed(keys, vals) =>
      if slot == NULL_ARRAY_SLOT then q.Fixed? && q.keys == keys && CopiedWords(vals, ARRAYS_SPACE, q.vals) else q == p
    case Nested(keys, objs) => q.Nested? && q.keys == keys && CopiedObjs(objs, q.objs)
    case Arrays(_, _) => q == p
    case Table(groups) =>
      q.Table? && |q.groups| == |groups| && forall i :: 0 <= i < |groups| ==> CopiedGroup(groups[i], q.groups[i])
  }

  ghost predicate CopiedObjs(objs: seq<Obj>, copies: seq<Obj>)
    decreases objs
  {
    |copies| == |objs| && forall i :: 0 <= i < |objs| ==> Copied(objs[i], copies[i])
  }

  ghost predicate CopiedGroup(g: Group, h: Group)
    decreases g
  {
    h.key == g.key && |h.cols| == |g.cols| && forall i :: 0 <= i < |g.cols| ==> CopiedColumn(g.cols[i], h.cols[i])
  }

  ghost predicate CopiedColumn(c: Column, d: Column)
    decreases c
  {
    && d.name == c.name && d.ty == c.ty && d.positions == c.positions && |d.entries| == |c.entries|
    && forall i :: 0 <= i < |c.entries| ==> CopiedEntry(c.ty, c.entries[i], d.entries[i])
  }

  ghost predicate CopiedEntry(ty: FieldType, e: Entry, f: Entry)
    decreases e
  {
    match e
    case Vals(vals) => if ty == Null then f.Vals? && CopiedWords(vals, CellSpace(vals), f.vals) else f == e
    case Objs(objs) => f.Objs? && CopiedObjs(objs, f.objs)
  }

  /** The byte that memory holds k bytes behind the numbers of the vector at a place in an object,
      if the vector is not that long. */
  type Heap = (seq<nat>, nat) -> Byte

  function CopyWords(counts: seq<nat>, space: nat, place: seq<nat>, heap: Heap): (words: seq<nat>)
    ensures CopiedWords(counts, space, words)
  {
    WordsBehind(counts, Behind(|counts|, space, place, heap))
  }

  function Behind(n: nat, space: nat, place: seq<nat>, heap: Heap): (behind: seq<Byte>)
    ensures CanFollow(n, space, behind)
  {
    seq(2 * n, k requires 0 <= k => if 2 * n + k < space then 0 else heap(place, k))
  }

  function CopyObj(o: Obj, place: seq<nat>, heap: Heap): (r: Obj)
    ensures Copied(o, r)
    decreases o
  {
    Obj(seq(|o.props|, (i: nat) requires i < |o.props| => CopyProp(i, o.props[i], place + [i], heap)))
  }

  function CopyProp(slot: nat, p: Prop, place: seq<nat>, heap: Heap): (q: Prop)
    ensures CopiedProp(slot, p, q)
    decreases p
  {
    match p
    case Fixed(keys, vals) =>
      if slot == NULL_ARRAY_SLOT then Fixed(keys, CopyWords(vals, ARRAYS_SPACE, place, heap)) else p
    case Nested(keys, objs) => Nested(keys, CopyObjs(objs, place, heap))
    case Arrays(_, _) => p
    case Table(groups) =>
      Table(seq(|groups|, (i: nat) requires i < |groups| => CopyGroup(groups[i], place + [i], heap)))
  }

  function CopyObjs(objs: seq<Obj>, place: seq<nat>, heap: Heap): (copies: seq<Obj>)
    ensures CopiedObjs(objs, copies)
    decreases objs
  {
    seq(|objs|, (i: nat) requires i < |objs| => CopyObj(objs[i], place + [i], heap))
  }

  function CopyGroup(g: Group, place: seq<nat>, heap: Heap): (h: Group)
    ensures CopiedGroup(g, h)
    decreases g
  {
    Group(g.key, seq(|g.cols|, (i: nat) requires i < |g.cols| => CopyColumn(g.cols[i], place + [i], heap)))
  }

  function CopyColumn(c: Column, place: seq<nat>, heap: Heap): (d: Column)
    ensures CopiedColumn(c, d)
    decreases c
  {
    Column(c.name, c.ty, c.positions,
           seq(|c.entries|, (i: nat) requires i < |c.entries| => CopyEntry(c.ty, c.entries[i], place + [i], heap)))
  }

  function CopyEntry(ty: FieldType, e: Entry, place: seq<nat>, heap: Heap): (f: Entry)
    ensures CopiedEntry(ty, e, f)
    decreases e
  {
    match e
    case Vals(vals) => if ty == Null then Vals(CopyWords(vals, CellSpace(vals), place, heap)) else e
    case Objs(objs) => Objs(CopyObjs(objs, place, heap))
  }

  /** Of up to five arrays of nulls the numbers are always written the same, and of six to ten they are
      not. */
  lemma FiveArrays(counts: seq<nat>)
    requires 0 < |counts| <= 10
    ensures |counts| <= 5 <==>
            forall words, more ::
              CopiedWords(counts, ARRAYS_SPACE, words) && CopiedWords(counts, ARRAYS_SPACE, more) ==> words == more
  {
    hide CopiedWords;
    FiveNumbers(counts);
  }

  lemma CopiedRows(g: Group, h: Group)
    requires CopiedGroup(g, h)
    ensures NumObjects(h) == NumObjects(g)
  {
    hide MaxPosition, CopiedEntry;
    SamePositions(g.cols, h.cols, 0);
  }

  lemma {:induction false} SamePositions(cols: seq<Column>, cols': seq<Column>, i: nat)
    requires |cols'| == |cols| && forall c :: 0 <= c < |cols| ==> cols'[c].positions == cols[c].positions
    ensures MaxPosition(cols', i) == MaxPosition(cols, i)
    decreases |cols| - i
  {
    if i < |cols| {
      SamePositions(cols, cols', i + 1);
    }
  }

  /** A copy is valid and as long as the object, and its numbers and counts fit if those of the
      object do. */
  lemma {:induction false} CopyKeeps(o: Obj, r: Obj)
    requires ValidObj(o) && Copied(o, r)
    ensures ValidObj(r) && (TypedObj(o) ==> TypedObj(r)) && (CountedObj(o) ==> CountedObj(r))
    ensures SizeObj(r) == SizeObj(o)
    decreases o
  {
    hide ValidProp, TypedProp, CountedProp, CopiedProp, SizeProp, IsEmpty;
    forall i | 0 <= i < SLOTS
      ensures ValidProp(i, r.props[i])
      ensures TypedProp(i, o.props[i]) ==> TypedProp(i, r.props[i])
      ensures CountedProp(i, o.props[i]) ==> CountedProp(i, r.props[i])
      ensures SizeProp(i, r.props[i]) == SizeProp(i, o.props[i]) && IsEmpty(r.props[i]) == IsEmpty(o.props[i])
    {
      PropKeeps(i, o.props[i], r.props[i]);
    }
    SamePropSizes(o.props, r.props, 0);
  }

  lemma {:induction false} SamePropSizes(props: seq<Prop>, props': seq<Prop>, i: nat)
    requires |props'| == |props| && forall k :: 0 <= k < |props| ==>
      SizeProp(k, props'[k]) == SizeProp(k, props[k]) && IsEmpty(props'[k]) == IsEmpty(props[k])
    ensures SizeProps(props', i) == SizeProps(props, i) && CountProps(props', i) == CountProps(props, i)
    decreases |props| - i
  {
    hide SizeProp, IsEmpty;
    if i < |props| {
      SamePropSizes(props, props', i + 1);
    }
  }

  lemma {:induction false} PropKeeps(slot: nat, p: Prop, q: Prop)
    requires slot < SLOTS && ValidProp(slot, p) && CopiedProp(slot, p, q)
    ensures ValidProp(slot, q) && (TypedProp(slot, p) ==> TypedProp(slot, q))
    ensures CountedProp(slot, p) ==> CountedProp(slot, q)
    ensures SizeProp(slot, q) == SizeProp(slot, p) && IsEmpty(q) == IsEmpty(p)
    decreases p
  {
    hide Fit, Range, ValidObjs, TypedObjs, CountedObjs, CopiedObjs, ValidGroup, TypedGroup, CountedGroup, CopiedGroup,
        SizeGroup, CountedArrays, CopiedWords;
    match p
    case Fixed(_, vals) =>
      if slot == NULL_ARRAY_SLOT {
        WordsFit(vals, ARRAYS_SPACE, q.vals);
      }
    case Nested(_, objs) => ObjsKeep(objs, q.objs);
    case Arrays(_, _) =>
    case Table(groups) =>
      forall i | 0 <= i < |groups|
        ensures ValidGroup(q.groups[i]) && (TypedGroup(groups[i]) ==> TypedGroup(q.groups[i]))
        ensures CountedGroup(groups[i]) ==> CountedGroup(q.groups[i])
        ensures SizeGroup(q.groups[i]) == SizeGroup(groups[i])
      {
        GroupKeeps(groups[i], q.groups[i]);
      }
      SameGroupSizes(groups, q.groups, 0);
  }

  lemma {:induction false} ObjsKeep(objs: seq<Obj>, copies: seq<Obj>)
    requires ValidObjs(objs) && CopiedObjs(objs, copies)
    ensures ValidObjs(copies) && (TypedObjs(objs) ==> TypedObjs(copies)) && (CountedObjs(objs) ==> CountedObjs(copies))
    ensures |copies| == |objs| && SizeObjs(copies, 0) == SizeObjs(objs, 0)
    decreases objs
  {
    hide ValidObj, TypedObj, CountedObj, Copied, SizeObj;
    forall i | 0 <= i < |objs|
      ensures ValidObj(copies[i]) && (TypedObj(objs[i]) ==> TypedObj(copies[i]))
      ensures CountedObj(objs[i]) ==> CountedObj(copies[i])
      ensures SizeObj(copies[i]) == SizeObj(objs[i])
    {
      CopyKeeps(objs[i], copies[i]);
    }
    SameObjSizes(objs, copies, 0);
  }

  lemma {:induction false} SameObjSizes(objs: seq<Obj>, copies: seq<Obj>, i: nat)
    requires |copies| == |objs| && forall k :: 0 <= k < |objs| ==> SizeObj(copies[k]) == SizeObj(objs[k])
    ensures SizeObjs(copies, i) == SizeObjs(objs, i)
    decreases |objs| - i
  {
    hide SizeObj;
    if i < |objs| {
      SameObjSizes(objs, copies, i + 1);
    }
  }

  lemma {:induction false} SameGroupSizes(groups: seq<Group>, copies: seq<Group>, i: nat)
    requires |copies| == |groups| && forall k :: 0 <= k < |groups| ==> SizeGroup(copies[k]) == SizeGroup(groups[k])
    ensures SizeGroups(copies, i) == SizeGroups(groups, i)
    decreases |groups| - i
  {
    hide SizeGroup;
    if i < |groups| {
      SameGroupSizes(groups, copies, i + 1);
    }
  }

  lemma {:induction false} GroupKeeps(g: Group, h: Group)
    requires ValidGroup(g) && CopiedGroup(g, h)
    ensures ValidGroup(h) && (TypedGroup(g) ==> TypedGroup(h)) && (CountedGroup(g) ==> CountedGroup(h))
    ensures SizeGroup(h) == SizeGroup(g)
    decreases g
  {
    hide ValidColumn, TypedColumn, CountedColumn, CopiedColumn, SizeColumn, Range, NumObjects;
    forall i | 0 <= i < |g.cols|
      ensures ValidColumn(h.cols[i]) && (TypedColumn(g.cols[i]) ==> TypedColumn(h.cols[i]))
      ensures CountedColumn(g.cols[i]) ==> CountedColumn(h.cols[i])
      ensures SizeColumn(h.cols[i]) == SizeColumn(g.cols[i])
    {
      ColumnKeeps(g.cols[i], h.cols[i]);
    }
    CopiedRows(g, h);
    SameColumnSizes(g.cols, h.cols, 0);
  }

  lemma {:induction false} SameColumnSizes(cols: seq<Column>, copies: seq<Column>, i: nat)
    requires |copies| == |cols| && forall k :: 0 <= k < |cols| ==> SizeColumn(copies[k]) == SizeColumn(cols[k])
    ensures SizeColumns(copies, i) == SizeColumns(cols, i)
    decreases |cols| - i
  {
    hide SizeColumn;
    if i < |cols| {
      SameColumnSizes(cols, copies, i + 1);
    }
  }

  lemma {:induction false} ColumnKeeps(c: Column, d: Column)
    requires ValidColumn(c) && CopiedColumn(c, d)
    ensures ValidColumn(d) && (TypedColumn(c) ==> TypedColumn(d)) && (CountedColumn(c) ==> CountedColumn(d))
    ensures SizeColumn(d) == SizeColumn(c)
    decreases c
  {
    hide ValidEntry, TypedEntry, CountedEntry, CopiedEntry, SizeEntry, Range, Fit;
    forall i | 0 <= i < |c.entries|
      ensures ValidEntry(c.ty, d.entries[i]) && (TypedEntry(c.ty, c.entries[i]) ==> TypedEntry(c.ty, d.entries[i]))
      ensures CountedEntry(c.entries[i]) ==> CountedEntry(d.entries[i])
      ensures SizeEntry(c.ty, d.entries[i]) == SizeEntry(c.ty, c.entries[i])
    {
      EntryKeeps(c.ty, c.entries[i], d.entries[i]);
    }
    SameEntrySizes(c.ty, c.entries, d.entries, 0);
  }

  lemma {:induction false} SameEntrySizes(ty: FieldType, entries: seq<Entry>, copies: seq<Entry>, i: nat)
    requires |copies| == |entries|
    requires forall k :: 0 <= k < |entries| ==> SizeEntry(ty, copies[k]) == SizeEntry(ty, entries[k])
    ensures SizeEntries(ty, copies, i) == SizeEntries(ty, entries, i)
    decreases |entries| - i
  {
    hide SizeEntry;
    if i < |entries| {
      SameEntrySizes(ty, entries, copies, i + 1);
    }
  }

  lemma {:induction false} EntryKeeps(ty: FieldType, e: Entry, f: Entry)
    requires ValidEntry(ty, e) && CopiedEntry(ty, e, f)
    ensures ValidEntry(ty, f) && (TypedEntry(ty, e) ==> TypedEntry(ty, f)) && (CountedEntry(e) ==> CountedEntry(f))
    ensures SizeEntry(ty, f) == SizeEntry(ty, e)
    decreases e
  {
    hide ValidObjs, TypedObjs, CountedObjs, CopiedObjs, Range, Fit, CopiedWords;
    match e
    case Vals(vals) =>
      if ty == Null {
        WordsFit(vals, CellSpace(vals), f.vals);
      }
    case Objs(objs) => ObjsKeep(objs, f.objs);
  }

  function TwoArrays(): (d: Doc)
    ensures TypedDoc(d)
  {
    Doc([DocEntry(1, Null, Nulls(2)), DocEntry(2, Null, Nulls(2))])
  }

  lemma ArraysPut(o: Obj, e: DocEntry)
    requires ValidObj(o) && Typed(e) && e.values == Nulls(2)
    ensures Put(o, e) == PutFixed(o, NULL_ARRAY_SLOT, e.key, 2)
  {
  }

  lemma TwoArraysStored()
    ensures ImportDoc(TwoArrays()).props[NULL_ARRAY_SLOT] == Fixed([1, 2], [2, 2])
  {
    hide Put, Typed;
    var entries := TwoArrays().entries;
    var one := ImportEntries(entries, 1);
    assert one == Put(EmptyObj(), entries[0]) by {
      assert ImportEntries(entries, 0) == EmptyObj();
    }
    ArraysPut(EmptyObj(), entries[0]);
    ArraysPut(one, entries[1]);
    assert one.props[NULL_ARRAY_SLOT] == Fixed([1], [2]);
  }

  /** Two arrays of two nulls: the first number in the archive is 131074, whatever lies in memory. */
  lemma TwoNullArrays(w: Obj)
    requires Copied(ImportDoc(TwoArrays()), w)
    ensures w.props[NULL_ARRAY_SLOT].Fixed? && w.props[NULL_ARRAY_SLOT].vals != []
    ensures w.props[NULL_ARRAY_SLOT].vals[0] == 131074
  {
    hide ImportDoc, CopiedWords, TwoArrays;
    TwoArraysStored();
    var o := ImportDoc(TwoArrays());
    assert CopiedProp(NULL_ARRAY_SLOT, o.props[NULL_ARRAY_SLOT], w.props[NULL_ARRAY_SLOT]);
    FrontWord([2, 2], ARRAYS_SPACE, w.props[NULL_ARRAY_SLOT].vals, 0);
  }
}
