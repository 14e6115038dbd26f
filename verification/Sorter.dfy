/** The read-optimising sort of a columnar object: every list of keys and values, the object
    arrays, their columns and entries are rearranged in place, then the nested objects. */
module Sorter {
  import opened Bytes
  import opened ColumnDoc
  import opened Document
  import opened Columns
  import opened Reorder
  import opened Ordering
  import opened Importer
  import opened Limits
  import opened Rows
  import opened Scan
  import Lossless
  import QuickSort

  /** A permutation of the first n indices, sorted by the comparator. */
  method SortedIndices(n: nat, leq: (nat, nat) -> bool) returns (idx: seq<nat>)
    ensures Permutation(idx, n) && |idx| == n && forall i :: 0 <= i < n ==> idx[i] < n
    ensures QuickSort.TotalOn(leq, Identity(n)) ==> forall i, j :: 0 <= i < j < n ==> leq(idx[i], idx[j])
  {
    hide QuickSort.TotalOn;
    var indices := new nat[n];
    for i := 0 to n
      invariant forall k :: 0 <= k < i ==> indices[k] == k
    {
      indices[i] := i;
    }
    assert indices[..] == Identity(n);
    QuickSort.SortIndices(indices, leq);
    idx := indices[..];
    PermutationBounds(idx, n);
  }

  // ----- one slot

  method SortScalars(obj: ColumnDocObj, slot: nat, orders: Orders)
    requires obj.Valid() && IsFixedSlot(slot)
    modifies obj
    ensures obj.Valid() && ObjFacts(Obj(obj.props)) == old(ObjFacts(Obj(obj.props)))
    ensures old(FitsObj(Obj(obj.props))) ==> FitsObj(Obj(obj.props))
    ensures |obj.props| == SLOTS && obj.props == old(obj.props)[slot := obj.props[slot]]
    ensures SlotOrdered(orders, slot, obj.props[slot])
  {
    hide ObjFacts, FixedFacts, Ordered, QuickSort.TotalOn, FitsObj, Range, ReadWidth;
    assert ValidProp(slot, obj.props[slot]);
    var keys, vals := obj.props[slot].keys, obj.props[slot].vals;
    var leq := (a: nat, b: nat) => a < |vals| && b < |vals| && orders.scalar(slot)(vals[a], vals[b]);
    var idx := SortedIndices(|keys|, leq);
    var keys', vals' := keys, vals;
    for i := 0 to |keys|
      invariant |keys'| == |keys| && |vals'| == |vals|
      invariant forall k :: 0 <= k < i ==> keys'[k] == keys[idx[k]] && vals'[k] == vals[idx[k]]
    {
      keys' := keys'[i := keys[idx[i]]];
      vals' := vals'[i := vals[idx[i]]];
    }
    assert keys' == Pick(keys, idx) && vals' == Pick(vals, idx);
    PickOrdered(leq, orders.scalar(slot), vals, idx);
    FixedPermuted(slot, keys, vals, idx);
    SlotSame(obj.props, slot, Fixed(keys', vals'));
    SlotFits(obj.props, slot, Fixed(keys', vals'));
    obj.props := obj.props[slot := Fixed(keys', vals')];
  }

  method SortArrays(obj: ColumnDocObj, slot: nat, orders: Orders)
    requires obj.Valid() && IsArraySlot(slot)
    modifies obj
    ensures obj.Valid() && ObjFacts(Obj(obj.props)) == old(ObjFacts(Obj(obj.props)))
    ensures old(FitsObj(Obj(obj.props))) ==> FitsObj(Obj(obj.props))
    ensures |obj.props| == SLOTS && obj.props == old(obj.props)[slot := obj.props[slot]]
    ensures SlotOrdered(orders, slot, obj.props[slot])
  {
    hide ObjFacts, ArraysFacts, Ordered, QuickSort.TotalOn, FitsObj, FitsArray, Range;
    assert ValidProp(slot, obj.props[slot]);
    var keys, arrs := obj.props[slot].keys, obj.props[slot].arrs;
    var leq := (a: nat, b: nat) => a < |arrs| && b < |arrs| && orders.list(slot)(arrs[a], arrs[b]);
    var idx := SortedIndices(|keys|, leq);
    var keys', arrs' := keys, arrs;
    for i := 0 to |keys|
      invariant |keys'| == |keys| && |arrs'| == |arrs|
      invariant forall k :: 0 <= k < i ==> keys'[k] == keys[idx[k]] && arrs'[k] == arrs[idx[k]]
    {
      keys' := keys'[i := keys[idx[i]]];
      arrs' := arrs'[i := arrs[idx[i]]];
    }
    assert keys' == Pick(keys, idx) && arrs' == Pick(arrs, idx);
    PickOrdered(leq, orders.list(slot), arrs, idx);
    ArraysPermuted(slot, keys, arrs, idx);
    SlotSame(obj.props, slot, Arrays(keys', arrs'));
    SlotFits(obj.props, slot, Arrays(keys', arrs'));
    obj.props := obj.props[slot := Arrays(keys', arrs')];
  }

  /** A slot whose new list says the same leaves the object saying the same. */
  lemma SlotSame(props: seq<Prop>, slot: nat, p: Prop)
    requires ValidObj(Obj(props)) && slot < SLOTS && ValidProp(slot, p)
        && PropFacts(slot, p) == PropFacts(slot, props[slot])
    ensures ValidObj(Obj(props[slot := p])) && ObjFacts(Obj(props[slot := p])) == ObjFacts(Obj(props))
  {
    hide PropFacts, PropsFacts;
    Lossless.PropsGain(props, slot, p, multiset{}, |props|);
  }

  lemma SlotFits(props: seq<Prop>, slot: nat, p: Prop)
    requires |props| == SLOTS && slot < SLOTS
    requires FitsProp(slot, props[slot], MOST) ==> FitsProp(slot, p, MOST)
    ensures FitsObj(Obj(props)) ==> FitsObj(Obj(props[slot := p]))
  {
    hide FitsProp;
  }

  // ----- object arrays

  /** Sorts a column by its entries and rearranges the positions with them. */
  method SortColumn(c: Column, orders: Orders) returns (r: Column)
    requires ValidColumn(c)
    ensures ValidColumn(r) && r.name == c.name && r.ty == c.ty
    ensures forall key :: ColumnFacts(key, r) == ColumnFacts(key, c)
    ensures Ordered(orders.entry(c.ty), r.entries) && (FitsColumn(c, MOST) ==> FitsColumn(r, MOST))
  {
    hide ValidEntry, CellsFacts, Ordered, QuickSort.TotalOn, FitsEntry, Range;
    var n := |c.entries|;
    var leq := (a: nat, b: nat) => a < n && b < n && orders.entry(c.ty)(c.entries[a], c.entries[b]);
    var idx := SortedIndices(n, leq);
    var positions, entries := c.positions, c.entries;
    for i := 0 to n
      invariant |positions| == |entries| == n
      invariant forall k :: 0 <= k < i ==> positions[k] == c.positions[idx[k]] && entries[k] == c.entries[idx[k]]
    {
      entries := entries[i := c.entries[idx[i]]];
      positions := positions[i := c.positions[idx[i]]];
    }
    r := Column(c.name, c.ty, positions, entries);
    assert positions == Pick(c.positions, idx) && entries == Pick(c.entries, idx);
    PickOrdered(leq, orders.entry(c.ty), c.entries, idx);
    forall key
      ensures ColumnFacts(key, r) == ColumnFacts(key, c)
    {
      CellsPermuted(key, c.name, c.ty, c.positions, c.entries, idx);
    }
  }

  method SortColumnArrays(obj: ColumnDocObj, orders: Orders)
    requires obj.Valid()
    modifies obj
    ensures obj.Valid() && ObjFacts(Obj(obj.props)) == old(ObjFacts(Obj(obj.props)))
    ensures old(FitsObj(Obj(obj.props))) ==> FitsObj(Obj(obj.props))
    ensures |obj.props| == SLOTS && obj.props == old(obj.props)[TABLE_SLOT := obj.props[TABLE_SLOT]]
    ensures SlotOrdered(orders, TABLE_SLOT, obj.props[TABLE_SLOT])
  {
    hide ObjFacts, TableFacts, ValidGroup, GroupFacts, Ordered, QuickSort.TotalOn, FitsObj, FitsGroup, GroupOrdered;
    Lossless.TableThere(Obj(obj.props));
    var props, groups := obj.props, obj.props[TABLE_SLOT].groups;
    var n := |groups|;
    var leq := (a: nat, b: nat) => a < n && b < n && orders.group(groups[a].key, groups[b].key);
    var idx := SortedIndices(n, leq);
    var sorted := groups;
    for i := 0 to n
      invariant |sorted| == n && forall k :: 0 <= k < i ==> sorted[k] == groups[idx[k]]
    {
      sorted := sorted[i := groups[idx[i]]];
    }
    assert sorted == Pick(groups, idx);
    GroupsPermuted(groups, idx);
    var done := SortEachGroup(sorted, orders);
    PickOrdered(leq, orders.group, GroupKeys(groups), idx);
    assert GroupKeys(done) == Pick(GroupKeys(groups), idx);
    SlotSame(obj.props, TABLE_SLOT, Table(done));
    SlotFits(obj.props, TABLE_SLOT, Table(done));
    obj.props := obj.props[TABLE_SLOT := Table(done)];
  }

  method SortEachGroup(groups: seq<Group>, orders: Orders) returns (sorted: seq<Group>)
    requires ValidGroups(groups)
    ensures ValidGroups(sorted) && TableFacts(sorted) == TableFacts(groups) && GroupKeys(sorted) == GroupKeys(groups)
    ensures forall k :: 0 <= k < |sorted| ==> GroupOrdered(orders, sorted[k])
    ensures |sorted| == |groups| && forall k :: 0 <= k < |groups| ==>
      FitsGroup(groups[k], MOST) ==> FitsGroup(sorted[k], MOST)
  {
    hide TableFacts, ValidGroup, GroupFacts, GroupOrdered, QuickSort.TotalOn, FitsGroup;
    sorted := groups;
    for i := 0 to |groups|
      invariant |sorted| == |groups| && ValidGroups(sorted)
      invariant forall k :: 0 <= k < |groups| ==> GroupFacts(sorted[k]) == GroupFacts(groups[k])
      invariant forall k :: 0 <= k < |groups| ==> FitsGroup(groups[k], MOST) ==> FitsGroup(sorted[k], MOST)
      invariant forall k :: i <= k < |groups| ==> sorted[k] == groups[k]
      invariant forall k :: 0 <= k < |groups| ==> sorted[k].key == groups[k].key
      invariant forall k :: 0 <= k < i ==> GroupOrdered(orders, sorted[k])
    {
      var g := SortGroup(sorted[i], orders);
      sorted := sorted[i := g];
    }
    GroupsSame(groups, sorted);
  }

  method SortGroup(g: Group, orders: Orders) returns (r: Group)
    requires ValidGroup(g)
    ensures ValidGroup(r) && r.key == g.key && GroupFacts(r) == GroupFacts(g)
    ensures GroupOrdered(orders, r) && (FitsGroup(g, MOST) ==> FitsGroup(r, MOST))
  {
    hide ColumnsFacts, ValidColumn, ColumnFacts, Ordered, QuickSort.TotalOn, NumObjects, FitsColumn, Range;
    var n := |g.cols|;
    var leq := (a: nat, b: nat) => a < n && b < n
      && orders.column((g.cols[a].name, g.cols[a].ty), (g.cols[b].name, g.cols[b].ty));
    var idx := SortedIndices(n, leq);
    var cols := g.cols;
    ghost var sorted := Pick(g.cols, idx);
    ColumnsPermuted(g.key, g.cols, idx);
    for i := 0 to n
      invariant |cols| == n && forall k :: 0 <= k < n ==> ValidColumn(cols[k])
      invariant forall k :: 0 <= k < i ==> ColumnFacts(g.key, cols[k]) == ColumnFacts(g.key, sorted[k])
      invariant forall k :: 0 <= k < i ==> cols[k].name == sorted[k].name && cols[k].ty == sorted[k].ty
      invariant forall k :: 0 <= k < i ==> FitsColumn(sorted[k], MOST) ==> FitsColumn(cols[k], MOST)
      invariant forall k :: 0 <= k < i ==> ColumnOrdered(orders, cols[k])
    {
      var column := SortColumn(g.cols[idx[i]], orders);
      cols := cols[i := column];
    }
    ColumnsSame(g.key, sorted, cols);
    PickOrdered(leq, orders.column, ColumnKeys(g.cols), idx);
    assert ColumnKeys(cols) == Pick(ColumnKeys(g.cols), idx);
    SameRows(g.key, g.cols, cols);
    r := Group(g.key, cols);
  }

  method SortValues(obj: ColumnDocObj, orders: Orders)
    requires obj.Valid()
    modifies obj
    ensures obj.Valid() && ObjFacts(Obj(obj.props)) == old(ObjFacts(Obj(obj.props)))
    ensures old(FitsObj(Obj(obj.props))) ==> FitsObj(Obj(obj.props))
    ensures |obj.props| == SLOTS && forall i :: 0 <= i < SLOTS ==> SlotOrdered(orders, i, obj.props[i])
  {
    hide ObjFacts, ValidObj, SlotOrdered, FitsObj;
    UncomparedSlots(obj.props, orders);
    for slot := 1 to 12
      invariant obj.Valid() && ObjFacts(Obj(obj.props)) == old(ObjFacts(Obj(obj.props))) && |obj.props| == SLOTS
      invariant old(FitsObj(Obj(obj.props))) ==> FitsObj(Obj(obj.props))
      invariant SlotOrdered(orders, 0, obj.props[0])
      invariant forall i :: 12 <= i < 14 || 1 <= i < slot ==> SlotOrdered(orders, i, obj.props[i])
    {
      SortScalars(obj, slot, orders);
    }
    for slot := 14 to 25
      invariant obj.Valid() && ObjFacts(Obj(obj.props)) == old(ObjFacts(Obj(obj.props))) && |obj.props| == SLOTS
      invariant old(FitsObj(Obj(obj.props))) ==> FitsObj(Obj(obj.props))
      invariant forall i :: 0 <= i < slot ==> SlotOrdered(orders, i, obj.props[i])
    {
      SortArrays(obj, slot, orders);
    }
    SortColumnArrays(obj, orders);
  }

  /** Nulls and objects are not compared. */
  lemma UncomparedSlots(props: seq<Prop>, orders: Orders)
    requires ValidObj(Obj(props))
    ensures |props| == SLOTS && forall i :: i == 0 || i == OBJECT_SLOT || i == NULL_ARRAY_SLOT ==>
        SlotOrdered(orders, i, props[i])
  {
    assert ValidProp(0, props[0]) && ValidProp(OBJECT_SLOT, props[OBJECT_SLOT])
        && ValidProp(NULL_ARRAY_SLOT, props[NULL_ARRAY_SLOT]);
  }

  // ----- objects in objects

  /** Sorts an object and everything in it; it says the same as before. */
  method SortEntries(obj: ColumnDocObj, orders: Orders)
    requires obj.Valid()
    modifies obj
    ensures obj.Valid() && ObjFacts(Obj(obj.props)) == old(ObjFacts(Obj(obj.props)))
    ensures ObjOrdered(orders, Obj(obj.props))
    ensures old(FitsObj(Obj(obj.props))) ==> FitsObj(Obj(obj.props))
    decreases Said(ObjFacts(Obj(obj.props))), 2
  {
    hide ObjFacts, ValidObj, SlotOrdered, InsideOrdered, FitsObj;
    SortValues(obj, orders);
    SortNested(obj, orders);
    SortNestedInArrays(obj, orders);
    NothingInside(obj.props, orders);
  }

  lemma NothingInside(props: seq<Prop>, orders: Orders)
    requires ValidObj(Obj(props))
    ensures forall i :: 0 <= i < |props| && i != OBJECT_SLOT && i != TABLE_SLOT ==> InsideOrdered(orders, props[i])
  {
    forall i | 0 <= i < |props| && i != OBJECT_SLOT && i != TABLE_SLOT
      ensures InsideOrdered(orders, props[i])
    {
      assert ValidProp(i, props[i]);
    }
  }

  method SortObj(o: Obj, orders: Orders) returns (r: Obj)
    requires ValidObj(o)
    ensures ValidObj(r) && ObjFacts(r) == ObjFacts(o) && ObjOrdered(orders, r) && (FitsObj(o) ==> FitsObj(r))
    decreases Said(ObjFacts(o)), 3
  {
    var obj := new ColumnDocObj.Holding(o);
    SortEntries(obj, orders);
    r := Obj(obj.props);
  }

  /** Sorts objects one by one; what each says is part of what said says. */
  method SortObjs(objs: seq<Obj>, orders: Orders, ghost said: Said) returns (sorted: seq<Obj>)
    requires ValidObjs(objs) && forall k :: 0 <= k < |objs| ==> Said(ObjFacts(objs[k])) < said
    ensures ValidObjs(sorted) && |sorted| == |objs| && forall k :: 0 <= k < |objs| ==>
        ObjFacts(sorted[k]) == ObjFacts(objs[k])
    ensures ObjsOrdered(orders, sorted) && (FitsObjs(objs) ==> FitsObjs(sorted))
    decreases said, 0, 0
  {
    hide ObjFacts, ValidObj, ObjOrdered, FitsObj;
    sorted := objs;
    for i := 0 to |objs|
      invariant |sorted| == |objs| && ValidObjs(sorted) && forall k :: 0 <= k < i ==> ObjOrdered(orders, sorted[k])
      invariant forall k :: 0 <= k < |objs| ==> ObjFacts(sorted[k]) == ObjFacts(objs[k])
      invariant FitsObjs(objs) ==> FitsObjs(sorted)
    {
      var o := SortObj(sorted[i], orders);
      sorted := sorted[i := o];
    }
  }

  method SortNested(obj: ColumnDocObj, orders: Orders)
    requires obj.Valid()
    modifies obj
    ensures obj.Valid() && ObjFacts(Obj(obj.props)) == old(ObjFacts(Obj(obj.props)))
    ensures old(FitsObj(Obj(obj.props))) ==> FitsObj(Obj(obj.props))
    ensures |obj.props| == SLOTS && obj.props == old(obj.props)[OBJECT_SLOT := obj.props[OBJECT_SLOT]]
    ensures SlotOrdered(orders, OBJECT_SLOT, obj.props[OBJECT_SLOT]) && InsideOrdered(orders, obj.props[OBJECT_SLOT])
    decreases Said(ObjFacts(Obj(obj.props))), 1
  {
    hide ObjFacts, ValidObj, NestedFacts, ObjsOrdered, FitsObj, FitsObjs;
    var props := obj.props;
    NestedThere(Obj(props));
    var keys, objs := props[OBJECT_SLOT].keys, props[OBJECT_SLOT].objs;
    forall k | 0 <= k < |objs|
      ensures Said(ObjFacts(objs[k])) < Said(ObjFacts(Obj(props)))
    {
      NestedSmaller(Obj(props), k);
    }
    var sorted := SortObjs(objs, orders, Said(ObjFacts(Obj(props))));
    NestedSame(keys, objs, sorted);
    SlotSame(props, OBJECT_SLOT, Nested(keys, sorted));
    SlotFits(props, OBJECT_SLOT, Nested(keys, sorted));
    obj.props := props[OBJECT_SLOT := Nested(keys, sorted)];
  }

  lemma NestedThere(o: Obj)
    requires ValidObj(o)
    ensures |o.props| == SLOTS && o.props[OBJECT_SLOT].Nested? && ValidObjs(o.props[OBJECT_SLOT].objs)
    ensures |o.props[OBJECT_SLOT].keys| == |o.props[OBJECT_SLOT].objs|
  {
    assert ValidProp(OBJECT_SLOT, o.props[OBJECT_SLOT]);
  }

  lemma NestedSmaller(o: Obj, i: nat)
    requires |o.props| == SLOTS && o.props[OBJECT_SLOT].Nested?
    requires var p := o.props[OBJECT_SLOT]; |p.keys| == |p.objs| && i < |p.objs|
    ensures Said(ObjFacts(o.props[OBJECT_SLOT].objs[i])) < Said(ObjFacts(o))
  {
    hide PropsFacts, NestedFacts;
    var p := o.props[OBJECT_SLOT];
    PropsHave(o.props, OBJECT_SLOT, |o.props|);
    NestedSum(p.keys, p.objs);
    SumHas(NestedTerms(p.keys, p.objs), i);
    var f := ObjectOf(p.keys[i], Said(ObjFacts(p.objs[i])));
    assert f in NestedTerms(p.keys, p.objs)[i];
    assert f in Said(ObjFacts(o)).facts && f.said == Said(ObjFacts(p.objs[i]));
  }

  /** The objects in the columns of object arrays. */
  method SortNestedInArrays(obj: ColumnDocObj, orders: Orders)
    requires obj.Valid()
    modifies obj
    ensures obj.Valid() && ObjFacts(Obj(obj.props)) == old(ObjFacts(Obj(obj.props)))
    ensures old(FitsObj(Obj(obj.props))) ==> FitsObj(Obj(obj.props))
    ensures |obj.props| == SLOTS && obj.props == old(obj.props)[TABLE_SLOT := obj.props[TABLE_SLOT]]
    ensures old(SlotOrdered(orders, TABLE_SLOT, obj.props[TABLE_SLOT])) ==>
        SlotOrdered(orders, TABLE_SLOT, obj.props[TABLE_SLOT])
    ensures InsideOrdered(orders, obj.props[TABLE_SLOT])
    decreases Said(ObjFacts(Obj(obj.props))), 1
  {
    hide ObjFacts, TableFacts, ValidGroup, GroupFacts, PropsFacts, Sum, Ordered, GroupInside, FitsObj, FitsGroup,
        GroupOrdered;
    var props := obj.props;
    Lossless.TableThere(Obj(props));
    var groups := props[TABLE_SLOT].groups;
    ghost var said := Said(ObjFacts(Obj(props)));
    GroupsIn(Obj(props));
    var sorted := groups;
    for i := 0 to |groups|
      invariant obj.props == props && |sorted| == |groups| && ValidGroups(sorted)
      invariant forall k :: 0 <= k < |groups| ==> GroupFacts(sorted[k]) == GroupFacts(groups[k])
      invariant forall k :: 0 <= k < |groups| ==> FitsGroup(groups[k], MOST) ==> FitsGroup(sorted[k], MOST)
      invariant forall k :: 0 <= k < |groups| ==>
        sorted[k].key == groups[k].key && (GroupOrdered(orders, groups[k]) ==> GroupOrdered(orders, sorted[k]))
      invariant forall k :: 0 <= k < i ==> GroupInside(orders, sorted[k])
    {
      var g := SortGroupObjs(sorted[i], orders, said);
      sorted := sorted[i := g];
    }
    GroupsSame(groups, sorted);
    assert GroupKeys(sorted) == GroupKeys(groups);
    SlotSame(props, TABLE_SLOT, Table(sorted));
    SlotFits(props, TABLE_SLOT, Table(sorted));
    obj.props := props[TABLE_SLOT := Table(sorted)];
  }

  lemma GroupsIn(o: Obj)
    requires |o.props| == SLOTS && o.props[TABLE_SLOT].Table?
    ensures var groups := o.props[TABLE_SLOT].groups; forall k :: 0 <= k < |groups| ==>
        GroupFacts(groups[k]) <= ObjFacts(o)
  {
    hide PropsFacts, TableFacts, GroupFacts;
    var groups := o.props[TABLE_SLOT].groups;
    PropsHave(o.props, TABLE_SLOT, |o.props|);
    GroupsSum(groups);
    forall k | 0 <= k < |groups|
      ensures GroupFacts(groups[k]) <= ObjFacts(o)
    {
      SumHas(GroupsTerms(groups), k);
    }
  }

  method SortGroupObjs(g: Group, orders: Orders, ghost said: Said) returns (r: Group)
    requires ValidGroup(g) && GroupFacts(g) <= said.facts
    ensures ValidGroup(r) && GroupFacts(r) == GroupFacts(g) && (FitsGroup(g, MOST) ==> FitsGroup(r, MOST))
    ensures r.key == g.key && (GroupOrdered(orders, g) ==> GroupOrdered(orders, r)) && GroupInside(orders, r)
    decreases said, 0, 2
  {
    hide ColumnsFacts, ValidColumn, ColumnFacts, Sum, ColumnInside, NumObjects, FitsColumn, ColumnOrdered, Ordered;
    var cols := g.cols;
    ColumnsIn(g);
    for j := 0 to |g.cols|
      invariant |cols| == |g.cols| && forall k :: 0 <= k < |cols| ==> ValidColumn(cols[k])
      invariant forall k :: 0 <= k < |cols| ==> ColumnFacts(g.key, cols[k]) == ColumnFacts(g.key, g.cols[k])
      invariant forall k :: 0 <= k < |cols| ==> cols[k].name == g.cols[k].name && cols[k].ty == g.cols[k].ty
      invariant forall k :: 0 <= k < |cols| ==> FitsColumn(g.cols[k], MOST) ==> FitsColumn(cols[k], MOST)
      invariant forall k :: 0 <= k < |cols| ==> ColumnOrdered(orders, g.cols[k]) ==> ColumnOrdered(orders, cols[k])
      invariant forall k :: 0 <= k < j ==> ColumnInside(orders, cols[k])
    {
      var c := SortColumnObjs(g.key, cols[j], orders, said);
      cols := cols[j := c];
    }
    ColumnsSame(g.key, g.cols, cols);
    SameRows(g.key, g.cols, cols);
    assert ColumnKeys(cols) == ColumnKeys(g.cols);
    r := Group(g.key, cols);
  }

  lemma ColumnsIn(g: Group)
    ensures forall k :: 0 <= k < |g.cols| ==> ColumnFacts(g.key, g.cols[k]) <= GroupFacts(g)
  {
    hide ColumnsFacts, ColumnFacts, NumObjects;
    ColumnsSum(g.key, g.cols);
    forall k | 0 <= k < |g.cols|
      ensures ColumnFacts(g.key, g.cols[k]) <= GroupFacts(g)
    {
      SumHas(ColumnsTerms(g.key, g.cols), k);
    }
  }

  method SortColumnObjs(ghost key: nat, c: Column, orders: Orders, ghost said: Said) returns (r: Column)
    requires ValidColumn(c) && ColumnFacts(key, c) <= said.facts
    ensures ValidColumn(r) && ColumnFacts(key, r) == ColumnFacts(key, c)
    ensures r.name == c.name && r.ty == c.ty && ColumnInside(orders, r) && (FitsColumn(c, MOST) ==> FitsColumn(r, MOST))
    ensures ColumnOrdered(orders, c) ==> ColumnOrdered(orders, r)
    decreases said, 0, 1
  {
    hide ObjFacts, CellsFacts, ValidObjs, EntryCell, ObjsOrdered, FitsObjs, Fit;
    var entries := c.entries;
    for k := 0 to |c.entries|
      invariant |entries| == |c.entries| && forall i :: 0 <= i < |entries| ==> ValidEntry(c.ty, entries[i])
      invariant forall i :: 0 <= i < |entries| ==> EntryCell(c.ty, entries[i]) == EntryCell(c.ty, c.entries[i])
      invariant forall i :: 0 <= i < |entries| ==> FitsEntry(c.ty, c.entries[i]) ==> FitsEntry(c.ty, entries[i])
      invariant c.ty != Object ==> entries == c.entries
      invariant forall i :: k <= i < |entries| ==> entries[i] == c.entries[i]
      invariant forall i :: 0 <= i < k ==> EntryInside(orders, entries[i])
    {
      if c.ty == Object {
        var objs := entries[k].objs;
        EntryObjsSmaller(key, c, k, said);
        var sorted := SortObjs(objs, orders, said);
        ObjsSame(objs, sorted);
        entries := entries[k := Objs(sorted)];
      }
    }
    CellsSame(key, c.name, c.ty, c.positions, c.entries, entries);
    r := Column(c.name, c.ty, c.positions, entries);
  }

  lemma EntryObjsSmaller(key: nat, c: Column, k: nat, said: Said)
    requires ValidColumn(c) && ColumnFacts(key, c) <= said.facts && k < |c.entries| && c.entries[k].Objs?
    ensures var objs := c.entries[k].objs; forall i :: 0 <= i < |objs| ==> Said(ObjFacts(objs[i])) < said
  {
    hide CellsFacts, ObjFacts, AllObjFacts;
    var objs := c.entries[k].objs;
    CellsSum(key, c.name, c.ty, c.positions, c.entries);
    SumHas(CellsTerms(key, c.name, c.ty, c.positions, c.entries), k);
    var cell := ObjectCell(AllObjFacts(objs, |objs|));
    var f := CellOf(key, c.positions[k], c.name, c.ty, cell);
    assert f in CellsTerms(key, c.name, c.ty, c.positions, c.entries)[k];
    forall i | 0 <= i < |objs|
      ensures Said(ObjFacts(objs[i])) < said
    {
      Lossless.AllObjFactsAt(objs, |objs|, i);
      InCell(said, f, i);
    }
  }

  lemma InCell(said: Said, f: Fact, i: nat)
    requires f in said.facts && f.CellOf? && f.cell.ObjectCell? && i < |f.cell.objs|
    ensures f.cell.objs[i] < said
  {
  }

  lemma ObjsSame(objs: seq<Obj>, objs': seq<Obj>)
    requires |objs'| == |objs| && forall i :: 0 <= i < |objs| ==> ObjFacts(objs'[i]) == ObjFacts(objs[i])
    ensures EntryCell(Object, Objs(objs')) == EntryCell(Object, Objs(objs))
  {
    hide ObjFacts;
    var a, b := AllObjFacts(objs', |objs'|), AllObjFacts(objs, |objs|);
    forall i | 0 <= i < |objs|
      ensures a[i] == b[i]
    {
      Lossless.AllObjFactsAt(objs', |objs'|, i);
      Lossless.AllObjFactsAt(objs, |objs|, i);
    }
    assert a == b;
  }
}
