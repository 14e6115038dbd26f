/** What a document must satisfy for its serialised form to be read back. */
module Limits {
  import opened Bytes
  import opened ColumnDoc
  import opened Scan

  ghost predicate Fit(vs: seq<nat>, w: nat) {
    forall i :: 0 <= i < |vs| ==> vs[i] < Range(w)
  }

  // Typed: every number is a value of the machine type the document keeps it in.

  ghost predicate TypedObj(o: Obj)
    decreases o
  {
    |o.props| == SLOTS && forall i :: 0 <= i < SLOTS ==> TypedProp(i, o.props[i])
  }

  ghost predicate TypedProp(slot: nat, p: Prop)
    requires slot < SLOTS
    decreases p
  {
    match p
    case Fixed(keys, vals) => Fit(keys, 8) && Fit(vals, ReadWidth(slot))
    case Nested(keys, objs) => Fit(keys, 8) && TypedObjs(objs)
    case Arrays(keys, arrs) => Fit(keys, 8) && forall i :: 0 <= i < |arrs| ==> Fit(arrs[i], ReadWidth(slot))
    case Table(groups) => forall i :: 0 <= i < |groups| ==> TypedGroup(groups[i])
  }

  ghost predicate TypedObjs(objs: seq<Obj>)
    decreases objs
  {
    forall i :: 0 <= i < |objs| ==> TypedObj(objs[i])
  }

  ghost predicate TypedGroup(g: Group)
    decreases g
  {
    g.key < Range(8) && forall i :: 0 <= i < |g.cols| ==> TypedColumn(g.cols[i])
  }

  ghost predicate TypedColumn(c: Column)
    decreases c
  {
    && c.name < Range(8) && Fit(c.positions, 4)
    && forall i :: 0 <= i < |c.entries| ==> TypedEntry(c.ty, c.entries[i])
  }

  ghost predicate TypedEntry(t: FieldType, e: Entry)
    decreases e
  {
    match e
    case Vals(vals) => Fit(vals, TypeWidth(t))
    case Objs(objs) => TypedObjs(objs)
  }

  // Counted: every count fits the width of its count field, and no uint8 array has elements.

  ghost predicate CountedObj(o: Obj)
    decreases o
  {
    |o.props| == SLOTS && forall i :: 0 <= i < SLOTS ==> CountedProp(i, o.props[i])
  }

  ghost predicate CountedProp(slot: nat, p: Prop)
    decreases p
  {
    match p
    case Fixed(keys, _) => |keys| < Range(4)
    case Nested(keys, objs) => |keys| < Range(4) && CountedObjs(objs)
    case Arrays(keys, arrs) => |keys| < Range(4) && CountedArrays(slot, arrs)
    case Table(groups) => |groups| < Range(1) && forall i :: 0 <= i < |groups| ==> CountedGroup(groups[i])
  }

  ghost predicate CountedArrays(slot: nat, arrs: seq<seq<nat>>) {
    forall i :: 0 <= i < |arrs| ==> |arrs[i]| < Range(4) && (slot == UINT8_ARRAY_SLOT ==> arrs[i] == [])
  }

  ghost predicate CountedObjs(objs: seq<Obj>)
    decreases objs
  {
    forall i :: 0 <= i < |objs| ==> CountedObj(objs[i])
  }

  ghost predicate CountedGroup(g: Group)
    decreases g
  {
    |g.cols| < Range(4) && forall i :: 0 <= i < |g.cols| ==> CountedColumn(g.cols[i])
  }

  ghost predicate CountedColumn(c: Column)
    decreases c
  {
    |c.entries| < Range(4) && forall i :: 0 <= i < |c.entries| ==> CountedEntry(c.entries[i])
  }

  ghost predicate CountedEntry(e: Entry)
    decreases e
  {
    match e
    case Vals(vals) => |vals| < Range(4)
    case Objs(objs) => |objs| < Range(4) && CountedObjs(objs)
  }

  // Fits: both, but for the elements of uint8 arrays.

  /** The most keys of a list, object arrays of an object, and columns or cells of a column. */
  datatype Most = Most(keys: nat, groups: nat, cells: nat)

  const MOST: Most := Most(0xFFFF_FFFF, 0xFF, 0xFFFF_FFFF)

  ghost predicate FitsObj(o: Obj)
    decreases o
  {
    |o.props| == SLOTS && forall i :: 0 <= i < SLOTS ==> FitsProp(i, o.props[i], MOST)
  }

  ghost predicate FitsProp(slot: nat, p: Prop, most: Most)
    requires slot < SLOTS
    decreases p
  {
    match p
    case Fixed(keys, vals) => |keys| <= most.keys && Fit(keys, 8) && Fit(vals, ReadWidth(slot))
    case Nested(keys, objs) => |keys| <= most.keys && Fit(keys, 8) && FitsObjs(objs)
    case Arrays(keys, arrs) =>
      |keys| <= most.keys && Fit(keys, 8) && forall i :: 0 <= i < |arrs| ==> FitsArray(slot, arrs[i])
    case Table(groups) => |groups| <= most.groups && forall i :: 0 <= i < |groups| ==> FitsGroup(groups[i], most)
  }

  ghost predicate FitsArray(slot: nat, vals: seq<nat>)
    requires slot < SLOTS
  {
    |vals| < Range(4) && Fit(vals, ReadWidth(slot))
  }

  ghost predicate FitsObjs(objs: seq<Obj>)
    decreases objs
  {
    forall i :: 0 <= i < |objs| ==> FitsObj(objs[i])
  }

  ghost predicate FitsGroup(g: Group, most: Most)
    decreases g
  {
    && g.key < Range(8) && |g.cols| <= most.cells
    && forall i :: 0 <= i < |g.cols| ==> FitsColumn(g.cols[i], most)
  }

  ghost predicate FitsColumn(c: Column, most: Most)
    decreases c
  {
    && c.name < Range(8) && |c.entries| <= most.cells && Fit(c.positions, 4)
    && forall i :: 0 <= i < |c.entries| ==> FitsEntry(c.ty, c.entries[i])
  }

  ghost predicate FitsEntry(t: FieldType, e: Entry)
    decreases e
  {
    match e
    case Vals(vals) => |vals| < Range(4) && Fit(vals, TypeWidth(t))
    case Objs(objs) => |objs| < Range(4) && FitsObjs(objs)
  }
}
