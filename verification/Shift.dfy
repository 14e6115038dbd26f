/** The bytes of a serialised object do not depend on where in a file they lie: all its offsets
    are relative to the root. */
module Shift {
  import opened Bytes
  import opened ColumnDoc
  import opened Format

  /** far takes from outside at p + d what near takes at p. */
  ghost predicate Moved(near: Env, far: Env, d: nat) {
    forall p: nat :: far.id(p + d) == near.id(p) && far.behind(p + d) == near.behind(p)
  }

  lemma {:induction false} OffsetsMove(sizes: seq<nat>, q: nat, root: nat, d: nat)
    requires root <= q
    ensures Offsets(sizes, q + d, root + d) == Offsets(sizes, q, root)
    decreases sizes
  {
    if sizes != [] {
      OffsetsMove(sizes[1..], q + sizes[0], root, d);
    }
  }

  lemma {:induction false} ObjMoves(o: Obj, p: nat, root: nat, next: nat, near: Env, far: Env, d: nat)
    requires ValidObj(o) && root <= p && Moved(near, far, d)
    ensures EncObj(o, p + d, root + d, next, far) == EncObj(o, p, root, next, near)
    decreases o, 0
  {
    hide EncHead, EncProps, HeadSize;
    HeadMoves(o, p, root, next, near, far, d);
    PropsMove(o.props, 0, p + HeadSize(o.props), root, near, far, d);
  }

  lemma HeadMoves(o: Obj, p: nat, root: nat, next: nat, near: Env, far: Env, d: nat)
    requires ValidObj(o) && root <= p && Moved(near, far, d)
    ensures EncHead(o, p + d, root + d, next, far) == EncHead(o, p, root, next, near)
  {
    hide EncWords, Le, Offsets, PropSizes, Flags, HeadSize, ValidObj;
    OffsetsMove(PropSizes(o.props, 0), p + HeadSize(o.props), root, d);
  }

  lemma {:induction false} PropsMove(props: seq<Prop>, i: nat, q: nat, root: nat, near: Env, far: Env, d: nat)
    requires |props| == SLOTS && forall k :: 0 <= k < SLOTS ==> ValidProp(k, props[k])
    requires root <= q && Moved(near, far, d)
    ensures EncProps(props, i, q + d, root + d, far) == EncProps(props, i, q, root, near)
    decreases props, |props| - i
  {
    hide EncProp, SizeProp, ValidProp, Moved;
    if i < |props| {
      PropMoves(i, props[i], q, root, near, far, d);
      PropsMove(props, i + 1, q + SizeProp(i, props[i]), root, near, far, d);
    }
  }

  lemma {:induction false} PropMoves(slot: nat, p: Prop, q: nat, root: nat, near: Env, far: Env, d: nat)
    requires slot < SLOTS && ValidProp(slot, p) && root <= q && Moved(near, far, d)
    ensures EncProp(slot, p, q + d, root + d, far) == EncProp(slot, p, q, root, near)
    decreases p, 0
  {
    hide EncWords, Le, Offsets, ObjSizes, GroupSizes, EncObjs, EncGroups, EncArrays, EncPropHead, ValidGroup,
        Moved, GroupKeys;
    match p
    case Fixed(_, _) =>
    case Arrays(keys, arrs) => ArraysMove(slot, arrs, 0, q + 5 + 8 * |keys| + 4 * |arrs|, near, far, d);
    case Nested(keys, objs) =>
      var r := q + 5 + 8 * |keys| + 8 * |objs|;
      OffsetsMove(ObjSizes(objs, 0), r, root, d);
      ObjsMove(objs, 0, r, root, false, near, far, d);
    case Table(groups) =>
      var r := q + 2 + 16 * |groups|;
      OffsetsMove(GroupSizes(groups, 0), r, root, d);
      GroupsMove(groups, 0, r, root, near, far, d);
  }

  lemma {:induction false} ArraysMove(slot: nat, arrs: seq<seq<nat>>, i: nat, q: nat, near: Env, far: Env, d: nat)
    requires slot < SLOTS && Moved(near, far, d)
    ensures EncArrays(slot, arrs, i, q + d, far) == EncArrays(slot, arrs, i, q, near)
    decreases |arrs| - i
  {
    hide EncArray, WriteWidth, Moved;
    if i < |arrs| {
      ArrayMoves(slot, arrs[i], q, near, far, d);
      ArraysMove(slot, arrs, i + 1, q + |arrs[i]| * WriteWidth(slot), near, far, d);
    }
  }

  lemma ArrayMoves(slot: nat, vals: seq<nat>, q: nat, near: Env, far: Env, d: nat)
    requires slot < SLOTS && Moved(near, far, d)
    ensures EncArray(slot, vals, q + d, far) == EncArray(slot, vals, q, near)
  {
    hide EncWords;
    var n := |vals|;
    var x, y := Behind(7 * n, q + d + n, far), Behind(7 * n, q + n, near);
    forall k | 0 <= k < |x|
      ensures x[k] == y[k]
    {
      assert far.behind(q + n + k + d) == near.behind(q + n + k);
    }
  }

  lemma {:induction false} ObjsMove(objs: seq<Obj>, i: nat, q: nat, root: nat, chained: bool, near: Env, far: Env,
      d: nat)
    requires ValidObjs(objs) && root <= q && Moved(near, far, d)
    ensures EncObjs(objs, i, q + d, root + d, chained, far) == EncObjs(objs, i, q, root, chained, near)
    decreases objs, |objs| - i
  {
    hide EncObj, SizeObj, ValidObj, Moved;
    if i < |objs| {
      ObjMoves(objs[i], q, root, NextOf(objs, i, q, root, chained), near, far, d);
      ObjsMove(objs, i + 1, q + SizeObj(objs[i]), root, chained, near, far, d);
    }
  }

  lemma {:induction false} GroupsMove(groups: seq<Group>, i: nat, q: nat, root: nat, near: Env, far: Env, d: nat)
    requires root <= q && Moved(near, far, d) && forall k :: 0 <= k < |groups| ==> ValidGroup(groups[k])
    ensures EncGroups(groups, i, q + d, root + d, far) == EncGroups(groups, i, q, root, near)
    decreases groups, |groups| - i
  {
    hide EncGroup, SizeGroup, ValidGroup, Moved;
    if i < |groups| {
      GroupMoves(groups[i], q, root, near, far, d);
      GroupsMove(groups, i + 1, q + SizeGroup(groups[i]), root, near, far, d);
    }
  }

  lemma {:induction false} GroupMoves(g: Group, q: nat, root: nat, near: Env, far: Env, d: nat)
    requires ValidGroup(g) && root <= q && Moved(near, far, d)
    ensures EncGroup(g, q + d, root + d, far) == EncGroup(g, q, root, near)
    decreases g, 0
  {
    hide EncWords, Le, Offsets, ColumnSizes, EncColumns, DrawnIds, NumObjects, ValidColumn, Moved;
    var r := q + 9 + 8 * NumObjects(g) + 8 * |g.cols|;
    DrawnIdsMove(NumObjects(g), q + 9, near, far, d);
    OffsetsMove(ColumnSizes(g.cols, 0), r, root, d);
    ColumnsMove(g.cols, 0, r, root, near, far, d);
  }

  lemma {:induction false} DrawnIdsMove(n: nat, q: nat, near: Env, far: Env, d: nat)
    requires Moved(near, far, d)
    ensures DrawnIds(n, q + d, far) == DrawnIds(n, q, near)
    decreases n
  {
    if n > 0 {
      DrawnIdsMove(n - 1, q + 8, near, far, d);
    }
  }

  lemma {:induction false} ColumnsMove(cols: seq<Column>, i: nat, q: nat, root: nat, near: Env, far: Env, d: nat)
    requires root <= q && Moved(near, far, d) && forall k :: 0 <= k < |cols| ==> ValidColumn(cols[k])
    ensures EncColumns(cols, i, q + d, root + d, far) == EncColumns(cols, i, q, root, near)
    decreases cols, |cols| - i
  {
    hide EncColumn, SizeColumn, ValidColumn, Moved;
    if i < |cols| {
      ColumnMoves(cols[i], q, root, near, far, d);
      ColumnsMove(cols, i + 1, q + SizeColumn(cols[i]), root, near, far, d);
    }
  }

  lemma {:induction false} ColumnMoves(c: Column, q: nat, root: nat, near: Env, far: Env, d: nat)
    requires ValidColumn(c) && root <= q && Moved(near, far, d)
    ensures EncColumn(c, q + d, root + d, far) == EncColumn(c, q, root, near)
    decreases c, 0
  {
    hide EncWords, Offsets, EntrySizes, EncEntries, EncColumnHead, ValidEntry, Moved;
    var r := q + 14 + 8 * |c.entries| + 4 * |c.positions|;
    OffsetsMove(EntrySizes(c.ty, c.entries, 0), r, root, d);
    EntriesMove(c.ty, c.entries, 0, r, root, near, far, d);
  }

  lemma {:induction false} EntriesMove(t: FieldType, entries: seq<Entry>, i: nat, q: nat, root: nat,
                                       near: Env, far: Env, d: nat)
    requires root <= q && Moved(near, far, d) && forall k :: 0 <= k < |entries| ==> ValidEntry(t, entries[k])
    ensures EncEntries(t, entries, i, q + d, root + d, far) == EncEntries(t, entries, i, q, root, near)
    decreases entries, |entries| - i
  {
    hide EncEntry, SizeEntry, ValidEntry, Moved;
    if i < |entries| {
      EntryMoves(t, entries[i], q, root, near, far, d);
      EntriesMove(t, entries, i + 1, q + SizeEntry(t, entries[i]), root, near, far, d);
    }
  }

  lemma {:induction false} EntryMoves(t: FieldType, e: Entry, q: nat, root: nat, near: Env, far: Env, d: nat)
    requires ValidEntry(t, e) && root <= q && Moved(near, far, d)
    ensures EncEntry(t, e, q + d, root + d, far) == EncEntry(t, e, q, root, near)
    decreases e, 0
  {
    hide EncWords, Le, EncObjs, Moved;
    if e.Objs? {
      ObjsMove(e.objs, 0, q + 4, root, true, near, far, d);
    }
  }
}
