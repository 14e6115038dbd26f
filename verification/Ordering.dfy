/** What the read-optimising sort is to bring about: every list in the order of its comparator,
    wherever that comparator is an order at all, in an object and everything in it. */
module Ordering {
  import opened ColumnDoc
  import opened Reorder
  import QuickSort

  /** The comparators: object arrays are compared by key, their columns by name and type. */
  datatype Orders = Orders(
    scalar: nat -> (nat, nat) -> bool,
    list: nat -> (seq<nat>, seq<nat>) -> bool,
    group: (nat, nat) -> bool,
    column: ((nat, FieldType), (nat, FieldType)) -> bool,
    entry: FieldType -> (Entry, Entry) -> bool)

  ghost predicate SortedBy<T(!new)>(leq: (T, T) -> bool, xs: seq<T>) {
    forall i, j :: 0 <= i < j < |xs| ==> leq(xs[i], xs[j])
  }

  /** Sorted, when the comparator is a total order of the elements. */
  ghost predicate Ordered<T(!new)>(leq: (T, T) -> bool, xs: seq<T>) {
    QuickSort.TotalOn(leq, xs) ==> SortedBy(leq, xs)
  }

  function GroupKeys(groups: seq<Group>): (keys: seq<nat>)
    ensures |keys| == |groups| && forall i :: 0 <= i < |groups| ==> keys[i] == groups[i].key
  {
    seq(|groups|, (i: nat) requires i < |groups| => groups[i].key)
  }

  function ColumnKeys(cols: seq<Column>): (keys: seq<(nat, FieldType)>)
    ensures |keys| == |cols| && forall i :: 0 <= i < |cols| ==> keys[i] == (cols[i].name, cols[i].ty)
  {
    seq(|cols|, (i: nat) requires i < |cols| => (cols[i].name, cols[i].ty))
  }

  /** The lists of a slot are in order; nulls have none, and objects are not compared. */
  ghost predicate SlotOrdered(orders: Orders, slot: nat, p: Prop) {
    match p
    case Fixed(_, vals) => 1 <= slot <= 11 ==> Ordered(orders.scalar(slot), vals)
    case Arrays(_, arrs) => Ordered(orders.list(slot), arrs)
    case Nested(_, _) => true
    case Table(groups) =>
      Ordered(orders.group, GroupKeys(groups)) && forall i :: 0 <= i < |groups| ==> GroupOrdered(orders, groups[i])
  }

  /** The columns of a group are in order by name and type, and the entries of each column, the
      objects excepted, by their values. */
  ghost predicate GroupOrdered(orders: Orders, g: Group) {
    && Ordered(orders.column, ColumnKeys(g.cols))
    && forall i :: 0 <= i < |g.cols| ==> ColumnOrdered(orders, g.cols[i])
  }

  ghost predicate ColumnOrdered(orders: Orders, c: Column) {
    c.ty != Object ==> Ordered(orders.entry(c.ty), c.entries)
  }

  ghost predicate ObjOrdered(orders: Orders, o: Obj)
    decreases o
  {
    forall i :: 0 <= i < |o.props| ==> SlotOrdered(orders, i, o.props[i]) && InsideOrdered(orders, o.props[i])
  }

  /** The objects that a slot holds are in order themselves. */
  ghost predicate InsideOrdered(orders: Orders, p: Prop)
    decreases p
  {
    match p
    case Fixed(_, _) => true
    case Arrays(_, _) => true
    case Nested(_, objs) => ObjsOrdered(orders, objs)
    case Table(groups) => forall i :: 0 <= i < |groups| ==> GroupInside(orders, groups[i])
  }

  ghost predicate ObjsOrdered(orders: Orders, objs: seq<Obj>)
    decreases objs
  {
    forall i :: 0 <= i < |objs| ==> ObjOrdered(orders, objs[i])
  }

  ghost predicate GroupInside(orders: Orders, g: Group)
    decreases g
  {
    forall i :: 0 <= i < |g.cols| ==> ColumnInside(orders, g.cols[i])
  }

  ghost predicate ColumnInside(orders: Orders, c: Column)
    decreases c
  {
    forall i :: 0 <= i < |c.entries| ==> EntryInside(orders, c.entries[i])
  }

  ghost predicate EntryInside(orders: Orders, e: Entry)
    decreases e
  {
    e.Objs? ==> ObjsOrdered(orders, e.objs)
  }

  /** What is in order in a sorted object: the values of slots 1 to 11, the arrays of slots 14 to 24, the
      object arrays, their columns and the entries of these, and everything in the objects in it. */
  lemma OrderedMeans(orders: Orders, o: Obj)
    requires ValidObj(o) && ObjOrdered(orders, o)
    ensures |o.props| == 26 && o.props[12].Nested? && o.props[25].Table?
    ensures forall i :: 1 <= i <= 11 ==> o.props[i].Fixed? && Ordered(orders.scalar(i), o.props[i].vals)
    ensures forall i :: 14 <= i <= 24 ==> o.props[i].Arrays? && Ordered(orders.list(i), o.props[i].arrs)
    ensures Ordered(orders.group, GroupKeys(o.props[25].groups))
    ensures forall g :: g in o.props[25].groups ==>
      Ordered(orders.column, ColumnKeys(g.cols)) && forall c :: c in g.cols && c.ty != Object ==>
        Ordered(orders.entry(c.ty), c.entries)
    ensures forall r :: r in o.props[12].objs ==> ObjOrdered(orders, r)
    ensures forall g, c, e, r :: g in o.props[25].groups && c in g.cols && e in c.entries && e.Objs? && r in e.objs ==>
      ObjOrdered(orders, r)
  {
    hide Ordered;
    forall i | 0 <= i < 26
      ensures ValidProp(i, o.props[i]) && SlotOrdered(orders, i, o.props[i]) && InsideOrdered(orders, o.props[i])
    {
    }
    assert ObjsOrdered(orders, o.props[12].objs) by {
      assert InsideOrdered(orders, o.props[12]);
    }
    forall g, c, e, r | g in o.props[25].groups && c in g.cols && e in c.entries && e.Objs? && r in e.objs
      ensures ObjOrdered(orders, r)
    {
      assert GroupInside(orders, g) && ColumnInside(orders, c) && EntryInside(orders, e) && ObjsOrdered(orders, e.objs);
    }
  }

  // ----- the comparators of the source

  /** Arrays are compared position by position, as far as both go. */
  predicate Pointwise(a: seq<nat>, b: seq<nat>) {
    forall i :: 0 <= i < |a| && i < |b| ==> a[i] <= b[i]
  }

  /** The comparison of arrays is no order: neither of these two is at most the other, and [2, 0]
      is at most [], which is at most [1]. */
  lemma PointwiseIsNoOrder()
    ensures !QuickSort.TotalOn(Pointwise, [[0, 1], [1, 0]])
    ensures Pointwise([2, 0], []) && Pointwise([], [1]) && !Pointwise([2, 0], [1])
  {
    var a, b := [0, 1], [1, 0];
    assert !Pointwise(a, b) && !Pointwise(b, a) by {
      assert a[1] > b[1] && b[0] > a[0];
    }
    assert a in [a, b] && b in [a, b];
    assert [2, 0][0] > [1][0];
  }

  /** On lists of one element each it is an order. */
  lemma PointwiseOrders(lists: seq<seq<nat>>)
    requires forall i :: 0 <= i < |lists| ==> |lists[i]| == 1
    ensures QuickSort.TotalOn(Pointwise, lists)
  {
    forall a, b | |a| == 1 && |b| == 1
      ensures Pointwise(a, b) <==> a[0] <= b[0]
    {
    }
  }

  // ----- sorting through indices

  /** Compares elements through their indices. */
  ghost predicate Through<T(!new)>(leq: (nat, nat) -> bool, elements: (T, T) -> bool, xs: seq<T>) {
    forall a, b :: 0 <= a < |xs| && 0 <= b < |xs| ==> leq(a, b) == elements(xs[a], xs[b])
  }

  /** When the indices are in order, so is what they pick. */
  lemma PickOrdered<T(!new)>(leq: (nat, nat) -> bool, elements: (T, T) -> bool, xs: seq<T>, idx: seq<nat>)
    requires Through(leq, elements, xs) && Permutation(idx, |xs|)
    requires forall i :: 0 <= i < |idx| ==> idx[i] < |xs|
    requires QuickSort.TotalOn(leq, Identity(|xs|)) ==> forall i, j :: 0 <= i < j < |idx| ==> leq(idx[i], idx[j])
    ensures Ordered(elements, Pick(xs, idx))
  {
    if QuickSort.TotalOn(elements, Pick(xs, idx)) {
      AllPicked(elements, xs, idx);
      assert forall a :: a in Identity(|xs|) ==> a < |xs| && xs[a] in xs;
      assert QuickSort.TotalOn(leq, Identity(|xs|));
    }
  }

  /** A permutation picks every element. */
  lemma AllPicked<T(!new)>(elements: (T, T) -> bool, xs: seq<T>, idx: seq<nat>)
    requires Permutation(idx, |xs|) && forall i :: 0 <= i < |idx| ==> idx[i] < |xs|
    requires QuickSort.TotalOn(elements, Pick(xs, idx))
    ensures QuickSort.TotalOn(elements, xs)
  {
    forall x | x in xs
      ensures x in Pick(xs, idx)
    {
      var a :| 0 <= a < |xs| && xs[a] == x;
      assert Identity(|xs|)[a] == a && a in multiset(Identity(|xs|));
      assert a in multiset(idx);
      var i :| 0 <= i < |idx| && idx[i] == a;
      assert Pick(xs, idx)[i] == x;
    }
  }
}
