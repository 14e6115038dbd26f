/** What the copies of an object say: the same as the object whatever memory holds, exactly when it
    says nothing that a copy can spoil. */
module CopyFacts {
  import opened Bytes
  import opened ColumnDoc
  import opened Document
  import opened Columns
  import opened Faults
  import opened NullCopy
  import opened NullWords
  import opened Reorder
  import Lossless

  // ----- faults of parts

  lemma {:induction false} SumFaults(terms: seq<multiset<Fact>>, k: Fault)
    ensures HasFault(Sum(terms), k) <==> exists i :: 0 <= i < |terms| && HasFault(terms[i], k)
    decreases |terms|
  {
    hide HasFault;
    if terms == [] {
      FaultNone(k);
    } else {
      var n := |terms| - 1;
      SumFaults(terms[..n], k);
      FaultSum(Sum(terms[..n]), terms[n], k);
      assert forall i :: 0 <= i < n ==> terms[..n][i] == terms[i];
    }
  }

  lemma {:induction false} PropsFaults(props: seq<Prop>, n: nat, k: Fault)
    requires n <= |props|
    ensures HasFault(PropsFacts(props, n), k) <==> exists i :: 0 <= i < n && HasFault(PropFacts(i, props[i]), k)
    decreases n
  {
    hide HasFault, PropFacts;
    if n == 0 {
      FaultNone(k);
    } else {
      PropsFaults(props, n - 1, k);
      FaultSum(PropsFacts(props, n - 1), PropFacts(n - 1, props[n - 1]), k);
    }
  }

  /** Scalars, null keys and arrays have no fault, and arrays of nulls by their numbers only. */
  lemma PlainFaults(facts: multiset<Fact>, k: Fault)
    requires forall f :: f in facts ==> f.NullOf? || f.ScalarOf? || f.ArrayOf? || f.NullsOf?
    requires !k.Octets? && forall f :: f in facts && f.NullsOf? ==> !k.NullCount? && !k.Zero?
    ensures !HasFault(facts, k)
  {
  }

  lemma CountFault(keys: seq<nat>, vals: seq<nat>, i: nat, k: Fault)
    requires i < |keys| == |vals|
    requires (k.NullCount? && vals[i] >= k.w) || (k.Zero? && vals[i] == 0)
    ensures HasFault(FixedFacts(NULL_ARRAY_SLOT, keys, vals), k)
  {
    hide HasFault, FixedFacts;
    FixedSum(NULL_ARRAY_SLOT, keys, vals);
    SumFaults(FixedTerms(NULL_ARRAY_SLOT, keys, vals), k);
    FaultOne(NullsOf(keys[i], vals[i]), k);
    assert HasFault(FixedTerms(NULL_ARRAY_SLOT, keys, vals)[i], k);
  }

  lemma NestedFaults(keys: seq<nat>, objs: seq<Obj>, k: Fault)
    requires |keys| == |objs|
    ensures HasFault(NestedFacts(keys, objs), k) <==>
            exists i :: 0 <= i < |objs| && SaysFault(Said(ObjFacts(objs[i])), k)
  {
    hide HasFault, ObjFacts, SaysFault, NestedFacts, IsFault;
    NestedSum(keys, objs);
    SumFaults(NestedTerms(keys, objs), k);
    forall i | 0 <= i < |objs|
      ensures HasFault(NestedTerms(keys, objs)[i], k) <==> SaysFault(Said(ObjFacts(objs[i])), k)
    {
      ObjectFault(keys[i], Said(ObjFacts(objs[i])), k);
    }
  }

  lemma ObjectFault(key: nat, s: Said, k: Fault)
    ensures HasFault(multiset{ObjectOf(key, s)}, k) <==> SaysFault(s, k)
  {
    hide HasFault, SaysFault;
    FaultOne(ObjectOf(key, s), k);
  }

  lemma TableFaults(groups: seq<Group>, k: Fault)
    ensures HasFault(TableFacts(groups), k) <==>
            exists i :: 0 <= i < |groups| && HasFault(GroupFacts(groups[i]), k)
  {
    hide HasFault, GroupFacts, TableFacts;
    GroupsSum(groups);
    SumFaults(GroupsTerms(groups), k);
  }

  lemma GroupFaults(g: Group, k: Fault)
    ensures HasFault(GroupFacts(g), k) <==>
            exists i :: 0 <= i < |g.cols| && HasFault(ColumnFacts(g.key, g.cols[i]), k)
  {
    hide HasFault, ColumnsFacts, ColumnFacts, NumObjects;
    FaultSum(ColumnsFacts(g.key, g.cols), multiset{RowsOf(g.key, NumObjects(g))}, k);
    FaultOne(RowsOf(g.key, NumObjects(g)), k);
    ColumnsSum(g.key, g.cols);
    SumFaults(ColumnsTerms(g.key, g.cols), k);
  }

  lemma ColumnFaults(key: nat, c: Column, k: Fault)
    requires |c.positions| == |c.entries|
    ensures HasFault(ColumnFacts(key, c), k) <==>
            exists i :: 0 <= i < |c.entries| && CellFault(c.ty, EntryCell(c.ty, c.entries[i]), k)
  {
    hide HasFault, EntryCell, CellsFacts, CellFault;
    CellsSum(key, c.name, c.ty, c.positions, c.entries);
    SumFaults(CellsTerms(key, c.name, c.ty, c.positions, c.entries), k);
    forall i | 0 <= i < |c.entries|
      ensures HasFault(CellsTerms(key, c.name, c.ty, c.positions, c.entries)[i], k)
              <==> CellFault(c.ty, EntryCell(c.ty, c.entries[i]), k)
    {
      FaultOne(CellOf(key, c.positions[i], c.name, c.ty, EntryCell(c.ty, c.entries[i])), k);
    }
  }

  // ----- two arrays of nulls

  lemma {:induction false} NullsOfSlot(props: seq<Prop>, n: nat, f: Fact)
    requires n <= |props| && f.NullsOf?
    ensures PropsFacts(props, n)[f]
            == if n > NULL_ARRAY_SLOT then PropFacts(NULL_ARRAY_SLOT, props[NULL_ARRAY_SLOT])[f] else 0
    decreases n
  {
    hide FixedFacts, NestedFacts, ArraysFacts, GroupsCells, GroupRows;
    if n > 0 {
      NullsOfSlot(props, n - 1, f);
      assert n - 1 != NULL_ARRAY_SLOT ==> f !in PropFacts(n - 1, props[n - 1]);
    }
  }

  lemma NullsThere(o: Obj)
    requires ValidObj(o)
    ensures |o.props| == SLOTS && o.props[NULL_ARRAY_SLOT].Fixed?
    ensures |o.props[NULL_ARRAY_SLOT].keys| == |o.props[NULL_ARRAY_SLOT].vals|
  {
    assert ValidProp(NULL_ARRAY_SLOT, o.props[NULL_ARRAY_SLOT]);
  }

  /** An object is crowded exactly when it has more than one array of nulls. */
  lemma CrowdedSlot(o: Obj)
    requires ValidObj(o)
    ensures |o.props| == SLOTS && o.props[NULL_ARRAY_SLOT].Fixed?
    ensures Crowded(ObjFacts(o)) <==> |o.props[NULL_ARRAY_SLOT].keys| > 1
  {
    hide PropsFacts, FixedFacts, ValidObj;
    NullsThere(o);
    var keys, vals := o.props[NULL_ARRAY_SLOT].keys, o.props[NULL_ARRAY_SLOT].vals;
    var facts := FixedFacts(NULL_ARRAY_SLOT, keys, vals);
    forall f: Fact | f.NullsOf?
      ensures ObjFacts(o)[f] == facts[f]
    {
      NullsOfSlot(o.props, SLOTS, f);
    }
    if |keys| > 1 {
      TwoFacts(keys, vals);
      var f, g := NullsOf(keys[0], vals[0]), NullsOf(keys[1], vals[1]);
      assert f in ObjFacts(o) && g in ObjFacts(o) && (f == g ==> ObjFacts(o)[f] > 1);
      assert CrowdedBy(ObjFacts(o), f);
    } else {
      OneFact(keys, vals);
    }
  }

  lemma {:induction false} TwoFacts(keys: seq<nat>, vals: seq<nat>)
    requires |keys| == |vals| > 1
    ensures multiset{NullsOf(keys[0], vals[0])} + multiset{NullsOf(keys[1], vals[1])}
            <= FixedFacts(NULL_ARRAY_SLOT, keys, vals)
    decreases |keys|
  {
    var n := |keys| - 1;
    if n > 1 {
      TwoFacts(keys[..n], vals[..n]);
    } else {
      assert keys[..1][..0] == [] && vals[..1][..0] == [];
      assert FixedFacts(NULL_ARRAY_SLOT, keys[..1], vals[..1]) == multiset{NullsOf(keys[0], vals[0])};
    }
  }

  lemma OneFact(keys: seq<nat>, vals: seq<nat>)
    requires |keys| == |vals| <= 1
    ensures FixedFacts(NULL_ARRAY_SLOT, keys, vals)
            == if keys == [] then multiset{} else multiset{NullsOf(keys[0], vals[0])}
  {
    if keys != [] {
      assert keys[..0] == [] && vals[..0] == [];
    }
  }

  // ----- nothing to spoil: one copy, which is the object itself

  /** What no copy can keep: more than one array of nulls, or a number that is too large. */
  ghost predicate Spoils(facts: multiset<Fact>) { HasFault(facts, Crowd) || HasFault(facts, NullCount(NULL_RANGE)) }

  ghost predicate SaysSpoilt(s: Said) { SaysFault(s, Crowd) || SaysFault(s, NullCount(NULL_RANGE)) }

  /** An object that says nothing that is always spoilt is a copy of itself, and its only one if no
      row has a single null. */
  lemma {:induction false} OneCopy(o: Obj, r: Obj)
    requires ValidObj(o) && !SaysSpoilt(Said(ObjFacts(o)))
    requires r == o || (Copied(o, r) && !SaysFault(Said(ObjFacts(o)), Single))
    ensures r == o && Copied(o, r)
    decreases o
  {
    hide HasFault, PropFacts, PropsFacts, ValidProp, CopiedProp, Crowded, FixedFacts;
    Spoilt(ObjFacts(o));
    CrowdedSlot(o);
    PropsFaults(o.props, |o.props|, Single);
    PropsFaults(o.props, |o.props|, Crowd);
    PropsFaults(o.props, |o.props|, NullCount(NULL_RANGE));
    forall i | 0 <= i < |o.props|
      ensures r.props[i] == o.props[i] && CopiedProp(i, o.props[i], r.props[i])
    {
      OnePropCopy(i, o.props[i], r.props[i]);
    }
  }

  lemma Spoilt(facts: multiset<Fact>)
    ensures !SaysSpoilt(Said(facts)) <==> !Spoils(facts) && !Crowded(facts)
    ensures SaysFault(Said(facts), Single) <==> HasFault(facts, Single)
  {
    hide IsFault, Crowded;
  }

  lemma {:induction false} OnePropCopy(slot: nat, p: Prop, q: Prop)
    requires ValidProp(slot, p) && !Spoils(PropFacts(slot, p))
    requires q == p || (CopiedProp(slot, p, q) && !HasFault(PropFacts(slot, p), Single))
    requires slot == NULL_ARRAY_SLOT && p.Fixed? ==> |p.keys| <= 1
    ensures q == p && CopiedProp(slot, p, q)
    decreases p
  {
    hide HasFault, FixedFacts, NestedFacts, TableFacts, ValidGroup, CopiedGroup, ValidObjs, CopiedObjs, CopiedWords;
    match p
    case Fixed(keys, vals) =>
      if slot == NULL_ARRAY_SLOT {
        OneNumber(keys, vals, q.vals);
      }
    case Nested(keys, objs) => OneNestedCopy(keys, objs, q.objs);
    case Arrays(_, _) =>
    case Table(groups) => OneTableCopy(groups, q.groups);
  }

  lemma OneNumber(keys: seq<nat>, vals: seq<nat>, words: seq<nat>)
    requires |keys| == |vals| <= 1 && (words == vals || CopiedWords(vals, ARRAYS_SPACE, words))
    requires !Spoils(FixedFacts(NULL_ARRAY_SLOT, keys, vals))
    ensures words == vals && CopiedWords(vals, ARRAYS_SPACE, words)
  {
    hide HasFault, FixedFacts, WordsBehind, CopiedWords;
    if vals != [] && vals[0] >= NULL_RANGE {
      CountFault(keys, vals, 0, NullCount(NULL_RANGE));
    }
    OneWordCopy(vals, ARRAYS_SPACE, words);
  }

  lemma OneWordCopy(vals: seq<nat>, space: nat, words: seq<nat>)
    requires |vals| <= 1 && (vals == [] || vals[0] < NULL_RANGE)
    requires words == vals || (CopiedWords(vals, space, words) && space >= 4 * |vals|)
    ensures words == vals && CopiedWords(vals, space, words)
  {
    hide WordsBehind, CopiedWords;
    if vals == [] {
      NoWords(space, words);
    } else {
      assert vals == [vals[0]];
      if words == vals {
        SameWord(vals[0], space);
      } else {
        OneWord(vals[0], space, words);
      }
    }
  }

  lemma {:induction false} OneNestedCopy(keys: seq<nat>, objs: seq<Obj>, copies: seq<Obj>)
    requires |keys| == |objs| && ValidObjs(objs) && !Spoils(NestedFacts(keys, objs))
    requires copies == objs || (CopiedObjs(objs, copies) && !HasFault(NestedFacts(keys, objs), Single))
    ensures copies == objs && CopiedObjs(objs, copies)
    decreases objs
  {
    hide HasFault, ObjFacts, ValidObj, Copied, NestedFacts, SaysFault;
    NestedFaults(keys, objs, Single);
    NestedFaults(keys, objs, Crowd);
    NestedFaults(keys, objs, NullCount(NULL_RANGE));
    forall i | 0 <= i < |objs|
      ensures copies[i] == objs[i] && Copied(objs[i], copies[i])
    {
      OneCopy(objs[i], copies[i]);
    }
  }

  lemma {:induction false} OneTableCopy(groups: seq<Group>, copies: seq<Group>)
    requires (forall i :: 0 <= i < |groups| ==> ValidGroup(groups[i])) && !Spoils(TableFacts(groups))
    requires
      || copies == groups
      || (CopiedProp(TABLE_SLOT, Table(groups), Table(copies)) && !HasFault(TableFacts(groups), Single))
    ensures copies == groups && CopiedProp(TABLE_SLOT, Table(groups), Table(copies))
    decreases groups
  {
    hide HasFault, TableFacts, ValidGroup, CopiedGroup, GroupFacts;
    TableFaults(groups, Single);
    TableFaults(groups, Crowd);
    TableFaults(groups, NullCount(NULL_RANGE));
    forall i | 0 <= i < |groups|
      ensures copies[i] == groups[i] && CopiedGroup(groups[i], copies[i])
    {
      OneGroupCopy(groups[i], copies[i]);
    }
  }

  lemma {:induction false} OneGroupCopy(g: Group, h: Group)
    requires ValidGroup(g) && !Spoils(GroupFacts(g))
    requires h == g || (CopiedGroup(g, h) && !HasFault(GroupFacts(g), Single))
    ensures h == g && CopiedGroup(g, h)
    decreases g
  {
    hide HasFault, GroupFacts, ColumnFacts, ValidColumn, CopiedColumn;
    GroupFaults(g, Single);
    GroupFaults(g, Crowd);
    GroupFaults(g, NullCount(NULL_RANGE));
    forall i | 0 <= i < |g.cols|
      ensures h.cols[i] == g.cols[i] && CopiedColumn(g.cols[i], h.cols[i])
    {
      OneColumnCopy(g.key, g.cols[i], h.cols[i]);
    }
  }

  lemma {:induction false} OneColumnCopy(key: nat, c: Column, d: Column)
    requires ValidColumn(c) && !Spoils(ColumnFacts(key, c))
    requires d == c || (CopiedColumn(c, d) && !HasFault(ColumnFacts(key, c), Single))
    ensures d == c && CopiedColumn(c, d)
    decreases c
  {
    hide HasFault, ColumnFacts, ValidEntry, CopiedEntry, EntryCell, CellFault;
    ColumnFaults(key, c, Single);
    ColumnFaults(key, c, Crowd);
    ColumnFaults(key, c, NullCount(NULL_RANGE));
    forall i | 0 <= i < |c.entries|
      ensures d.entries[i] == c.entries[i] && CopiedEntry(c.ty, c.entries[i], d.entries[i])
    {
      OneEntryCopy(c.ty, c.entries[i], d.entries[i]);
    }
  }

  lemma {:induction false} OneEntryCopy(ty: FieldType, e: Entry, f: Entry)
    requires ValidEntry(ty, e)
    requires !CellFault(ty, EntryCell(ty, e), Crowd) && !CellFault(ty, EntryCell(ty, e), NullCount(NULL_RANGE))
    requires f == e || (CopiedEntry(ty, e, f) && !CellFault(ty, EntryCell(ty, e), Single))
    ensures f == e && CopiedEntry(ty, e, f)
    decreases e
  {
    hide ObjFacts, ValidObj, Copied, AllObjFacts, SaysFault, WordsBehind, CopiedWords;
    match e
    case Vals(vals) =>
      if ty == Null {
        OneWordCopy(vals, CellSpace(vals), f.vals);
      }
    case Objs(objs) =>
      forall i | 0 <= i < |objs|
        ensures f.objs[i] == objs[i] && Copied(objs[i], f.objs[i])
      {
        Lossless.AllObjFactsAt(objs, |objs|, i);
        OneCopy(objs[i], f.objs[i]);
      }
  }

  // ----- something to spoil: a copy that says what no document does

  /** What a copy makes of a fault when memory is as in FilledWith. */
  function Spoiling(k: Fault): Fault { if k.Single? then NullCount(NULL_RANGE) else Zero }

  /** Ones spoil a single null, and zeros two arrays of nulls. */
  function FilledWith(k: Fault): Heap {
    var b: Byte := if k.Single? then 1 else 0;
    (place: seq<nat>, i: nat) => b
  }

  /** Of an object that says something that can be spoilt there is a copy that says of some array
      that it has no nulls, or a number of nulls that is too large. */
  lemma {:induction false} CopySays(o: Obj, place: seq<nat>, k: Fault)
    requires ValidObj(o) && (k.Single? || k.Crowd?) && SaysFault(Said(ObjFacts(o)), k)
    ensures SaysFault(Said(ObjFacts(CopyObj(o, place, FilledWith(k)))), Spoiling(k))
    decreases o
  {
    hide HasFault, PropFacts, PropsFacts, ValidProp, CopyProp, Crowded, FixedFacts, Copied, CopiedProp, FilledWith;
    var r := CopyObj(o, place, FilledWith(k));
    Faulty(ObjFacts(o), k);
    CrowdedSlot(o);
    PropsFaults(o.props, |o.props|, k);
    PropsFaults(r.props, |r.props|, Spoiling(k));
    var i := if HasFault(ObjFacts(o), k) then FaultyProp(o, k) else NULL_ARRAY_SLOT;
    PropCopySays(i, o.props[i], place + [i], k);
    assert r.props[i] == CopyProp(i, o.props[i], place + [i], FilledWith(k));
    Faulty(ObjFacts(r), Spoiling(k));
  }

  lemma Faulty(facts: multiset<Fact>, k: Fault)
    ensures SaysFault(Said(facts), k) <==>
            HasFault(facts, k) || (k.Gap? && Ragged(facts)) || (k.Crowd? && Crowded(facts))
  {
    hide IsFault, Crowded, Ragged;
  }

  ghost function FaultyProp(o: Obj, k: Fault): (i: nat)
    requires HasFault(ObjFacts(o), k)
    ensures i < |o.props| && HasFault(PropFacts(i, o.props[i]), k)
  {
    PropsFaults(o.props, |o.props|, k);
    var i :| 0 <= i < |o.props| && HasFault(PropFacts(i, o.props[i]), k);
    i
  }

  lemma {:induction false} PropCopySays(slot: nat, p: Prop, place: seq<nat>, k: Fault)
    requires ValidProp(slot, p) && (k.Single? || k.Crowd?)
    requires HasFault(PropFacts(slot, p), k) || (k.Crowd? && slot == NULL_ARRAY_SLOT && p.Fixed? && |p.keys| > 1)
    ensures HasFault(PropFacts(slot, CopyProp(slot, p, place, FilledWith(k))), Spoiling(k))
    decreases p
  {
    hide HasFault, FixedFacts, ArraysFacts, NestedFacts, TableFacts, ValidGroup, ValidObjs, CopyObjs, CopyGroup,
        FilledWith, CopyWords, CopiedWords, CopiedObjs, CopiedGroup;
    match p
    case Fixed(keys, vals) =>
      PlainFaults(FixedFacts(slot, keys, vals), k);
      LastSays(keys, vals, place);
    case Arrays(keys, arrs) =>
      PlainFaults(ArraysFacts(slot, keys, arrs), k);
    case Nested(keys, objs) => NestedCopySays(keys, objs, place, k);
    case Table(groups) => TableCopySays(groups, place, k);
  }

  lemma LastSays(keys: seq<nat>, vals: seq<nat>, place: seq<nat>)
    requires |keys| == |vals| > 1
    ensures HasFault(FixedFacts(NULL_ARRAY_SLOT, keys, CopyWords(vals, ARRAYS_SPACE, place, FilledWith(Crowd))), Zero)
  {
    hide HasFault, FixedFacts, WordsBehind, CopiedWords;
    LastWordZero(vals, Behind(|vals|, ARRAYS_SPACE, place, FilledWith(Crowd)));
    CountFault(keys, CopyWords(vals, ARRAYS_SPACE, place, FilledWith(Crowd)), |vals| - 1, Zero);
  }

  lemma {:induction false} NestedCopySays(keys: seq<nat>, objs: seq<Obj>, place: seq<nat>, k: Fault)
    requires |keys| == |objs| && ValidObjs(objs) && (k.Single? || k.Crowd?) && HasFault(NestedFacts(keys, objs), k)
    ensures HasFault(NestedFacts(keys, CopyObjs(objs, place, FilledWith(k))), Spoiling(k))
    decreases objs
  {
    hide HasFault, NestedFacts, ObjFacts, SaysFault, ValidObj, CopyObj, Copied, FilledWith;
    var copies := CopyObjs(objs, place, FilledWith(k));
    NestedFaults(keys, objs, k);
    NestedFaults(keys, copies, Spoiling(k));
    var i :| 0 <= i < |objs| && SaysFault(Said(ObjFacts(objs[i])), k);
    CopySays(objs[i], place + [i], k);
    assert copies[i] == CopyObj(objs[i], place + [i], FilledWith(k));
  }

  lemma {:induction false} TableCopySays(groups: seq<Group>, place: seq<nat>, k: Fault)
    requires (k.Single? || k.Crowd?) && HasFault(TableFacts(groups), k)
    requires forall i :: 0 <= i < |groups| ==> ValidGroup(groups[i])
    ensures HasFault(PropFacts(TABLE_SLOT, CopyProp(TABLE_SLOT, Table(groups), place, FilledWith(k))), Spoiling(k))
    decreases groups
  {
    hide HasFault, TableFacts, GroupFacts, ValidGroup, CopyGroup, CopiedGroup, FilledWith;
    var copies := CopyProp(TABLE_SLOT, Table(groups), place, FilledWith(k)).groups;
    TableFaults(groups, k);
    TableFaults(copies, Spoiling(k));
    var i :| 0 <= i < |groups| && HasFault(GroupFacts(groups[i]), k);
    GroupCopySays(groups[i], place + [i], k);
    assert copies[i] == CopyGroup(groups[i], place + [i], FilledWith(k));
  }

  lemma {:induction false} GroupCopySays(g: Group, place: seq<nat>, k: Fault)
    requires ValidGroup(g) && (k.Single? || k.Crowd?) && HasFault(GroupFacts(g), k)
    ensures HasFault(GroupFacts(CopyGroup(g, place, FilledWith(k))), Spoiling(k))
    decreases g
  {
    hide HasFault, GroupFacts, ColumnFacts, ValidColumn, CopyColumn, CopiedColumn, FilledWith;
    var h := CopyGroup(g, place, FilledWith(k));
    GroupFaults(g, k);
    GroupFaults(h, Spoiling(k));
    var i :| 0 <= i < |g.cols| && HasFault(ColumnFacts(g.key, g.cols[i]), k);
    ColumnCopySays(g.key, g.cols[i], place + [i], k);
    assert h.cols[i] == CopyColumn(g.cols[i], place + [i], FilledWith(k));
  }

  lemma {:induction false} ColumnCopySays(key: nat, c: Column, place: seq<nat>, k: Fault)
    requires ValidColumn(c) && (k.Single? || k.Crowd?) && HasFault(ColumnFacts(key, c), k)
    ensures HasFault(ColumnFacts(key, CopyColumn(c, place, FilledWith(k))), Spoiling(k))
    decreases c
  {
    hide HasFault, ColumnFacts, EntryCell, CellFault, ValidEntry, CopyEntry, CopiedEntry, FilledWith;
    var d := CopyColumn(c, place, FilledWith(k));
    ColumnFaults(key, c, k);
    ColumnFaults(key, d, Spoiling(k));
    var i :| 0 <= i < |c.entries| && CellFault(c.ty, EntryCell(c.ty, c.entries[i]), k);
    EntryCopySays(c.ty, c.entries[i], place + [i], k);
    assert d.entries[i] == CopyEntry(c.ty, c.entries[i], place + [i], FilledWith(k));
  }

  lemma {:induction false} EntryCopySays(ty: FieldType, e: Entry, place: seq<nat>, k: Fault)
    requires ValidEntry(ty, e) && (k.Single? || k.Crowd?) && CellFault(ty, EntryCell(ty, e), k)
    ensures CellFault(ty, EntryCell(ty, CopyEntry(ty, e, place, FilledWith(k))), Spoiling(k))
    decreases e
  {
    hide ObjFacts, ValidObj, Copied, AllObjFacts, SaysFault, CopyObj, WordsBehind;
    match e
    case Vals(vals) =>
      if vals == [1] {
        assert Behind(1, 2, place, FilledWith(k)) == [1, 1];
        OneBehind(1);
      }
    case Objs(objs) =>
      var copies := CopyObjs(objs, place, FilledWith(k));
      var i :| 0 <= i < |objs| && SaysFault(AllObjFacts(objs, |objs|)[i], k);
      Lossless.AllObjFactsAt(objs, |objs|, i);
      CopySays(objs[i], place + [i], k);
      Lossless.AllObjFactsAt(copies, |copies|, i);
      assert copies[i] == CopyObj(objs[i], place + [i], FilledWith(k));
  }

  // ----- two arrays of nulls: no copy keeps them

  /** Of two arrays of nulls, the second with a number that 16 bits do not make 0, every copy says a
      number that is too large. */
  lemma TwoNeverKept(o: Obj, r: Obj)
    requires ValidObj(o) && Copied(o, r)
    requires var p := o.props[NULL_ARRAY_SLOT]; p.Fixed? && |p.vals| > 1 && p.vals[1] % NULL_RANGE != 0
    ensures SaysFault(Said(ObjFacts(r)), NullCount(NULL_RANGE))
  {
    hide HasFault, PropFacts, PropsFacts, ValidObj, CopiedWords, CopiedProp, IsFault;
    NullsThere(o);
    var vals, words := o.props[NULL_ARRAY_SLOT].vals, NullsCopied(o, r);
    FrontWord(vals, ARRAYS_SPACE, words, 0);
    NullWordFault(r, words);
    PropsFaults(r.props, |r.props|, NullCount(NULL_RANGE));
    Faulty(ObjFacts(r), NullCount(NULL_RANGE));
  }

  ghost function NullsCopied(o: Obj, r: Obj): (words: seq<nat>)
    requires ValidObj(o) && Copied(o, r) && o.props[NULL_ARRAY_SLOT].Fixed?
    ensures r.props[NULL_ARRAY_SLOT] == Fixed(o.props[NULL_ARRAY_SLOT].keys, words)
    ensures CopiedWords(o.props[NULL_ARRAY_SLOT].vals, ARRAYS_SPACE, words)
  {
    assert CopiedProp(NULL_ARRAY_SLOT, o.props[NULL_ARRAY_SLOT], r.props[NULL_ARRAY_SLOT]);
    r.props[NULL_ARRAY_SLOT].vals
  }

  lemma NullWordFault(r: Obj, words: seq<nat>)
    requires |r.props| == SLOTS && words != [] && words[0] >= NULL_RANGE
    requires r.props[NULL_ARRAY_SLOT].Fixed? && r.props[NULL_ARRAY_SLOT].vals == words
    requires |r.props[NULL_ARRAY_SLOT].keys| == |words|
    ensures HasFault(PropFacts(NULL_ARRAY_SLOT, r.props[NULL_ARRAY_SLOT]), NullCount(NULL_RANGE))
  {
    hide HasFault;
    CountFault(r.props[NULL_ARRAY_SLOT].keys, words, 0, NullCount(NULL_RANGE));
  }
}
