/** Rearranging lists by a permutation of their indices leaves what they say unchanged. */
module Reorder {
  import opened ColumnDoc
  import opened Document
  import opened Columns

  function Identity(n: nat): (idx: seq<nat>)
    ensures |idx| == n && forall i :: 0 <= i < n ==> idx[i] == i
  {
    if n == 0 then [] else Identity(n - 1) + [n - 1]
  }

  ghost predicate Permutation(idx: seq<nat>, n: nat) {
    multiset(idx) == multiset(Identity(n))
  }

  lemma PermutationBounds(idx: seq<nat>, n: nat)
    requires Permutation(idx, n)
    ensures |idx| == n && forall i :: 0 <= i < n ==> idx[i] < n
  {
    assert |idx| == |multiset(idx)| && |Identity(n)| == |multiset(Identity(n))|;
    forall i | 0 <= i < |idx|
      ensures idx[i] < n
    {
      assert idx[i] in multiset(idx);
      assert idx[i] in Identity(n);
    }
  }

  function Pick<T>(xs: seq<T>, idx: seq<nat>): (ys: seq<T>)
    requires forall i :: 0 <= i < |idx| ==> idx[i] < |xs|
    ensures |ys| == |idx| && forall i :: 0 <= i < |idx| ==> ys[i] == xs[idx[i]]
  {
    if idx == [] then [] else Pick(xs, idx[..|idx| - 1]) + [xs[idx[|idx| - 1]]]
  }

  function Sum(terms: seq<multiset<Fact>>): multiset<Fact> {
    if terms == [] then multiset{} else Sum(terms[..|terms| - 1]) + terms[|terms| - 1]
  }

  function PickSum(terms: seq<multiset<Fact>>, idx: seq<nat>): multiset<Fact>
    requires forall i :: 0 <= i < |idx| ==> idx[i] < |terms|
  {
    if idx == [] then multiset{} else PickSum(terms, idx[..|idx| - 1]) + terms[idx[|idx| - 1]]
  }

  lemma {:induction false} PickSumRemove(terms: seq<multiset<Fact>>, idx: seq<nat>, k: nat)
    requires k < |idx| && forall i :: 0 <= i < |idx| ==> idx[i] < |terms|
    ensures PickSum(terms, idx) == PickSum(terms, idx[..k] + idx[k + 1..]) + terms[idx[k]]
    decreases |idx|
  {
    var n := |idx| - 1;
    var rest := idx[..k] + idx[k + 1..];
    if k < n {
      PickSumRemove(terms, idx[..n], k);
      assert rest[..n - 1] == idx[..n][..k] + idx[..n][k + 1..];
      assert rest[n - 1] == idx[n];
    } else {
      assert rest == idx[..n];
    }
  }

  lemma Cancel(x: multiset<nat>, y: multiset<nat>, e: nat)
    requires x + multiset{e} == y + multiset{e}
    ensures x == y
  {
    forall d: nat
      ensures x[d] == y[d]
    {
      assert (x + multiset{e})[d] == (y + multiset{e})[d];
    }
  }

  lemma BothWithout(a: seq<nat>, b: seq<nat>, k: nat)
    requires multiset(a) == multiset(b) && a != [] && k < |b| && b[k] == a[|a| - 1]
    ensures multiset(a[..|a| - 1]) == multiset(b[..k] + b[k + 1..])
  {
    var n := |a| - 1;
    assert a == a[..n] + [a[n]] && b == b[..k] + [b[k]] + b[k + 1..];
    Cancel(multiset(a[..n]), multiset(b[..k] + b[k + 1..]), a[n]);
  }

  lemma {:induction false} PickSumSame(terms: seq<multiset<Fact>>, a: seq<nat>, b: seq<nat>)
    requires multiset(a) == multiset(b)
    requires (forall i :: 0 <= i < |a| ==> a[i] < |terms|) && (forall i :: 0 <= i < |b| ==> b[i] < |terms|)
    ensures PickSum(terms, a) == PickSum(terms, b)
    decreases |a|
  {
    assert |a| == |multiset(a)| == |b|;
    if a != [] {
      var n := |a| - 1;
      assert a[n] in multiset(b);
      var k :| 0 <= k < |b| && b[k] == a[n];
      var rest := b[..k] + b[k + 1..];
      BothWithout(a, b, k);
      PickSumSame(terms, a[..n], rest);
      PickSumRemove(terms, b, k);
    }
  }

  lemma {:induction false} PickSumIdentity(terms: seq<multiset<Fact>>, n: nat)
    requires n <= |terms|
    ensures PickSum(terms, Identity(n)) == Sum(terms[..n])
    decreases n
  {
    if n > 0 {
      PickSumIdentity(terms, n - 1);
      assert Identity(n)[..n - 1] == Identity(n - 1);
      assert terms[..n][..n - 1] == terms[..n - 1];
    }
  }

  lemma {:induction false} PickSumIs(terms: seq<multiset<Fact>>, idx: seq<nat>)
    requires forall i :: 0 <= i < |idx| ==> idx[i] < |terms|
    ensures PickSum(terms, idx) == Sum(Pick(terms, idx))
    decreases |idx|
  {
    if idx != [] {
      PickSumIs(terms, idx[..|idx| - 1]);
      assert Pick(terms, idx)[..|idx| - 1] == Pick(terms, idx[..|idx| - 1]);
    }
  }

  /** The sum of the terms does not depend on their order. */
  lemma SumPermuted(terms: seq<multiset<Fact>>, permuted: seq<multiset<Fact>>, idx: seq<nat>)
    requires Permutation(idx, |terms|) && |permuted| == |terms|
    requires forall i :: 0 <= i < |idx| && i < |permuted| && idx[i] < |terms| ==> permuted[i] == terms[idx[i]]
    ensures Sum(permuted) == Sum(terms)
  {
    PermutationBounds(idx, |terms|);
    PickSumSame(terms, idx, Identity(|terms|));
    PickSumIdentity(terms, |terms|);
    PickSumIs(terms, idx);
    assert terms[..|terms|] == terms;
    assert permuted == Pick(terms, idx);
  }

  // ----- facts as sums

  function FixedTerms(slot: nat, keys: seq<nat>, vals: seq<nat>): (terms: seq<multiset<Fact>>)
    requires |keys| == |vals|
    ensures |terms| == |keys| && forall i :: 0 <= i < |keys| ==>
      terms[i] == multiset{if slot == 0 then NullOf(keys[i])
                           else if slot == NULL_ARRAY_SLOT then NullsOf(keys[i], vals[i])
                           else ScalarOf(keys[i], SlotType(slot), vals[i])}
    decreases |keys|
  {
    if keys == [] then []
    else
      var n := |keys| - 1;
      FixedTerms(slot, keys[..n], vals[..n])
      + [multiset{if slot == 0 then NullOf(keys[n]) else if slot == NULL_ARRAY_SLOT then NullsOf(keys[n], vals[n])
                  else ScalarOf(keys[n], SlotType(slot), vals[n])}]
  }

  lemma {:induction false} FixedSum(slot: nat, keys: seq<nat>, vals: seq<nat>)
    requires |keys| == |vals|
    ensures FixedFacts(slot, keys, vals) == Sum(FixedTerms(slot, keys, vals))
    decreases |keys|
  {
    if keys != [] {
      var n := |keys| - 1;
      FixedSum(slot, keys[..n], vals[..n]);
      assert FixedTerms(slot, keys, vals)[..n] == FixedTerms(slot, keys[..n], vals[..n]);
    }
  }

  lemma FixedPermuted(slot: nat, keys: seq<nat>, vals: seq<nat>, idx: seq<nat>)
    requires |keys| == |vals| && Permutation(idx, |keys|) && forall i :: 0 <= i < |idx| ==> idx[i] < |keys|
    ensures FixedFacts(slot, Pick(keys, idx), Pick(vals, idx)) == FixedFacts(slot, keys, vals)
  {
    PermutationBounds(idx, |keys|);
    FixedSum(slot, keys, vals);
    FixedSum(slot, Pick(keys, idx), Pick(vals, idx));
    SumPermuted(FixedTerms(slot, keys, vals), FixedTerms(slot, Pick(keys, idx), Pick(vals, idx)), idx);
  }

  function ArraysTerms(slot: nat, keys: seq<nat>, arrs: seq<seq<nat>>): (terms: seq<multiset<Fact>>)
    requires |keys| == |arrs|
    ensures |terms| == |keys| && forall i :: 0 <= i < |keys| ==>
        terms[i] == multiset{ArrayOf(keys[i], SlotType(slot), arrs[i])}
    decreases |keys|
  {
    if keys == [] then []
    else
      var n := |keys| - 1;
      ArraysTerms(slot, keys[..n], arrs[..n]) + [multiset{ArrayOf(keys[n], SlotType(slot), arrs[n])}]
  }

  lemma {:induction false} ArraysSum(slot: nat, keys: seq<nat>, arrs: seq<seq<nat>>)
    requires |keys| == |arrs|
    ensures ArraysFacts(slot, keys, arrs) == Sum(ArraysTerms(slot, keys, arrs))
    decreases |keys|
  {
    if keys != [] {
      var n := |keys| - 1;
      ArraysSum(slot, keys[..n], arrs[..n]);
      assert ArraysTerms(slot, keys, arrs)[..n] == ArraysTerms(slot, keys[..n], arrs[..n]);
    }
  }

  lemma ArraysPermuted(slot: nat, keys: seq<nat>, arrs: seq<seq<nat>>, idx: seq<nat>)
    requires |keys| == |arrs| && Permutation(idx, |keys|) && forall i :: 0 <= i < |idx| ==> idx[i] < |keys|
    ensures ArraysFacts(slot, Pick(keys, idx), Pick(arrs, idx)) == ArraysFacts(slot, keys, arrs)
  {
    hide ArraysTerms, ArraysFacts, SlotType, Permutation, Sum;
    PermutationBounds(idx, |keys|);
    ArraysSum(slot, keys, arrs);
    ArraysSum(slot, Pick(keys, idx), Pick(arrs, idx));
    SumPermuted(ArraysTerms(slot, keys, arrs), ArraysTerms(slot, Pick(keys, idx), Pick(arrs, idx)), idx);
  }

  function NestedTerms(keys: seq<nat>, objs: seq<Obj>): (terms: seq<multiset<Fact>>)
    requires |keys| == |objs|
    ensures |terms| == |keys| && forall i :: 0 <= i < |keys| ==>
        terms[i] == multiset{ObjectOf(keys[i], Said(ObjFacts(objs[i])))}
    decreases |keys|
  {
    if keys == [] then []
    else
      var n := |keys| - 1;
      NestedTerms(keys[..n], objs[..n]) + [multiset{ObjectOf(keys[n], Said(ObjFacts(objs[n])))}]
  }

  lemma {:induction false} NestedSum(keys: seq<nat>, objs: seq<Obj>)
    requires |keys| == |objs|
    ensures NestedFacts(keys, objs) == Sum(NestedTerms(keys, objs))
    decreases |keys|
  {
    hide ObjFacts;
    if keys != [] {
      var n := |keys| - 1;
      NestedSum(keys[..n], objs[..n]);
      assert NestedTerms(keys, objs)[..n] == NestedTerms(keys[..n], objs[..n]);
    }
  }

  function CellsTerms(key: nat, name: nat, ty: FieldType, positions: seq<nat>,
      entries: seq<Entry>): (terms: seq<multiset<Fact>>)
    requires |positions| == |entries|
    ensures |terms| == |entries| && forall i :: 0 <= i < |entries| ==>
      terms[i] == multiset{CellOf(key, positions[i], name, ty, EntryCell(ty, entries[i]))}
    decreases |entries|
  {
    if entries == [] then []
    else
      var n := |entries| - 1;
      CellsTerms(key, name, ty, positions[..n], entries[..n])
      + [multiset{CellOf(key, positions[n], name, ty, EntryCell(ty, entries[n]))}]
  }

  lemma {:induction false} CellsSum(key: nat, name: nat, ty: FieldType, positions: seq<nat>, entries: seq<Entry>)
    requires |positions| == |entries|
    ensures CellsFacts(key, name, ty, positions, entries) == Sum(CellsTerms(key, name, ty, positions, entries))
    decreases |entries|
  {
    hide EntryCell;
    if entries != [] {
      var n := |entries| - 1;
      CellsSum(key, name, ty, positions[..n], entries[..n]);
      assert CellsTerms(key, name, ty, positions, entries)[..n]
          == CellsTerms(key, name, ty, positions[..n], entries[..n]);
    }
  }

  lemma CellsPermuted(key: nat, name: nat, ty: FieldType, positions: seq<nat>, entries: seq<Entry>, idx: seq<nat>)
    requires |positions| == |entries| && Permutation(idx, |entries|) && forall i :: 0 <= i < |idx| ==>
        idx[i] < |entries|
    ensures CellsFacts(key, name, ty, Pick(positions, idx), Pick(entries, idx))
        == CellsFacts(key, name, ty, positions, entries)
  {
    hide EntryCell, CellsTerms, CellsFacts, Permutation, Sum;
    PermutationBounds(idx, |entries|);
    CellsSum(key, name, ty, positions, entries);
    CellsSum(key, name, ty, Pick(positions, idx), Pick(entries, idx));
    SumPermuted(CellsTerms(key, name, ty, positions, entries),
                CellsTerms(key, name, ty, Pick(positions, idx), Pick(entries, idx)), idx);
  }

  function ColumnFacts(key: nat, c: Column): multiset<Fact> {
    CellsFacts(key, c.name, c.ty, c.positions, c.entries)
  }

  function ColumnsTerms(key: nat, cols: seq<Column>): (terms: seq<multiset<Fact>>)
    ensures |terms| == |cols| && forall i :: 0 <= i < |cols| ==> terms[i] == ColumnFacts(key, cols[i])
    decreases |cols|
  {
    if cols == [] then [] else ColumnsTerms(key, cols[..|cols| - 1]) + [ColumnFacts(key, cols[|cols| - 1])]
  }

  lemma {:induction false} ColumnsSum(key: nat, cols: seq<Column>)
    ensures ColumnsFacts(key, cols) == Sum(ColumnsTerms(key, cols))
    decreases |cols|
  {
    hide ColumnFacts;
    if cols != [] {
      var n := |cols| - 1;
      ColumnsSum(key, cols[..n]);
      ColumnsLast(key, cols);
      assert ColumnsTerms(key, cols)[..n] == ColumnsTerms(key, cols[..n]);
    }
  }

  lemma {:induction false} ColumnsLast(key: nat, cols: seq<Column>)
    requires cols != []
    ensures ColumnsFacts(key, cols) == ColumnsFacts(key, cols[..|cols| - 1]) + ColumnFacts(key, cols[|cols| - 1])
    decreases |cols|
  {
    hide CellsFacts;
    if |cols| > 1 {
      ColumnsLast(key, cols[1..]);
      assert cols[1..][..|cols| - 2] == cols[..|cols| - 1][1..];
    } else {
      assert cols[1..] == [] && cols[..0] == [];
    }
  }

  lemma ColumnsPermuted(key: nat, cols: seq<Column>, idx: seq<nat>)
    requires Permutation(idx, |cols|) && forall i :: 0 <= i < |idx| ==> idx[i] < |cols|
    ensures ColumnsFacts(key, Pick(cols, idx)) == ColumnsFacts(key, cols)
  {
    hide ColumnFacts;
    PermutationBounds(idx, |cols|);
    ColumnsSum(key, cols);
    ColumnsSum(key, Pick(cols, idx));
    SumPermuted(ColumnsTerms(key, cols), ColumnsTerms(key, Pick(cols, idx)), idx);
  }

  /** Columns that say the same one by one say the same together. */
  lemma ColumnsSame(key: nat, cols: seq<Column>, cols': seq<Column>)
    requires |cols'| == |cols| && forall i :: 0 <= i < |cols| ==>
        ColumnFacts(key, cols'[i]) == ColumnFacts(key, cols[i])
    ensures ColumnsFacts(key, cols') == ColumnsFacts(key, cols)
  {
    hide ColumnFacts;
    ColumnsSum(key, cols);
    ColumnsSum(key, cols');
    assert ColumnsTerms(key, cols') == ColumnsTerms(key, cols);
  }

  /** The cells of an object array and the number of its rows. */
  function GroupFacts(g: Group): multiset<Fact> {
    ColumnsFacts(g.key, g.cols) + multiset{RowsOf(g.key, NumObjects(g))}
  }

  function GroupsTerms(groups: seq<Group>): (terms: seq<multiset<Fact>>)
    ensures |terms| == |groups| && forall i :: 0 <= i < |groups| ==> terms[i] == GroupFacts(groups[i])
    decreases |groups|
  {
    if groups == [] then [] else GroupsTerms(groups[..|groups| - 1]) + [GroupFacts(groups[|groups| - 1])]
  }

  lemma {:induction false} GroupsSum(groups: seq<Group>)
    ensures TableFacts(groups) == Sum(GroupsTerms(groups))
    decreases |groups|
  {
    hide GroupFacts, TableFacts;
    NoTable();
    if groups != [] {
      var n := |groups| - 1;
      GroupsSum(groups[..n]);
      GroupsLast(groups);
      assert GroupsTerms(groups)[..n] == GroupsTerms(groups[..n]);
    }
  }

  lemma TableStep(groups: seq<Group>)
    requires groups != []
    ensures TableFacts(groups) == GroupFacts(groups[0]) + TableFacts(groups[1..])
  {
    hide ColumnsFacts, NumObjects;
  }

  lemma NoTable()
    ensures TableFacts([]) == multiset{}
  {
  }

  lemma {:induction false} GroupsLast(groups: seq<Group>)
    requires groups != []
    ensures TableFacts(groups) == TableFacts(groups[..|groups| - 1]) + GroupFacts(groups[|groups| - 1])
    decreases |groups|
  {
    hide TableFacts, GroupFacts;
    TableStep(groups);
    if |groups| > 1 {
      GroupsLast(groups[1..]);
      TableStep(groups[..|groups| - 1]);
      assert groups[1..][..|groups| - 2] == groups[..|groups| - 1][1..];
    } else {
      NoTable();
      assert groups[1..] == [] && groups[..0] == [];
    }
  }

  lemma GroupsPermuted(groups: seq<Group>, idx: seq<nat>)
    requires Permutation(idx, |groups|) && forall i :: 0 <= i < |idx| ==> idx[i] < |groups|
    ensures TableFacts(Pick(groups, idx)) == TableFacts(groups)
  {
    hide GroupFacts, TableFacts;
    PermutationBounds(idx, |groups|);
    GroupsSum(groups);
    GroupsSum(Pick(groups, idx));
    SumPermuted(GroupsTerms(groups), GroupsTerms(Pick(groups, idx)), idx);
  }

  lemma GroupsSame(groups: seq<Group>, groups': seq<Group>)
    requires |groups'| == |groups| && forall i :: 0 <= i < |groups| ==> GroupFacts(groups'[i]) == GroupFacts(groups[i])
    ensures TableFacts(groups') == TableFacts(groups)
  {
    hide GroupFacts, TableFacts;
    GroupsSum(groups);
    GroupsSum(groups');
    assert GroupsTerms(groups') == GroupsTerms(groups);
  }

  lemma CellsSame(key: nat, name: nat, ty: FieldType, positions: seq<nat>, entries: seq<Entry>, entries': seq<Entry>)
    requires |positions| == |entries| == |entries'|
    requires forall i :: 0 <= i < |entries| ==> EntryCell(ty, entries'[i]) == EntryCell(ty, entries[i])
    ensures CellsFacts(key, name, ty, positions, entries') == CellsFacts(key, name, ty, positions, entries)
  {
    hide EntryCell;
    CellsSum(key, name, ty, positions, entries);
    CellsSum(key, name, ty, positions, entries');
    assert CellsTerms(key, name, ty, positions, entries') == CellsTerms(key, name, ty, positions, entries);
  }

  lemma NestedSame(keys: seq<nat>, objs: seq<Obj>, objs': seq<Obj>)
    requires |keys| == |objs| == |objs'| && forall k :: 0 <= k < |objs| ==> ObjFacts(objs'[k]) == ObjFacts(objs[k])
    ensures NestedFacts(keys, objs') == NestedFacts(keys, objs)
  {
    hide ObjFacts;
    NestedSum(keys, objs);
    NestedSum(keys, objs');
    assert NestedTerms(keys, objs') == NestedTerms(keys, objs);
  }

  // ----- parts of what is said

  lemma {:induction false} SumHas(terms: seq<multiset<Fact>>, i: nat)
    requires i < |terms|
    ensures terms[i] <= Sum(terms)
    decreases |terms|
  {
    if i < |terms| - 1 {
      SumHas(terms[..|terms| - 1], i);
    }
  }

  lemma {:induction false} PropsHave(props: seq<Prop>, slot: nat, n: nat)
    requires slot < n <= |props|
    ensures PropFacts(slot, props[slot]) <= PropsFacts(props, n)
    decreases n
  {
    hide PropFacts;
    if slot < n - 1 {
      PropsHave(props, slot, n - 1);
    }
  }
}
