/** What columns and archives cannot hold, seen in what a document says. */
module Faults {
  import opened ColumnDoc
  import opened Document

  /** An object says something faulty, at any depth. */
  ghost predicate SaysFault(s: Said, k: Fault)
    decreases s
  {
    (exists f :: f in s.facts && IsFault(f, k)) || (k.Gap? && Ragged(s.facts)) || (k.Crowd? && Crowded(s.facts))
  }

  ghost predicate IsFault(f: Fact, k: Fault)
    decreases f
  {
    match f
    case ObjectOf(_, said) => SaysFault(said, k)
    case NullsOf(_, n) => (k.NullCount? && n >= k.w) || (k.Zero? && n == 0)
    case ArrayOf(_, ty, vals) => k.Octets? && ty == UInt8 && vals != []
    case CellOf(_, _, _, ty, cell) => CellFault(ty, cell, k)
    case _ => false
  }

  /** A cell without values, or one with a number of nulls. */
  ghost predicate CellFault(ty: FieldType, c: Cell, k: Fault)
    decreases c
  {
    match c
    case NullCell(n) => (k.Gap? && n == 0) || (k.NullCount? && n >= k.w) || (k.Single? && n == 1)
    case PlainCell(vals) => (k.Gap? && vals == []) || ((k.NullCount? || k.Single?) && ty == Null && vals != [])
    case ObjectCell(objs) => (k.Gap? && objs == []) || exists i :: 0 <= i < |objs| && SaysFault(objs[i], k)
  }

  /** An object array whose last row has no cell, or two of them under one key. */
  ghost predicate Ragged(facts: multiset<Fact>) {
    exists f :: f in facts && f.RowsOf? && RaggedRows(facts, f)
  }

  ghost predicate RaggedRows(facts: multiset<Fact>, f: Fact)
    requires f.RowsOf?
  {
    || facts[f] > 1
    || (exists g :: g in facts && g.RowsOf? && g.key == f.key && g != f)
    || !(exists g :: g in facts && g.CellOf? && g.key == f.key && g.row + 1 == f.n)
  }

  /** Two arrays of nulls. */
  ghost predicate Crowded(facts: multiset<Fact>) {
    exists f :: f in facts && f.NullsOf? && CrowdedBy(facts, f)
  }

  ghost predicate CrowdedBy(facts: multiset<Fact>, f: Fact) {
    facts[f] > 1 || exists g :: g in facts && g.NullsOf? && g != f
  }

  ghost predicate HasFault(facts: multiset<Fact>, k: Fault) {
    exists f :: f in facts && IsFault(f, k)
  }

  lemma FaultSum(a: multiset<Fact>, b: multiset<Fact>, k: Fault)
    ensures HasFault(a + b, k) <==> HasFault(a, k) || HasFault(b, k)
  {
    hide IsFault;
    if HasFault(a + b, k) {
      var f :| f in a + b && IsFault(f, k);
      assert f in a || f in b;
    }
    if HasFault(a, k) {
      var f :| f in a && IsFault(f, k);
      assert f in a + b;
    }
    if HasFault(b, k) {
      var f :| f in b && IsFault(f, k);
      assert f in a + b;
    }
  }

  lemma FaultOne(f: Fact, k: Fault)
    ensures HasFault(multiset{f}, k) <==> IsFault(f, k)
  {
    hide IsFault;
    assert f in multiset{f};
  }

  lemma FaultNone(k: Fault)
    ensures !HasFault(multiset{}, k)
  {
  }

  // ----- what a document says

  /** A document says something faulty exactly when it has the fault. */
  lemma {:induction false} DocFaults(d: Doc, k: Fault)
    requires TypedDoc(d)
    ensures SaysFault(Said(DocFacts(d)), k) <==> !Without(d, k)
    decreases d, 0
  {
    hide EntriesFacts, EntryWithout, Typed, IsFault, Ragged, RowsKept, Crowded, FewNulls;
    EntriesFaults(d.entries, |d.entries|, k);
    RaggedExactly(d.entries);
    CrowdedExactly(d.entries);
  }

  /** No document says of an array that it has no nulls. */
  lemma {:induction false} NoneZero(d: Doc)
    ensures Without(d, Zero)
    decreases d
  {
    forall i | 0 <= i < |d.entries|
      ensures EntryWithout(d.entries[i], Zero)
    {
      var e := d.entries[i];
      if e.values.Docs? {
        forall j | 0 <= j < |e.values.docs|
          ensures Without(e.values.docs[j], Zero) && RowWithout(e.values.docs[j], Zero)
        {
          NoneZero(e.values.docs[j]);
          NoneZeroRow(e.values.docs[j]);
        }
      }
    }
  }

  lemma {:induction false} NoneZeroRow(d: Doc)
    ensures RowWithout(d, Zero)
    decreases d
  {
    forall i | 0 <= i < |d.entries|
      ensures PairWithout(d.entries[i], Zero)
    {
      var e := d.entries[i];
      if e.values.Docs? {
        forall j | 0 <= j < |e.values.docs|
          ensures Without(e.values.docs[j], Zero)
        {
          NoneZero(e.values.docs[j]);
        }
      }
    }
  }

  lemma {:induction false} EntriesFaults(entries: seq<DocEntry>, n: nat, k: Fault)
    requires n <= |entries| && forall i :: 0 <= i < |entries| ==> Typed(entries[i])
    ensures HasFault(EntriesFacts(entries, n), k) <==> exists i :: 0 <= i < n && !EntryWithout(entries[i], k)
    decreases entries, n
  {
    hide HasFault, EntryFacts, EntryWithout, Typed;
    if n == 0 {
      FaultNone(k);
    } else {
      EntriesFaults(entries, n - 1, k);
      EntryFaults(entries[n - 1], k);
      FaultSum(EntriesFacts(entries, n - 1), EntryFacts(entries[n - 1]), k);
    }
  }

  lemma {:induction false} EntryFaults(e: DocEntry, k: Fault)
    requires Typed(e)
    ensures HasFault(EntryFacts(e), k) <==> !EntryWithout(e, k)
    decreases e, 1
  {
    hide HasFault, DocFacts, RowsFacts, Without, RowWithout, TypedDoc, TypedRow, SaysFault;
    match e.values
    case Nulls(_) => ValueFaults(e, k);
    case Plain(_) => ValueFaults(e, k);
    case Docs(docs) =>
      if |docs| == 0 {
        FaultOne(NullOf(e.key), k);
      } else if |docs| == 1 {
        DocFaults(docs[0], k);
        FaultOne(ObjectOf(e.key, Said(DocFacts(docs[0]))), k);
      } else {
        RowsFaults(e.key, docs, |docs|, k);
        FaultOne(RowsOf(e.key, |docs|), k);
        FaultSum(RowsFacts(e.key, docs, |docs|), multiset{RowsOf(e.key, |docs|)}, k);
      }
  }

  lemma ValueFaults(e: DocEntry, k: Fault)
    requires e.values.Nulls? || e.values.Plain?
    ensures HasFault(EntryFacts(e), k) <==> !EntryWithout(e, k)
  {
    hide HasFault, CellFault, SaysFault;
    match e.values
    case Nulls(n) =>
      FaultOne(if n < 2 then NullOf(e.key) else NullsOf(e.key, n), k);
    case Plain(vals) =>
      FaultOne(if |vals| == 0 then NullOf(e.key) else if |vals| == 1 then ScalarOf(e.key, e.ty, vals[0])
               else ArrayOf(e.key, e.ty, vals), k);
  }

  lemma {:induction false} RowsFaults(key: nat, docs: seq<Doc>, n: nat, k: Fault)
    requires n <= |docs| && forall i :: 0 <= i < |docs| ==> TypedRow(docs[i])
    ensures HasFault(RowsFacts(key, docs, n), k) <==> exists i :: 0 <= i < n && !RowWithout(docs[i], k)
    decreases docs, n
  {
    hide HasFault, RowFacts, RowsFacts, RowWithout, TypedRow;
    RowsStep(key, docs, n);
    if n == 0 {
      FaultNone(k);
    } else {
      var pairs := docs[n - 1].entries;
      RowsFaults(key, docs, n - 1, k);
      WholeRowFaults(key, n - 1, docs[n - 1], k);
      FaultSum(RowsFacts(key, docs, n - 1), RowFacts(key, n - 1, pairs, |pairs|), k);
    }
  }

  lemma RowsStep(key: nat, docs: seq<Doc>, n: nat)
    requires n <= |docs|
    ensures RowsFacts(key, docs, n)
            == if n == 0 then multiset{}
               else RowsFacts(key, docs, n - 1) + RowFacts(key, n - 1, docs[n - 1].entries, |docs[n - 1].entries|)
  {
  }

  lemma {:induction false} WholeRowFaults(key: nat, row: nat, d: Doc, k: Fault)
    requires TypedRow(d)
    ensures HasFault(RowFacts(key, row, d.entries, |d.entries|), k) <==> !RowWithout(d, k)
    decreases d, 0
  {
    hide HasFault, RowFacts, TypedPair, PairWithout;
    RowFaults(key, row, d.entries, |d.entries|, k);
  }

  lemma {:induction false} RowFaults(key: nat, row: nat, pairs: seq<DocEntry>, n: nat, k: Fault)
    requires n <= |pairs| && forall i :: 0 <= i < |pairs| ==> TypedPair(pairs[i])
    ensures HasFault(RowFacts(key, row, pairs, n), k) <==> exists i :: 0 <= i < n && !PairWithout(pairs[i], k)
    decreases pairs, n
  {
    hide HasFault, PairCell, PairWithout, TypedPair, IsFault;
    if n == 0 {
      FaultNone(k);
    } else {
      var cell := CellOf(key, row, pairs[n - 1].key, pairs[n - 1].ty, PairCell(pairs[n - 1]));
      RowFaults(key, row, pairs, n - 1, k);
      PairFaults(pairs[n - 1], cell, k);
      FaultSum(RowFacts(key, row, pairs, n - 1), multiset{cell}, k);
      FaultOne(cell, k);
    }
  }

  lemma {:induction false} PairFaults(pair: DocEntry, f: Fact, k: Fault)
    requires TypedPair(pair) && f.CellOf? && f.ty == pair.ty && f.cell == PairCell(pair)
    ensures IsFault(f, k) <==> !PairWithout(pair, k)
    decreases pair, 1
  {
    hide SaysFault, DocFacts, AllDocFacts, Without;
    if pair.values.Docs? {
      var docs := pair.values.docs;
      forall i | 0 <= i < |docs|
        ensures SaysFault(AllDocFacts(docs, |docs|)[i], k) <==> !Without(docs[i], k)
      {
        AllDocFactsAt(docs, |docs|, i);
        DocFaults(docs[i], k);
      }
    }
  }

  lemma {:induction false} AllDocFactsAt(docs: seq<Doc>, n: nat, i: nat)
    requires i < n <= |docs|
    ensures AllDocFacts(docs, n)[i] == Said(DocFacts(docs[i]))
    decreases n
  {
    hide DocFacts;
    if i < n - 1 {
      AllDocFactsAt(docs, n - 1, i);
    }
  }

  // ----- ragged rows

  lemma EntryRows(e: DocEntry)
    ensures forall f :: f in EntryFacts(e) && f.RowsOf? ==>
      IsRows(e) && f == RowsOf(e.key, |e.values.docs|) && EntryFacts(e)[f] == 1
    ensures forall f :: f in EntryFacts(e) && f.CellOf? ==>
      IsRows(e) && f.key == e.key && f.row < |e.values.docs| && e.values.docs[f.row].entries != []
    ensures IsRows(e) ==> RowsOf(e.key, |e.values.docs|) in EntryFacts(e)
  {
    hide DocFacts;
  }

  lemma LastCell(e: DocEntry)
    requires IsRows(e) && LastFilled(e.values.docs)
    ensures exists f :: f in EntryFacts(e) && f.CellOf? && f.key == e.key && f.row + 1 == |e.values.docs|
  {
    hide PairCell;
    var docs := e.values.docs;
    var n := |docs| - 1;
    var pairs := docs[n].entries;
    var m := |pairs| - 1;
    var f := CellOf(e.key, n, pairs[m].key, pairs[m].ty, PairCell(pairs[m]));
    assert f in RowFacts(e.key, n, pairs, |pairs|);
    assert f in RowsFacts(e.key, docs, |docs|);
  }

  lemma {:induction false} FromEntry(entries: seq<DocEntry>, n: nat, f: Fact)
    requires n <= |entries| && f in EntriesFacts(entries, n)
    ensures exists i :: 0 <= i < n && f in EntryFacts(entries[i])
    decreases n
  {
    hide EntryFacts;
    if n > 0 && f !in EntryFacts(entries[n - 1]) {
      FromEntry(entries, n - 1, f);
    }
  }

  lemma {:induction false} InEntries(entries: seq<DocEntry>, n: nat, i: nat)
    requires i < n <= |entries|
    ensures EntryFacts(entries[i]) <= EntriesFacts(entries, n)
    decreases n
  {
    hide EntryFacts;
    if i < n - 1 {
      InEntries(entries, n - 1, i);
    }
  }

  lemma {:induction false} BothInEntries(entries: seq<DocEntry>, n: nat, i: nat, j: nat)
    requires i < j < n <= |entries|
    ensures EntryFacts(entries[i]) + EntryFacts(entries[j]) <= EntriesFacts(entries, n)
    decreases n
  {
    hide EntryFacts;
    if j < n - 1 {
      BothInEntries(entries, n - 1, i, j);
    } else {
      InEntries(entries, n - 1, i);
    }
  }

  /** Under different keys the number of rows of an array is said once. */
  lemma {:induction false} RowsOnce(entries: seq<DocEntry>, n: nat, f: Fact)
    requires n <= |entries| && KeysDiffer(entries) && f.RowsOf? && f in EntriesFacts(entries, n)
    ensures EntriesFacts(entries, n)[f] == 1
    decreases n
  {
    hide EntryFacts;
    EntryRows(entries[n - 1]);
    if f in EntriesFacts(entries, n - 1) {
      RowsOnce(entries, n - 1, f);
      FromEntry(entries, n - 1, f);
      var i :| 0 <= i < n - 1 && f in EntryFacts(entries[i]);
      EntryRows(entries[i]);
      assert f !in EntryFacts(entries[n - 1]);
    }
  }

  /** Rows are ragged exactly when a last row is empty or two object arrays share a key. */
  lemma RaggedExactly(entries: seq<DocEntry>)
    ensures Ragged(EntriesFacts(entries, |entries|)) <==> !RowsKept(entries)
  {
    hide EntriesFacts, EntryFacts;
    if RowsKept(entries) {
      NotRagged(entries);
    } else if !KeysDiffer(entries) {
      SharedKey(entries);
    } else {
      NoLastCell(entries);
    }
  }

  lemma NotRagged(entries: seq<DocEntry>)
    requires RowsKept(entries)
    ensures !Ragged(EntriesFacts(entries, |entries|))
  {
    hide EntriesFacts, EntryFacts, LastFilled;
    var facts := EntriesFacts(entries, |entries|);
    forall f | f in facts && f.RowsOf?
      ensures !RaggedRows(facts, f)
    {
      FromEntry(entries, |entries|, f);
      var i :| 0 <= i < |entries| && f in EntryFacts(entries[i]);
      EntryRows(entries[i]);
      RowsOnce(entries, |entries|, f);
      forall g | g in facts && g.RowsOf? && g.key == f.key
        ensures g == f
      {
        FromEntry(entries, |entries|, g);
        var j :| 0 <= j < |entries| && g in EntryFacts(entries[j]);
        EntryRows(entries[j]);
        assert i == j;
      }
      LastCell(entries[i]);
      InEntries(entries, |entries|, i);
    }
  }

  lemma SharedKey(entries: seq<DocEntry>)
    requires !KeysDiffer(entries)
    ensures Ragged(EntriesFacts(entries, |entries|))
  {
    hide EntriesFacts, EntryFacts;
    var i, j :| 0 <= i < j < |entries| && IsRows(entries[i]) && IsRows(entries[j]) && entries[i].key == entries[j].key;
    var facts := EntriesFacts(entries, |entries|);
    var f, g := RowsOf(entries[i].key, |entries[i].values.docs|), RowsOf(entries[j].key, |entries[j].values.docs|);
    EntryRows(entries[i]);
    EntryRows(entries[j]);
    BothInEntries(entries, |entries|, i, j);
    assert f in facts && g in facts;
    assert f == g ==> facts[f] > 1;
    assert RaggedRows(facts, f);
  }

  lemma NoLastCell(entries: seq<DocEntry>)
    requires KeysDiffer(entries) && !RowsKept(entries)
    ensures Ragged(EntriesFacts(entries, |entries|))
  {
    hide EntriesFacts, EntryFacts;
    var i :| 0 <= i < |entries| && IsRows(entries[i]) && !LastFilled(entries[i].values.docs);
    var facts := EntriesFacts(entries, |entries|);
    var f := RowsOf(entries[i].key, |entries[i].values.docs|);
    EntryRows(entries[i]);
    InEntries(entries, |entries|, i);
    assert f in facts;
    forall g | g in facts && g.CellOf? && g.key == f.key
      ensures g.row + 1 != f.n
    {
      FromEntry(entries, |entries|, g);
      var j :| 0 <= j < |entries| && g in EntryFacts(entries[j]);
      EntryRows(entries[j]);
      assert i == j;
    }
    assert RaggedRows(facts, f);
  }

  // ----- arrays of nulls

  lemma EntryNulls(e: DocEntry)
    ensures forall f :: f in EntryFacts(e) && f.NullsOf? ==>
      IsNulls(e) && f == NullsOf(e.key, e.values.n) && EntryFacts(e)[f] == 1
    ensures IsNulls(e) ==> NullsOf(e.key, e.values.n) in EntryFacts(e)
  {
    hide DocFacts, RowsFacts;
  }

  lemma {:induction false} NullsOnce(entries: seq<DocEntry>, n: nat, f: Fact)
    requires n <= |entries| && FewNulls(entries) && f.NullsOf? && f in EntriesFacts(entries, n)
    ensures EntriesFacts(entries, n)[f] == 1
    decreases n
  {
    hide EntryFacts;
    EntryNulls(entries[n - 1]);
    if f in EntriesFacts(entries, n - 1) {
      NullsOnce(entries, n - 1, f);
      FromEntry(entries, n - 1, f);
      var i :| 0 <= i < n - 1 && f in EntryFacts(entries[i]);
      EntryNulls(entries[i]);
      assert f !in EntryFacts(entries[n - 1]);
    }
  }

  /** Facts are crowded exactly when two arrays of nulls are in one object. */
  lemma CrowdedExactly(entries: seq<DocEntry>)
    ensures Crowded(EntriesFacts(entries, |entries|)) <==> !FewNulls(entries)
  {
    hide EntriesFacts, EntryFacts;
    if FewNulls(entries) {
      NotCrowded(entries);
    } else {
      TwoNulls(entries);
    }
  }

  lemma NotCrowded(entries: seq<DocEntry>)
    requires FewNulls(entries)
    ensures !Crowded(EntriesFacts(entries, |entries|))
  {
    hide EntriesFacts, EntryFacts;
    var facts := EntriesFacts(entries, |entries|);
    forall f | f in facts && f.NullsOf?
      ensures !CrowdedBy(facts, f)
    {
      FromEntry(entries, |entries|, f);
      var i :| 0 <= i < |entries| && f in EntryFacts(entries[i]);
      EntryNulls(entries[i]);
      NullsOnce(entries, |entries|, f);
      forall g | g in facts && g.NullsOf?
        ensures g == f
      {
        FromEntry(entries, |entries|, g);
        var j :| 0 <= j < |entries| && g in EntryFacts(entries[j]);
        EntryNulls(entries[j]);
        assert i == j;
      }
    }
  }

  lemma TwoNulls(entries: seq<DocEntry>)
    requires !FewNulls(entries)
    ensures Crowded(EntriesFacts(entries, |entries|))
  {
    hide EntriesFacts, EntryFacts;
    var i, j :| 0 <= i < j < |entries| && IsNulls(entries[i]) && IsNulls(entries[j]);
    var facts := EntriesFacts(entries, |entries|);
    var f, g := NullsOf(entries[i].key, entries[i].values.n), NullsOf(entries[j].key, entries[j].values.n);
    EntryNulls(entries[i]);
    EntryNulls(entries[j]);
    BothInEntries(entries, |entries|, i, j);
    assert f in facts && g in facts;
    assert f == g ==> facts[f] > 1;
    assert CrowdedBy(facts, f);
  }
}
