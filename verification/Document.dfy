/** Documents as they come in, and what a document says: a multiset of facts. Keys and texts are
    string ids already. */
module Document {
  import opened ColumnDoc

  datatype Doc = Doc(entries: seq<DocEntry>)

  /** A key with a type and a list of values: none, one, or an array. */
  datatype DocEntry = DocEntry(key: nat, ty: FieldType, values: DocValues)

  /** The values of an entry; of nulls only the number matters. */
  datatype DocValues = Nulls(n: nat) | Plain(vals: seq<nat>) | Docs(docs: seq<Doc>)

  datatype Fact =
    | NullOf(key: nat)
    | ScalarOf(key: nat, ty: FieldType, val: nat)
    | NullsOf(key: nat, n: nat)
    | ArrayOf(key: nat, ty: FieldType, vals: seq<nat>)
    | ObjectOf(key: nat, said: Said)
    | RowsOf(key: nat, n: nat)
    | CellOf(key: nat, row: nat, name: nat, ty: FieldType, cell: Cell)

  /** What an object says. */
  datatype Said = Said(facts: multiset<Fact>)

  /** What the object in a row of an object array holds for one of its keys. */
  datatype Cell = NullCell(n: nat) | PlainCell(vals: seq<nat>) | ObjectCell(objs: seq<Said>)

  function Count(v: DocValues): nat {
    match v
    case Nulls(n) => n
    case Plain(vals) => |vals|
    case Docs(docs) => |docs|
  }

  /** An array of objects: more than one. */
  predicate IsRows(e: DocEntry) { e.values.Docs? && |e.values.docs| > 1 }

  predicate KindFits(e: DocEntry) {
    match e.values
    case Nulls(_) => e.ty == Null
    case Plain(_) => e.ty != Null && e.ty != Object
    case Docs(_) => e.ty == Object
  }

  /** The kind of values fits the type, and the number of rows the 32 bits of a row. */
  ghost predicate Typed(e: DocEntry)
    decreases e
  {
    KindFits(e)
    && (e.values.Docs? ==>
          |e.values.docs| < 0x1_0000_0000 && forall i :: 0 <= i < |e.values.docs| ==>
            if |e.values.docs| == 1 then TypedDoc(e.values.docs[i]) else TypedRow(e.values.docs[i]))
  }

  ghost predicate TypedDoc(d: Doc)
    decreases d
  {
    forall i :: 0 <= i < |d.entries| ==> Typed(d.entries[i])
  }

  ghost predicate TypedRow(d: Doc)
    decreases d
  {
    forall i :: 0 <= i < |d.entries| ==> TypedPair(d.entries[i])
  }

  /** A pair of a row; one of objects has at least one. */
  ghost predicate TypedPair(pair: DocEntry)
    decreases pair
  {
    KindFits(pair)
    && (pair.values.Docs? ==>
          pair.values.docs != [] && forall i :: 0 <= i < |pair.values.docs| ==> TypedDoc(pair.values.docs[i]))
  }

  function DocFacts(d: Doc): multiset<Fact>
    decreases d, 0
  {
    EntriesFacts(d.entries, |d.entries|)
  }

  /** The facts of the first n entries. */
  function EntriesFacts(entries: seq<DocEntry>, n: nat): multiset<Fact>
    requires n <= |entries|
    decreases entries, n
  {
    if n == 0 then multiset{} else EntriesFacts(entries, n - 1) + EntryFacts(entries[n - 1])
  }

  function EntryFacts(e: DocEntry): multiset<Fact>
    decreases e, 1
  {
    if Count(e.values) == 0 then multiset{NullOf(e.key)}
    else match e.values
    case Nulls(n) => multiset{if n == 1 then NullOf(e.key) else NullsOf(e.key, n)}
    case Plain(vals) => multiset{if |vals| == 1 then ScalarOf(e.key, e.ty, vals[0]) else ArrayOf(e.key, e.ty, vals)}
    case Docs(docs) =>
      if |docs| == 1 then multiset{ObjectOf(e.key, Said(DocFacts(docs[0])))}
      else RowsFacts(e.key, docs, |docs|) + multiset{RowsOf(e.key, |docs|)}
  }

  /** The cells of the first n rows of an object array. */
  function RowsFacts(key: nat, docs: seq<Doc>, n: nat): (fs: multiset<Fact>)
    requires n <= |docs|
    ensures forall f :: f in fs ==> f.CellOf? && f.key == key && f.row < n && docs[f.row].entries != []
    decreases docs, n
  {
    if n == 0 then multiset{}
    else RowsFacts(key, docs, n - 1) + RowFacts(key, n - 1, docs[n - 1].entries, |docs[n - 1].entries|)
  }

  function RowFacts(key: nat, row: nat, pairs: seq<DocEntry>, n: nat): (fs: multiset<Fact>)
    requires n <= |pairs|
    ensures forall f :: f in fs ==> f.CellOf? && f.key == key && f.row == row && n > 0
    decreases pairs, n
  {
    if n == 0 then multiset{}
    else RowFacts(key, row, pairs, n - 1)
         + multiset{CellOf(key, row, pairs[n - 1].key, pairs[n - 1].ty, PairCell(pairs[n - 1]))}
  }

  function PairCell(pair: DocEntry): Cell
    decreases pair, 1
  {
    match pair.values
    case Nulls(n) => NullCell(n)
    case Plain(vals) => PlainCell(vals)
    case Docs(docs) => ObjectCell(AllDocFacts(docs, |docs|))
  }

  function AllDocFacts(docs: seq<Doc>, n: nat): (fs: seq<Said>)
    requires n <= |docs|
    ensures |fs| == n
    decreases docs, n
  {
    if n == 0 then [] else AllDocFacts(docs, n - 1) + [Said(DocFacts(docs[n - 1]))]
  }

  // ----- what it is that entries say

  /** What entries say adds up. */
  lemma DocsSay(d: Doc, e: Doc)
    ensures DocFacts(Doc(d.entries + e.entries)) == DocFacts(d) + DocFacts(e)
  {
    EntriesSay(d.entries, e.entries, |e.entries|);
  }

  lemma {:induction false} EntriesSay(entries: seq<DocEntry>, more: seq<DocEntry>, n: nat)
    requires n <= |more|
    ensures EntriesFacts(entries + more, |entries| + n) == EntriesFacts(entries, |entries|) + EntriesFacts(more, n)
    decreases n
  {
    hide EntryFacts, EntriesFacts;
    NextSays(more, n);
    if n == 0 {
      SameSaid(entries, more, |entries|);
    } else {
      EntriesSay(entries, more, n - 1);
      NextSays(entries + more, |entries| + n);
      assert (entries + more)[|entries| + n - 1] == more[n - 1];
    }
  }

  lemma NextSays(entries: seq<DocEntry>, n: nat)
    requires n <= |entries|
    ensures EntriesFacts(entries, n)
            == if n == 0 then multiset{} else EntriesFacts(entries, n - 1) + EntryFacts(entries[n - 1])
  {
    hide EntryFacts;
  }

  lemma {:induction false} SameSaid(entries: seq<DocEntry>, more: seq<DocEntry>, n: nat)
    requires n <= |entries|
    ensures EntriesFacts(entries + more, n) == EntriesFacts(entries, n)
    decreases n
  {
    hide EntryFacts;
    if n > 0 {
      SameSaid(entries, more, n - 1);
    }
  }

  /** What one entry says: its key, its type and its values. */
  lemma EntrySays(key: nat, ty: FieldType, val: nat, vals: seq<nat>, n: nat, d: Doc)
    requires |vals| > 1 && n > 1
    ensures DocFacts(Doc([])) == multiset{}
    ensures DocFacts(Doc([DocEntry(key, ty, Plain([val]))])) == multiset{ScalarOf(key, ty, val)}
    ensures DocFacts(Doc([DocEntry(key, ty, Plain(vals))])) == multiset{ArrayOf(key, ty, vals)}
    ensures DocFacts(Doc([DocEntry(key, ty, Nulls(1))])) == multiset{NullOf(key)}
    ensures DocFacts(Doc([DocEntry(key, ty, Nulls(n))])) == multiset{NullsOf(key, n)}
    ensures DocFacts(Doc([DocEntry(key, ty, Docs([d]))])) == multiset{ObjectOf(key, Said(DocFacts(d)))}
    ensures DocFacts(Doc([DocEntry(key, ty, Plain([]))])) == multiset{NullOf(key)}
  {
    OneSays(DocEntry(key, ty, Plain([val])));
    OneSays(DocEntry(key, ty, Plain(vals)));
    OneSays(DocEntry(key, ty, Plain([])));
    OneSays(DocEntry(key, ty, Nulls(1)));
    OneSays(DocEntry(key, ty, Nulls(n)));
    OneSays(DocEntry(key, ty, Docs([d])));
  }

  lemma OneSays(e: DocEntry)
    ensures DocFacts(Doc([e])) == EntryFacts(e)
  {
    hide EntryFacts;
    assert EntriesFacts([e], 0) == multiset{};
  }

  /** What an object array says: a cell for each pair, with the number of its row, and the number of
      rows. */
  lemma RowsSay(key: nat, first: DocEntry, second: DocEntry)
    ensures var d := Doc([DocEntry(key, Object, Docs([Doc([first]), Doc([second])]))]);
      DocFacts(d) == multiset{CellOf(key, 0, first.key, first.ty, PairCell(first))}
                     + multiset{CellOf(key, 1, second.key, second.ty, PairCell(second))} + multiset{RowsOf(key, 2)}
  {
    hide PairCell, RowFacts, DocFacts;
    var docs := [Doc([first]), Doc([second])];
    OneSays(DocEntry(key, Object, Docs(docs)));
    OnePairSays(key, 0, first);
    OnePairSays(key, 1, second);
    assert RowsFacts(key, docs, 0) == multiset{};
    assert RowsFacts(key, docs, 1) == RowFacts(key, 0, [first], 1);
    assert RowsFacts(key, docs, 2) == RowsFacts(key, docs, 1) + RowFacts(key, 1, [second], 1);
  }

  lemma OnePairSays(key: nat, row: nat, pair: DocEntry)
    ensures RowFacts(key, row, [pair], 1) == multiset{CellOf(key, row, pair.key, pair.ty, PairCell(pair))}
  {
    hide PairCell;
    assert RowFacts(key, row, [pair], 0) == multiset{};
  }

  /** What a pair of a row says. */
  lemma PairSays(key: nat, ty: FieldType, vals: seq<nat>, n: nat, d: Doc, e: Doc)
    ensures PairCell(DocEntry(key, ty, Plain(vals))) == PlainCell(vals)
    ensures PairCell(DocEntry(key, ty, Nulls(n))) == NullCell(n)
    ensures PairCell(DocEntry(key, ty, Docs([d, e]))) == ObjectCell([Said(DocFacts(d)), Said(DocFacts(e))])
  {
    hide DocFacts;
    assert AllDocFacts([d, e], 0) == [] && AllDocFacts([d, e], 1) == [Said(DocFacts(d))];
  }

  // ----- what columns can hold

  /** The number of nulls is kept in 16 bits. */
  const NULL_RANGE: nat := 0x1_0000

  /** What the way into an archive can spoil: a gap in the rows of an object array, a number of
      nulls that is w or more, a single null in a row, two arrays of nulls in one object, an array
      of no nulls, and an array of uint8 values. */
  datatype Fault = Gap | NullCount(w: nat) | Single | Crowd | Zero | Octets

  /** The rows of object arrays have no gaps, at any depth: no object in a row has a key without
      values, no last row is an empty object, and no two object arrays of an object share a key. */
  ghost predicate Tidy(d: Doc) { Without(d, Gap) }

  /** Every number of nulls that is stored, at any depth, is below w: those of arrays of more than
      one null, and those of nulls in the rows of object arrays. */
  ghost predicate NullsBelow(d: Doc, w: nat) { Without(d, NullCount(w)) }

  /** No object has two arrays of more than one null, and no row of an object array a key with just
      one null, at any depth. */
  ghost predicate NullsApart(d: Doc) { Without(d, Crowd) && Without(d, Single) }

  /** No object has an array of more than one uint8 value, at any depth. */
  ghost predicate NoOctets(d: Doc) { Without(d, Octets) }

  ghost predicate Without(d: Doc, k: Fault)
    decreases d
  {
    && (forall i :: 0 <= i < |d.entries| ==> EntryWithout(d.entries[i], k))
    && (k.Gap? ==> RowsKept(d.entries)) && (k.Crowd? ==> FewNulls(d.entries))
  }

  /** An array of more than one null. */
  predicate IsNulls(e: DocEntry) { e.values.Nulls? && e.values.n > 1 }

  ghost predicate FewNulls(entries: seq<DocEntry>) {
    forall i, j :: 0 <= i < j < |entries| ==> !IsNulls(entries[i]) || !IsNulls(entries[j])
  }

  ghost predicate KeysDiffer(entries: seq<DocEntry>) {
    forall i, j :: 0 <= i < j < |entries| && IsRows(entries[i]) && IsRows(entries[j]) ==>
      entries[i].key != entries[j].key
  }

  ghost predicate RowsKept(entries: seq<DocEntry>) {
    && KeysDiffer(entries)
    && forall i :: 0 <= i < |entries| && IsRows(entries[i]) ==> LastFilled(entries[i].values.docs)
  }

  ghost predicate LastFilled(docs: seq<Doc>) { docs != [] && docs[|docs| - 1].entries != [] }

  ghost predicate EntryWithout(e: DocEntry, k: Fault)
    decreases e
  {
    match e.values
    case Nulls(n) => k.NullCount? && n > 1 ==> n < k.w
    case Plain(vals) => k.Octets? && e.ty == UInt8 ==> |vals| <= 1
    case Docs(docs) => forall i :: 0 <= i < |docs| ==>
      if |docs| == 1 then Without(docs[i], k) else RowWithout(docs[i], k)
  }

  ghost predicate RowWithout(d: Doc, k: Fault)
    decreases d
  {
    forall i :: 0 <= i < |d.entries| ==> PairWithout(d.entries[i], k)
  }

  ghost predicate PairWithout(pair: DocEntry, k: Fault)
    decreases pair
  {
    && (k.Gap? ==> Count(pair.values) > 0)
    && match pair.values
       case Nulls(n) => (k.NullCount? ==> n < k.w) && (k.Single? ==> n != 1)
       case Plain(_) => true
       case Docs(docs) => forall i :: 0 <= i < |docs| ==> Without(docs[i], k)
  }
}
