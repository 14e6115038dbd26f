/** Documents whose keys and texts are still strings, and their encoding by string ids. */
module TextDocs {
  import opened ColumnDoc
  import opened Document

  datatype TextDoc = TextDoc(entries: seq<TextEntry>)

  datatype TextEntry = TextEntry(key: string, ty: FieldType, values: TextValues)

  datatype TextValues =
    | NullValues(n: nat)
    | Numbers(vals: seq<nat>)
    | Texts(texts: seq<string>)
    | Nested(docs: seq<TextDoc>)

  /** The document with every key and text replaced by its id. */
  function Encode(d: TextDoc, id: string -> nat): Doc
    decreases d
  {
    Doc(seq(|d.entries|, (i: nat) requires i < |d.entries| => EncodeEntry(d.entries[i], id)))
  }

  function EncodeEntry(e: TextEntry, id: string -> nat): DocEntry
    decreases e
  {
    DocEntry(id(e.key), e.ty,
             match e.values
             case NullValues(n) => Nulls(n)
             case Numbers(vals) => Plain(vals)
             case Texts(texts) => Plain(EncodeAll(texts, id))
             case Nested(docs) => Docs(seq(|docs|, (i: nat) requires i < |docs| => Encode(docs[i], id))))
  }

  function EncodeAll(texts: seq<string>, id: string -> nat): (ids: seq<nat>)
    ensures |ids| == |texts| && forall i :: 0 <= i < |texts| ==> ids[i] == id(texts[i])
  {
    seq(|texts|, (i: nat) requires i < |texts| => id(texts[i]))
  }

  /** Entry by entry, keys and texts are replaced by their ids, and all else stays. */
  lemma EncodedEntry(d: TextDoc, id: string -> nat, i: nat)
    requires i < |d.entries|
    ensures |Encode(d, id).entries| == |d.entries|
    ensures var e, f := d.entries[i], Encode(d, id).entries[i];
      && f.key == id(e.key) && f.ty == e.ty
      && (e.values.NullValues? ==> f.values == Nulls(e.values.n))
      && (e.values.Numbers? ==> f.values == Plain(e.values.vals))
      && (e.values.Texts? ==>
            f.values.Plain? && |f.values.vals| == |e.values.texts|
            && forall k :: 0 <= k < |e.values.texts| ==> f.values.vals[k] == id(e.values.texts[k]))
      && (e.values.Nested? ==>
            f.values.Docs? && |f.values.docs| == |e.values.docs|
            && forall k :: 0 <= k < |e.values.docs| ==> f.values.docs[k] == Encode(e.values.docs[k], id))
  {
  }

  // ----- the strings of a document

  /** The keys, in document order. */
  function Keys(d: TextDoc): seq<string>
    decreases d, 0
  {
    EntriesKeys(d.entries, |d.entries|)
  }

  function EntriesKeys(entries: seq<TextEntry>, n: nat): seq<string>
    requires n <= |entries|
    decreases entries, n
  {
    if n == 0 then [] else EntriesKeys(entries, n - 1) + EntryKeys(entries[n - 1])
  }

  function EntryKeys(e: TextEntry): seq<string>
    decreases e, 1
  {
    [e.key] + if e.values.Nested? then DocsKeys(e.values.docs, |e.values.docs|) else []
  }

  function DocsKeys(docs: seq<TextDoc>, n: nat): seq<string>
    requires n <= |docs|
    decreases docs, n
  {
    if n == 0 then [] else DocsKeys(docs, n - 1) + Keys(docs[n - 1])
  }

  /** The texts, in document order. */
  function TextsOf(d: TextDoc): seq<string>
    decreases d, 0
  {
    EntriesTexts(d.entries, |d.entries|)
  }

  function EntriesTexts(entries: seq<TextEntry>, n: nat): seq<string>
    requires n <= |entries|
    decreases entries, n
  {
    if n == 0 then [] else EntriesTexts(entries, n - 1) + EntryTexts(entries[n - 1])
  }

  function EntryTexts(e: TextEntry): seq<string>
    decreases e, 1
  {
    match e.values
    case NullValues(_) => []
    case Numbers(_) => []
    case Texts(texts) => texts
    case Nested(docs) => DocsTexts(docs, |docs|)
  }

  function DocsTexts(docs: seq<TextDoc>, n: nat): seq<string>
    requires n <= |docs|
    decreases docs, n
  {
    if n == 0 then [] else DocsTexts(docs, n - 1) + TextsOf(docs[n - 1])
  }

  /** Keys and texts come in the order of the entries. */
  lemma StringsInOrder(d: TextDoc, e: TextDoc)
    ensures Keys(TextDoc(d.entries + e.entries)) == Keys(d) + Keys(e)
    ensures TextsOf(TextDoc(d.entries + e.entries)) == TextsOf(d) + TextsOf(e)
  {
    Joined(d.entries, e.entries, |e.entries|);
  }

  lemma {:induction false} Joined(entries: seq<TextEntry>, more: seq<TextEntry>, n: nat)
    requires n <= |more|
    ensures EntriesKeys(entries + more, |entries| + n) == EntriesKeys(entries, |entries|) + EntriesKeys(more, n)
    ensures EntriesTexts(entries + more, |entries| + n) == EntriesTexts(entries, |entries|) + EntriesTexts(more, n)
    decreases n
  {
    hide EntryKeys, EntryTexts, EntriesKeys, EntriesTexts;
    NextStrings(more, n);
    if n == 0 {
      SameStart(entries, more, |entries|);
    } else {
      Joined(entries, more, n - 1);
      NextStrings(entries + more, |entries| + n);
      assert (entries + more)[|entries| + n - 1] == more[n - 1];
      InFront(EntriesKeys(entries, |entries|), EntriesKeys(more, n - 1), EntryKeys(more[n - 1]));
      InFront(EntriesTexts(entries, |entries|), EntriesTexts(more, n - 1), EntryTexts(more[n - 1]));
    }
  }

  lemma InFront(a: seq<string>, b: seq<string>, c: seq<string>)
    ensures (a + b) + c == a + (b + c) && a + [] == a
  {
  }

  lemma NextStrings(entries: seq<TextEntry>, n: nat)
    requires n <= |entries|
    ensures n == 0 ==> EntriesKeys(entries, n) == [] && EntriesTexts(entries, n) == []
    ensures n > 0 ==>
      && EntriesKeys(entries, n) == EntriesKeys(entries, n - 1) + EntryKeys(entries[n - 1])
      && EntriesTexts(entries, n) == EntriesTexts(entries, n - 1) + EntryTexts(entries[n - 1])
  {
    hide EntryKeys, EntryTexts;
  }

  lemma {:induction false} SameStart(entries: seq<TextEntry>, more: seq<TextEntry>, n: nat)
    requires n <= |entries|
    ensures EntriesKeys(entries + more, n) == EntriesKeys(entries, n)
    ensures EntriesTexts(entries + more, n) == EntriesTexts(entries, n)
    decreases n
  {
    hide EntryKeys, EntryTexts;
    if n > 0 {
      SameStart(entries, more, n - 1);
    }
  }

  /** The key of an entry comes before the keys of the documents in it, which come in their order. */
  lemma StringsWithin(key: string, ty: FieldType, d: TextDoc, e: TextDoc)
    ensures var whole := TextDoc([TextEntry(key, ty, TextValues.Nested([d, e]))]);
      Keys(whole) == [key] + Keys(d) + Keys(e) && TextsOf(whole) == TextsOf(d) + TextsOf(e)
  {
    hide Keys, TextsOf;
    var f := TextEntry(key, ty, TextValues.Nested([d, e]));
    assert DocsKeys([d, e], 0) == [] && DocsTexts([d, e], 0) == [];
    assert DocsKeys([d, e], 1) == Keys(d) && DocsTexts([d, e], 1) == TextsOf(d);
    OneEntryStrings(f);
  }

  lemma OneEntryStrings(e: TextEntry)
    ensures Keys(TextDoc([e])) == EntryKeys(e) && TextsOf(TextDoc([e])) == EntryTexts(e)
  {
    hide EntryKeys, EntryTexts;
    assert EntriesKeys([e], 0) == [] && EntriesTexts([e], 0) == [];
  }

  // ----- encoding

  /** Texts are the values of text entries and of no others. */
  ghost predicate Marked(d: TextDoc)
    decreases d
  {
    forall i :: 0 <= i < |d.entries| ==> MarkedEntry(d.entries[i])
  }

  ghost predicate MarkedEntry(e: TextEntry)
    decreases e
  {
    match e.values
    case NullValues(_) => true
    case Numbers(_) => e.ty != Text
    case Texts(_) => e.ty == Text
    case Nested(docs) => forall i :: 0 <= i < |docs| ==> Marked(docs[i])
  }

  /** Whether a document is typed does not depend on its ids. */
  lemma {:induction false} EncodeTyped(d: TextDoc, id: string -> nat, other: string -> nat)
    requires TypedDoc(Encode(d, id))
    ensures TypedDoc(Encode(d, other))
    decreases d
  {
    hide EncodeEntry, Typed;
    forall i | 0 <= i < |d.entries|
      ensures Typed(EncodeEntry(d.entries[i], other))
    {
      assert Encode(d, id).entries[i] == EncodeEntry(d.entries[i], id);
      EntryTyped(d.entries[i], id, other);
    }
  }

  lemma {:induction false} EntryTyped(e: TextEntry, id: string -> nat, other: string -> nat)
    requires Typed(EncodeEntry(e, id))
    ensures Typed(EncodeEntry(e, other))
    decreases e
  {
    hide TypedDoc, TypedRow, Encode;
    if e.values.Nested? {
      var docs := e.values.docs;
      var before, after := EncodeEntry(e, id).values.docs, EncodeEntry(e, other).values.docs;
      forall i | 0 <= i < |docs|
        ensures if |docs| == 1 then TypedDoc(after[i]) else TypedRow(after[i])
      {
        assert before[i] == Encode(docs[i], id);
        if |docs| == 1 {
          EncodeTyped(docs[i], id, other);
        } else {
          RowTyped(docs[i], id, other);
        }
      }
    }
  }

  lemma {:induction false} RowTyped(d: TextDoc, id: string -> nat, other: string -> nat)
    requires TypedRow(Encode(d, id))
    ensures TypedRow(Encode(d, other))
    decreases d
  {
    hide TypedDoc;
    forall i | 0 <= i < |d.entries|
      ensures TypedPair(EncodeEntry(d.entries[i], other))
    {
      assert Encode(d, id).entries[i] == EncodeEntry(d.entries[i], id);
      PairTyped(d.entries[i], id, other);
    }
  }

  lemma {:induction false} PairTyped(pair: TextEntry, id: string -> nat, other: string -> nat)
    requires TypedPair(EncodeEntry(pair, id))
    ensures TypedPair(EncodeEntry(pair, other))
    decreases pair
  {
    hide TypedDoc, Encode;
    if pair.values.Nested? {
      var docs := pair.values.docs;
      var before := EncodeEntry(pair, id).values.docs;
      forall i | 0 <= i < |docs|
        ensures TypedDoc(Encode(docs[i], other))
      {
        assert before[i] == Encode(docs[i], id);
        EncodeTyped(docs[i], id, other);
      }
    }
  }

  /** Ids tell the strings of a list apart. */
  ghost predicate Apart(id: string -> nat, strings: seq<string>) {
    forall s, t :: s in strings && t in strings && id(s) == id(t) ==> s == t
  }

  /** The strings of a document are among the given ones. */
  ghost predicate Among(d: TextDoc, strings: seq<string>)
    decreases d
  {
    forall i :: 0 <= i < |d.entries| ==> EntryAmong(d.entries[i], strings)
  }

  ghost predicate EntryAmong(e: TextEntry, strings: seq<string>)
    decreases e
  {
    e.key in strings
    && match e.values
       case NullValues(_) => true
       case Numbers(_) => true
       case Texts(texts) => forall i :: 0 <= i < |texts| ==> texts[i] in strings
       case Nested(docs) => forall i :: 0 <= i < |docs| ==> Among(docs[i], strings)
  }

  /** Under ids that tell strings apart different documents stay different. */
  lemma {:induction false} EncodeDiffers(d: TextDoc, e: TextDoc, id: string -> nat, strings: seq<string>)
    requires Marked(d) && Marked(e) && Among(d, strings) && Among(e, strings) && Apart(id, strings)
    requires Encode(d, id) == Encode(e, id)
    ensures d == e
    decreases d
  {
    hide EncodeEntry, MarkedEntry, EntryAmong, Apart;
    assert |d.entries| == |Encode(d, id).entries| == |e.entries|;
    forall i | 0 <= i < |d.entries|
      ensures d.entries[i] == e.entries[i]
    {
      assert Encode(d, id).entries[i] == EncodeEntry(d.entries[i], id);
      assert Encode(e, id).entries[i] == EncodeEntry(e.entries[i], id);
      EntryDiffers(d.entries[i], e.entries[i], id, strings);
    }
    assert d.entries == e.entries;
  }

  lemma {:induction false} EntryDiffers(e: TextEntry, f: TextEntry, id: string -> nat, strings: seq<string>)
    requires MarkedEntry(e) && MarkedEntry(f) && EntryAmong(e, strings) && EntryAmong(f, strings) && Apart(id, strings)
    requires EncodeEntry(e, id) == EncodeEntry(f, id)
    ensures e == f
    decreases e
  {
    hide Marked, Among, Encode;
    var v := EncodeEntry(e, id).values;
    match e.values
    case NullValues(_) =>
    case Numbers(_) =>
    case Texts(texts) =>
      forall i | 0 <= i < |texts|
        ensures texts[i] == f.values.texts[i]
      {
        assert v.vals[i] == id(texts[i]) == id(f.values.texts[i]);
      }
      assert texts == f.values.texts;
    case Nested(docs) =>
      forall i | 0 <= i < |docs|
        ensures docs[i] == f.values.docs[i]
      {
        assert v.docs[i] == Encode(docs[i], id) == Encode(f.values.docs[i], id);
        EncodeDiffers(docs[i], f.values.docs[i], id, strings);
      }
      assert docs == f.values.docs;
  }

  /** A document's own keys and texts are all it has. */
  lemma {:induction false} OwnStrings(d: TextDoc, strings: seq<string>)
    requires (forall s :: s in Keys(d) ==> s in strings) && (forall s :: s in TextsOf(d) ==> s in strings)
    ensures Among(d, strings)
    decreases d, 0
  {
    hide EntryAmong, EntriesKeys, EntriesTexts;
    EntriesAmong(d.entries, |d.entries|, strings);
  }

  lemma {:induction false} EntriesAmong(entries: seq<TextEntry>, n: nat, strings: seq<string>)
    requires n <= |entries| && forall s :: s in EntriesKeys(entries, n) ==> s in strings
    requires forall s :: s in EntriesTexts(entries, n) ==> s in strings
    ensures forall i :: 0 <= i < n ==> EntryAmong(entries[i], strings)
    decreases entries, n
  {
    hide EntryAmong, EntryKeys, EntryTexts;
    if n > 0 {
      EntriesAmong(entries, n - 1, strings);
      EntryStrings(entries[n - 1], strings);
    }
  }

  lemma {:induction false} EntryStrings(e: TextEntry, strings: seq<string>)
    requires forall s :: s in EntryKeys(e) ==> s in strings
    requires forall s :: s in EntryTexts(e) ==> s in strings
    ensures EntryAmong(e, strings)
    decreases e, 1
  {
    hide Among, DocsKeys, DocsTexts;
    assert e.key in EntryKeys(e);
    if e.values.Nested? {
      DocsAmong(e.values.docs, |e.values.docs|, strings);
    }
  }

  lemma {:induction false} DocsAmong(docs: seq<TextDoc>, n: nat, strings: seq<string>)
    requires n <= |docs| && forall s :: s in DocsKeys(docs, n) ==> s in strings
    requires forall s :: s in DocsTexts(docs, n) ==> s in strings
    ensures forall i :: 0 <= i < n ==> Among(docs[i], strings)
    decreases docs, n
  {
    hide Among, Keys, TextsOf;
    if n > 0 {
      DocsAmong(docs, n - 1, strings);
      OwnStrings(docs[n - 1], strings);
    }
  }
}
