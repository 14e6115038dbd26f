/** From a document to an archive and back: what it says and its strings survive. */
module Pipeline {
  import opened Bytes
  import opened Memory
  import opened ColumnDoc
  import opened Format
  import opened Scan
  import opened Index
  import opened Limits
  import opened Reading
  import opened Document
  import opened Columns
  import opened StringTable
  import opened TextDocs
  import opened Importer
  import opened Misreads
  import Archive
  import AsyncDict
  import Carriers
  import CopyFacts
  import Dictionary
  import Faults
  import GlobalId
  import Lossless
  import NullCopy
  import Ordering
  import Query
  import ReadLimits
  import Sizes
  import Sorter

  /** Whether a document is typed does not depend on how its strings are encoded. */
  function Unencoded(s: string): nat { 0 }

  /** The carriers take in one batch of strings, and then another. */
  ghost predicate InTwo(before: seq<Dictionary.Dict>, after: seq<Dictionary.Dict>, hash: Carriers.Hash,
                        grow: nat -> nat, forgets: bool, first: seq<string>, second: seq<string>)
    requires Dictionary.Grows(grow) && Carriers.Sound(before, hash)
  {
    exists between ::
      && Carriers.Sound(between, hash)
      && Carriers.BatchStep(before, between, hash, Carriers.Inserts(first), grow, forgets)
      && Carriers.BatchStep(between, after, hash, Carriers.Inserts(second), grow, forgets)
  }

  /** Encodes the strings of a document in a dictionary, turns the document into columns, sorts them
      if asked to, and writes the archive with the contents of the dictionary. The columns, and
      what was written of them, with the numbers of nulls copied, are returned too. Of what lies
      behind vectors in memory, heap is found behind numbers of nulls and env behind uint8 values. */
  method Store(mf: Memfile, dict: AsyncDict.AsyncDict, d: TextDoc, readOptimized: bool, orders: Ordering.Orders,
               env: Env, heap: NullCopy.Heap, bake: bool, index: seq<Byte>)
    returns (o: Obj, w: Obj)
    requires dict.Valid() && TypedDoc(Encode(d, Unencoded)) && mf.pos == 0 && mf.lastByte == 0
    modifies mf, dict
    ensures dict.Valid() && |dict.dicts| == old(|dict.dicts|)
    ensures Carriers.AllInStep(dict.dicts) <==> old(Carriers.AllInStep(dict.dicts))
    ensures forall s :: Carriers.Known(dict.dicts, dict.hash, s) <==>
      old(Carriers.Known(dict.dicts, dict.hash, s)) || s in Keys(d) || s in TextsOf(d)
    ensures var doc := Encode(d, Carriers.Ids(dict.dicts, dict.hash));
      && TypedDoc(doc) && ValidObj(o) && ObjFacts(o) == ObjFacts(ImportDoc(doc))
      && (!readOptimized ==> o == ImportDoc(doc)) && (readOptimized ==> Ordering.ObjOrdered(orders, o))
      && (Sizes.FitsDoc(doc) ==> FitsObj(o))
    ensures ValidObj(w) && NullCopy.Copied(o, w)
    ensures var b := Archive.EncArchive(TableOf(Carriers.Contents(dict.dicts, |dict.dicts|)), [], 1,
                                        if readOptimized then 1 else 0, w, env);
      |b| >= Archive.FILE_HEADER && mf.data == if bake then Archive.Baked(b, index) else b
    ensures |mf.data| < Range(8) ==>
      var r := Archive.Open(mf.data); r.Ok? && r.value.recordFlags == if readOptimized then 1 else 0
    ensures InTwo(old(dict.dicts), dict.dicts, dict.hash, dict.grow, dict.forgets, Keys(d), TextsOf(d))
  {
    hide ObjFacts, Archive.EncArchive, ImportDoc, Ordering.ObjOrdered, NullCopy.Copied, NullCopy.CopyObj, TypedDoc,
        Encode, Keys, TextsOf, Carriers.Sound, Carriers.Known, Carriers.AllInStep, Carriers.Ids, Carriers.Contents,
        TableOf, ValidObj, Archive.Baked, Sizes.FitsDoc, FitsObj, Carriers.BatchStep, Archive.Open,
        InTwo, Range;
    ghost var before := dict.dicts;
    var _ := dict.Insert(Keys(d));
    ghost var between := dict.dicts;
    var _ := dict.Insert(TextsOf(d));
    assert InTwo(before, dict.dicts, dict.hash, dict.grow, dict.forgets, Keys(d), TextsOf(d)) by {
      BothTaken(before, between, dict.dicts, dict.hash, dict.grow, dict.forgets, Keys(d), TextsOf(d));
    }
    Carriers.SoundSize(dict.dicts, dict.hash);
    var id := Carriers.Ids(dict.dicts, dict.hash);
    EncodeTyped(d, Unencoded, id);
    var obj := new ColumnDocObj.Setup();
    obj.ImportObject(Encode(d, id));
    if Sizes.FitsDoc(Encode(d, id)) {
      Sizes.ImportFits(Encode(d, id));
    }
    if readOptimized {
      Sorter.SortEntries(obj, orders);
    }
    o := Obj(obj.props);
    w := NullCopy.CopyObj(o, [], heap);
    NullCopy.CopyKeeps(o, w);
    var contents := dict.GetContents();
    var flags: Byte := if readOptimized then 1 else 0;
    Archive.FromModel(mf, TableOf(contents), [], 1, flags, w, env, bake, index);
    StoredFlags(TableOf(contents), flags, w, env, bake, index);
  }

  lemma BothTaken(before: seq<Dictionary.Dict>, between: seq<Dictionary.Dict>, after: seq<Dictionary.Dict>,
                  hash: Carriers.Hash, grow: nat -> nat, forgets: bool, first: seq<string>, second: seq<string>)
    requires Dictionary.Grows(grow) && Carriers.Sound(before, hash) && Carriers.Sound(between, hash)
    requires Carriers.BatchStep(before, between, hash, Carriers.Inserts(first), grow, forgets)
    requires Carriers.BatchStep(between, after, hash, Carriers.Inserts(second), grow, forgets)
    ensures InTwo(before, after, hash, grow, forgets, first, second)
  {
    hide Carriers.BatchStep, Carriers.Sound;
  }

  /** An archive says whether its record is sorted. */
  lemma StoredFlags(strs: seq<Str>, flags: Byte, w: Obj, env: Env, bake: bool, index: seq<Byte>)
    requires ValidObj(w) && |Archive.EncArchive(strs, [], 1, flags, w, env)| >= Archive.FILE_HEADER
    ensures var b := Archive.EncArchive(strs, [], 1, flags, w, env);
      var data := if bake then Archive.Baked(b, index) else b;
      |data| < Range(8) ==> var r := Archive.Open(data); r.Ok? && r.value.recordFlags == flags
  {
    hide Archive.EncArchive, Archive.Open, Range;
    var b := Archive.EncArchive(strs, [], 1, flags, w, env);
    assert |Archive.Baked(b, index)| >= |b|;
    if |b| < Range(8) {
      Archive.OpenFlags(strs, [], 1, flags, w, env, bake, index);
    }
  }

  /** An archive of columns opens, and its record gives the columns back and says the facts. */
  ghost predicate ReadsBack(b: seq<Byte>, w: Obj, facts: multiset<Fact>) {
    var r := Archive.Open(b);
    && r.Ok? && ComesBack(r.value.record, 0, w)
    && ScanFacts(ScanObj(r.value.record, 0).value) == facts
  }

  /** With zeros behind uint8 values columns come back only if they are counted, and counted ones
      always come back; they then say what they said when they were written. */
  lemma ReadsAsSaid(w: Obj, strs: seq<Str>, extra: seq<Byte>, tableFlags: Byte, recordFlags: Byte, env: Env,
                    facts: multiset<Fact>)
    requires ValidObj(w) && TypedObj(w) && Archive.HasPacker(tableFlags)
    requires Archive.RecordAt(strs, extra) + Archive.RECORD_HEADER + SizeObj(w) < Range(8)
    ensures var back := ReadsBack(Archive.EncArchive(strs, extra, tableFlags, recordFlags, w, env), w, facts);
      && (CountedObj(w) ==> (back <==> ObjFacts(w) == facts))
      && (Clear(env) && back ==> CountedObj(w))
  {
    hide Archive.EncArchive, ObjFacts, Archive.Open, ScanObj, ScanFacts, Rebuild, IndexedObj, Range, SizeObj, Clear,
        Archive.RecordAt;
    Archive.ArchiveSize(strs, extra, tableFlags, recordFlags, w, env);
    Archive.OpenReads(strs, extra, tableFlags, recordFlags, w, env);
    var r := Archive.Open(Archive.EncArchive(strs, extra, tableFlags, recordFlags, w, env));
    if CountedObj(w) {
      ScanSays(r.value.record, ScanObj(r.value.record, 0).value, 0);
    }
  }

  /** Whatever memory holds behind vectors, the columns of a document are read back as they were
      written and say what the document says. */
  ghost predicate AlwaysKept(d: Doc, o: Obj, strs: seq<Str>, extra: seq<Byte>, tableFlags: Byte, recordFlags: Byte,
                             id: nat -> nat)
  {
    forall w, behind :: NullCopy.Copied(o, w) ==>
      Kept(d, w, strs, extra, tableFlags, recordFlags, Env(id, behind))
  }

  ghost predicate Kept(d: Doc, w: Obj, strs: seq<Str>, extra: seq<Byte>, tableFlags: Byte, recordFlags: Byte, env: Env)
  {
    ValidObj(w) && ReadsBack(Archive.EncArchive(strs, extra, tableFlags, recordFlags, w, env), w, DocFacts(d))
  }

  /** A stored document, sorted or not, is read back as it was written and says what the document
      said, whatever memory holds behind vectors, exactly when the numbers and counts of its columns
      fit, it is tidy, its numbers of nulls fit 16 bits, and, at any depth, no object has two arrays
      of more than one null, no row of an object array a single null, and no object an array of
      uint8 values. */
  lemma StoredFacts(d: Doc, o: Obj, strs: seq<Str>, extra: seq<Byte>, tableFlags: Byte, recordFlags: Byte,
                    id: nat -> nat)
    requires TypedDoc(d) && ValidObj(o) && ObjFacts(o) == ObjFacts(ImportDoc(d)) && Archive.HasPacker(tableFlags)
    requires Archive.RecordAt(strs, extra) + Archive.RECORD_HEADER + SizeObj(o) < Range(8)
    ensures AlwaysKept(d, o, strs, extra, tableFlags, recordFlags, id)
            <==> FitsObj(o) && Tidy(d) && NullsBelow(d, NULL_RANGE) && NullsApart(d) && NoOctets(d)
  {
    hide ObjFacts, DocFacts, ImportDoc, TypedDoc, Without, NullCopy.Copied, Kept, Range, FitsObj, SizeObj,
        Archive.RecordAt, ValidObj, CountedObj, Faults.SaysFault;
    CopiesSay(d, o);
    if FitsObj(o) && Tidy(d) && NullsBelow(d, NULL_RANGE) && NullsApart(d) && NoOctets(d) {
      Sizes.CountedExactly(o);
      Faults.DocFaults(d, Octets);
      Lossless.ImportLossless(d);
      forall w, behind | NullCopy.Copied(o, w)
        ensures Kept(d, w, strs, extra, tableFlags, recordFlags, Env(id, behind))
      {
        CopyKept(d, o, strs, extra, tableFlags, recordFlags, Env(id, behind));
      }
    }
    if AlwaysKept(d, o, strs, extra, tableFlags, recordFlags, id) {
      var zeros: nat -> Byte := (k: nat) => 0;
      forall w | NullCopy.Copied(o, w)
        ensures FitsObj(w) && ObjFacts(w) == DocFacts(d) && NoOctets(d)
      {
        assert Kept(d, w, strs, extra, tableFlags, recordFlags, Env(id, zeros));
        NullCopy.CopyKeeps(o, w);
        CopyKept(d, w, strs, extra, tableFlags, recordFlags, Env(id, zeros));
      }
      assert NullCopy.Copied(o, NullCopy.CopyObj(o, [], (place: seq<nat>, k: nat) => 0));
    }
  }

  lemma CopyKept(d: Doc, w: Obj, strs: seq<Str>, extra: seq<Byte>, tableFlags: Byte, recordFlags: Byte, env: Env)
    requires TypedDoc(d) && ValidObj(w) && Archive.HasPacker(tableFlags)
    requires Archive.RecordAt(strs, extra) + Archive.RECORD_HEADER + SizeObj(w) < Range(8)
    ensures var kept := Kept(d, w, strs, extra, tableFlags, recordFlags, env);
      && (FitsObj(w) && CountedObj(w) && ObjFacts(w) == DocFacts(d) ==> kept)
      && (Clear(env) && kept ==> FitsObj(w) && ObjFacts(w) == DocFacts(d) && NoOctets(d))
  {
    hide Archive.EncArchive, Archive.Open, ScanObj, ScanFacts, ObjFacts, DocFacts, TypedDoc, Without, Range, FitsObj,
        SizeObj, Archive.RecordAt, TypedObj, ValidObj, CountedObj, Faults.SaysFault, Clear, ComesBack;
    if Kept(d, w, strs, extra, tableFlags, recordFlags, env) {
      var r := Archive.Open(Archive.EncArchive(strs, extra, tableFlags, recordFlags, w, env));
      ReadLimits.OnlyFitting(r.value.record, 0, w);
    }
    Sizes.CountedExactly(w);
    Faults.DocFaults(d, Octets);
    if TypedObj(w) {
      ReadsAsSaid(w, strs, extra, tableFlags, recordFlags, env, DocFacts(d));
    }
  }

  /** Every copy of the columns says what the document says exactly when the document is tidy and
      its numbers of nulls are small and apart; and then there is just one. */
  lemma CopiesSay(d: Doc, o: Obj)
    requires TypedDoc(d) && ValidObj(o) && ObjFacts(o) == ObjFacts(ImportDoc(d))
    ensures (forall w :: NullCopy.Copied(o, w) ==> ObjFacts(w) == DocFacts(d))
            <==> Tidy(d) && NullsBelow(d, NULL_RANGE) && NullsApart(d)
    ensures Tidy(d) && NullsBelow(d, NULL_RANGE) && NullsApart(d) ==> forall w :: NullCopy.Copied(o, w) ==> w == o
  {
    hide ObjFacts, DocFacts, ImportDoc, TypedDoc, Without, NullCopy.Copied, Faults.SaysFault;
    Faults.DocFaults(d, Single);
    Faults.DocFaults(d, Crowd);
    Faults.DocFaults(d, NullCount(NULL_RANGE));
    Lossless.ImportLossless(d);
    if Tidy(d) && NullsBelow(d, NULL_RANGE) && NullsApart(d) {
      forall w | NullCopy.Copied(o, w)
        ensures w == o
      {
        CopyFacts.OneCopy(o, w);
      }
    } else {
      SomeCopyDiffers(d, o);
    }
  }

  lemma SomeCopyDiffers(d: Doc, o: Obj)
    requires TypedDoc(d) && ValidObj(o) && ObjFacts(o) == ObjFacts(ImportDoc(d))
    requires !(Tidy(d) && NullsBelow(d, NULL_RANGE) && NullsApart(d))
    ensures exists w :: NullCopy.Copied(o, w) && ObjFacts(w) != DocFacts(d)
  {
    hide ObjFacts, DocFacts, ImportDoc, TypedDoc, Without, NullCopy.Copied, Faults.SaysFault;
    Faults.DocFaults(d, Single);
    Faults.DocFaults(d, Crowd);
    Faults.DocFaults(d, NullCount(NULL_RANGE));
    Lossless.ImportLossless(d);
    if Faults.SaysFault(Said(ObjFacts(o)), Crowd) {
      Faults.DocFaults(d, Zero);
      Faults.NoneZero(d);
      CopyFacts.CopySays(o, [], Crowd);
    } else {
      Lossless.ImportFaultless(d, NullCount(NULL_RANGE));
      CopyFacts.OneCopy(o, o);
      if ObjFacts(o) == DocFacts(d) {
        CopyFacts.CopySays(o, [], Single);
      }
    }
  }

  /** An array of nulls alone always comes back: `{"a":[null,null]}`. */
  lemma NullsComeBack(key: nat, n: nat)
    requires 1 < n < NULL_RANGE
    ensures var d := Doc([DocEntry(key, Null, Nulls(n))]);
      && TypedDoc(d) && forall w :: NullCopy.Copied(ImportDoc(d), w) ==> ObjFacts(w) == DocFacts(d)
  {
    hide ObjFacts, DocFacts, ImportDoc, NullCopy.Copied;
    var e := DocEntry(key, Null, Nulls(n));
    var d := Doc([e]);
    assert Typed(e);
    forall k: Fault | k.NullCount? ==> n < k.w
      ensures Without(d, k)
    {
      assert EntryWithout(e, k);
    }
    CopiesSay(d, ImportDoc(d));
  }

  /** Two rows of n nulls always come back exactly unless n is one: `{"r":[{"x":null},{"x":null}]}`
      need not, and `{"r":[{"x":[null,null]},{"x":[null,null]}]}` always does. */
  lemma NullRowsComeBack(key: nat, name: nat, n: nat)
    requires 0 < n < NULL_RANGE
    ensures var row := Doc([DocEntry(name, Null, Nulls(n))]); var d := Doc([DocEntry(key, Object, Docs([row, row]))]);
      && TypedDoc(d)
      && ((forall w :: NullCopy.Copied(ImportDoc(d), w) ==> ObjFacts(w) == DocFacts(d)) <==> n != 1)
  {
    hide ObjFacts, DocFacts, ImportDoc, NullCopy.Copied;
    var pair := DocEntry(name, Null, Nulls(n));
    var row := Doc([pair]);
    var e := DocEntry(key, Object, Docs([row, row]));
    var d := Doc([e]);
    assert TypedPair(pair) && TypedRow(row) && Typed(e);
    CopiesSay(d, ImportDoc(d));
    forall k: Fault
      ensures Without(d, k) <==> PairWithout(pair, k)
    {
      assert RowWithout(row, k) <==> PairWithout(row.entries[0], k);
      assert EntryWithout(e, k) <==> RowWithout(e.values.docs[0], k) && RowWithout(e.values.docs[1], k);
      assert Without(d, k) <==> EntryWithout(d.entries[0], k);
    }
  }

  /** The columns of `{"a":[1,2]}`: what is read back of them depends on memory. */
  lemma LoneImported(key: nat, vals: seq<nat>)
    requires |vals| > 1
    ensures var d := Doc([DocEntry(key, UInt8, Plain(vals))]); TypedDoc(d) && ImportDoc(d) == LoneArray(key, vals)
  {
    var e := DocEntry(key, UInt8, Plain(vals));
    var d := Doc([e]);
    assert Typed(e);
    assert ImportEntries([e], 0) == EmptyObj();
    assert ImportDoc(d) == Put(EmptyObj(), e);
    Nothing([key]);
    Nothing([vals]);
    assert ImportDoc(d).props == LoneArray(key, vals).props;
  }

  // ----- the strings

  /** Documents whose strings a dictionary knows are encoded alike only if they are the same. */
  lemma DocumentsApart(dicts: seq<Dictionary.Dict>, hash: Carriers.Hash, d: TextDoc, e: TextDoc)
    requires Carriers.Sound(dicts, hash) && Carriers.AllInStep(dicts) && Carriers.Small(dicts)
    requires forall s :: s in Keys(d) || s in TextsOf(d) || s in Keys(e) || s in TextsOf(e) ==>
      Carriers.Known(dicts, hash, s)
    requires Marked(d) && Marked(e)
    ensures Encode(d, Carriers.Ids(dicts, hash)) == Encode(e, Carriers.Ids(dicts, hash)) <==> d == e
  {
    hide Encode, Keys, TextsOf, Marked, Carriers.Known, Carriers.IdOf, Carriers.Small, Carriers.AllInStep, Among;
    var id := Carriers.Ids(dicts, hash);
    var strings := Keys(d) + TextsOf(d) + (Keys(e) + TextsOf(e));
    OwnStrings(d, strings);
    OwnStrings(e, strings);
    forall s, t | s in strings && t in strings && id(s) == id(t)
      ensures s == t
    {
      Carriers.IdsDiffer(dicts, hash, s, t);
    }
    if Encode(d, id) == Encode(e, id) {
      EncodeDiffers(d, e, id, strings);
    }
  }

  /** A string that the program can hold: no zero character, and one byte each. */
  ghost predicate IsText(s: string) {
    |s| < Range(4) && forall i :: 0 <= i < |s| ==> 0 < s[i] as nat < 256
  }

  function Chars(s: string): (bs: seq<Byte>)
    ensures |bs| == |s| && forall i :: 0 <= i < |s| && s[i] as nat < 256 ==> bs[i] == s[i] as int
  {
    seq(|s|, (i: nat) requires i < |s| => s[i] as nat % 256)
  }

  /** Different strings have different bytes. */
  lemma CharsDiffer(s: string, t: string)
    requires IsText(s) && IsText(t) && Chars(s) == Chars(t)
    ensures s == t
  {
    forall i | 0 <= i < |s|
      ensures s[i] == t[i]
    {
      assert Chars(s)[i] == Chars(t)[i];
    }
  }

  /** The table of a dictionary's contents, without packing. */
  function TableOf(l: seq<(string, nat)>): (strs: seq<Str>)
    ensures |strs| == |l|
    ensures forall i :: 0 <= i < |l| ==> strs[i] == Str(l[i].1, |l[i].0|, Chars(l[i].0))
  {
    seq(|l|, (i: nat) requires i < |l| => Str(l[i].1, |l[i].0|, Chars(l[i].0)))
  }

  lemma {:induction false} RangeIsPow2(w: nat)
    ensures Range(w) == Pow2(8 * w)
  {
    if w > 0 {
      RangeIsPow2(w - 1);
      GlobalId.PowSum(8, 8 * (w - 1));
      assert Pow2(4) == 16;
    }
  }

  lemma Fits(owner: nat, local: nat)
    requires owner < GlobalId.MAX_CARRIERS && local < Pow2(GlobalId.LOCAL_BITS)
    ensures owner < Pow2(64) && local < Pow2(64)
  {
    hide Pow2;
    GlobalId.MaskIs();
    var m := Pow2(GlobalId.LOCAL_BITS);
    assert Pow2(64) == m * 1024;
    assert m * 1024 >= m && m * 1024 >= 1024;
  }

  lemma IdFits(dicts: seq<Dictionary.Dict>, hash: Carriers.Hash, s: string)
    requires Carriers.Sound(dicts, hash) && Carriers.Small(dicts) && Carriers.Known(dicts, hash, s)
    ensures Carriers.IdOf(dicts, hash, s) < Range(8)
  {
    hide Pow2, GlobalId.MakeGlobal, Range, Carriers.Home;
    RangeIsPow2(8);
    GlobalId.MaskIs();
    var c := Carriers.Home(hash, |dicts|, s);
    Fits(c, dicts[c].index[s]);
    GlobalId.PartsBack(c, dicts[c].index[s]);
  }

  /** The table of all known strings: its ids are distinct, and everything fits. */
  lemma TableFits(dicts: seq<Dictionary.Dict>, hash: Carriers.Hash)
    requires Carriers.Sound(dicts, hash) && Carriers.AllInStep(dicts) && Carriers.Small(dicts)
    requires forall s :: Carriers.Known(dicts, hash, s) ==> IsText(s)
    ensures var strs := TableOf(Carriers.Contents(dicts, |dicts|));
      FitStrs(strs) && Query.Unpacked(strs) && Query.DistinctIds(strs)
  {
    hide Carriers.Sound, Carriers.AllInStep, Carriers.Small, Carriers.Known, Carriers.IdOf, Carriers.Contents,
        Range, Chars;
    var l := Carriers.Contents(dicts, |dicts|);
    Carriers.ContentsKnown(dicts, hash, |dicts|);
    Carriers.ContentsDistinct(dicts, hash, |dicts|);
    forall i | 0 <= i < |l|
      ensures l[i].1 < Range(8) && |l[i].0| < Range(4)
    {
      IdFits(dicts, hash, l[i].0);
    }
    forall i, j | 0 <= i < j < |l|
      ensures l[i].1 != l[j].1
    {
      Carriers.IdsDiffer(dicts, hash, l[i].0, l[j].0);
    }
  }

  lemma TableIsAt(b: seq<Byte>, first: nat, strs: seq<Str>)
    requires strs != [] && FitStrs(strs) && first > 0
    requires first + SizeStrs(strs, 0) <= Range(8) && At(b, first, EncStrs(strs, 0, first))
    ensures Query.TableAt(b, first, strs)
  {
    hide FitStrs, SizeStrs, At, EncStrs, Range;
  }

  /** In an archive whose table is a dictionary's contents, every known string is fetched by its
      id, by scanning and by the index. */
  lemma StoredStrings(dicts: seq<Dictionary.Dict>, hash: Carriers.Hash, tableFlags: Byte, recordFlags: Byte,
                      o: Obj, env: Env, s: string)
    requires Carriers.Sound(dicts, hash) && Carriers.AllInStep(dicts) && Carriers.Small(dicts)
    requires forall t :: Carriers.Known(dicts, hash, t) ==> IsText(t)
    requires ValidObj(o) && Archive.HasPacker(tableFlags) && Carriers.Known(dicts, hash, s)
    requires
      |Archive.EncArchive(TableOf(Carriers.Contents(dicts, |dicts|)), [], tableFlags, recordFlags, o, env)| < Range(8)
    ensures var strs := TableOf(Carriers.Contents(dicts, |dicts|));
      var b := Archive.EncArchive(strs, [], tableFlags, recordFlags, o, env); var r := Archive.Open(b);
      && r.Ok? && Query.TableAt(b, r.value.firstEntry, strs)
      && var infos := Infos(strs, 0, r.value.firstEntry); var id := Carriers.IdOf(dicts, hash, s);
         && Query.Scanned(b, infos, id) == Query.Found(Chars(s))
         && Query.FetchByIndex(b, Query.IndexOf(infos), id) == Query.Found(Chars(s))
  {
    hide *;
    var l := Carriers.Contents(dicts, |dicts|);
    var strs := TableOf(l);
    var b := Archive.EncArchive(strs, [], tableFlags, recordFlags, o, env);
    TableFits(dicts, hash);
    Archive.OpenStrings(strs, [], tableFlags, recordFlags, o, env, 1);
    Carriers.KnownListed(dicts, hash, |dicts|, s);
    var i :| 0 <= i < |l| && l[i] == (s, Carriers.IdOf(dicts, hash, s));
    TableIsAt(b, Archive.Open(b).value.firstEntry, strs);
    Query.FetchesOwnText(b, Archive.Open(b).value.firstEntry, strs, i);
  }

  /** What is fetched by their ids tells known strings apart. */
  lemma StringsApart(dicts: seq<Dictionary.Dict>, hash: Carriers.Hash, tableFlags: Byte, recordFlags: Byte,
                     o: Obj, env: Env, s: string, t: string)
    requires Carriers.Sound(dicts, hash) && Carriers.AllInStep(dicts) && Carriers.Small(dicts)
    requires forall u :: Carriers.Known(dicts, hash, u) ==> IsText(u)
    requires Carriers.Known(dicts, hash, s) && Carriers.Known(dicts, hash, t)
    requires ValidObj(o) && Archive.HasPacker(tableFlags)
    requires
      |Archive.EncArchive(TableOf(Carriers.Contents(dicts, |dicts|)), [], tableFlags, recordFlags, o, env)| < Range(8)
    ensures var strs := TableOf(Carriers.Contents(dicts, |dicts|));
      var b := Archive.EncArchive(strs, [], tableFlags, recordFlags, o, env); var r := Archive.Open(b);
      && r.Ok?
      && var infos := Infos(strs, 0, r.value.firstEntry);
         var x, y := Carriers.IdOf(dicts, hash, s), Carriers.IdOf(dicts, hash, t);
         Query.Scanned(b, infos, x) == Query.Scanned(b, infos, y) <==> s == t
  {
    hide *;
    StoredStrings(dicts, hash, tableFlags, recordFlags, o, env, s);
    StoredStrings(dicts, hash, tableFlags, recordFlags, o, env, t);
    if Chars(s) == Chars(t) {
      CharsDiffer(s, t);
    }
  }
}
