/** A whole archive: file header, string table, record header and the root object. */
module Archive {
  import opened Bytes
  import opened Memory
  import opened ColumnDoc
  import opened Format
  import opened Scan
  import opened Limits
  import opened Index
  import opened Roundtrip
  import opened Misreads
  import opened Shift
  import opened StringTable
  import opened Writer
  import ReadLimits
  import Sizes

  const MAGIC: seq<Byte> :=
    ['M' as int, 'P' as int, '/' as int, 'C' as int, 'A' as int, 'R' as int, 'B' as int, 'O' as int, 'N' as int]
  const VERSION: Byte := 1
  const RECORD_MARKER: Byte := 'r' as int
  const FILE_HEADER: nat := 26
  const RECORD_HEADER: nat := 10

  function EncFileHeader(record: nat, index: nat): (bs: seq<Byte>)
    ensures |bs| == FILE_HEADER
  {
    MAGIC + [VERSION] + Le(record, 8) + Le(index, 8)
  }

  function EncRecordHeader(flags: Byte, size: nat): (bs: seq<Byte>)
    ensures |bs| == RECORD_HEADER
  {
    [RECORD_MARKER] + [flags] + Le(size, 8)
  }

  /** Where the record header of an archive lies. */
  function RecordAt(strs: seq<Str>, extra: seq<Byte>): nat {
    FILE_HEADER + TABLE_HEADER + |extra| + SizeStrs(strs, 0)
  }

  function EncArchive(strs: seq<Str>, extra: seq<Byte>, tableFlags: Byte, recordFlags: Byte, o: Obj,
      env: Env): (bs: seq<Byte>)
    requires ValidObj(o)
  {
    var record := RecordAt(strs, extra);
    var root := record + RECORD_HEADER;
    EncFileHeader(record, 0) + EncTable(strs, extra, tableFlags, FILE_HEADER)
    + EncRecordHeader(recordFlags, SizeObj(o)) + EncObj(o, root, root, 0, env)
  }

  /** The archive with a serialised string id index behind it and its place in the file header. */
  function Baked(b: seq<Byte>, index: seq<Byte>): seq<Byte>
    requires |b| >= FILE_HEADER
  {
    b[..18] + Le(|b|, 8) + b[FILE_HEADER..] + index
  }

  /** Builds the archive of a document in a fresh memory file, and bakes an index into it if asked
      to; how the index is serialised is not modelled. */
  method FromModel(mf: Memfile, strs: seq<Str>, extra: seq<Byte>, tableFlags: Byte, recordFlags: Byte, o: Obj, env: Env,
                   bake: bool, index: seq<Byte>)
    requires ValidObj(o) && mf.pos == 0 && mf.lastByte == 0
    modifies mf
    ensures var b := EncArchive(strs, extra, tableFlags, recordFlags, o, env);
      |b| >= FILE_HEADER && mf.data == if bake then Baked(b, index) else b
  {
    WriteArchive(mf, strs, extra, tableFlags, recordFlags, o, env);
    if bake {
      mf.data := Baked(mf.data, index);
    }
  }

  /** An index changes nothing of what opening the archive finds, and nothing behind the header. */
  lemma BakedOpens(b: seq<Byte>, index: seq<Byte>)
    requires FILE_HEADER <= |b| < Range(8) && Word(b, 10, 8) >= FILE_HEADER && Open(b).Ok?
    ensures Open(Baked(b, index)) == Open(b) && Baked(b, index)[FILE_HEADER..|b|] == b[FILE_HEADER..]
    ensures Word(Baked(b, index), 18, 8) == |b| && Baked(b, index)[|b|..] == index
  {
    hide Le, UnLe, Range;
    var c := Baked(b, index);
    var record := Word(b, 10, 8);
    Pieces(b[..18], Le(|b|, 8), b[FILE_HEADER..], index);
    Front(b, c);
    Behind(b, c, 26, 1);
    Behind(b, c, 32, 8);
    Behind(b, c, 27, 4);
    Behind(b, c, 31, 1);
    Behind(b, c, record + 1, 1);
    Behind(b, c, record + 2, 8);
    Behind(b, c, record + RECORD_HEADER, Word(b, record + 2, 8));
    LeFits(|b|, 8);
  }

  lemma Pieces(x: seq<Byte>, y: seq<Byte>, z: seq<Byte>, more: seq<Byte>)
    ensures var c := x + y + z + more; var n := |x| + |y|;
      c[..|x|] == x && c[|x|..n] == y && c[n..n + |z|] == z
  {
  }

  lemma Front(b: seq<Byte>, c: seq<Byte>)
    requires 18 <= |b| <= |c| && c[..18] == b[..18]
    ensures c[..9] == b[..9] && c[9] == b[9] && c[10..18] == b[10..18]
  {
    forall k | 0 <= k < 18
      ensures c[k] == b[k]
    {
      assert c[..18][k] == b[..18][k];
    }
  }

  /** Bytes behind the file header are the same in both. */
  lemma Behind(b: seq<Byte>, c: seq<Byte>, p: nat, n: nat)
    requires FILE_HEADER <= |b| <= |c| && c[FILE_HEADER..|b|] == b[FILE_HEADER..] && FILE_HEADER <= p <= p + n <= |b|
    ensures c[p..p + n] == b[p..p + n] && (n > 0 ==> c[p] == b[p])
  {
    forall k | p <= k < p + n
      ensures c[k] == b[k]
    {
      assert c[FILE_HEADER..|b|][k - FILE_HEADER] == b[FILE_HEADER..][k - FILE_HEADER];
    }
  }

  method WriteArchive(mf: Memfile, strs: seq<Str>, extra: seq<Byte>, tableFlags: Byte, recordFlags: Byte, o: Obj,
                      env: Env)
    requires ValidObj(o) && mf.pos == 0 && mf.lastByte == 0
    modifies mf
    ensures mf.data == EncArchive(strs, extra, tableFlags, recordFlags, o, env) && |mf.data| >= FILE_HEADER
  {
    hide After, EncTable, EncObj, EncFileHeader, EncRecordHeader;
    ghost var m := mf.Now();
    ghost var gap := mf.Skip(FILE_HEADER);
    WriteStringTable(mf, strs, extra, tableFlags);
    var recordOffset := mf.pos;
    ghost var slot := mf.Skip(RECORD_HEADER);
    ghost var table := EncTable(strs, extra, tableFlags, FILE_HEADER);
    AfterBoth(m, gap, table);
    AfterBoth(m, gap + table, slot);
    Around3(gap, table, slot, EncFileHeader(recordOffset, 0));
    mf.Patch(m, [], gap, table + slot, 0, EncFileHeader(recordOffset, 0));
    var root := mf.pos;
    var _ := Serialize(mf, o, root, env);
    ghost var obj := EncObj(o, root, root, 0, env);
    ghost var front := EncFileHeader(recordOffset, 0) + table;
    AfterBoth(m, front + slot, obj);
    var recordSize := mf.pos - (recordOffset + RECORD_HEADER);
    mf.Patch(m, front, slot, obj, recordOffset, EncRecordHeader(recordFlags, recordSize));
    FromTheStart(m, front + EncRecordHeader(recordFlags, recordSize) + obj);
    mf.Shrink();
  }

  lemma Around3(gap: seq<Byte>, table: seq<Byte>, slot: seq<Byte>, header: seq<Byte>)
    ensures gap + table + slot == [] + gap + (table + slot)
    ensures [] + header + (table + slot) == header + table + slot
  {
  }

  lemma FromTheStart(m: State, bs: seq<Byte>)
    requires m.Ready() && m.pos == 0 && m.lastByte == 0
    ensures var r := After(m, bs); r.lastByte == r.pos <= |r.data| && r.data[..r.pos] == bs
  {
  }

  // ----- opening

  /** What an open archive knows of its string table and its record, and the record's block. */
  datatype Opened = Opened(firstEntry: nat, numStrings: nat, tableFlags: Byte, recordFlags: Byte, record: seq<Byte>)

  /** There is a packer for the flags of a string table: bit 0 stands for none, bit 1 for Huffman. */
  predicate HasPacker(flags: Byte) { flags % 2 == 1 || flags / 2 % 2 == 1 }

  /** What opening an archive file finds: the string table and the block of the record, which
      is read on its own. */
  function Open(b: seq<Byte>): Result<Opened> {
    if FILE_HEADER > |b| then Err(OutOfBounds)
    else
      var record := Word(b, 10, 8);
      if b[..9] != MAGIC || b[9] != VERSION || record == 0 then Err(Corrupted)
      else if FILE_HEADER + TABLE_HEADER > |b| then Err(OutOfBounds)
      else if b[FILE_HEADER] != TABLE_MARKER || !HasPacker(b[FILE_HEADER + 5]) then Err(Corrupted)
      else if record + RECORD_HEADER > |b| then Err(OutOfBounds)
      else
        var size := Word(b, record + 2, 8);
        var root := record + RECORD_HEADER;
        if root + size > |b| then Err(OutOfBounds)
        else
          var table := FILE_HEADER;
          Ok(Opened(Word(b, table + 6, 8), Word(b, table + 1, 4), b[table + 5], b[record + 1], b[root..root + size]),
             root + size)
  }

  /** The parts of an archive, where Open looks for them. */
  lemma OpenParts(strs: seq<Str>, extra: seq<Byte>, tableFlags: Byte, recordFlags: Byte, o: Obj, env: Env)
    requires ValidObj(o) && |EncArchive(strs, extra, tableFlags, recordFlags, o, env)| < Range(8)
    ensures var b := EncArchive(strs, extra, tableFlags, recordFlags, o, env);
      var record := RecordAt(strs, extra); var root := record + RECORD_HEADER;
      && b[..9] == ['M' as int, 'P' as int, '/' as int, 'C' as int, 'A' as int, 'R' as int, 'B' as int, 'O' as int,
                    'N' as int]
      && b[9] == 1 && Word(b, 10, 8) == record && Word(b, 18, 8) == 0
      && b[26] == 'D' as int && Word(b, 27, 4) == |strs| % Range(4) && b[31] == tableFlags
      && Word(b, 32, 8) == 48 + |extra| && b[48..48 + |extra|] == extra
      && At(b, 48 + |extra|, EncStrs(strs, 0, 48 + |extra|))
      && b[record] == 'r' as int && b[record + 1] == recordFlags && Word(b, record + 2, 8) == SizeObj(o)
      && |b| == root + SizeObj(o) && b[root..] == EncObj(o, root, root, 0, env)
  {
    hide EncStrs, EncObj, SizeStrs, SizeObj, Le, Word, MAGIC, At;
    var b := EncArchive(strs, extra, tableFlags, recordFlags, o, env);
    var record, first := RecordAt(strs, extra), FILE_HEADER + TABLE_HEADER + |extra|;
    var root := record + RECORD_HEADER;
    var table, obj := EncTable(strs, extra, tableFlags, FILE_HEADER), EncObj(o, root, root, 0, env);
    var header := EncRecordHeader(recordFlags, SizeObj(o));
    AtAll(b);
    AtBoth(b, 0, EncFileHeader(record, 0) + table + header, obj, root);
    AtBoth(b, 0, EncFileHeader(record, 0) + table, header, record);
    AtBoth(b, 0, EncFileHeader(record, 0), table, FILE_HEADER);
    FileHeaderParts(b, record);
    TableParts(b, strs, extra, tableFlags);
    RecordHeaderParts(b, record, recordFlags, SizeObj(o));
    AtEnd(b, root, obj);
    AtIs(b, FILE_HEADER + TABLE_HEADER, extra);
    MagicIs();
  }

  lemma MagicIs()
    ensures MAGIC == ['M' as int, 'P' as int, '/' as int, 'C' as int, 'A' as int, 'R' as int, 'B' as int, 'O' as int,
                      'N' as int]
  {
  }

  lemma AtIs(b: seq<Byte>, p: nat, e: seq<Byte>)
    requires At(b, p, e)
    ensures p + |e| <= |b| && b[p..p + |e|] == e
  {
  }

  lemma AtAll(b: seq<Byte>)
    ensures At(b, 0, b)
  {
  }

  lemma AtEnd(b: seq<Byte>, p: nat, e: seq<Byte>)
    requires At(b, p, e) && |b| == p + |e|
    ensures b[p..] == e
  {
  }

  lemma FileHeaderParts(b: seq<Byte>, record: nat)
    requires At(b, 0, EncFileHeader(record, 0)) && record < Range(8)
    ensures 26 <= |b| && b[..9] == MAGIC && b[9] == VERSION && Word(b, 10, 8) == record && Word(b, 18, 8) == 0
  {
    hide Le, Word;
    AtBoth(b, 0, MAGIC + [VERSION] + Le(record, 8), Le(0, 8), 18);
    AtBoth(b, 0, MAGIC + [VERSION], Le(record, 8), 10);
    AtBoth(b, 0, MAGIC, [VERSION], 9);
    Nothing([VERSION]);
    AtByte(b, 9, VERSION, []);
    ReadWord(b, 10, record, 8);
    ReadWord(b, 18, 0, 8);
    assert b[0..9] == b[..9];
  }

  lemma TableParts(b: seq<Byte>, strs: seq<Str>, extra: seq<Byte>, flags: Byte)
    requires At(b, FILE_HEADER, EncTable(strs, extra, flags, FILE_HEADER)) && |b| < Range(8)
    ensures var first := FILE_HEADER + TABLE_HEADER + |extra|;
      && FILE_HEADER + TABLE_HEADER <= |b| && b[FILE_HEADER] == TABLE_MARKER
      && Word(b, FILE_HEADER + 6, 8) == first && Word(b, FILE_HEADER + 1, 4) == |strs| % Range(4)
      && b[FILE_HEADER + 5] == flags && At(b, FILE_HEADER + TABLE_HEADER, extra)
      && At(b, first, EncStrs(strs, 0, first))
  {
    hide EncStrs, SizeStrs, Word, At, EncStringTableHead, EncTable;
    var first := FILE_HEADER + TABLE_HEADER + |extra|;
    var head := EncStringTableHead(|strs|, flags, first, |extra|);
    AtLength(b, FILE_HEADER, EncTable(strs, extra, flags, FILE_HEADER));
    TableBytes(strs, extra, flags, FILE_HEADER, first);
    AtBoth(b, FILE_HEADER, head + extra, EncStrs(strs, 0, first), first);
    AtBoth(b, FILE_HEADER, head, extra, FILE_HEADER + TABLE_HEADER);
    TableHeadParts(b, FILE_HEADER, |strs|, flags, first, |extra|);
  }

  lemma TableBytes(strs: seq<Str>, extra: seq<Byte>, flags: Byte, q: nat, first: nat)
    requires first == q + TABLE_HEADER + |extra|
    ensures EncTable(strs, extra, flags, q)
            == EncStringTableHead(|strs|, flags, first, |extra|) + extra + EncStrs(strs, 0, first)
  {
    hide EncStrs, EncStringTableHead;
  }

  lemma TableHeadParts(b: seq<Byte>, q: nat, n: nat, flags: Byte, first: nat, extra: nat)
    requires At(b, q, EncStringTableHead(n, flags, first, extra)) && first < Range(8)
    ensures q + TABLE_HEADER <= |b| && b[q] == TABLE_MARKER && b[q + 5] == flags
    ensures Word(b, q + 6, 8) == first && Word(b, q + 1, 4) == n % Range(4)
  {
    hide Le, Word, At;
    AtLength(b, q, EncStringTableHead(n, flags, first, extra));
    AtBoth(b, q, [TABLE_MARKER] + Le(n, 4) + [flags] + Le(first, 8), Le(extra, 8), q + 14);
    AtBoth(b, q, [TABLE_MARKER] + Le(n, 4) + [flags], Le(first, 8), q + 6);
    AtBoth(b, q, [TABLE_MARKER] + Le(n, 4), [flags], q + 5);
    AtByte(b, q, TABLE_MARKER, Le(n, 4));
    Nothing([flags]);
    AtByte(b, q + 5, flags, []);
    ReadWord(b, q + 1, n, 4);
    ReadWord(b, q + 6, first, 8);
  }

  lemma AtLength(b: seq<Byte>, p: nat, e: seq<Byte>)
    requires At(b, p, e)
    ensures p + |e| <= |b|
  {
  }

  lemma RecordHeaderParts(b: seq<Byte>, p: nat, flags: Byte, size: nat)
    requires At(b, p, EncRecordHeader(flags, size)) && size < Range(8)
    ensures p + 10 <= |b| && b[p] == RECORD_MARKER && b[p + 1] == flags && Word(b, p + 2, 8) == size
  {
    hide Le, Word, At;
    AtLength(b, p, EncRecordHeader(flags, size));
    AtBoth(b, p, [RECORD_MARKER] + [flags], Le(size, 8), p + 2);
    AtByte(b, p, RECORD_MARKER, [flags]);
    Nothing([flags]);
    AtByte(b, p + 1, flags, []);
    ReadWord(b, p + 2, size, 8);
  }

  /** Which files can be opened. */
  lemma OpenExactly(b: seq<Byte>)
    ensures Open(b).Ok? <==>
      && |b| >= 48 && b[..9] == ['M' as int, 'P' as int, '/' as int, 'C' as int, 'A' as int, 'R' as int, 'B' as int,
                                 'O' as int, 'N' as int]
      && b[9] == 1 && b[26] == 'D' as int && (b[31] % 2 == 1 || b[31] / 2 % 2 == 1)
      && var record := Word(b, 10, 8);
         record != 0 && record + 10 <= |b| && record + 10 + Word(b, record + 2, 8) <= |b|
  {
    hide Word, MAGIC;
    MagicIs();
  }

  /** Opening an archive, with an index or without one, finds the flags that were written. */
  lemma OpenFlags(strs: seq<Str>, extra: seq<Byte>, tableFlags: Byte, recordFlags: Byte, o: Obj, env: Env,
                  bake: bool, index: seq<Byte>)
    requires ValidObj(o) && |EncArchive(strs, extra, tableFlags, recordFlags, o, env)| < Range(8)
    ensures var b := EncArchive(strs, extra, tableFlags, recordFlags, o, env);
      |b| >= FILE_HEADER && var r := Open(if bake then Baked(b, index) else b);
        && (r.Ok? <==> HasPacker(tableFlags))
        && (r.Ok? ==> r.value.tableFlags == tableFlags && r.value.recordFlags == recordFlags)
  {
    hide EncArchive, EncObj, EncStrs, SizeObj, SizeStrs, Word, MAGIC, At, Baked;
    OpenParts(strs, extra, tableFlags, recordFlags, o, env);
    MagicIs();
    var b := EncArchive(strs, extra, tableFlags, recordFlags, o, env);
    if bake {
      if Open(b).Ok? {
        BakedOpens(b, index);
      } else {
        BakedFlags(b, index);
      }
    }
  }

  /** An index does not bring a packer either. */
  lemma BakedFlags(b: seq<Byte>, index: seq<Byte>)
    requires FILE_HEADER + TABLE_HEADER <= |b| && !HasPacker(b[FILE_HEADER + 5])
    ensures Open(Baked(b, index)).Err?
  {
    hide Le, UnLe, Range, HasPacker;
    var c := Baked(b, index);
    Pieces(b[..18], Le(|b|, 8), b[FILE_HEADER..], index);
    Behind(b, c, 31, 1);
  }

  /** An archive that is built and opened again: the record's block, read on its own, gives a
      counted document back, and every offset in it counts from the start of the block. With zeros
      behind vectors no other document comes back. */
  lemma OpenReads(strs: seq<Str>, extra: seq<Byte>, tableFlags: Byte, recordFlags: Byte, o: Obj, env: Env)
    requires ValidObj(o) && TypedObj(o) && |EncArchive(strs, extra, tableFlags, recordFlags, o, env)| < Range(8)
    ensures var r := Open(EncArchive(strs, extra, tableFlags, recordFlags, o, env)); r.Ok? <==> HasPacker(tableFlags)
    ensures HasPacker(tableFlags) ==>
      var r := Open(EncArchive(strs, extra, tableFlags, recordFlags, o, env));
      && |r.value.record| == SizeObj(o) && r.value.numStrings == |strs| % Range(4)
      && r.value.tableFlags == tableFlags && r.value.recordFlags == recordFlags
      && var s := ScanObj(r.value.record, 0);
         && (CountedObj(o) ==> ComesBack(r.value.record, 0, o))
         && (CountedObj(o) ==> s.end == SizeObj(o) && IndexedObj(r.value.record, s.value, 0))
         && (!CountedObj(o) && Clear(env) ==> !ComesBack(r.value.record, 0, o))
  {
    hide EncArchive, EncObj, EncStrs, SizeObj, SizeStrs, Word, MAGIC, At, ScanObj, Rebuild, IndexedObj, ValidObj,
        TypedObj, CountedObj;
    OpenParts(strs, extra, tableFlags, recordFlags, o, env);
    MagicIs();
    var root := RecordAt(strs, extra) + RECORD_HEADER;
    var record := EncObj(o, root, root, 0, env);
    var near := Env((p: nat) => env.id(p + root), (p: nat) => env.behind(p + root));
    ObjMoves(o, 0, 0, 0, near, env, root);
    AtAll(record);
    Ranges();
    if CountedObj(o) {
      ObjReads(record, o, 0, 0, 0, near);
    } else if Clear(env) {
      ObjMisreads(record, o, 0, 0, 0, near);
    }
    EndOf(EncArchive(strs, extra, tableFlags, recordFlags, o, env), root, SizeObj(o));
  }

  /** The archive of an object opens, and its record gives the object back. */
  ghost predicate Returned(strs: seq<Str>, extra: seq<Byte>, tableFlags: Byte, recordFlags: Byte, o: Obj, env: Env)
    requires ValidObj(o)
  {
    var r := Open(EncArchive(strs, extra, tableFlags, recordFlags, o, env));
    r.Ok? && ComesBack(r.value.record, 0, o)
  }

  /** A document comes back from its archive, whatever memory holds behind vectors, exactly when it
      is typed and counted, and the string table names a packer. */
  lemma AlwaysReturned(strs: seq<Str>, extra: seq<Byte>, tableFlags: Byte, recordFlags: Byte, o: Obj, id: nat -> nat)
    requires ValidObj(o) && RecordAt(strs, extra) + RECORD_HEADER + SizeObj(o) < Range(8)
    ensures HasPacker(tableFlags) && TypedObj(o) && CountedObj(o) <==>
            forall behind :: Returned(strs, extra, tableFlags, recordFlags, o, Env(id, behind))
  {
    hide EncArchive, Open, SizeObj, SizeStrs, ValidObj, TypedObj, CountedObj, ScanObj, IndexedObj, ComesBack,
        FitsObj;
    forall behind | HasPacker(tableFlags) && TypedObj(o) && CountedObj(o)
      ensures Returned(strs, extra, tableFlags, recordFlags, o, Env(id, behind))
    {
      ArchiveSize(strs, extra, tableFlags, recordFlags, o, Env(id, behind));
      OpenReads(strs, extra, tableFlags, recordFlags, o, Env(id, behind));
    }
    if !HasPacker(tableFlags) || !TypedObj(o) || !CountedObj(o) {
      var zeros: nat -> Byte := (k: nat) => 0;
      if Returned(strs, extra, tableFlags, recordFlags, o, Env(id, zeros)) {
        var r := Open(EncArchive(strs, extra, tableFlags, recordFlags, o, Env(id, zeros)));
        ReadLimits.OnlyFitting(r.value.record, 0, o);
        Sizes.CountedExactly(o);
        ArchiveSize(strs, extra, tableFlags, recordFlags, o, Env(id, zeros));
        OpenReads(strs, extra, tableFlags, recordFlags, o, Env(id, zeros));
      }
      assert !Returned(strs, extra, tableFlags, recordFlags, o, Env(id, zeros));
    }
  }

  lemma ArchiveSize(strs: seq<Str>, extra: seq<Byte>, tableFlags: Byte, recordFlags: Byte, o: Obj, env: Env)
    requires ValidObj(o)
    ensures |EncArchive(strs, extra, tableFlags, recordFlags, o, env)|
            == RecordAt(strs, extra) + RECORD_HEADER + SizeObj(o)
  {
    hide EncFileHeader, EncTable, EncRecordHeader, EncObj, SizeStrs;
  }

  lemma EndOf(b: seq<Byte>, p: nat, n: nat)
    requires |b| == p + n
    ensures b[p..p + n] == b[p..]
  {
  }

  /** The string iterator, opened on an archive with strings, finds the table's entries there;
      on an archive without any it finds the record header instead and fails. Calling it until it
      stops reports every string of the table. */
  lemma OpenStrings(strs: seq<Str>, extra: seq<Byte>, tableFlags: Byte, recordFlags: Byte, o: Obj, env: Env, room: nat)
    requires ValidObj(o) && |EncArchive(strs, extra, tableFlags, recordFlags, o, env)| < Range(8)
        && FitStrs(strs) && room > 0 && HasPacker(tableFlags)
    ensures var b := EncArchive(strs, extra, tableFlags, recordFlags, o, env); var r := Open(b);
      && r.Ok? && r.value.firstEntry > 0 && At(b, r.value.firstEntry, EncStrs(strs, 0, r.value.firstEntry))
      && r.value.firstEntry + SizeStrs(strs, 0) <= Range(8) && r.value.firstEntry + SizeStrs(strs, 0) < |b|
      && (strs == [] <==> NextInfos(b, r.value.firstEntry, room) == Err(Corrupted))
      && Ends(b, r.value.firstEntry, room, |strs|)
      && Reported(b, r.value.firstEntry, room, |strs|) == Infos(strs, 0, r.value.firstEntry)
  {
    hide EncArchive, EncObj, EncStrs, Word, MAGIC, At, NextInfos, Ends, Reported;
    OpenParts(strs, extra, tableFlags, recordFlags, o, env);
    MagicIs();
    var b, first := EncArchive(strs, extra, tableFlags, recordFlags, o, env), FILE_HEADER + TABLE_HEADER + |extra|;
    if strs == [] {
      ObjSize(o);
      NextStep(b, first, room);
      NothingReported(b, first, room, |strs|);
    } else {
      NextInfosRight(b, strs, 0, first, room);
      TableReported(b, strs, 0, first, room, |strs|);
    }
  }
}
