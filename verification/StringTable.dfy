/** The embedded string table: a list of entries threaded through the archive by offsets. */
module StringTable {
  import opened Bytes
  import opened Memory
  import opened Scan
  import opened Roundtrip

  const TABLE_MARKER: Byte := 'D' as int
  const ENTRY_MARKER: Byte := '-' as int
  const TABLE_HEADER: nat := 22
  const ENTRY_HEADER: nat := 21

  /** A string of the dictionary: its id, its length, and the bytes the packer appends for it. */
  datatype Str = Str(id: nat, len: nat, packed: seq<Byte>)

  function SizeStr(s: Str): nat { ENTRY_HEADER + |s.packed| }

  function SizeStrs(strs: seq<Str>, i: nat): nat
    decreases |strs| - i
  {
    if i >= |strs| then 0 else SizeStr(strs[i]) + SizeStrs(strs, i + 1)
  }

  function EncEntryHead(s: Str, next: nat): (bs: seq<Byte>)
    ensures |bs| == ENTRY_HEADER
  {
    [ENTRY_MARKER] + Le(next, 8) + Le(s.id, 8) + Le(s.len, 4)
  }

  /** The next field of entry i at q: where entry i + 1 starts, 0 in the last one. */
  function NextStr(strs: seq<Str>, i: nat, q: nat): nat
    requires i < |strs|
  {
    if i + 1 < |strs| then q + SizeStr(strs[i]) else 0
  }

  function EncStrs(strs: seq<Str>, i: nat, q: nat): (bs: seq<Byte>)
    ensures |bs| == SizeStrs(strs, i)
    decreases |strs| - i
  {
    if i >= |strs| then []
    else EncEntryHead(strs[i], NextStr(strs, i, q)) + strs[i].packed + EncStrs(strs, i + 1, q + SizeStr(strs[i]))
  }

  function EncStringTableHead(n: nat, flags: Byte, first: nat, extra: nat): (bs: seq<Byte>)
    ensures |bs| == TABLE_HEADER
  {
    [TABLE_MARKER] + Le(n, 4) + [flags] + Le(first, 8) + Le(extra, 8)
  }

  function EncTable(strs: seq<Str>, extra: seq<Byte>, flags: Byte, q: nat): (bs: seq<Byte>)
    ensures |bs| == TABLE_HEADER + |extra| + SizeStrs(strs, 0)
  {
    var first := q + TABLE_HEADER + |extra|;
    EncStringTableHead(|strs|, flags, first, |extra|) + extra + EncStrs(strs, 0, first)
  }

  /** Writes the table with any packer that only appends: extra is what it writes in front of
      the entries. The header is filled in last. */
  method WriteStringTable(mf: Memfile, strs: seq<Str>, extra: seq<Byte>, flags: Byte)
    requires mf.Now().Ready()
    modifies mf
    ensures mf.Now() == After(old(mf.Now()), EncTable(strs, extra, flags, old(mf.pos)))
  {
    hide After, EncStrs, EncStringTableHead;
    ghost var m := mf.Now();
    var headerPos := mf.pos;
    ghost var gap := mf.Skip(TABLE_HEADER);
    var extraBegin := mf.pos;
    mf.Write(extra);
    var extraEnd := mf.pos;
    var header := EncStringTableHead(|strs|, flags, mf.pos, extraEnd - extraBegin);
    WriteStrs(mf, strs);
    ghost var body := EncStrs(strs, 0, extraEnd);
    AfterBoth(m, gap, extra);
    AfterBoth(m, gap + extra, body);
    Around(gap, extra, body, header);
    mf.Patch(m, [], gap, extra + body, headerPos, header);
  }

  lemma Around(gap: seq<Byte>, extra: seq<Byte>, body: seq<Byte>, header: seq<Byte>)
    ensures gap + extra + body == [] + gap + (extra + body)
    ensures [] + header + (extra + body) == header + extra + body
  {
  }

  method WriteStrs(mf: Memfile, strs: seq<Str>)
    requires mf.Now().Ready()
    modifies mf
    ensures mf.Now() == After(old(mf.Now()), EncStrs(strs, 0, old(mf.pos)))
  {
    hide After, Parts, EncEntryHead;
    ghost var m, seg: seq<Byte>, whole := mf.Now(), [], EncStrs(strs, 0, mf.pos);
    AfterNothing(m);
    NothingDone(whole);
    for i := 0 to |strs|
      invariant mf.Now() == After(m, seg) && Parts(seg, EncStrs(strs, i, mf.pos), whole)
    {
      ghost var q := mf.pos;
      var headerPos := mf.pos;
      ghost var gap := mf.Skip(ENTRY_HEADER);
      mf.Write(strs[i].packed);
      var continueOff := mf.pos;
      var next := if i + 1 < |strs| then continueOff else 0;
      var header := EncEntryHead(strs[i], next);
      AfterBoth(m, seg, gap);
      AfterBoth(m, seg + gap, strs[i].packed);
      mf.Patch(m, seg, gap, strs[i].packed, headerPos, header);
      Assoc(seg, header, strs[i].packed);
      PieceDone(seg, header + strs[i].packed, EncStrs(strs, i + 1, mf.pos), whole);
      seg := seg + (header + strs[i].packed);
    }
    AllDone(seg, whole);
  }

  // ----- reading

  /** What the iterator reports of an entry: its id, where its packed bytes start, its length. */
  datatype Info = Info(id: nat, offset: nat, len: nat)

  function Infos(strs: seq<Str>, i: nat, q: nat): (infos: seq<Info>)
    requires i <= |strs|
    ensures |infos| == |strs| - i
    decreases |strs| - i
  {
    if i == |strs| then []
    else [Info(strs[i].id, q + ENTRY_HEADER, strs[i].len)] + Infos(strs, i + 1, q + SizeStr(strs[i]))
  }

  /** At most room entries from off on; the result's end is the offset to go on from. */
  function NextInfos(b: seq<Byte>, off: nat, room: nat): (r: Result<seq<Info>>)
    decreases room
  {
    if off + ENTRY_HEADER > |b| then Err(OutOfBounds)
    else if b[off] != ENTRY_MARKER then Err(Corrupted)
    else
      var info := Info(Word(b, off + 9, 8), off + ENTRY_HEADER, Word(b, off + 17, 4));
      var next := Word(b, off + 1, 8);
      if next != 0 && room > 1 then Prepend([info], NextInfos(b, next, room - 1)) else Ok([info], next)
  }

  /** The strings fit the fields they are described by. */
  ghost predicate FitStrs(strs: seq<Str>) {
    forall i :: 0 <= i < |strs| ==> strs[i].id < Range(8) && strs[i].len < Range(4)
  }

  /** One call of the iterator reports the next entries, as many as its buffer holds, and stops
      where the following call has to start, or at 0 after the last entry. */
  lemma {:induction false} NextInfosRight(b: seq<Byte>, strs: seq<Str>, i: nat, q: nat, room: nat)
    requires i < |strs| && room > 0 && FitStrs(strs) && q + SizeStrs(strs, i) <= Range(8)
        && At(b, q, EncStrs(strs, i, q))
    ensures var k := if i + room < |strs| then room else |strs| - i;
      NextInfos(b, q, room) == Ok(Infos(strs, i, q)[..k], if i + k < |strs| then SkipTo(strs, i, k, q) else 0)
    decreases room
  {
    hide At, Word, Le, SizeStr;
    var next, e := NextStr(strs, i, q), q + SizeStr(strs[i]);
    EntryParts(b, strs, i, q);
    var info := Info(strs[i].id, q + ENTRY_HEADER, strs[i].len);
    var all, rest := Infos(strs, i, q), if i + 1 < |strs| then Infos(strs, i + 1, e) else [];
    if i + 1 < |strs| && room > 1 {
      NextInfosRight(b, strs, i + 1, e, room - 1);
      var k := if i + room < |strs| then room else |strs| - i;
      assert all == [info] + rest;
      assert all[..k] == [info] + rest[..k - 1];
    } else {
      assert all[..1] == [info];
    }
  }

  /** The start of string i + k when string i starts at q. */
  function SkipTo(strs: seq<Str>, i: nat, k: nat, q: nat): nat
    requires i + k <= |strs|
    decreases k
  {
    if k == 0 then q else SkipTo(strs, i + 1, k - 1, q + SizeStr(strs[i]))
  }

  lemma EntryParts(b: seq<Byte>, strs: seq<Str>, i: nat, q: nat)
    requires i < |strs| && FitStrs(strs) && q + SizeStrs(strs, i) <= Range(8) && At(b, q, EncStrs(strs, i, q))
    ensures q + 21 <= |b| && b[q] == '-' as int && Word(b, q + 1, 8) == NextStr(strs, i, q)
    ensures Word(b, q + 9, 8) == strs[i].id && Word(b, q + 17, 4) == strs[i].len
    ensures At(b, q + 21, strs[i].packed)
    ensures At(b, q + SizeStr(strs[i]), EncStrs(strs, i + 1, q + SizeStr(strs[i])))
  {
    hide At, Word, Le;
    var next, e := NextStr(strs, i, q), q + SizeStr(strs[i]);
    AtBoth(b, q, EncEntryHead(strs[i], next) + strs[i].packed, EncStrs(strs, i + 1, e), e);
    AtBoth(b, q, EncEntryHead(strs[i], next), strs[i].packed, q + ENTRY_HEADER);
    AtBoth(b, q, [ENTRY_MARKER] + Le(next, 8) + Le(strs[i].id, 8), Le(strs[i].len, 4), q + 17);
    AtBoth(b, q, [ENTRY_MARKER] + Le(next, 8), Le(strs[i].id, 8), q + 9);
    AtByte(b, q, ENTRY_MARKER, Le(next, 8));
    assert next < Range(8) by {
      Ranges();
      if i + 1 < |strs| {
        assert SizeStrs(strs, i + 1) == SizeStr(strs[i + 1]) + SizeStrs(strs, i + 2);
      }
    }
    ReadWord(b, q + 1, next, 8);
    ReadWord(b, q + 9, strs[i].id, 8);
    ReadWord(b, q + 17, strs[i].len, 4);
  }

  lemma NextStep(b: seq<Byte>, off: nat, room: nat)
    ensures NextInfos(b, off, room)
            == if off + ENTRY_HEADER > |b| then Err(OutOfBounds)
               else if b[off] != ENTRY_MARKER then Err(Corrupted)
               else
                 var info := Info(Word(b, off + 9, 8), off + ENTRY_HEADER, Word(b, off + 17, 4));
                 var next := Word(b, off + 1, 8);
                 if next != 0 && room > 1 then Prepend([info], NextInfos(b, next, room - 1)) else Ok([info], next)
  {
  }

  /** The iterator over an archive on disk. */
  class StridIter {
    const disk: seq<Byte>
    const room: nat
    var isOpen: bool
    var diskOffset: nat

    constructor Open(disk: seq<Byte>, firstEntry: nat, room: nat)
      ensures this.disk == disk && this.room == room && isOpen && diskOffset == firstEntry
    {
      this.disk, this.room, isOpen, diskOffset := disk, room, true, firstEntry;
    }

    /** Reports the next entries; not after the last one, nor when an entry cannot be read. */
    method Next() returns (success: bool, infos: seq<Info>)
      requires room > 0
      modifies this`diskOffset
      ensures success <==> old(diskOffset) != 0 && isOpen && NextInfos(disk, old(diskOffset), room).Ok?
      ensures success ==> Ok(infos, diskOffset) == NextInfos(disk, old(diskOffset), room)
    {
      hide NextInfos, Prepend, UnLe;
      infos := [];
      if diskOffset == 0 || !isOpen { return false, []; }
      ghost var all := NextInfos(disk, diskOffset, room);
      PrependNothing(all);
      var more := true;
      while more
        invariant |infos| < room || !more
        invariant more ==> Prepend(infos, NextInfos(disk, diskOffset, room - |infos|)) == all
        invariant !more ==> all == Ok(infos, diskOffset)
        decreases more, room - |infos|
      {
        NextStep(disk, diskOffset, room - |infos|);
        if diskOffset + ENTRY_HEADER > |disk| || disk[diskOffset] != ENTRY_MARKER {
          PrependErr(infos, NextInfos(disk, diskOffset, room - |infos|));
          return false, [];
        }
        var info := Info(Word(disk, diskOffset + 9, 8), diskOffset + ENTRY_HEADER, Word(disk, diskOffset + 17, 4));
        diskOffset := Word(disk, diskOffset + 1, 8);
        more := diskOffset != 0 && |infos| + 1 < room;
        if more {
          PrependBoth(infos, info, NextInfos(disk, diskOffset, room - |infos| - 1));
        } else {
          PrependLast(infos, info, diskOffset);
        }
        infos := infos + [info];
      }
      success := true;
    }

    /** Calling Next until it stops, on any disk whose entries end after n calls. */
    method VisitAll(ghost n: nat) returns (infos: seq<Info>)
      requires isOpen && room > 0 && Ends(disk, diskOffset, room, n)
      modifies this`diskOffset
      ensures infos == Reported(disk, old(diskOffset), room, n)
    {
      hide NextInfos;
      infos := [];
      ghost var first, left := diskOffset, n;
      var success := true;
      while success
        invariant success ==> Ends(disk, diskOffset, room, left)
        invariant success ==> Reported(disk, first, room, n) == infos + Reported(disk, diskOffset, room, left)
        invariant !success ==> Reported(disk, first, room, n) == infos
        decreases success, left
      {
        var more;
        success, more := Next();
        if success {
          left := left - 1;
          infos := infos + more;
        }
      }
    }
  }

  /** The calls of an iterator at off come to an end: n calls report everything. */
  ghost predicate Ends(b: seq<Byte>, off: nat, room: nat, n: nat)
    decreases n
  {
    off != 0 && NextInfos(b, off, room).Ok? ==> n > 0 && Ends(b, NextInfos(b, off, room).end, room, n - 1)
  }

  /** What they report. */
  ghost function Reported(b: seq<Byte>, off: nat, room: nat, n: nat): seq<Info>
    decreases n
  {
    if off == 0 || n == 0 || NextInfos(b, off, room).Err? then []
    else NextInfos(b, off, room).value + Reported(b, NextInfos(b, off, room).end, room, n - 1)
  }

  /** On a written table with strings the calls report every string once, in table order. */
  lemma {:induction false} TableReported(b: seq<Byte>, strs: seq<Str>, i: nat, q: nat, room: nat, n: nat)
    requires i < |strs| && |strs| - i <= n && room > 0 && q > 0 && FitStrs(strs)
    requires q + SizeStrs(strs, i) <= Range(8) && At(b, q, EncStrs(strs, i, q))
    ensures Ends(b, q, room, n) && Reported(b, q, room, n) == Infos(strs, i, q)
    decreases n
  {
    hide NextInfos, Infos, SizeStrs, EncStrs, At, FitStrs, SkipTo;
    var k := if i + room < |strs| then room else |strs| - i;
    NextInfosRight(b, strs, i, q, room);
    if i + k < |strs| {
      SkipRight(b, strs, i, k, q);
      TableReported(b, strs, i + k, SkipTo(strs, i, k, q), room, n - 1);
    } else {
      assert Infos(strs, i, q)[..k] == Infos(strs, i, q);
    }
  }

  /** Where no entry can be read nothing is reported. */
  lemma NothingReported(b: seq<Byte>, off: nat, room: nat, n: nat)
    requires NextInfos(b, off, room).Err?
    ensures Ends(b, off, room, n) && Reported(b, off, room, n) == []
  {
  }

  lemma {:induction false} SkipRight(b: seq<Byte>, strs: seq<Str>, i: nat, k: nat, q: nat)
    requires i + k <= |strs| && FitStrs(strs) && q + SizeStrs(strs, i) <= Range(8) && At(b, q, EncStrs(strs, i, q))
    ensures var e := SkipTo(strs, i, k, q);
      && At(b, e, EncStrs(strs, i + k, e)) && e + SizeStrs(strs, i + k) <= Range(8) && e >= q
      && Infos(strs, i, q)[k..] == Infos(strs, i + k, e)
    decreases k
  {
    hide At, EncStrs, SizeStr;
    if k > 0 {
      EntryParts(b, strs, i, q);
      SkipRight(b, strs, i + 1, k - 1, q + SizeStr(strs[i]));
    }
  }
}
