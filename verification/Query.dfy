/** Fetching a string by its id from an archive on disk: by scanning the string table, or by an
    index from ids to offsets that one scan builds. Strings are stored as they are. */
module Query {
  import opened Bytes
  import opened StringTable

  datatype Fetched = Found(text: seq<Byte>) | NotFound

  /** Reads a stored string back. */
  function Decode(disk: seq<Byte>, offset: nat, len: nat): Fetched {
    if offset + len <= |disk| then Found(disk[offset..offset + len]) else NotFound
  }

  /** What a scan gives of a string: it does not look whether all of it could be read, and what lies
      behind the end of the file is zero. */
  function Salvaged(disk: seq<Byte>, offset: nat, len: nat): (text: seq<Byte>)
    ensures |text| == len
    ensures forall k :: 0 <= k < len ==> text[k] == if offset + k < |disk| then disk[offset + k] else 0
  {
    seq<Byte>(len, k requires 0 <= k => if offset + k < |disk| then disk[offset + k] else 0)
  }

  lemma SalvagedWhole(disk: seq<Byte>, offset: nat, len: nat)
    requires offset + len <= |disk|
    ensures Found(Salvaged(disk, offset, len)) == Decode(disk, offset, len)
  {
    assert Salvaged(disk, offset, len) == disk[offset..offset + len];
  }

  function FirstInfo(infos: seq<Info>, id: nat): (n: nat)
    ensures n <= |infos| && (n < |infos| ==> infos[n].id == id)
    ensures forall i :: 0 <= i < n ==> infos[i].id != id
  {
    if infos == [] || infos[0].id == id then 0 else 1 + FirstInfo(infos[1..], id)
  }

  /** What a scan finds: the first entry with the id. */
  function Scanned(disk: seq<Byte>, infos: seq<Info>, id: nat): Fetched {
    var n := FirstInfo(infos, id);
    if n < |infos| then Found(Salvaged(disk, infos[n].offset, infos[n].len)) else NotFound
  }

  type Index = map<nat, (nat, nat)>

  /** The index a scan builds: the last entry with an id counts. */
  function IndexOf(infos: seq<Info>): Index
    decreases |infos|
  {
    if infos == [] then map[]
    else
      var last := infos[|infos| - 1];
      IndexOf(infos[..|infos| - 1])[last.id := (last.offset, last.len)]
  }

  /** What the index finds; an offset past the end of the file is refused. */
  function FetchByIndex(disk: seq<Byte>, index: Index, id: nat): Fetched {
    if id in index && index[id].0 < |disk| then Decode(disk, index[id].0, index[id].1) else NotFound
  }

  /** The string table at `first`, as the writer leaves it. */
  ghost predicate TableAt(disk: seq<Byte>, first: nat, strs: seq<Str>) {
    && strs != [] && FitStrs(strs) && first > 0
    && first + SizeStrs(strs, 0) <= Range(8) && At(disk, first, EncStrs(strs, 0, first))
  }

  predicate HasId(infos: seq<Info>, id: nat) { exists k :: 0 <= k < |infos| && infos[k].id == id }

  /** Within n calls the entries end, or one with the id comes. */
  ghost predicate Leads(disk: seq<Byte>, off: nat, room: nat, n: nat, id: nat) {
    Ends(disk, off, room, n) || HasId(Reported(disk, off, room, n), id)
  }

  /** Looks for an id entry by entry, on any disk where that comes to an end. */
  method FetchByScan(disk: seq<Byte>, first: nat, room: nat, id: nat, ghost n: nat) returns (r: Fetched)
    requires room > 0 && Leads(disk, first, room, n, id)
    ensures r == Scanned(disk, Reported(disk, first, room, n), id)
  {
    hide NextInfos;
    var it := new StridIter.Open(disk, first, room);
    ghost var all, seen, left := Reported(disk, first, room, n), [], n;
    var success := true;
    while success
      invariant it.disk == disk && it.room == room && it.isOpen
      invariant success ==> Leads(disk, it.diskOffset, room, left, id)
      invariant success ==> all == seen + Reported(disk, it.diskOffset, room, left)
      invariant !success ==> all == seen
      invariant forall k :: 0 <= k < |seen| ==> seen[k].id != id
      decreases success, left
    {
      var infos;
      ghost var off := it.diskOffset;
      success, infos := it.Next();
      if success {
        ghost var before := seen;
        LeadsOn(disk, off, room, left, id);
        left := left - 1;
        for k := 0 to |infos|
          invariant seen == before + infos[..k]
          invariant forall j :: 0 <= j < k ==> infos[j].id != id
          invariant forall j :: 0 <= j < |seen| ==> seen[j].id != id
        {
          if infos[k].id == id {
            assert all[..|seen|] == seen && all[|seen|] == infos[k];
            FoundFirst(disk, all, |seen|, id);
            return Found(Salvaged(disk, infos[k].offset, infos[k].len));
          }
          seen := seen + [infos[k]];
        }
      }
    }
    r := NotFound;
  }

  lemma LeadsOn(disk: seq<Byte>, off: nat, room: nat, n: nat, id: nat)
    requires off != 0 && NextInfos(disk, off, room).Ok? && Leads(disk, off, room, n, id)
    ensures var r := NextInfos(disk, off, room);
      && n > 0 && Reported(disk, off, room, n) == r.value + Reported(disk, r.end, room, n - 1)
      && (HasId(r.value, id) || Leads(disk, r.end, room, n - 1, id))
  {
    hide NextInfos;
    if !Ends(disk, off, room, n) {
      var infos, rest := NextInfos(disk, off, room).value, Reported(disk, NextInfos(disk, off, room).end, room, n - 1);
      var all: seq<Info> := infos + rest;
      var k :| 0 <= k < |all| && all[k].id == id;
      assert k < |infos| ==> infos[k].id == id;
      assert k >= |infos| ==> rest[k - |infos|].id == id;
    }
  }

  lemma FoundFirst(disk: seq<Byte>, infos: seq<Info>, n: nat, id: nat)
    requires n < |infos| && infos[n].id == id && forall k :: 0 <= k < n ==> infos[..n][k].id != id
    ensures Scanned(disk, infos, id) == Found(Salvaged(disk, infos[n].offset, infos[n].len))
  {
    assert forall k :: 0 <= k < n ==> infos[..n][k] == infos[k];
    assert FirstInfo(infos, id) == n;
  }

  /** One scan builds the index. */
  method CreateIndex(disk: seq<Byte>, first: nat, room: nat, ghost n: nat) returns (index: Index)
    requires room > 0 && Ends(disk, first, room, n)
    ensures index == IndexOf(Reported(disk, first, room, n))
  {
    hide NextInfos;
    var it := new StridIter.Open(disk, first, room);
    index := map[];
    ghost var all, seen, left := Reported(disk, first, room, n), [], n;
    var success := true;
    while success
      invariant it.disk == disk && it.room == room && it.isOpen
      invariant success ==> Ends(disk, it.diskOffset, room, left)
      invariant success ==> all == seen + Reported(disk, it.diskOffset, room, left)
      invariant !success ==> all == seen
      invariant index == IndexOf(seen)
      decreases success, left
    {
      var infos;
      success, infos := it.Next();
      if success {
        ghost var before := seen;
        left := left - 1;
        for k := 0 to |infos|
          invariant seen == before + infos[..k]
          invariant index == IndexOf(seen)
        {
          index := index[infos[k].id := (infos[k].offset, infos[k].len)];
          seen := seen + [infos[k]];
          assert seen[..|seen| - 1] == before + infos[..k];
        }
      }
    }
  }

  // ----- what is fetched

  ghost predicate DistinctIds(strs: seq<Str>) {
    forall i, j :: 0 <= i < j < |strs| ==> strs[i].id != strs[j].id
  }

  /** Every string is stored as it is. */
  ghost predicate Unpacked(strs: seq<Str>) {
    forall i :: 0 <= i < |strs| ==> strs[i].len == |strs[i].packed|
  }

  /** Entry i of the table: its id, and its text where the entry says. */
  lemma {:induction false} InfoAt(disk: seq<Byte>, strs: seq<Str>, from: nat, q: nat, i: nat)
    requires from <= i < |strs| && FitStrs(strs) && Unpacked(strs)
    requires q + SizeStrs(strs, from) <= Range(8) && At(disk, q, EncStrs(strs, from, q))
    ensures var info := Infos(strs, from, q)[i - from];
      && info.id == strs[i].id && info.offset + info.len <= q + SizeStrs(strs, from)
      && Decode(disk, info.offset, info.len) == Found(strs[i].packed)
    decreases i - from
  {
    hide At, EncStrs, FitStrs;
    EntryParts(disk, strs, from, q);
    if from < i {
      InfoAt(disk, strs, from + 1, q + SizeStr(strs[from]), i);
    } else {
      TextAt(disk, q + ENTRY_HEADER, strs[i].packed);
    }
  }

  lemma TextAt(disk: seq<Byte>, offset: nat, text: seq<Byte>)
    requires At(disk, offset, text)
    ensures Decode(disk, offset, |text|) == Found(text)
  {
  }

  lemma {:induction false} IndexLast(infos: seq<Info>, n: nat)
    requires n < |infos| && forall i :: n < i < |infos| ==> infos[i].id != infos[n].id
    ensures infos[n].id in IndexOf(infos) && IndexOf(infos)[infos[n].id] == (infos[n].offset, infos[n].len)
    decreases |infos|
  {
    if n < |infos| - 1 {
      IndexLast(infos[..|infos| - 1], n);
    }
  }

  lemma {:induction false} IndexOnly(infos: seq<Info>, id: nat)
    requires forall i :: 0 <= i < |infos| ==> infos[i].id != id
    ensures id !in IndexOf(infos)
    decreases |infos|
  {
    if infos != [] {
      IndexOnly(infos[..|infos| - 1], id);
    }
  }

  /** With distinct ids, the scan and the index both give a string's own text for its id, in an
      archive where something follows the table. */
  lemma FetchesOwnText(disk: seq<Byte>, first: nat, strs: seq<Str>, i: nat)
    requires TableAt(disk, first, strs) && Unpacked(strs) && DistinctIds(strs) && i < |strs|
    requires first + SizeStrs(strs, 0) < |disk|
    ensures var infos := Infos(strs, 0, first);
      && Scanned(disk, infos, strs[i].id) == Found(strs[i].packed)
      && FetchByIndex(disk, IndexOf(infos), strs[i].id) == Found(strs[i].packed)
  {
    hide At, EncStrs, SizeStrs, Infos, Decode, FitStrs;
    var infos := Infos(strs, 0, first);
    forall k | 0 <= k < |strs|
      ensures infos[k].id == strs[k].id
    {
      InfoAt(disk, strs, 0, first, k);
    }
    InfoAt(disk, strs, 0, first, i);
    assert FirstInfo(infos, strs[i].id) == i;
    SalvagedWhole(disk, infos[i].offset, infos[i].len);
    IndexLast(infos, i);
  }

  /** An id that is not in the table is found by neither. */
  lemma FetchesNothingElse(disk: seq<Byte>, first: nat, strs: seq<Str>, id: nat)
    requires TableAt(disk, first, strs) && Unpacked(strs) && forall i :: 0 <= i < |strs| ==> strs[i].id != id
    ensures var infos := Infos(strs, 0, first);
      Scanned(disk, infos, id) == NotFound && FetchByIndex(disk, IndexOf(infos), id) == NotFound
  {
    hide At, EncStrs, SizeStrs, Infos, Decode, FitStrs;
    var infos := Infos(strs, 0, first);
    forall k | 0 <= k < |infos|
      ensures infos[k].id != id
    {
      InfoAt(disk, strs, 0, first, k);
    }
    IndexOnly(infos, id);
  }

  /** On entries with distinct ids the scan and the index find the same, but for an entry whose text
      starts at the end of the file or goes over it: the index refuses it, and the scan does not. */
  lemma IndexAgrees(disk: seq<Byte>, infos: seq<Info>, id: nat)
    requires forall i, j :: 0 <= i < j < |infos| ==> infos[i].id != infos[j].id
    ensures FetchByIndex(disk, IndexOf(infos), id) == Scanned(disk, infos, id)
            <==> forall i :: 0 <= i < |infos| && infos[i].id == id ==>
              infos[i].offset < |disk| && infos[i].offset + infos[i].len <= |disk|
  {
    var n := FirstInfo(infos, id);
    if n < |infos| {
      IndexLast(infos, n);
      assert forall i :: 0 <= i < |infos| && infos[i].id == id ==> i == n;
      if infos[n].offset + infos[n].len <= |disk| {
        SalvagedWhole(disk, infos[n].offset, infos[n].len);
      }
    } else {
      IndexOnly(infos, id);
    }
  }
}
