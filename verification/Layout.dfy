/** The bytes of the format in numbers: the order of the bytes in a number, the marker of each list,
    the width of each type, and the fields of each header. What the other modules say by name is
    said here again without those names. */
module Layout {
  import opened Bytes
  import opened ColumnDoc
  import opened Document
  import opened Columns
  import opened Format
  import opened Scan
  import opened Roundtrip
  import opened Limits
  import Lookup
  import Misreads

  // ----- numbers

  /** Numbers are cut off to their field, and the lowest byte comes first. */
  lemma {:induction false} LittleEndian(v: nat, w: nat, k: nat)
    requires k < w
    ensures Le(v, w)[k] == v / Range(k) % 0x100
    decreases w
  {
    if k > 0 {
      LittleEndian(v / 0x100, w - 1, k - 1);
      DivideTwice(v, 0x100, Range(k - 1));
    }
  }

  lemma DivideTwice(v: nat, a: nat, b: nat)
    requires a > 0 && b > 0
    ensures a * b > 0 && v / a / b == v / (a * b)
  {
    var x, r := v / a, v % a;
    var y, s := x / b, x % b;
    assert v == (a * b) * y + (a * s + r) by {
      assert v == a * x + r && x == b * y + s;
      assert a * (b * y + s) == (a * b) * y + a * s;
    }
    assert a * s + r < a * b by {
      assert a * (b - s) == a * b - a * s;
      Multiples(a, b - s);
    }
    Quotient(v, a * b, y, a * s + r);
  }

  /** Numbers in a row lie one behind the other. */
  lemma {:induction false} WordsAt(vs: seq<nat>, w: nat, k: nat)
    requires k < |vs|
    ensures k * w >= 0 && k * w + w <= |EncWords(vs, w)| && EncWords(vs, w)[k * w..k * w + w] == Le(vs[k], w)
    decreases k
  {
    hide Le;
    assert |vs| * w == w + (|vs| - 1) * w && (|vs| - 1) * w >= 0;
    if k > 0 {
      WordsAt(vs[1..], w, k - 1);
      assert k * w == w + (k - 1) * w;
      assert EncWords(vs, w)[w..] == EncWords(vs[1..], w);
      assert EncWords(vs, w)[k * w..k * w + w] == EncWords(vs[1..], w)[(k - 1) * w..(k - 1) * w + w];
    }
  }

  // ----- property lists

  /** The list of a slot starts with the marker of the slot, the number of its entries and their keys;
      the values are as wide as the type says. */
  lemma ListBytes(slot: nat, p: Prop, q: nat, root: nat, env: Env)
    requires slot < 25 && ValidProp(slot, p) && !IsEmpty(p) && root <= q
    ensures p.Fixed? || p.Nested? || p.Arrays?
    ensures var e := EncProp(slot, p, q, root, env); var n := |p.keys|;
      && |e| >= 5 + 8 * n && e[0] == "nbcsilrhegftoNBCSILRHEGFT"[slot] as int
      && e[1..5] == Le(n, 4) && e[5..5 + 8 * n] == EncWords(p.keys, 8)
      && (p.Fixed? ==> e[5 + 8 * n..] == EncWords(p.vals, [0, 1, 1, 2, 4, 8, 1, 2, 4, 8, 4, 8, 0, 4][slot]))
      && (p.Arrays? ==> |e| >= 5 + 12 * n && e[5 + 8 * n..5 + 12 * n] == EncWords(Lengths(p.arrs, 0), 4))
  {
    hide Le, EncWords, Lengths, EncArrays, EncObjs, Offsets, ObjSizes, ValidObjs, Marker;
    MarkerBytes(slot);
    var rest := EncProp(slot, p, q, root, env)[5 + 8 * |p.keys|..];
    Three([Marker(slot)], Le(|p.keys|, 4), EncWords(p.keys, 8), rest);
    assert EncProp(slot, p, q, root, env) == [Marker(slot)] + Le(|p.keys|, 4) + EncWords(p.keys, 8) + rest;
  }

  lemma Three(a: seq<Byte>, b: seq<Byte>, c: seq<Byte>, rest: seq<Byte>)
    ensures var e := a + b + c + rest; var m, n := |a| + |b|, |a| + |b| + |c|;
      e[..|a|] == a && e[|a|..m] == b && e[m..n] == c && e[n..] == rest
  {
  }

  lemma MarkerBytes(slot: nat)
    requires slot < SLOTS
    ensures Marker(slot) == "nbcsilrhegftoNBCSILRHEGFTO"[slot] as int
  {
  }

  /** The values of an array are as wide as their type says, uint8 values excepted. */
  lemma ArrayBytes(slot: nat, vals: seq<nat>, q: nat, env: Env)
    requires 14 <= slot <= 24 && slot != 19
    ensures EncArray(slot, vals, q, env) == EncWords(vals, [1, 1, 2, 4, 8, 0, 2, 4, 8, 4, 8][slot - 14])
  {
    hide EncWords;
  }

  /** The object arrays of an object: their number in one byte, and their keys. */
  lemma TableBytes(groups: seq<Group>, q: nat, root: nat, env: Env)
    requires ValidProp(25, Table(groups)) && groups != [] && root <= q
    ensures var e := EncProp(25, Table(groups), q, root, env); var n := |groups|;
      && |e| >= 2 + 8 * n && e[0] == 'O' as int && e[1] == n % 0x100
      && e[2..2 + 8 * n] == EncWords(GroupKeys(groups, 0), 8)
  {
    hide Le, EncWords, GroupKeys, EncGroups, Offsets, GroupSizes, ValidGroup, Marker;
    MarkerBytes(25);
    LittleEndian(|groups|, 1, 0);
    var e := EncProp(25, Table(groups), q, root, env);
    var rest := e[2 + 8 * |groups|..];
    Three([Marker(25)], Le(|groups|, 1), EncWords(GroupKeys(groups, 0), 8), rest);
    assert e == [Marker(25)] + Le(|groups|, 1) + EncWords(GroupKeys(groups, 0), 8) + rest;
    assert e[1] == e[1..2][0];
  }

  /** A column group: the numbers of its columns and rows, and an id that is drawn for each row. */
  lemma GroupBytes(g: Group, q: nat, root: nat, env: Env)
    requires ValidGroup(g) && root <= q
    ensures var e, n := EncGroup(g, q, root, env), NumObjects(g);
      && |e| >= 9 + 8 * n && e[0] == 'X' as int && e[1..5] == Le(|g.cols|, 4) && e[5..9] == Le(n, 4)
      && forall k :: 0 <= k < n ==> e[9 + 8 * k..17 + 8 * k] == Le(env.id(q + 9 + 8 * k), 8)
  {
    hide Le, EncWords, DrawnIds, EncColumns, Offsets, ColumnSizes, ValidColumn, NumObjects;
    var e, n := EncGroup(g, q, root, env), NumObjects(g);
    var ids := EncWords(DrawnIds(n, q + 9, env), 8);
    var rest := e[9..];
    Three([COLUMN_GROUP], Le(|g.cols|, 4), Le(n, 4), rest);
    assert e == [COLUMN_GROUP] + Le(|g.cols|, 4) + Le(n, 4) + rest;
    forall k | 0 <= k < n
      ensures e[9 + 8 * k..17 + 8 * k] == Le(env.id(q + 9 + 8 * k), 8)
    {
      DrawnAt(n, q + 9, env, k);
      WordsAt(DrawnIds(n, q + 9, env), 8, k);
      assert rest[..8 * n] == ids;
      assert e[9 + 8 * k..17 + 8 * k] == ids[8 * k..8 * k + 8];
    }
  }

  lemma {:induction false} DrawnAt(n: nat, q: nat, env: Env, k: nat)
    requires k < n
    ensures DrawnIds(n, q, env)[k] == env.id(q + 8 * k)
    decreases k
  {
    if k > 0 {
      DrawnAt(n - 1, q + 8, env, k - 1);
    }
  }

  /** The types in the order in which the source numbers them. */
  const TYPES: seq<FieldType> :=
    [Null, Boolean, Int8, Int16, Int32, Int64, UInt8, UInt16, UInt32, UInt64, Float, Text, Object]

  /** A column: its name, the marker of its type, the number of its entries, and behind an offset of
      8 bytes for each the rows that they are in. */
  lemma ColumnBytes(c: Column, q: nat, root: nat, env: Env, k: nat)
    requires ValidColumn(c) && root <= q && k < 13 && TYPES[k] == c.ty
    ensures var e := EncColumn(c, q, root, env);
      && |e| >= 14 && e[0] == 'x' as int && e[1..9] == Le(c.name, 8) && e[9] == "NBCSILRHEGFTO"[k] as int
      && e[10..14] == Le(|c.entries|, 4)
      && var n := |c.entries|; |e| >= 14 + 12 * n && e[14 + 8 * n..14 + 12 * n] == EncWords(c.positions, 4)
  {
    hide Le, EncWords, EncEntries, Offsets, EntrySizes, ValidEntry, Marker, EncColumnHead;
    SlotOfType(c.ty, k);
    MarkerBytes(13 + k);
    HeadBytes(c);
    var e := EncColumn(c, q, root, env);
    var n := |c.entries|;
    Front(EncColumnHead(c), e[14..], e);
    Three(EncColumnHead(c), e[14..14 + 8 * n], EncWords(c.positions, 4), e[14 + 12 * n..]);
  }

  /** An entry of a column: the number of its values, and values as wide as their type; a number of
      nulls has 4 bytes. */
  lemma EntryBytes(ty: FieldType, vals: seq<nat>, q: nat, root: nat, env: Env, k: nat)
    requires k < 12 && TYPES[k] == ty && root <= q
    ensures EncEntry(ty, Vals(vals), q, root, env)
            == Le(|vals|, 4) + EncWords(vals, [4, 1, 1, 2, 4, 8, 1, 2, 4, 8, 4, 8][k])
  {
    hide Le, EncWords;
  }

  lemma HeadBytes(c: Column)
    ensures var h, m := EncColumnHead(c), NULL_ARRAY_SLOT + TypeIndex(c.ty);
      h[0] == 'x' as int && h[1..9] == Le(c.name, 8) && h[9] == Marker(m) && h[10..14] == Le(|c.entries|, 4)
  {
    hide Le, Marker;
    var m := [Marker(NULL_ARRAY_SLOT + TypeIndex(c.ty))];
    Three([COLUMN], Le(c.name, 8), m, Le(|c.entries|, 4));
  }

  lemma Front(h: seq<Byte>, rest: seq<Byte>, e: seq<Byte>)
    requires |h| == 14 && e == h + rest
    ensures e[0] == h[0] && e[1..9] == h[1..9] && e[9] == h[9] && e[10..14] == h[10..14]
  {
  }

  // ----- objects

  /** An object: its id, a flag for each slot in the order of the slots, the next field behind the
      offsets, and a brace at either end. */
  lemma ObjectBytes(o: Obj, p: nat, root: nat, next: nat, env: Env)
    requires ValidObj(o) && root <= p
    ensures var e, n := EncObj(o, p, root, next, env), CountProps(o.props, 0);
      && |e| >= 22 + 8 * n && e[0] == '{' as int && e[1..9] == Le(env.id(p), 8)
      && e[9..13] == Le(Flags(o.props, 0), 4) && e[13 + 8 * n..21 + 8 * n] == Le(next, 8)
      && e[|e| - 1] == '}' as int
  {
    hide Le, EncWords, EncProps, Offsets, PropSizes, Flags, CountProps, SizeProps, ValidProp;
    var e, n := EncObj(o, p, root, next, env), CountProps(o.props, 0);
    var offs := EncWords(Offsets(PropSizes(o.props, 0), p + HeadSize(o.props), root), 8);
    var rest := EncProps(o.props, 0, p + HeadSize(o.props), root, env) + [OBJECT_END];
    var front := [OBJECT_BEGIN] + Le(env.id(p), 8) + Le(Flags(o.props, 0), 4);
    Three([OBJECT_BEGIN], Le(env.id(p), 8), Le(Flags(o.props, 0), 4), offs + Le(next, 8) + rest);
    Three(front, offs, Le(next, 8), rest);
    assert e == front + offs + Le(next, 8) + rest;
    assert e == front + (offs + Le(next, 8) + rest);
  }

  /** Slot k has bit k of the flags. */
  lemma FlagOfSlot(o: Obj, k: nat)
    requires |o.props| == SLOTS && k < SLOTS
    ensures Flags(o.props, 0) / Pow2(k) % 2 == 1 <==> !IsEmpty(o.props[k])
  {
    hide Flags, IsEmpty, Pow2;
    Lookup.FlagBit(o.props, 0, k);
    BitAt(Flags(o.props, 0), k);
  }

  lemma {:induction false} BitAt(v: nat, k: nat)
    ensures Lookup.Bit(v, k) <==> v / Pow2(k) % 2 == 1
    decreases k
  {
    if k > 0 {
      BitAt(v / 2, k - 1);
      DivideTwice(v, 2, Pow2(k - 1));
    }
  }

  // ----- a document with one entry

  /** The only property list that has entries. */
  ghost predicate Lone(props: seq<Prop>, slot: nat) {
    && |props| == SLOTS && slot < SLOTS && !IsEmpty(props[slot])
    && forall k :: 0 <= k < SLOTS ==> ValidProp(k, props[k]) && (k != slot ==> props[k] == EmptyProp(k))
  }

  lemma {:induction false} LoneProps(props: seq<Prop>, slot: nat, i: nat, q: nat, root: nat, env: Env)
    requires Lone(props, slot) && i <= SLOTS && root <= q
    ensures EncProps(props, i, q, root, env) == if i <= slot then EncProp(slot, props[slot], q, root, env) else []
    ensures CountProps(props, i) == if i <= slot then 1 else 0
    ensures PropSizes(props, i) == if i <= slot then [SizeProp(slot, props[slot])] else []
    decreases SLOTS - i
  {
    hide EncProp, SizeProp, ValidProp;
    if i < SLOTS {
      PropSize(i, props[i]);
      EncPropsStep(props, i, q, q + SizeProp(i, props[i]), root, env);
      LoneProps(props, slot, i + 1, q + SizeProp(i, props[i]), root, env);
      if i != slot {
        assert IsEmpty(EmptyProp(i));
      }
    }
  }

  /** The bytes of an object with one list: its header says so, and its one offset leads behind the
      next field. */
  lemma LoneBytes(o: Obj, slot: nat, p: nat, next: nat, env: Env)
    requires ValidObj(o) && Lone(o.props, slot)
    ensures Flags(o.props, 0) == Pow2(slot)
    ensures EncObj(o, p, p, next, env)
            == ['{' as int] + Le(env.id(p), 8) + Le(Pow2(slot), 4) + Le(29, 8) + Le(next, 8)
               + EncProp(slot, o.props[slot], p + 29, p, env) + ['}' as int]
  {
    hide EncProp, EncProps, CountProps, PropSizes, SizeProp, Le, Flags, Pow2, ValidProp;
    LoneFlags(o.props, slot, 0);
    LoneProps(o.props, slot, 0, p + 29, p, env);
    OneOffset(SizeProp(slot, o.props[slot]), p);
  }

  lemma OneOffset(size: nat, p: nat)
    ensures EncWords(Offsets([size], p + 29, p), 8) == Le(29, 8)
  {
    hide Le;
    assert Offsets([size], p + 29, p) == [29];
    Nothing(Le(29, 8));
  }

  lemma {:induction false} LoneFlags(props: seq<Prop>, slot: nat, i: nat)
    requires Lone(props, slot) && i <= SLOTS
    ensures Flags(props, i) == if i <= slot then Pow2(slot - i) else 0
    decreases SLOTS - i
  {
    hide ValidProp;
    if i < SLOTS {
      LoneFlags(props, slot, i + 1);
      if i != slot {
        assert IsEmpty(EmptyProp(i));
      }
    }
  }

  lemma SlotOfType(ty: FieldType, k: nat)
    requires k < 13 && TYPES[k] == ty
    ensures TypeIndex(ty) == k
  {
  }

  /** The bytes of a document with one entry of one value, but for nulls and objects: the marker and
      the width are those of the type. */
  lemma OneValue(key: nat, ty: FieldType, val: nat, k: nat, p: nat, next: nat, env: Env)
    requires 1 <= k <= 11 && TYPES[k] == ty
    ensures var d := Doc([DocEntry(key, ty, Plain([val]))]);
      && TypedDoc(d)
      && EncObj(ImportDoc(d), p, p, next, env)
         == ['{' as int] + Le(env.id(p), 8) + Le(Pow2(k), 4) + Le(29, 8) + Le(next, 8)
            + (["nbcsilrhegft"[k] as int] + Le(1, 4) + Le(key, 8) + Le(val, [0, 1, 1, 2, 4, 8, 1, 2, 4, 8, 4, 8][k]))
            + ['}' as int]
  {
    hide Le, Pow2;
    SlotOfType(ty, k);
    var e := DocEntry(key, ty, Plain([val]));
    var d := Doc([e]);
    assert Typed(e);
    OneImported(e, k);
    var o := ImportDoc(d);
    LoneBytes(o, k, p, next, env);
    OneValueBytes(k, key, val, p + 29, p, env);
  }

  lemma OneValueBytes(k: nat, key: nat, val: nat, q: nat, root: nat, env: Env)
    requires 1 <= k <= 11 && root <= q
    ensures EncProp(k, Fixed([key], [val]), q, root, env)
            == ["nbcsilrhegft"[k] as int] + Le(1, 4) + Le(key, 8) + Le(val, [0, 1, 1, 2, 4, 8, 1, 2, 4, 8, 4, 8][k])
  {
    hide Le;
    var w := [0, 1, 1, 2, 4, 8, 1, 2, 4, 8, 4, 8][k];
    OneWordBytes(key, 8);
    OneWordBytes(val, w);
  }

  lemma OneWordBytes(v: nat, w: nat)
    ensures EncWords([v], w) == Le(v, w)
  {
    hide Le;
    assert [v][1..] == [];
    Nothing(Le(v, w));
  }

  lemma OneEntry(entries: seq<DocEntry>)
    requires |entries| == 1 && Typed(entries[0])
    ensures ImportEntries(entries, 1) == Put(EmptyObj(), entries[0])
  {
    hide Put, EmptyObj;
    assert ImportEntries(entries, 0) == EmptyObj();
  }

  lemma OneImported(e: DocEntry, k: nat)
    requires 1 <= k <= 11 && e.values.Plain? && |e.values.vals| == 1 && TypeIndex(e.ty) == k && Typed(e)
    ensures TypedDoc(Doc([e])) && var o := ImportDoc(Doc([e]));
      Lone(o.props, k) && o.props[k] == Fixed([e.key], e.values.vals)
  {
    var d := Doc([e]);
    var o := ImportDoc(d);
    assert ImportEntries(d.entries, 0) == EmptyObj();
    OneEntry(d.entries);
    Nothing([e.key]);
    Nothing(e.values.vals);
    forall i | 0 <= i < SLOTS && i != k
      ensures o.props[i] == EmptyProp(i)
    {
      assert EmptyObj().props[i] == EmptyProp(i);
    }
    assert EmptyObj().props[k] == EmptyProp(k);
  }

  // ----- reading

  /** The id that is read of an object is the one that was drawn for it. */
  lemma ObjectId(b: seq<Byte>, o: Obj, p: nat, root: nat, next: nat, env: Env)
    requires ValidObj(o) && TypedObj(o) && CountedObj(o) && root <= p && next < Range(8)
    requires p + SizeObj(o) - root <= Range(8) && At(b, p, EncObj(o, p, root, next, env))
    ensures ScanObj(b, p).Ok? && ScanObj(b, p).value.oid == env.id(p) % 0x1_0000_0000_0000_0000
  {
    hide EncObj, SizeObj, At, ScanItems, Words, Word, SetBits, Le, Range;
    ObjReads(b, o, p, root, next, env);
    ObjectBytes(o, p, root, next, env);
    IdField(b, p, EncObj(o, p, root, next, env), env.id(p));
  }

  lemma IdField(b: seq<Byte>, p: nat, e: seq<Byte>, id: nat)
    requires At(b, p, e) && |e| >= 9 && e[1..9] == Le(id, 8)
    ensures p + 9 <= |b| && Word(b, p + 1, 8) == id % 0x1_0000_0000_0000_0000
  {
    hide Le, Word;
    Ranges();
    forall k | p + 1 <= k < p + 9
      ensures b[k] == e[k - p]
    {
      assert b[p..p + |e|][k - p] == b[k];
    }
    assert b[p + 1..p + 9] == e[1..9];
    ReadWord(b, p + 1, id, 8);
  }

  /** The ids that are read of the rows of an object array are those that were drawn for them. */
  lemma RowIds(b: seq<Byte>, g: Group, q: nat, root: nat, env: Env)
    requires ValidGroup(g) && TypedGroup(g) && CountedGroup(g) && root <= q
    requires q + SizeGroup(g) - root <= Range(8) && At(b, q, EncGroup(g, q, root, env))
    ensures ScanGroup(b, q).Ok? && |ScanGroup(b, q).value.oids| == NumObjects(g)
    ensures forall k :: 0 <= k < NumObjects(g) ==>
      ScanGroup(b, q).value.oids[k] == env.id(q + 9 + 8 * k) % 0x1_0000_0000_0000_0000
  {
    hide At, EncWords, Le, EncGroup, EncColumns, SizeGroup, Offsets, ColumnSizes, NumObjects, DrawnIds, Word, WordList,
        ScanColumns, ValidColumn, TypedGroup, CountedGroup;
    var n := NumObjects(g);
    GroupReads(b, g, q, root, env);
    GroupParts(b, g, q, q + 9 + 8 * n + 8 * |g.cols|, root, env);
    Misreads.ReadRemainders(b, q + 9, DrawnIds(n, q + 9, env), 8);
    Ranges();
    forall k | 0 <= k < n
      ensures DrawnIds(n, q + 9, env)[k] == env.id(q + 9 + 8 * k)
    {
      DrawnAt(n, q + 9, env, k);
    }
  }

  /** A property list is taken for that of the slot whose marker it starts with; nothing else starts
      one. */
  lemma ScanMarker(b: seq<Byte>, q: nat)
    requires q < |b|
    ensures forall k :: 0 <= k < 26 && b[q] == "nbcsilrhegftoNBCSILRHEGFTO"[k] as int && ScanItem(b, q).Ok? ==>
      ScanItem(b, q).value.slot == k
    ensures (forall k :: 0 <= k < 26 ==> b[q] != "nbcsilrhegftoNBCSILRHEGFTO"[k] as int) ==>
      ScanItem(b, q) == Err(Corrupted)
  {
    hide Marker, SlotOf, ScanValues, ScanNested, ScanLists, ScanTable;
    forall k | 0 <= k < 26 && b[q] == "nbcsilrhegftoNBCSILRHEGFTO"[k] as int
      ensures SlotOf(b[q]) == k
    {
      MarkerBytes(k);
      SlotOfMarker(k);
    }
    if SlotOf(b[q]) < SLOTS {
      MarkerBytes(SlotOf(b[q]));
    }
  }

  /** A column has the type whose marker it names. */
  lemma ScanColumnType(b: seq<Byte>, q: nat, k: nat)
    requires k < 13 && q + 9 < |b| && b[q + 9] == "NBCSILRHEGFTO"[k] as int && ScanColumn(b, q).Ok?
    ensures ScanColumn(b, q).value.ty == TYPES[k]
  {
    hide TypeOfMarker, Words, Word, ScanEntries;
    MarkedType(k);
  }

  lemma MarkedType(k: nat)
    requires k < 13
    ensures TypeOfMarker("NBCSILRHEGFTO"[k] as int) == TYPES[k]
  {
    hide Marker, SlotOf;
    MarkerBytes(13 + k);
    SlotOfMarker(13 + k);
  }
}
