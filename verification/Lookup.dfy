/** Going straight to a property list: the flags say which slots hold something, and the offset
    whose flag it is leads there. */
module Lookup {
  import opened Bytes
  import opened ColumnDoc
  import opened Format
  import opened Scan
  import opened Limits
  import opened Index
  import opened Roundtrip

  predicate Bit(flags: nat, k: nat)
    decreases k
  {
    if k == 0 then flags % 2 == 1 else Bit(flags / 2, k - 1)
  }

  /** Bit k is set exactly when slot k holds something; the bits below it count the offsets in
      front of its own. */
  lemma {:induction false} FlagBit(props: seq<Prop>, i: nat, k: nat)
    requires i + k < |props|
    ensures Bit(Flags(props, i), k) <==> !IsEmpty(props[i + k])
    ensures CountProps(props, i) == SetBits(Flags(props, i), k) + CountProps(props, i + k)
    decreases k
  {
    hide IsEmpty;
    Halved(if IsEmpty(props[i]) then 0 else 1, Flags(props, i + 1));
    if k > 0 {
      FlagBit(props, i + 1, k - 1);
    }
  }

  lemma Halved(bit: nat, rest: nat)
    requires bit < 2
    ensures (bit + 2 * rest) % 2 == bit && (bit + 2 * rest) / 2 == rest
  {
  }

  /** The offset of a slot that holds something leads to its property list. */
  lemma {:induction false} OffsetLeads(b: seq<Byte>, props: seq<Prop>, i: nat, q: nat, root: nat, env: Env, k: nat)
    requires |props| == SLOTS && i <= k < SLOTS && root <= q && !IsEmpty(props[k])
    requires forall m :: 0 <= m < SLOTS ==> ValidProp(m, props[m]) && TypedProp(m, props[m]) && CountedProp(m, props[m])
    requires q + SizeProps(props, i) - root <= Range(8) && At(b, q, EncProps(props, i, q, root, env) + [OBJECT_END])
    ensures CountProps(props, k) <= CountProps(props, i)
    ensures var offs, j := Offsets(PropSizes(props, i), q, root), CountProps(props, i) - CountProps(props, k);
      j < |offs| && ReadsAs(b, root + offs[j], k, props[k])
    decreases k - i
  {
    hide EncProps, EncProp, SizeProp, At, Offsets, ScanItem, RebuildItem, IndexedItem, ReadsAs, Range, SlotOf, Marker;
    hide ValidProp, TypedProp, CountedProp, SizeProps, PropSizes, CountProps, IsEmpty;
    PropSizesStep(props, i);
    CountStep(props, i);
    if IsEmpty(props[i]) {
      PropAbsent(b, props, i, q, root, env);
      OffsetLeads(b, props, i + 1, q, root, env, k);
    } else {
      var e := q + SizeProp(i, props[i]);
      PropPresent(b, props, i, q, e, root, env);
      OffsetsStep(SizeProp(i, props[i]), PropSizes(props, i + 1), q, e, root);
      if i == k {
        ItemsFollow(b, props, i + 1, e, root, env);
        ItemReads(b, i, props[i], q, root, env);
        ReadHere(b, q, k, props[k]);
      } else {
        OffsetLeads(b, props, i + 1, e, root, env, k);
        LaterCount(props, i + 1, k);
      }
    }
  }

  /** A property list is at the place: its marker, and read from there it is p. */
  ghost predicate ReadsAs(b: seq<Byte>, at: nat, slot: nat, p: Prop)
    requires slot < SLOTS
  {
    at < |b| && b[at] == Marker(slot) && ScanItem(b, at).Ok? && RebuildItem(ScanItem(b, at).value) == p
  }

  lemma ReadHere(b: seq<Byte>, at: nat, slot: nat, p: Prop)
    requires slot < SLOTS && at < |b| && ScanItem(b, at).Ok? && RebuildItem(ScanItem(b, at).value) == p
    requires ScanItem(b, at).value.slot == slot
    ensures ReadsAs(b, at, slot, p)
  {
    hide ScanItem, RebuildItem;
    SlotOfMarker(slot);
  }

  lemma CountStep(props: seq<Prop>, i: nat)
    requires i < |props|
    ensures CountProps(props, i) == (if IsEmpty(props[i]) then 0 else 1) + CountProps(props, i + 1)
  {
    hide IsEmpty;
  }

  lemma {:induction false} LaterCount(props: seq<Prop>, i: nat, k: nat)
    requires i <= k <= |props|
    ensures CountProps(props, k) <= CountProps(props, i)
    decreases k - i
  {
    hide IsEmpty;
    if i < k {
      LaterCount(props, i + 1, k);
    }
  }

  /** In the header of an object that was written, bit k of the flags says whether slot k holds
      something, and then the offset behind those of the lower bits leads to it. */
  lemma SlotFound(b: seq<Byte>, o: Obj, p: nat, root: nat, next: nat, env: Env, k: nat)
    requires ValidObj(o) && TypedObj(o) && CountedObj(o) && root <= p && next < Range(8) && k < SLOTS
    requires p + SizeObj(o) - root <= Range(8) && At(b, p, EncObj(o, p, root, next, env))
    ensures |o.props| == SLOTS && ScanObj(b, p).Ok?
    ensures var s := ScanObj(b, p).value; var j := SetBits(s.flags, k);
      && (Bit(s.flags, k) <==> !IsEmpty(o.props[k]))
      && (Bit(s.flags, k) ==> j < |s.offs| && ReadsAs(b, root + s.offs[j], k, o.props[k]))
  {
    hide EncObj, EncHead, EncProps, At, Offsets, PropSizes, SizeProps, Words, Word, SetBits, Flags, Bit, ReadsAs;
    hide ScanObj, ScanItems, RebuildProps, IndexedItems, CountProps, IsEmpty;
    ObjParts(b, o, p, root, next, env);
    ReadHead(b, o, p, root, next, env);
    var q := p + HeadSize(o.props);
    ItemsRead(b, o.props, 0, q, root, env);
    ScanObjSteps(b, p, CountProps(o.props, 0), q - 8, Offsets(PropSizes(o.props, 0), q, root), ScanItems(b, q));
    FlagBit(o.props, 0, k);
    if !IsEmpty(o.props[k]) {
      OffsetLeads(b, o.props, 0, q, root, env, k);
    }
  }
}
