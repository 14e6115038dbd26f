/** The other half of the round trip: with zeros behind vectors in memory, a document with a count
    that its field cannot hold, or with a non-empty uint8 array, is not rebuilt from its bytes. */
module Misreads {
  import opened Bytes
  import opened ColumnDoc
  import opened Format
  import opened Scan
  import opened Limits
  import opened Roundtrip
  import ReadLimits
  import Sizes

  /** Memory that is zero behind vectors. */
  ghost predicate Clear(env: Env) { forall p: nat :: env.behind(p) == 0 }

  lemma {:induction false} ObjMisreads(b: seq<Byte>, o: Obj, p: nat, root: nat, next: nat, env: Env)
    requires Clear(env) && ValidObj(o) && TypedObj(o) && !CountedObj(o) && root <= p && next < Range(8)
    requires p + SizeObj(o) - root <= Range(8) && At(b, p, EncObj(o, p, root, next, env))
    ensures ScanObj(b, p).Ok? ==> Rebuild(ScanObj(b, p).value) != o
    decreases o, 0
  {
    hide EncObj, EncHead, EncProps, At, Offsets, PropSizes, SizeProps, Words, Word, SetBits;
    hide ScanObj, ScanItems, RebuildProps, CountProps;
    ObjParts(b, o, p, root, next, env);
    ReadHead(b, o, p, root, next, env);
    var q := p + HeadSize(o.props);
    ItemsMisread(b, o.props, 0, q, root, env);
    assert o.props[0..] == o.props;
    ScanObjSteps(b, p, CountProps(o.props, 0), q - 8, Offsets(PropSizes(o.props, 0), q, root), ScanItems(b, q));
  }

  lemma {:induction false} ItemsMisread(b: seq<Byte>, props: seq<Prop>, i: nat, q: nat, root: nat, env: Env)
    requires Clear(env) && |props| == SLOTS && i <= SLOTS && root <= q
    requires forall k :: 0 <= k < SLOTS ==> ValidProp(k, props[k]) && TypedProp(k, props[k])
    requires exists k :: i <= k < SLOTS && !CountedProp(k, props[k])
    requires q + SizeProps(props, i) - root <= Range(8) && At(b, q, EncProps(props, i, q, root, env) + [OBJECT_END])
    ensures ScanItems(b, q).Ok? ==> RebuildProps(ScanItems(b, q).value, i) != props[i..]
    decreases props, |props| - i
  {
    hide EncProps, EncProp, SizeProp, At, Offsets, ScanItems, ScanItem, RebuildProps, RebuildItem;
    hide ValidProp, TypedProp, CountedProp, EmptyProp, SizeProps, PropSizes, SlotOf, Marker, IsEmpty, CountProps, Range;
    PropSizesStep(props, i);
    if IsEmpty(props[i]) {
      EmptyCounted(i, props[i]);
      PropAbsent(b, props, i, q, root, env);
      ItemsMisread(b, props, i + 1, q, root, env);
      ItemsFollow(b, props, i + 1, q, root, env);
      FirstSlot(b, q, i + 1);
      TailDiffers(ScanItems(b, q), props, i);
    } else {
      var e := q + SizeProp(i, props[i]);
      PropPresent(b, props, i, q, e, root, env);
      ItemsFollow(b, props, i + 1, e, root, env);
      PropMarker(b, i, props[i], q, root, env);
      MarkersPlain(i);
      SlotOfMarker(i);
      if CountedProp(i, props[i]) {
        ItemReads(b, i, props[i], q, root, env);
        ItemsMisread(b, props, i + 1, e, root, env);
        ScanItemsStep(b, q);
        RestDiffers(ScanItem(b, q).value, ScanItems(b, e), props, i);
      } else {
        ItemMisreads(b, i, props[i], q, root, env);
        ItemDiffers(b, q, props, i);
      }
    }
  }

  lemma EmptyCounted(slot: nat, p: Prop)
    requires slot < SLOTS && ValidProp(slot, p) && IsEmpty(p)
    ensures CountedProp(slot, p)
  {
    Ranges();
  }

  lemma FirstSlot(b: seq<Byte>, q: nat, i: nat)
    requires q < |b| && (b[q] != OBJECT_END ==> exists k :: i <= k < SLOTS && b[q] == Marker(k))
    ensures var r := ScanItems(b, q); r.Ok? ==> r.value == [] || r.value[0].slot >= i
  {
    hide ScanItem, SlotOf, Marker;
    if b[q] != OBJECT_END {
      var k :| i <= k < SLOTS && b[q] == Marker(k);
      SlotOfMarker(k);
    }
  }

  lemma TailDiffers(r: Result<seq<ItemScan>>, props: seq<Prop>, i: nat)
    requires |props| == SLOTS && i < SLOTS
    requires r.Ok? ==> (r.value == [] || r.value[0].slot > i) && RebuildProps(r.value, i + 1) != props[i + 1..]
    ensures r.Ok? ==> RebuildProps(r.value, i) != props[i..]
  {
    hide EmptyProp;
    if r.Ok? {
      assert RebuildProps(r.value, i)[1..] == RebuildProps(r.value, i + 1);
      assert props[i..][1..] == props[i + 1..];
    }
  }

  lemma RestDiffers(item: ItemScan, r: Result<seq<ItemScan>>, props: seq<Prop>, i: nat)
    requires |props| == SLOTS && item.slot == i < SLOTS
    requires r.Ok? ==> RebuildProps(r.value, i + 1) != props[i + 1..]
    ensures var s := Prepend([item], r); s.Ok? ==> RebuildProps(s.value, i) != props[i..]
  {
    hide RebuildItem;
    if r.Ok? {
      assert ([item] + r.value)[1..] == r.value;
      assert RebuildProps([item] + r.value, i)[1..] == RebuildProps(r.value, i + 1);
      assert props[i..][1..] == props[i + 1..];
    }
  }

  lemma ItemDiffers(b: seq<Byte>, q: nat, props: seq<Prop>, i: nat)
    requires |props| == SLOTS && i < SLOTS && q < |b| && b[q] != OBJECT_END && SlotOf(b[q]) == i
    requires var r := ScanItem(b, q); r.Ok? ==> RebuildItem(r.value) != props[i] || ScanItems(b, r.end).Err?
    ensures ScanItems(b, q).Ok? ==> RebuildProps(ScanItems(b, q).value, i) != props[i..]
  {
    hide ScanItem, RebuildItem, SlotOf;
    if ScanItems(b, q).Ok? {
      assert RebuildProps(ScanItems(b, q).value, i)[0] == RebuildItem(ScanItem(b, q).value);
      assert props[i..][0] == props[i];
    }
  }

  /** A property list that breaks the limits reads back differently, or leaves the reader where
      it meets no marker. */
  lemma {:induction false} ItemMisreads(b: seq<Byte>, slot: nat, p: Prop, q: nat, root: nat, env: Env)
    requires Clear(env) && slot < SLOTS && !IsEmpty(p)
    requires ValidProp(slot, p) && TypedProp(slot, p) && !CountedProp(slot, p)
    requires root <= q && q + SizeProp(slot, p) - root <= Range(8) && At(b, q, EncProp(slot, p, q, root, env))
    requires q + SizeProp(slot, p) < |b| && b[q + SizeProp(slot, p)] != OBJECT_BEGIN
    ensures q < |b| && var r := ScanItem(b, q); r.Ok? ==> RebuildItem(r.value) != p || ScanItems(b, r.end).Err?
    decreases p, 1
  {
    hide EncProp, SizeProp, At, ScanValues, ScanLists, ScanNested, ScanTable, RebuildItem, SlotOf, ScanItems;
    hide TypedProp, CountedProp;
    PropMarker(b, slot, p, q, root, env);
    MarkersPlain(slot);
    SlotOfMarker(slot);
    match p
    case Fixed(keys, vals) => ValuesMisread(b, slot, keys, vals, q, root, env);
    case Arrays(keys, arrs) => ListsMisread(b, slot, keys, arrs, q, root, env);
    case Nested(keys, objs) => NestedMisreads(b, slot, keys, objs, q, root, env);
    case Table(groups) => TableMisreads(b, slot, groups, q, root, env);
  }

  lemma ValuesMisread(b: seq<Byte>, slot: nat, keys: seq<nat>, vals: seq<nat>, q: nat, root: nat, env: Env)
    requires slot < SLOTS && var p := Fixed(keys, vals);
      ValidProp(slot, p) && TypedProp(slot, p) && !CountedProp(slot, p)
    requires keys != [] && root <= q && At(b, q, EncProp(slot, Fixed(keys, vals), q, root, env))
    ensures var r := ScanValues(b, q, slot); r.Ok? ==> RebuildItem(r.value) != Fixed(keys, vals)
  {
    hide At, EncPropHead, EncWords, Words, Word, Fit, WriteWidth;
    AtBoth(b, q, EncPropHead(slot, keys), EncWords(vals, WriteWidth(slot)), q + 5 + 8 * |keys|);
    ReadPropHead(b, slot, keys, q);
    Remainder(|keys|, Range(4));
  }

  lemma Remainder(n: nat, m: nat)
    requires m > 0
    ensures n % m < m && (n < m ==> n % m == n)
  {
  }

  lemma ListsMisread(b: seq<Byte>, slot: nat, keys: seq<nat>, arrs: seq<seq<nat>>, q: nat, root: nat, env: Env)
    requires Clear(env) && slot < SLOTS && var p := Arrays(keys, arrs);
      ValidProp(slot, p) && TypedProp(slot, p) && !CountedProp(slot, p)
    requires keys != [] && root <= q && At(b, q, EncProp(slot, Arrays(keys, arrs), q, root, env))
    ensures var r := ScanLists(b, q, slot); r.Ok? ==>
      RebuildItem(r.value) != Arrays(keys, arrs) || ScanItems(b, r.end).Err?
  {
    hide At, EncPropHead, EncWords, EncArrays, Words, WordList, Word, Fit, Marker, WriteWidth, ScanArrays, Lengths,
        CountedArrays, Clear;
    hide ScanItems;
    var k := q + 5 + 8 * |keys|;
    var l := k + 4 * |keys|;
    AtBoth(b, q, EncPropHead(slot, keys) + EncWords(Lengths(arrs, 0), 4), EncArrays(slot, arrs, 0, l, env), l);
    AtBoth(b, q, EncPropHead(slot, keys), EncWords(Lengths(arrs, 0), 4), k);
    ReadPropHead(b, slot, keys, q);
    Remainder(|keys|, Range(4));
    if |keys| < Range(4) {
      ReadAnyWords(b, k, Lengths(arrs, 0), 4);
      ArraysMisread(b, slot, arrs, k, l, env);
    }
  }

  lemma ArraysMisread(b: seq<Byte>, slot: nat, arrs: seq<seq<nat>>, k: nat, l: nat, env: Env)
    requires Clear(env) && slot < SLOTS
    requires At(b, k, EncWords(Lengths(arrs, 0), 4)) && At(b, l, EncArrays(slot, arrs, 0, l, env))
    requires forall i :: 0 <= i < |arrs| ==> Fit(arrs[i], ReadWidth(slot))
    requires !CountedArrays(slot, arrs)
    ensures var lens := Words(b, k, |arrs|, 4); lens.Ok? ==>
              var r := ScanArrays(b, l, lens.value, ReadWidth(slot)); r.Ok? ==>
                  r.value != arrs || ScanItems(b, r.end).Err?
  {
    hide At, EncWords, EncArrays, Fit, Lengths, ScanArrays, ScanItems, Clear;
    var lens := Words(b, k, |arrs|, 4);
    if lens.Ok? {
      var r := ScanArrays(b, l, lens.value, ReadWidth(slot));
      ReadRemainders(b, k, Lengths(arrs, 0), 4);
      LengthsAre(arrs, 0);
      if i :| 0 <= i < |arrs| && |arrs[i]| >= Range(4) {
        Remainder(|arrs[i]|, Range(4));
      } else if r.Ok? && r.value == arrs {
        RemaindersFit(lens.value, Lengths(arrs, 0));
        Uint8Misreads(b, arrs, l, r, env);
      }
    }
  }

  lemma {:induction false} LengthsAre(arrs: seq<seq<nat>>, i: nat)
    requires i <= |arrs|
    ensures forall k :: 0 <= k < |arrs| - i ==> Lengths(arrs, i)[k] == |arrs[i + k]|
    decreases |arrs| - i
  {
    if i < |arrs| {
      LengthsAre(arrs, i + 1);
      assert Lengths(arrs, i) == [|arrs[i]|] + Lengths(arrs, i + 1);
      forall k | 0 <= k < |arrs| - i
        ensures Lengths(arrs, i)[k] == |arrs[i + k]|
      {
        if k > 0 {
          assert Lengths(arrs, i)[k] == Lengths(arrs, i + 1)[k - 1];
        }
      }
    }
  }

  lemma {:induction false} ReadRemainders(b: seq<Byte>, p: nat, vs: seq<nat>, w: nat)
    requires At(b, p, EncWords(vs, w))
    ensures p + |vs| * w <= |b|
    ensures forall i :: 0 <= i < |vs| ==> WordList(b, p, |vs|, w)[i] == vs[i] % Range(w)
    decreases vs
  {
    if vs != [] {
      AtSplit(b, p, Le(vs[0], w), EncWords(vs[1..], w));
      assert |vs| * w == w + (|vs| - 1) * w;
      ReadWord(b, p, vs[0], w);
      ReadRemainders(b, p + w, vs[1..], w);
    }
  }

  lemma RemaindersFit(rs: seq<nat>, vs: seq<nat>)
    requires |rs| == |vs| && forall i :: 0 <= i < |vs| ==> rs[i] == vs[i] % Range(4) && vs[i] < Range(4)
    ensures rs == vs
  {
    forall i | 0 <= i < |vs|
      ensures rs[i] == vs[i]
    {
      Remainder(vs[i], Range(4));
    }
  }

  // ----- uint8 arrays: 8 bytes a value are written, and 1 byte a value is read

  /** The number of values in the arrays from i on, up to k. */
  function Total(arrs: seq<seq<nat>>, i: nat, k: nat): nat
    requires k <= |arrs|
    decreases k - i
  {
    if i >= k then 0 else |arrs[i]| + Total(arrs, i + 1, k)
  }

  /** With zeros behind them the arrays are not read back, or the reader then meets a zero where it
      looks for the next marker. */
  lemma Uint8Misreads(b: seq<Byte>, arrs: seq<seq<nat>>, q: nat, r: Result<seq<seq<nat>>>, env: Env)
    requires Clear(env) && At(b, q, EncArrays(UINT8_ARRAY_SLOT, arrs, 0, q, env))
    requires forall i :: 0 <= i < |arrs| ==> Fit(arrs[i], 1)
    requires r == ScanArrays(b, q, Lengths(arrs, 0), 1) && r.Ok? && r.value == arrs
    requires exists i :: 0 <= i < |arrs| && arrs[i] != []
    ensures ScanItems(b, r.end).Err?
  {
    hide At, EncArrays, ScanArrays, Lengths, Fit, SlotOf, Clear, Total, ScanItems;
    var n := Total(arrs, 0, |arrs|);
    assert arrs[0..] == arrs;
    EndRead(b, q, arrs, 0);
    FirstFilled(arrs, 0);
    var f :| 0 <= f < |arrs| && arrs[f] != [] && Total(arrs, 0, f) == 0;
    TotalGrows(arrs, 0, f);
    ZeroAt(b, q, arrs, f, n, env);
    AtEight(b, q, arrs, env);
    ZeroNeverFollows();
    NoMarker(b, q + n);
  }

  lemma NoMarker(b: seq<Byte>, q: nat)
    requires q < |b| && NeverFollows(b[q])
    ensures ScanItems(b, q) == Err(Corrupted)
  {
    hide SlotOf, Marker;
  }

  /** Not the end marker of an object, and not the marker of a property list. */
  predicate NeverFollows(c: Byte) { c != OBJECT_END && SlotOf(c) == SLOTS }

  lemma ZeroNeverFollows()
    ensures NeverFollows(0)
  {
    hide SlotOf, Marker;
    if SlotOf(0) < SLOTS {
      MarkersPlain(SlotOf(0));
    }
  }

  lemma {:induction false} FirstFilled(arrs: seq<seq<nat>>, i: nat)
    requires exists k :: i <= k < |arrs| && arrs[k] != []
    ensures exists k :: i <= k < |arrs| && arrs[k] != [] && Total(arrs, i, k) == 0
    decreases |arrs| - i
  {
    if arrs[i] == [] {
      FirstFilled(arrs, i + 1);
      var k :| i + 1 <= k < |arrs| && arrs[k] != [] && Total(arrs, i + 1, k) == 0;
      assert Total(arrs, i, k) == 0;
    } else {
      assert Total(arrs, i, i) == 0;
    }
  }

  lemma {:induction false} TotalGrows(arrs: seq<seq<nat>>, i: nat, k: nat)
    requires i <= k < |arrs|
    ensures Total(arrs, i, k) + |arrs[k]| == Total(arrs, i, k + 1) <= Total(arrs, i, |arrs|)
    decreases |arrs| - i
  {
    if i < k {
      TotalGrows(arrs, i + 1, k);
    } else {
      assert Total(arrs, i + 1, i + 1) == 0;
    }
  }

  lemma {:induction false} EndRead(b: seq<Byte>, q: nat, arrs: seq<seq<nat>>, i: nat)
    requires i <= |arrs| && ScanArrays(b, q, Lengths(arrs, i), 1).Ok?
    ensures ScanArrays(b, q, Lengths(arrs, i), 1).end == q + Total(arrs, i, |arrs|)
    decreases |arrs| - i
  {
    if i < |arrs| {
      assert Lengths(arrs, i)[1..] == Lengths(arrs, i + 1);
      EndRead(b, q + |arrs[i]|, arrs, i + 1);
    }
  }

  lemma {:induction false} EightFold(arrs: seq<seq<nat>>, i: nat)
    ensures SizeArrays(arrs, i, 8) == 8 * (if i <= |arrs| then Total(arrs, i, |arrs|) else 0)
    decreases |arrs| - i
  {
    if i < |arrs| {
      EightFold(arrs, i + 1);
    }
  }

  lemma AtEight(b: seq<Byte>, q: nat, arrs: seq<seq<nat>>, env: Env)
    requires At(b, q, EncArrays(UINT8_ARRAY_SLOT, arrs, 0, q, env))
    ensures q + 8 * Total(arrs, 0, |arrs|) <= |b|
  {
    hide EncArrays, Total;
    EightFold(arrs, 0);
  }

  /** When the values read equal the values written, the byte at k is zero if it lies behind the
      values of the first array that has any: it is zero memory, or a value whose own byte is
      further in front. */
  lemma {:induction false} ZeroAt(b: seq<Byte>, q: nat, arrs: seq<seq<nat>>, f: nat, k: nat, env: Env)
    requires Clear(env) && At(b, q, EncArrays(UINT8_ARRAY_SLOT, arrs, 0, q, env))
    requires forall i :: 0 <= i < |arrs| ==> Fit(arrs[i], 1)
    requires var r := ScanArrays(b, q, Lengths(arrs, 0), 1); r.Ok? && r.value == arrs
    requires f < |arrs| && Total(arrs, 0, f) == 0 && 0 < |arrs[f]| <= k <= Total(arrs, 0, |arrs|)
    ensures q + k < |b| && b[q + k] == 0
    decreases k
  {
    hide At, EncArrays, ScanArrays, Lengths, Fit, Clear, Total;
    BlockOf(arrs, 0, k);
    var i :| 0 <= i < |arrs| && 8 * Total(arrs, 0, i) <= k < 8 * Total(arrs, 0, i) + 8 * |arrs[i]|;
    var t := k - 8 * Total(arrs, 0, i);
    WrittenAt(b, q, arrs, 0, i, t, env);
    if t < |arrs[i]| {
      assert arrs[0..] == arrs;
      ReadAt(b, q, arrs, 0, i, t);
      Later(arrs, f, i);
      ZeroAt(b, q, arrs, f, Total(arrs, 0, i) + t, env);
    }
  }

  /** Only the values of the first array that has any start at the front. */
  lemma Later(arrs: seq<seq<nat>>, f: nat, i: nat)
    requires f < |arrs| && i < |arrs| && i != f && Total(arrs, 0, f) == 0 && arrs[i] != []
    ensures Total(arrs, 0, i) >= |arrs[f]|
  {
    hide Total;
    if i < f {
      TotalMore(arrs, 0, i + 1, f);
      TotalGrows(arrs, 0, i);
    } else {
      TotalMore(arrs, 0, f + 1, i);
      TotalGrows(arrs, 0, f);
    }
  }

  lemma {:induction false} TotalMore(arrs: seq<seq<nat>>, i: nat, k: nat, m: nat)
    requires k <= m <= |arrs|
    ensures Total(arrs, i, k) <= Total(arrs, i, m)
    decreases m - i
  {
    if i < k {
      TotalMore(arrs, i + 1, k, m);
    }
  }

  lemma {:induction false} BlockOf(arrs: seq<seq<nat>>, i: nat, k: nat)
    requires i <= |arrs| && k < 8 * Total(arrs, i, |arrs|)
    ensures exists j :: i <= j < |arrs| && 8 * Total(arrs, i, j) <= k < 8 * Total(arrs, i, j) + 8 * |arrs[j]|
    decreases |arrs| - i
  {
    if k < 8 * |arrs[i]| {
      assert Total(arrs, i, i) == 0;
    } else {
      BlockOf(arrs, i + 1, k - 8 * |arrs[i]|);
      var j :| i + 1 <= j < |arrs| && var m := 8 * Total(arrs, i + 1, j);
        m <= k - 8 * |arrs[i]| < m + 8 * |arrs[j]|;
      assert Total(arrs, i, j) == |arrs[i]| + Total(arrs, i + 1, j);
    }
  }

  /** Of the bytes of an array the first are its values, and the others are zero. */
  lemma {:induction false} WrittenAt(b: seq<Byte>, q: nat, arrs: seq<seq<nat>>, i: nat, k: nat, t: nat, env: Env)
    requires Clear(env) && i <= k < |arrs| && At(b, q, EncArrays(UINT8_ARRAY_SLOT, arrs, i, q, env))
    requires Fit(arrs[k], 1) && t < 8 * |arrs[k]|
    ensures var p := q + 8 * Total(arrs, i, k) + t; p < |b| && b[p] == if t < |arrs[k]| then arrs[k][t] else 0
    decreases k - i
  {
    hide At, EncArray, Fit, Clear;
    var e := q + 8 * |arrs[i]|;
    var rest := EncArrays(UINT8_ARRAY_SLOT, arrs, i + 1, e, env);
    AtBoth(b, q, EncArray(UINT8_ARRAY_SLOT, arrs[i], q, env), rest, e);
    if i < k {
      WrittenAt(b, e, arrs, i + 1, k, t, env);
    } else {
      ArrayByte(arrs[i], t, q, env);
      AtBytes(b, q, EncArray(UINT8_ARRAY_SLOT, arrs[i], q, env));
    }
  }

  lemma AtBytes(b: seq<Byte>, p: nat, e: seq<Byte>)
    requires At(b, p, e)
    ensures p + |e| <= |b| && forall j :: 0 <= j < |e| ==> e[j] == b[p + j]
  {
    forall j | 0 <= j < |e|
      ensures e[j] == b[p + j]
    {
      assert b[p..p + |e|][j] == b[p + j];
    }
  }

  lemma ArrayByte(vals: seq<nat>, t: nat, q: nat, env: Env)
    requires Clear(env) && Fit(vals, 1) && t < 8 * |vals|
    ensures EncArray(UINT8_ARRAY_SLOT, vals, q, env)[t] == if t < |vals| then vals[t] else 0
  {
    hide EncWords, Fit;
    if t < |vals| {
      OneByte(vals, t);
    }
  }

  lemma {:induction false} OneByte(vals: seq<nat>, t: nat)
    requires Fit(vals, 1) && t < |vals|
    ensures EncWords(vals, 1)[t] == vals[t]
    decreases t
  {
    Ranges();
    assert Le(vals[0], 1) == [vals[0]] + Le(0, 0);
    if t > 0 {
      OneByte(vals[1..], t - 1);
    }
  }

  /** The values read are the bytes, one each. */
  lemma {:induction false} ReadAt(b: seq<Byte>, q: nat, arrs: seq<seq<nat>>, i: nat, k: nat, t: nat)
    requires i <= k < |arrs| && t < |arrs[k]|
    requires var r := ScanArrays(b, q, Lengths(arrs, i), 1); r.Ok? && r.value == arrs[i..]
    ensures var p := q + Total(arrs, i, k) + t; p < |b| && b[p] == arrs[k][t]
    decreases k - i
  {
    hide ScanArrays, WordList;
    var r := ScanArrays(b, q, Lengths(arrs, i), 1);
    var n := |arrs[i]|;
    FirstArray(b, q, n, Lengths(arrs, i + 1));
    assert Lengths(arrs, i) == [n] + Lengths(arrs, i + 1);
    if i < k {
      assert arrs[i..][1..] == arrs[i + 1..];
      ReadAt(b, q + n, arrs, i + 1, k, t);
    } else {
      assert arrs[i..][0] == arrs[i];
      SingleBytes(b, q, n);
    }
  }

  lemma FirstArray(b: seq<Byte>, q: nat, n: nat, lens: seq<nat>)
    requires ScanArrays(b, q, [n] + lens, 1).Ok?
    ensures n > 0 ==> q + n <= |b|
    ensures var r := ScanArrays(b, q, [n] + lens, 1); var rest := ScanArrays(b, q + n, lens, 1);
      && rest.Ok? && r.value[1..] == rest.value
      && (n > 0 ==> r.value[0] == WordList(b, q, n, 1))
  {
    hide WordList;
    assert ([n] + lens)[1..] == lens;
    var r, rest := ScanArrays(b, q, [n] + lens, 1), ScanArrays(b, q + n, lens, 1);
    assert r.value == [Words(b, q, n, 1).value] + rest.value;
  }

  lemma {:induction false} SingleBytes(b: seq<Byte>, q: nat, n: nat)
    requires q + n <= |b|
    ensures forall j :: 0 <= j < n ==> WordList(b, q, n, 1)[j] == b[q + j]
    decreases n
  {
    if n > 0 {
      SingleBytes(b, q + 1, n - 1);
      assert b[q..q + 1] == [b[q]] && UnLe([b[q]]) == b[q];
    }
  }

  // ----- nested objects

  lemma {:induction false} NestedMisreads(b: seq<Byte>, slot: nat, keys: seq<nat>, objs: seq<Obj>, q: nat,
      root: nat, env: Env)
    requires Clear(env) && slot < SLOTS && var p := Nested(keys, objs);
      ValidProp(slot, p) && TypedProp(slot, p) && !CountedProp(slot, p)
    requires keys != [] && root <= q && At(b, q, EncProp(slot, Nested(keys, objs), q, root, env))
    requires var e := q + SizeProp(slot, Nested(keys, objs)); e - root <= Range(8) && e < |b| && b[e] != OBJECT_BEGIN
    ensures var r := ScanNested(b, q, slot); r.Ok? ==> RebuildItem(r.value) != Nested(keys, objs)
    decreases objs, |objs| + 1
  {
    hide At, EncPropHead, EncWords, EncObjs, Offsets, ObjSizes, Words, Word, Fit, Marker, ScanRow, RebuildObjs;
    hide SlotOf, ValidObj;
    hide SizeObjs, WriteWidth, ReadWidth, CountedObj;
    var k := q + 5 + 8 * |keys|;
    var r := k + 8 * |objs|;
    var offs := Offsets(ObjSizes(objs, 0), r, root);
    AtBoth(b, q, EncPropHead(slot, keys) + EncWords(offs, 8), EncObjs(objs, 0, r, root, false, env), r);
    AtBoth(b, q, EncPropHead(slot, keys), EncWords(offs, 8), k);
    ReadPropHead(b, slot, keys, q);
    Remainder(|keys|, Range(4));
    if |keys| < Range(4) {
      ReadAnyWords(b, k, offs, 8);
      RowMisreads(b, objs, 0, r, root, env);
      assert objs[0..] == objs;
    }
  }

  lemma {:induction false} RowMisreads(b: seq<Byte>, objs: seq<Obj>, i: nat, q: nat, root: nat, env: Env)
    requires Clear(env) && i < |objs| && ValidObjs(objs) && TypedObjs(objs) && root <= q
    requires exists k :: i <= k < |objs| && !CountedObj(objs[k])
    requires At(b, q, EncObjs(objs, i, q, root, false, env)) && q + SizeObjs(objs, i) - root <= Range(8)
    ensures ScanRow(b, q).Ok? ==> RebuildObjs(ScanRow(b, q).value) != objs[i..]
    decreases objs, |objs| - i
  {
    hide At, EncObjs, EncObj, SizeObj, Offsets, ObjSizes, ScanObj, ScanRow, RebuildObjs, Rebuild, SizeObjs;
    hide ValidObj, TypedObj, CountedObj;
    var e := q + SizeObj(objs[i]);
    ObjsStep(objs, i, q, e, root, false, env);
    AtBoth(b, q, EncObj(objs[i], q, root, 0, env), EncObjs(objs, i + 1, e, root, false, env), e);
    Ranges();
    if CountedObj(objs[i]) {
      ObjReads(b, objs[i], q, root, 0, env);
      ObjBegins(b, objs, i + 1, e, root, false, env);
      RowMisreads(b, objs, i + 1, e, root, env);
      RowMore(b, q);
      RestObjsDiffer(ScanObj(b, q).value, ScanRow(b, e), objs, i);
    } else {
      ObjMisreads(b, objs[i], q, root, 0, env);
      FirstOfRow(b, q);
      FirstObjDiffers(ScanRow(b, q), objs, i);
    }
  }

  lemma RestObjsDiffer(o: ObjScan, r: Result<seq<ObjScan>>, objs: seq<Obj>, i: nat)
    requires i < |objs| && (r.Ok? ==> RebuildObjs(r.value) != objs[i + 1..])
    ensures var s := Prepend([o], r); s.Ok? ==> RebuildObjs(s.value) != objs[i..]
  {
    hide Rebuild;
    if r.Ok? {
      assert ([o] + r.value)[1..] == r.value;
      assert RebuildObjs([o] + r.value)[1..] == RebuildObjs(r.value);
      assert objs[i..][1..] == objs[i + 1..];
    }
  }

  lemma FirstOfRow(b: seq<Byte>, q: nat)
    ensures var r := ScanRow(b, q); r.Ok? ==> ScanObj(b, q).Ok? && r.value != [] && r.value[0] == ScanObj(b, q).value
  {
    hide ScanObj;
  }

  lemma FirstObjDiffers(r: Result<seq<ObjScan>>, objs: seq<Obj>, i: nat)
    requires i < |objs| && (r.Ok? ==> r.value != [] && Rebuild(r.value[0]) != objs[i])
    ensures r.Ok? ==> RebuildObjs(r.value) != objs[i..]
  {
    hide Rebuild;
    if r.Ok? {
      assert RebuildObjs(r.value)[0] == Rebuild(r.value[0]) && objs[i..][0] == objs[i];
    }
  }

  // ----- object arrays

  lemma {:induction false} TableMisreads(b: seq<Byte>, slot: nat, groups: seq<Group>, q: nat, root: nat, env: Env)
    requires Clear(env) && slot < SLOTS && var p := Table(groups);
      ValidProp(slot, p) && TypedProp(slot, p) && !CountedProp(slot, p)
    requires groups != [] && root <= q && q + SizeProp(slot, Table(groups)) - root <= Range(8)
    requires At(b, q, EncProp(slot, Table(groups), q, root, env))
    ensures var r := ScanTable(b, q, slot); r.Ok? ==> RebuildItem(r.value) != Table(groups)
    decreases groups, |groups| + 1
  {
    hide At, EncWords, EncGroups, Offsets, GroupSizes, GroupKeys, Words, Word, Marker, ScanGroups, RebuildGroups;
    hide SizeGroups, ValidGroup, TypedGroup, CountedGroup;
    var r := q + 2 + 16 * |groups|;
    TableParts(b, slot, groups, q, r, root, env);
    Remainder(|groups|, Range(1));
    if |groups| < Range(1) {
      ReadAnyWords(b, q + 2 + 8 * |groups|, Offsets(GroupSizes(groups, 0), r, root), 8);
      GroupsMisread(b, groups, 0, r, root, env);
      assert groups[0..] == groups;
    }
  }

  lemma {:induction false} GroupsMisread(b: seq<Byte>, groups: seq<Group>, i: nat, q: nat, root: nat, env: Env)
    requires Clear(env) && i <= |groups| && root <= q && exists k :: i <= k < |groups| && !CountedGroup(groups[k])
    requires forall k :: 0 <= k < |groups| ==> ValidGroup(groups[k]) && TypedGroup(groups[k])
    requires q + SizeGroups(groups, i) - root <= Range(8) && At(b, q, EncGroups(groups, i, q, root, env))
    ensures var r := ScanGroups(b, q, |groups| - i);
      r.Ok? ==> RebuildGroups(GroupKeys(groups, i), r.value) != groups[i..]
    decreases groups, |groups| - i
  {
    hide At, EncGroup, EncGroups, SizeGroup, SizeGroups, GroupSizes, GroupKeys, ScanGroup, ScanGroups;
    hide RebuildGroups, RebuildColumns, ValidGroup, TypedGroup, CountedGroup;
    var e := q + SizeGroup(groups[i]);
    GroupsStep(groups, i, q, e, root, env);
    AtBoth(b, q, EncGroup(groups[i], q, root, env), EncGroups(groups, i + 1, e, root, env), e);
    FirstOfGroups(b, q, |groups| - i);
    if CountedGroup(groups[i]) {
      GroupReads(b, groups[i], q, root, env);
      GroupsMisread(b, groups, i + 1, e, root, env);
    } else {
      GroupMisreads(b, groups[i], q, root, env);
    }
    GroupsDiffer(b, q, groups, i);
  }

  lemma FirstOfGroups(b: seq<Byte>, q: nat, n: nat)
    requires n > 0
    ensures var r := ScanGroups(b, q, n);
      r.Ok? ==> var g := ScanGroup(b, q); var rest := ScanGroups(b, g.end, n - 1);
                g.Ok? && rest.Ok? && r.value == [g.value] + rest.value
  {
    hide ScanGroup;
  }

  lemma GroupsDiffer(b: seq<Byte>, q: nat, groups: seq<Group>, i: nat)
    requires i < |groups|
    requires var g := ScanGroup(b, q);
      g.Ok? ==> || RebuildColumns(g.value.cols) != groups[i].cols
                || var rest := ScanGroups(b, g.end, |groups| - i - 1);
                   rest.Ok? ==> RebuildGroups(GroupKeys(groups, i + 1), rest.value) != groups[i + 1..]
    ensures var r := ScanGroups(b, q, |groups| - i);
      r.Ok? ==> RebuildGroups(GroupKeys(groups, i), r.value) != groups[i..]
  {
    hide ScanGroup, ScanGroups, RebuildColumns;
    FirstOfGroups(b, q, |groups| - i);
    var r := ScanGroups(b, q, |groups| - i);
    if r.Ok? {
      var g := ScanGroup(b, q);
      var rest := ScanGroups(b, g.end, |groups| - i - 1);
      var all := RebuildGroups(GroupKeys(groups, i), r.value);
      assert r.value[1..] == rest.value && GroupKeys(groups, i)[1..] == GroupKeys(groups, i + 1);
      assert all[0].cols == RebuildColumns(g.value.cols);
      assert all[1..] == RebuildGroups(GroupKeys(groups, i + 1), rest.value);
      assert groups[i..][0] == groups[i] && groups[i..][1..] == groups[i + 1..];
    }
  }

  lemma {:induction false} GroupMisreads(b: seq<Byte>, g: Group, q: nat, root: nat, env: Env)
    requires Clear(env) && ValidGroup(g) && TypedGroup(g) && !CountedGroup(g) && root <= q
    requires q + SizeGroup(g) - root <= Range(8) && At(b, q, EncGroup(g, q, root, env))
    ensures var r := ScanGroup(b, q); r.Ok? ==> RebuildColumns(r.value.cols) != g.cols
    decreases g, 1
  {
    hide At, EncWords, Le, EncColumns, Offsets, ColumnSizes, NumObjects, DrawnIds, Words, Word, Fit, ScanColumns;
    hide RebuildColumns, SizeColumns, ValidColumn, TypedColumn, CountedColumn;
    var n, r := |g.cols|, q + 9 + 8 * NumObjects(g) + 8 * |g.cols|;
    GroupParts(b, g, q, r, root, env);
    Remainder(n, Range(4));
    if n < Range(4) {
      ReadAnyWords(b, q + 9, DrawnIds(NumObjects(g), q + 9, env), 8);
      ReadAnyWords(b, r - 8 * n, Offsets(ColumnSizes(g.cols, 0), r, root), 8);
      ColumnsMisread(b, g.cols, 0, r, root, env);
      assert g.cols[0..] == g.cols;
    }
  }

  lemma {:induction false} ColumnsMisread(b: seq<Byte>, cols: seq<Column>, i: nat, q: nat, root: nat, env: Env)
    requires Clear(env) && i <= |cols| && root <= q && exists k :: i <= k < |cols| && !CountedColumn(cols[k])
    requires forall k :: 0 <= k < |cols| ==> ValidColumn(cols[k]) && TypedColumn(cols[k])
    requires q + SizeColumns(cols, i) - root <= Range(8) && At(b, q, EncColumns(cols, i, q, root, env))
    ensures var r := ScanColumns(b, q, |cols| - i); r.Ok? ==> RebuildColumns(r.value) != cols[i..]
    decreases cols, |cols| - i
  {
    hide At, EncColumn, EncColumns, SizeColumn, SizeColumns, ColumnSizes, ScanColumn, ScanColumns;
    hide RebuildColumns, RebuildEntries, ValidColumn, TypedColumn, CountedColumn;
    var e := q + SizeColumn(cols[i]);
    ColumnsStep(cols, i, q, e, root, env);
    AtBoth(b, q, EncColumn(cols[i], q, root, env), EncColumns(cols, i + 1, e, root, env), e);
    if CountedColumn(cols[i]) {
      ColumnReads(b, cols[i], q, root, env);
      ColumnsMisread(b, cols, i + 1, e, root, env);
    } else {
      ColumnMisreads(b, cols[i], q, root, env);
    }
    ColumnsDiffer(b, q, cols, i);
  }

  lemma ColumnsDiffer(b: seq<Byte>, q: nat, cols: seq<Column>, i: nat)
    requires i < |cols|
    requires var c := ScanColumn(b, q);
      c.Ok? ==> || RebuildEntries(c.value.entries) != cols[i].entries
                || var rest := ScanColumns(b, c.end, |cols| - i - 1); rest.Ok? ==>
                    RebuildColumns(rest.value) != cols[i + 1..]
    ensures var r := ScanColumns(b, q, |cols| - i); r.Ok? ==> RebuildColumns(r.value) != cols[i..]
  {
    hide ScanColumn, RebuildEntries;
    var r := ScanColumns(b, q, |cols| - i);
    if r.Ok? {
      var rest := ScanColumns(b, ScanColumn(b, q).end, |cols| - i - 1);
      assert r.value[1..] == rest.value;
      assert RebuildColumns(r.value)[0].entries == RebuildEntries(ScanColumn(b, q).value.entries);
      assert RebuildColumns(r.value)[1..] == RebuildColumns(rest.value);
      assert cols[i..][0] == cols[i] && cols[i..][1..] == cols[i + 1..];
    }
  }

  lemma {:induction false} ColumnMisreads(b: seq<Byte>, c: Column, q: nat, root: nat, env: Env)
    requires Clear(env) && ValidColumn(c) && TypedColumn(c) && !CountedColumn(c) && root <= q
    requires q + SizeColumn(c) - root <= Range(8) && At(b, q, EncColumn(c, q, root, env))
    ensures var r := ScanColumn(b, q); r.Ok? ==> RebuildEntries(r.value.entries) != c.entries
    decreases c, 1
  {
    hide At, EncWords, EncEntries, EncColumnHead, Offsets, EntrySizes, Words, Word, Fit, ScanEntries, TypeOfMarker;
    hide RebuildEntries, SizeEntries, ValidEntry, TypedEntry, CountedEntry;
    var n := |c.entries|;
    var r := q + 14 + 12 * n;
    ColumnParts(b, c, q, r, root, env);
    ReadColumnHead(b, c, q);
    Remainder(n, Range(4));
    if n < Range(4) {
      ReadAnyWords(b, q + 14, Offsets(EntrySizes(c.ty, c.entries, 0), r, root), 8);
      ReadAnyWords(b, q + 14 + 8 * n, c.positions, 4);
      EntriesMisread(b, c.ty, c.entries, 0, r, root, env);
      assert c.entries[0..] == c.entries;
    }
  }

  lemma {:induction false} EntriesMisread(b: seq<Byte>, t: FieldType, entries: seq<Entry>, i: nat, q: nat,
      root: nat, env: Env)
    requires Clear(env) && i <= |entries| && root <= q && exists k :: i <= k < |entries| && !CountedEntry(entries[k])
    requires forall k :: 0 <= k < |entries| ==> ValidEntry(t, entries[k]) && TypedEntry(t, entries[k])
    requires q + SizeEntries(t, entries, i) - root <= Range(8) && At(b, q, EncEntries(t, entries, i, q, root, env))
    ensures var r := ScanEntries(b, q, t, |entries| - i); r.Ok? ==> RebuildEntries(r.value) != entries[i..]
    decreases entries, |entries| - i
  {
    hide At, EncEntry, EncEntries, SizeEntry, SizeEntries, EntrySizes, ScanEntry, ScanEntries;
    hide RebuildEntry, RebuildEntries, ValidEntry, TypedEntry, CountedEntry;
    var e := q + SizeEntry(t, entries[i]);
    EntriesStep(t, entries, i, q, e, root, env);
    AtBoth(b, q, EncEntry(t, entries[i], q, root, env), EncEntries(t, entries, i + 1, e, root, env), e);
    if CountedEntry(entries[i]) {
      EntryReads(b, t, entries[i], q, root, env);
      EntriesMisread(b, t, entries, i + 1, e, root, env);
    } else {
      EntryMisreads(b, t, entries[i], q, root, env);
    }
    EntriesDiffer(b, q, t, entries, i);
  }

  lemma EntriesDiffer(b: seq<Byte>, q: nat, t: FieldType, entries: seq<Entry>, i: nat)
    requires i < |entries|
    requires var s := ScanEntry(b, q, t);
      s.Ok? ==> || RebuildEntry(s.value) != entries[i]
                || var rest := ScanEntries(b, s.end, t, |entries| - i - 1);
                   rest.Ok? ==> RebuildEntries(rest.value) != entries[i + 1..]
    ensures var r := ScanEntries(b, q, t, |entries| - i); r.Ok? ==> RebuildEntries(r.value) != entries[i..]
  {
    hide ScanEntry, RebuildEntry;
    var r := ScanEntries(b, q, t, |entries| - i);
    if r.Ok? {
      var rest := ScanEntries(b, ScanEntry(b, q, t).end, t, |entries| - i - 1);
      assert r.value[1..] == rest.value;
      assert RebuildEntries(r.value)[0] == RebuildEntry(ScanEntry(b, q, t).value);
      assert RebuildEntries(r.value)[1..] == RebuildEntries(rest.value);
      assert entries[i..][0] == entries[i] && entries[i..][1..] == entries[i + 1..];
    }
  }

  lemma {:induction false} EntryMisreads(b: seq<Byte>, t: FieldType, e: Entry, q: nat, root: nat, env: Env)
    requires Clear(env) && ValidEntry(t, e) && TypedEntry(t, e) && !CountedEntry(e) && root <= q
    requires q + SizeEntry(t, e) - root <= Range(8) && At(b, q, EncEntry(t, e, q, root, env))
    ensures var r := ScanEntry(b, q, t); r.Ok? ==> RebuildEntry(r.value) != e
    decreases e, 1
  {
    hide At, EncWords, Le, EncObjs, Words, Word, Fit, ScanObjs, RebuildObjs, SizeObjs, TypeWidth, CountedObj;
    match e
    case Vals(vals) =>
      AtBoth(b, q, Le(|vals|, 4), EncWords(vals, TypeWidth(t)), q + 4);
      ReadWord(b, q, |vals|, 4);
      Remainder(|vals|, Range(4));
    case Objs(objs) =>
      AtBoth(b, q, Le(|objs|, 4), EncObjs(objs, 0, q + 4, root, true, env), q + 4);
      ReadWord(b, q, |objs|, 4);
      Remainder(|objs|, Range(4));
      if |objs| < Range(4) {
        ChainMisreads(b, objs, 0, q + 4, root, env);
        assert objs[0..] == objs;
      }
  }

  lemma {:induction false} ChainMisreads(b: seq<Byte>, objs: seq<Obj>, i: nat, q: nat, root: nat, env: Env)
    requires Clear(env) && i <= |objs| && ValidObjs(objs) && TypedObjs(objs) && root < q
    requires exists k :: i <= k < |objs| && !CountedObj(objs[k])
    requires q + SizeObjs(objs, i) - root <= Range(8) && At(b, q, EncObjs(objs, i, q, root, true, env))
    ensures var r := ScanObjs(b, q, |objs| - i); r.Ok? ==> RebuildObjs(r.value) != objs[i..]
    decreases objs, |objs| - i
  {
    hide At, EncObjs, EncObj, SizeObj, ScanObj, ScanObjs, RebuildObjs, Rebuild, SizeObjs;
    hide ValidObj, TypedObj, CountedObj;
    var e, next := q + SizeObj(objs[i]), NextOf(objs, i, q, root, true);
    ObjsStep(objs, i, q, e, root, true, env);
    AtBoth(b, q, EncObj(objs[i], q, root, next, env), EncObjs(objs, i + 1, e, root, true, env), e);
    NextFits(objs, i, q, root);
    if CountedObj(objs[i]) {
      ObjReads(b, objs[i], q, root, next, env);
      ChainMisreads(b, objs, i + 1, e, root, env);
      ScanObjsStep(b, q, |objs| - i);
      RestObjsDiffer(ScanObj(b, q).value, ScanObjs(b, e, |objs| - i - 1), objs, i);
    } else {
      ObjMisreads(b, objs[i], q, root, next, env);
      FirstOfObjs(b, q, |objs| - i);
      FirstObjDiffers(ScanObjs(b, q, |objs| - i), objs, i);
    }
  }

  lemma FirstOfObjs(b: seq<Byte>, q: nat, n: nat)
    requires n > 0
    ensures var r := ScanObjs(b, q, n); r.Ok? ==>
      ScanObj(b, q).Ok? && r.value != [] && r.value[0] == ScanObj(b, q).value
  {
    hide ScanObj;
  }

  /** The round trip, exactly: the reader gives a document back, whatever memory holds behind vectors,
      if and only if every number and count fits its field and no uint8 array has an element. */
  lemma RoundTrips(o: Obj, p: nat, root: nat, next: nat, id: nat -> nat)
    requires ValidObj(o) && root <= p && next < Range(8) && p + SizeObj(o) - root <= Range(8)
    ensures TypedObj(o) && CountedObj(o) <==>
            forall b, behind :: At(b, p, EncObj(o, p, root, next, Env(id, behind))) ==> ComesBack(b, p, o)
  {
    hide EncObj, ScanObj, Rebuild, At, SizeObj, ValidObj, TypedObj, CountedObj, FitsObj;
    forall b, behind | TypedObj(o) && CountedObj(o) && At(b, p, EncObj(o, p, root, next, Env(id, behind)))
      ensures ComesBack(b, p, o)
    {
      ObjReads(b, o, p, root, next, Env(id, behind));
    }
    if !TypedObj(o) || !CountedObj(o) {
      var zeros: nat -> Byte := (k: nat) => 0;
      var b := Somewhere(EncObj(o, p, root, next, Env(id, zeros)), p);
      if ComesBack(b, p, o) {
        ReadLimits.OnlyFitting(b, p, o);
        Sizes.CountedExactly(o);
        ObjMisreads(b, o, p, root, next, Env(id, zeros));
      }
      assert At(b, p, EncObj(o, p, root, next, Env(id, zeros))) && !ComesBack(b, p, o);
    }
  }

  // ----- an object with just one uint8 array

  function LoneArray(key: nat, vals: seq<nat>): (o: Obj)
    requires vals != []
    ensures ValidObj(o)
  {
    Obj(seq(SLOTS, (i: nat) requires i < SLOTS =>
          if i == UINT8_ARRAY_SLOT then Arrays([key], [vals]) else EmptyProp(i)))
  }

  /** Whether `{"a":[1,2]}` comes back depends on the first byte behind the values in memory: it
      does if that is the end marker of an object, and there is an error if nothing starts with it. */
  lemma LoneArrayReads(b: seq<Byte>, key: nat, vals: seq<nat>, p: nat, root: nat, next: nat, env: Env)
    requires key < Range(8) && 0 < |vals| < Range(4) && Fit(vals, 1) && root <= p && next < Range(8)
    requires var o := LoneArray(key, vals);
      p + SizeObj(o) - root <= Range(8) && At(b, p, EncObj(o, p, root, next, env))
    ensures var c := env.behind(p + 46 + |vals|);
      && (c == OBJECT_END ==> ComesBack(b, p, LoneArray(key, vals)))
      && (NeverFollows(c) ==> ScanObj(b, p).Err?)
  {
    hide EncObj, EncHead, EncProps, At, Offsets, PropSizes, SizeProps, Words, Word, SetBits, Range, SlotOf;
    hide ScanObj, ScanItems, RebuildProps, CountProps, Fit, LoneArray, ValidProp;
    var o := LoneArray(key, vals);
    ObjParts(b, o, p, root, next, env);
    ReadHead(b, o, p, root, next, env);
    LoneCount(key, vals);
    var q := p + 29;
    LoneItems(b, key, vals, 0, q, root, env);
    assert o.props[0..] == o.props;
    ScanObjSteps(b, p, 1, q - 8, Offsets(PropSizes(o.props, 0), q, root), ScanItems(b, q));
  }

  lemma LoneCount(key: nat, vals: seq<nat>)
    requires vals != []
    ensures CountProps(LoneArray(key, vals).props, 0) == 1
  {
    LoneCountFrom(key, vals, 0);
  }

  lemma {:induction false} LoneCountFrom(key: nat, vals: seq<nat>, i: nat)
    requires vals != [] && i <= SLOTS
    ensures CountProps(LoneArray(key, vals).props, i) == if i <= UINT8_ARRAY_SLOT then 1 else 0
    decreases SLOTS - i
  {
    if i < SLOTS {
      LoneCountFrom(key, vals, i + 1);
    }
  }

  lemma {:induction false} LoneItems(b: seq<Byte>, key: nat, vals: seq<nat>, i: nat, q: nat, root: nat, env: Env)
    requires key < Range(8) && 0 < |vals| < Range(4) && Fit(vals, 1) && root <= q && i <= UINT8_ARRAY_SLOT
    requires At(b, q, EncProps(LoneArray(key, vals).props, i, q, root, env) + [OBJECT_END])
    ensures var c := env.behind(q + 17 + |vals|); var r := ScanItems(b, q);
      && (c == OBJECT_END ==>
            r.Ok? && RebuildProps(r.value, i) == LoneArray(key, vals).props[i..]
            && (r.value != [] ==> r.value[0].slot >= i))
      && (NeverFollows(c) ==> r.Err?)
    decreases UINT8_ARRAY_SLOT - i
  {
    hide EncProps, EncProp, SizeProp, At, ScanItems, ScanItem, RebuildProps, RebuildItem, Fit, Range, SlotOf, Marker,
        ValidProp;
    var props := LoneArray(key, vals).props;
    if i < UINT8_ARRAY_SLOT {
      PropAbsent(b, props, i, q, root, env);
      LoneItems(b, key, vals, i + 1, q, root, env);
      if env.behind(q + 17 + |vals|) == OBJECT_END {
        RebuildSkip(ScanItems(b, q).value, props, i);
      }
    } else {
      PropPresent(b, props, i, q, q + SizeProp(i, props[i]), root, env);
      LoneList(b, key, vals, q, root, env);
      var e := q + 17 + |vals|;
      ScanItemsStep(b, q);
      if b[e] == OBJECT_END {
        NoneFollow(b, e);
        NoneLeft(props, UINT8_ARRAY_SLOT + 1);
        RebuildStep(ScanItem(b, q).value, [], props, i);
      } else if NeverFollows(b[e]) {
        NoMarker(b, e);
      }
    }
  }

  lemma NoneFollow(b: seq<Byte>, q: nat)
    requires q < |b| && b[q] == OBJECT_END
    ensures ScanItems(b, q) == Ok([], q)
  {
  }

  lemma {:induction false} NoneLeft(props: seq<Prop>, i: nat)
    requires |props| == SLOTS && i <= SLOTS && forall k :: i <= k < SLOTS ==> props[k] == EmptyProp(k)
    ensures RebuildProps([], i) == props[i..]
    decreases SLOTS - i
  {
    hide EmptyProp;
    if i < SLOTS {
      NoneLeft(props, i + 1);
      assert props[i..] == [props[i]] + props[i + 1..];
    }
  }

  /** The one array is read right, and then comes the byte behind its values. */
  lemma LoneList(b: seq<Byte>, key: nat, vals: seq<nat>, q: nat, root: nat, env: Env)
    requires key < Range(8) && 0 < |vals| < Range(4) && Fit(vals, 1) && root <= q
    requires At(b, q, EncProp(UINT8_ARRAY_SLOT, Arrays([key], [vals]), q, root, env))
    ensures var e := q + 17 + |vals|; var r := ScanItem(b, q);
      && q < |b| && b[q] != OBJECT_END && r.Ok? && r.end == e && r.value.slot == UINT8_ARRAY_SLOT
      && RebuildItem(r.value) == Arrays([key], [vals])
      && e < |b| && b[e] == env.behind(e)
  {
    hide At, EncProp, EncArrays, Fit, Marker, ScanValues, ScanNested, ScanLists, ScanTable, ScanArrays, Range, SlotOf;
    PropMarker(b, UINT8_ARRAY_SLOT, Arrays([key], [vals]), q, root, env);
    MarkersPlain(UINT8_ARRAY_SLOT);
    SlotOfMarker(UINT8_ARRAY_SLOT);
    LoneParts(b, key, vals, q, root, env);
    LoneValues(b, vals, q + 17, env);
  }

  lemma LoneParts(b: seq<Byte>, key: nat, vals: seq<nat>, q: nat, root: nat, env: Env)
    requires key < Range(8) && 0 < |vals| < Range(4) && root <= q
    requires At(b, q, EncProp(UINT8_ARRAY_SLOT, Arrays([key], [vals]), q, root, env))
    ensures At(b, q + 17, EncArrays(UINT8_ARRAY_SLOT, [vals], 0, q + 17, env))
    ensures var r := ScanArrays(b, q + 17, [|vals|], 1); r.Ok? ==>
      ScanLists(b, q, UINT8_ARRAY_SLOT) == Ok(Lists(q, UINT8_ARRAY_SLOT, [key], r.value), r.end)
  {
    hide At, EncPropHead, EncWords, EncArrays, Words, Word, Fit, Marker, ScanArrays, Range;
    var slot, arrs, l := UINT8_ARRAY_SLOT, [vals], q + 17;
    OneLength(vals);
    AtBoth(b, q, EncPropHead(slot, [key]) + EncWords([|vals|], 4), EncArrays(slot, arrs, 0, l, env), l);
    AtBoth(b, q, EncPropHead(slot, [key]), EncWords([|vals|], 4), q + 13);
    OneFits(key, 8);
    OneFits(|vals|, 4);
    ReadPropHead(b, slot, [key], q);
    ReadWords(b, q + 13, [|vals|], 4);
    Remainder(1, Range(4));
    Ranges();
  }

  lemma OneLength(vals: seq<nat>)
    ensures Lengths([vals], 0) == [|vals|]
  {
    assert Lengths([vals], 1) == [];
    Nothing([|vals|]);
  }

  lemma OneFits(v: nat, w: nat)
    requires v < Range(w)
    ensures Fit([v], w)
  {
  }

  lemma LoneValues(b: seq<Byte>, vals: seq<nat>, q: nat, env: Env)
    requires vals != [] && Fit(vals, 1) && At(b, q, EncArrays(UINT8_ARRAY_SLOT, [vals], 0, q, env))
    ensures var e := q + |vals|; ScanArrays(b, q, [|vals|], 1) == Ok([vals], e) && e < |b| && b[e] == env.behind(e)
  {
    hide At, EncWords, Words, Fit, ScanArrays, Behind;
    var n := |vals|;
    var behind := Behind(7 * n, q + n, env);
    var e := q + 8 * n;
    AtBoth(b, q, EncArray(UINT8_ARRAY_SLOT, vals, q, env), EncArrays(UINT8_ARRAY_SLOT, [vals], 1, e, env), e);
    AtBoth(b, q, EncWords(vals, 1), behind, q + n);
    ReadWords(b, q, vals, 1);
    AtBytes(b, q + n, behind);
    assert b[q + n] == behind[0] == env.behind(q + n) by { FirstBehind(7 * n, q + n, env); }
    ScanArraysStep(b, q, [n], 1);
    ScanArraysStep(b, q + n, [], 1);
    assert [n][1..] == [];
    Nothing([vals]);
  }

  lemma FirstBehind(n: nat, q: nat, env: Env)
    requires n > 0
    ensures Behind(n, q, env)[0] == env.behind(q)
  {
  }

  ghost function Somewhere(e: seq<Byte>, p: nat): (b: seq<Byte>)
    ensures At(b, p, e)
  {
    seq<Byte>(p, k => 0) + e
  }
}
