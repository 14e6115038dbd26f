/** The archive writer: it reserves slots, writes what they will point to, seeks back and
    fills them in. Each method leaves exactly its Format bytes between the entry and the exit
    position of the cursor and changes nothing outside. */
module Writer {
  import opened Bytes
  import opened Memory
  import opened ColumnDoc
  import opened Format

  /** Serialises o at the cursor; returns the position of its next field. */
  method Serialize(mf: Memfile, o: Obj, root: nat, env: Env) returns (nextOffset: nat)
    requires ValidObj(o) && mf.Now().Ready() && root <= mf.pos
    modifies mf
    ensures mf.Now() == After(old(mf.Now()), EncObj(o, old(mf.pos), root, 0, env))
    ensures nextOffset == old(mf.pos) + HeadSize(o.props) - 8
    decreases o
  {
    hide After;
    ghost var m := mf.Now();
    var flags := Flags(o.props, 0);
    var headerOffset := mf.pos;
    ghost var gap := mf.Skip(13);
    ghost var slots := SkipPropOffsets(mf, o.props);
    nextOffset := mf.pos;
    ghost var next := Le(0, 8);
    mf.Write(Le(0, 8));
    ghost var q := mf.pos;
    var offsets := WriteProps(mf, o.props, root, env);
    ghost var body := EncProps(o.props, 0, q, root, env);
    mf.Write([OBJECT_END]);

    var header := [OBJECT_BEGIN] + Le(env.id(headerOffset), 8) + Le(flags, 4);
    ghost var rest := next + body + [OBJECT_END];
    FiveRegions(m, gap, slots, next, body, header);
    mf.Patch(m, [], gap, slots + rest, headerOffset, header);
    ObjectBytes(o, headerOffset, q, root, env);
    mf.Patch(m, header, slots, rest, headerOffset + 13, EncWords(Selected(o.props, offsets, 0), 8));
  }

  /** The object's bytes before and after its header is filled in. */
  lemma FiveRegions(m: State, gap: seq<Byte>, slots: seq<Byte>, next: seq<Byte>, body: seq<Byte>, header: seq<Byte>)
    requires m.Ready()
    ensures var rest := next + body + [OBJECT_END];
      && After(After(After(After(After(m, gap), slots), next), body), [OBJECT_END])
          == After(m, [] + gap + (slots + rest))
      && [] + header + (slots + rest) == header + slots + rest
  {
    hide After;
    AfterBoth(m, gap, slots);
    AfterBoth(m, gap + slots, next);
    AfterBoth(m, gap + slots + next, body);
    AfterBoth(m, gap + slots + next + body, [OBJECT_END]);
    var rest := next + body + [OBJECT_END];
    assert gap + slots + next + body + [OBJECT_END] == [] + gap + (slots + rest);
  }

  lemma ObjectBytes(o: Obj, p: nat, q: nat, root: nat, env: Env)
    requires ValidObj(o) && root <= p && q == p + HeadSize(o.props)
    ensures EncObj(o, p, root, 0, env)
            == [OBJECT_BEGIN] + Le(env.id(p), 8) + Le(Flags(o.props, 0), 4)
               + EncWords(Offsets(PropSizes(o.props, 0), q, root), 8)
               + (Le(0, 8) + EncProps(o.props, 0, q, root, env) + [OBJECT_END])
  {
    hide EncProps, EncWords, Offsets, Le, PropSizes, Flags;
    Regroup([OBJECT_BEGIN] + Le(env.id(p), 8) + Le(Flags(o.props, 0), 4)
            + EncWords(Offsets(PropSizes(o.props, 0), q, root), 8),
            Le(0, 8), EncProps(o.props, 0, q, root, env), [OBJECT_END]);
  }

  lemma Regroup(a: seq<Byte>, b: seq<Byte>, c: seq<Byte>, d: seq<Byte>)
    ensures a + b + c + d == a + (b + c + d)
  {
  }

  method SkipPropOffsets(mf: Memfile, props: seq<Prop>) returns (ghost gap: seq<Byte>)
    requires mf.Now().Ready()
    modifies mf
    ensures |gap| == 8 * CountProps(props, 0) && mf.Now() == After(old(mf.Now()), gap)
  {
    var count := 0;
    for i := 0 to |props|
      invariant count + CountProps(props, i) == CountProps(props, 0)
    {
      if !IsEmpty(props[i]) {
        count := count + 1;
      }
    }
    gap := mf.Skip(8 * count);
  }

  /** Of one offset per slot, those whose flag is set. */
  function Selected(props: seq<Prop>, offsets: seq<nat>, i: nat): (sel: seq<nat>)
    requires |offsets| == |props|
    decreases |props| - i
  {
    if i >= |props| then []
    else (if IsEmpty(props[i]) then [] else [offsets[i]]) + Selected(props, offsets, i + 1)
  }

  method WriteProps(mf: Memfile, props: seq<Prop>, root: nat, env: Env) returns (offsets: seq<nat>)
    requires |props| == SLOTS && forall i :: 0 <= i < SLOTS ==> ValidProp(i, props[i])
    requires mf.Now().Ready() && root <= mf.pos
    modifies mf
    ensures mf.Now() == After(old(mf.Now()), EncProps(props, 0, old(mf.pos), root, env))
    ensures |offsets| == SLOTS
    ensures Selected(props, offsets, 0) == Offsets(PropSizes(props, 0), old(mf.pos), root)
    decreases props
  {
    hide After, Parts, Listed;
    ghost var m, seg: seq<Byte> := mf.Now(), [];
    ghost var whole, offs := EncProps(props, 0, mf.pos, root, env), Offsets(PropSizes(props, 0), mf.pos, root);
    offsets := [];
    AfterNothing(m);
    NothingDone(whole);
    NothingListed(offs);
    for i := 0 to SLOTS
      invariant mf.Now() == After(m, seg) && |offsets| == i
      invariant Parts(seg, EncProps(props, i, mf.pos, root, env), whole)
      invariant Listed(Selected(props[..i], offsets, 0), Offsets(PropSizes(props, i), mf.pos, root), offs)
    {
      ghost var q := mf.pos;
      var offset := WriteProp(mf, i, props[i], root, env);
      ghost var bs := EncProp(i, props[i], q, root, env);
      AfterBoth(m, seg, bs);
      PropDone(props, i, q, mf.pos, root, env, seg, whole);
      OffsetSelected(props, i, offsets, offset, q, mf.pos, root, offs);
      seg, offsets := seg + bs, offsets + [offset];
    }
    AllDone(seg, whole);
    assert props[..SLOTS] == props;
    AllListed(Selected(props, offsets, 0), offs);
  }

  lemma PropDone(props: seq<Prop>, i: nat, q: nat, e: nat, root: nat, env: Env, done: seq<Byte>, whole: seq<Byte>)
    requires |props| == SLOTS && i < SLOTS && root <= q && forall k :: 0 <= k < SLOTS ==> ValidProp(k, props[k])
    requires e == q + SizeProp(i, props[i]) && Parts(done, EncProps(props, i, q, root, env), whole)
    ensures Parts(done + EncProp(i, props[i], q, root, env), EncProps(props, i + 1, e, root, env), whole)
  {
    hide Parts;
    PieceDone(done, EncProp(i, props[i], q, root, env), EncProps(props, i + 1, e, root, env), whole);
  }

  lemma OffsetSelected(props: seq<Prop>, i: nat, offsets: seq<nat>, offset: nat, q: nat, e: nat, root: nat,
      offs: seq<nat>)
    requires i == |offsets| < |props| && root <= q && (!IsEmpty(props[i]) ==> offset == q - root)
    requires e == q + SizeProp(i, props[i])
    requires Listed(Selected(props[..i], offsets, 0), Offsets(PropSizes(props, i), q, root), offs)
    ensures Listed(Selected(props[..i + 1], offsets + [offset], 0), Offsets(PropSizes(props, i + 1), e, root), offs)
  {
    hide Listed, Offsets;
    SelectedSnoc(props[..i], props[i], offsets, offset, 0);
    assert props[..i + 1] == props[..i] + [props[i]];
    if IsEmpty(props[i]) {
      Nothing(PropSizes(props, i + 1));
      Nothing(Selected(props[..i], offsets, 0));
    } else {
      OffsetsStep(SizeProp(i, props[i]), PropSizes(props, i + 1), q, e, root);
      ItemListed(Selected(props[..i], offsets, 0), offset, Offsets(PropSizes(props, i + 1), e, root), offs);
    }
  }

  lemma {:induction false} SelectedSnoc(props: seq<Prop>, p: Prop, offsets: seq<nat>, offset: nat, i: nat)
    requires |offsets| == |props| && i <= |props|
    ensures Selected(props + [p], offsets + [offset], i)
            == Selected(props, offsets, i) + (if IsEmpty(p) then [] else [offset])
    decreases |props| - i
  {
    var last := if IsEmpty(p) then [] else [offset];
    if i < |props| {
      SelectedSnoc(props, p, offsets, offset, i + 1);
      Assoc(if IsEmpty(props[i]) then [] else [offsets[i]], Selected(props, offsets, i + 1), last);
    } else {
      Nothing(last);
    }
  }

  /** Writes one property list, unless it is empty; returns its offset from the root. */
  method WriteProp(mf: Memfile, slot: nat, p: Prop, root: nat, env: Env) returns (offset: nat)
    requires slot < SLOTS && ValidProp(slot, p) && mf.Now().Ready() && root <= mf.pos
    modifies mf
    ensures mf.Now() == After(old(mf.Now()), EncProp(slot, p, old(mf.pos), root, env))
    ensures offset == if IsEmpty(p) then 0 else old(mf.pos) - root
    decreases p
  {
    hide After;
    AfterNothing(mf.Now());
    offset := 0;
    if !IsEmpty(p) {
      offset := mf.pos - root;
      match p
      case Fixed(keys, vals) => WriteFixed(mf, slot, keys, vals);
      case Arrays(keys, arrs) => WriteArrays(mf, slot, keys, arrs, env);
      case Nested(keys, objs) => WriteNested(mf, slot, keys, objs, root, env);
      case Table(groups) => WriteTable(mf, slot, groups, root, env);
    }
  }

  method WritePropHead(mf: Memfile, slot: nat, keys: seq<nat>)
    requires slot < SLOTS && mf.Now().Ready()
    modifies mf
    ensures mf.Now() == After(old(mf.Now()), EncPropHead(slot, keys))
  {
    hide After;
    AfterBoth(mf.Now(), [Marker(slot)] + Le(|keys|, 4), EncWords(keys, 8));
    mf.Write([Marker(slot)] + Le(|keys|, 4));
    mf.Write(EncWords(keys, 8));
  }

  method WriteFixed(mf: Memfile, slot: nat, keys: seq<nat>, vals: seq<nat>)
    requires slot < SLOTS && mf.Now().Ready()
    modifies mf
    ensures mf.Now() == After(old(mf.Now()), EncPropHead(slot, keys) + EncWords(vals, WriteWidth(slot)))
  {
    hide After;
    AfterBoth(mf.Now(), EncPropHead(slot, keys), EncWords(vals, WriteWidth(slot)));
    WritePropHead(mf, slot, keys);
    mf.Write(EncWords(vals, WriteWidth(slot)));
  }

  method WriteArrays(mf: Memfile, slot: nat, keys: seq<nat>, arrs: seq<seq<nat>>, env: Env)
    requires slot < SLOTS && |keys| == |arrs| && mf.Now().Ready()
    modifies mf
    ensures mf.Now() == After(old(mf.Now()), EncPropHead(slot, keys) + EncWords(Lengths(arrs, 0), 4)
                                             + EncArrays(slot, arrs, 0, old(mf.pos) + 5 + 12 * |keys|, env))
  {
    hide After;
    ghost var m := mf.Now();
    WritePropHead(mf, slot, keys);
    WriteLengths(mf, arrs);
    ghost var values := EncArrays(slot, arrs, 0, mf.pos, env);
    WriteArrayValues(mf, slot, arrs, env);
    AfterBoth(m, EncPropHead(slot, keys), EncWords(Lengths(arrs, 0), 4));
    AfterBoth(m, EncPropHead(slot, keys) + EncWords(Lengths(arrs, 0), 4), values);
  }

  /** Copies the values of each array out of its vector; of a uint8 array more than the vector holds. */
  method WriteArrayValues(mf: Memfile, slot: nat, arrs: seq<seq<nat>>, env: Env)
    requires slot < SLOTS && mf.Now().Ready()
    modifies mf
    ensures mf.Now() == After(old(mf.Now()), EncArrays(slot, arrs, 0, old(mf.pos), env))
  {
    hide After, Parts, EncArray;
    ghost var m, seg: seq<Byte>, whole := mf.Now(), [], EncArrays(slot, arrs, 0, mf.pos, env);
    AfterNothing(m);
    NothingDone(whole);
    for i := 0 to |arrs|
      invariant mf.Now() == After(m, seg) && Parts(seg, EncArrays(slot, arrs, i, mf.pos, env), whole)
    {
      ghost var bs := EncArray(slot, arrs[i], mf.pos, env);
      mf.Write(EncArray(slot, arrs[i], mf.pos, env));
      AfterBoth(m, seg, bs);
      PieceDone(seg, bs, EncArrays(slot, arrs, i + 1, mf.pos, env), whole);
      seg := seg + bs;
    }
    AllDone(seg, whole);
  }

  method WriteLengths(mf: Memfile, arrs: seq<seq<nat>>)
    requires mf.Now().Ready()
    modifies mf
    ensures mf.Now() == After(old(mf.Now()), EncWords(Lengths(arrs, 0), 4))
  {
    hide After, Listed;
    ghost var m, lens: seq<nat>, whole := mf.Now(), [], Lengths(arrs, 0);
    AfterNothing(m);
    NothingListed(whole);
    for i := 0 to |arrs|
      invariant mf.Now() == After(m, EncWords(lens, 4)) && Listed(lens, Lengths(arrs, i), whole)
    {
      mf.Write(Le(|arrs[i]|, 4));
      AfterBoth(m, EncWords(lens, 4), Le(|arrs[i]|, 4));
      EncWordsSnoc(lens, |arrs[i]|, 4);
      ItemListed(lens, |arrs[i]|, Lengths(arrs, i + 1), whole);
      lens := lens + [|arrs[i]|];
    }
    AllListed(lens, whole);
  }

  method WriteNested(mf: Memfile, slot: nat, keys: seq<nat>, objs: seq<Obj>, root: nat, env: Env)
    requires slot == OBJECT_SLOT && |keys| == |objs| > 0 && ValidObjs(objs)
    requires mf.Now().Ready() && root <= mf.pos
    modifies mf
    ensures mf.Now() == After(old(mf.Now()), EncProp(slot, Nested(keys, objs), old(mf.pos), root, env))
    decreases objs, 1
  {
    hide After, EncObjs, EncWords, Offsets, ObjSizes, EncPropHead;
    ghost var m, head := mf.Now(), EncPropHead(slot, keys);
    WritePropHead(mf, slot, keys);
    var valueOffset := mf.pos;
    ghost var gap := mf.Skip(8 * |keys|);
    ghost var r := mf.pos;
    var offsets := WriteObjects(mf, objs, root, env);
    ghost var body := EncObjs(objs, 0, r, root, false, env);
    AfterBoth(m, head, gap);
    AfterBoth(m, head + gap, body);
    mf.Patch(m, head, gap, body, valueOffset, EncWords(offsets, 8));
  }

  /** Serialises the objects one after the other and collects their offsets. */
  method WriteObjects(mf: Memfile, objs: seq<Obj>, root: nat, env: Env) returns (offsets: seq<nat>)
    requires ValidObjs(objs) && mf.Now().Ready() && root <= mf.pos
    modifies mf
    ensures mf.Now() == After(old(mf.Now()), EncObjs(objs, 0, old(mf.pos), root, false, env))
    ensures offsets == Offsets(ObjSizes(objs, 0), old(mf.pos), root)
    decreases objs, 0
  {
    hide After, Parts, Listed;
    ghost var m, seg: seq<Byte> := mf.Now(), [];
    ghost var whole, offs := EncObjs(objs, 0, mf.pos, root, false, env), Offsets(ObjSizes(objs, 0), mf.pos, root);
    offsets := [];
    AfterNothing(m);
    NothingDone(whole);
    NothingListed(offs);
    for i := 0 to |objs|
      invariant mf.Now() == After(m, seg)
      invariant Parts(seg, EncObjs(objs, i, mf.pos, root, false, env), whole)
      invariant Listed(offsets, Offsets(ObjSizes(objs, i), mf.pos, root), offs)
    {
      ghost var q := mf.pos;
      var offset: nat := mf.pos - root;
      var _ := Serialize(mf, objs[i], root, env);
      ghost var bs := EncObj(objs[i], q, root, 0, env);
      AfterBoth(m, seg, bs);
      ObjDone(objs, i, q, mf.pos, root, false, 0, env, seg, whole);
      OffsetListed(SizeObj(objs[i]), ObjSizes(objs, i + 1), q, mf.pos, root, offset, offsets, offs);
      seg, offsets := seg + bs, offsets + [offset];
    }
    AllDone(seg, whole);
    AllListed(offsets, offs);
  }

  lemma ObjDone(objs: seq<Obj>, i: nat, q: nat, e: nat, root: nat, chained: bool, next: nat, env: Env,
                done: seq<Byte>, whole: seq<Byte>)
    requires i < |objs| && ValidObjs(objs) && root <= q && e == q + SizeObj(objs[i])
    requires next == NextOf(objs, i, q, root, chained)
    requires Parts(done, EncObjs(objs, i, q, root, chained, env), whole)
    ensures Parts(done + EncObj(objs[i], q, root, next, env), EncObjs(objs, i + 1, e, root, chained, env), whole)
  {
    hide Parts;
    PieceDone(done, EncObj(objs[i], q, root, next, env), EncObjs(objs, i + 1, e, root, chained, env), whole);
  }

  lemma OffsetListed(size: nat, sizes: seq<nat>, q: nat, e: nat, root: nat, offset: nat, done: seq<nat>,
      whole: seq<nat>)
    requires root <= q && e == q + size && offset == q - root
    requires Listed(done, Offsets([size] + sizes, q, root), whole)
    ensures Listed(done + [offset], Offsets(sizes, e, root), whole)
  {
    hide Listed;
    OffsetsStep(size, sizes, q, e, root);
    ItemListed(done, offset, Offsets(sizes, e, root), whole);
  }

  method WriteTable(mf: Memfile, slot: nat, groups: seq<Group>, root: nat, env: Env)
    requires slot == TABLE_SLOT && groups != [] && forall i :: 0 <= i < |groups| ==> ValidGroup(groups[i])
    requires mf.Now().Ready() && root <= mf.pos
    modifies mf
    ensures mf.Now() == After(old(mf.Now()), EncProp(slot, Table(groups), old(mf.pos), root, env))
    decreases groups, 2
  {
    hide After, Reserved, Offsets, GroupSizes, EncGroups, EncProp, EncTableHead, EncWords;
    ghost var m, q, head := mf.Now(), mf.pos, EncTableHead(groups);
    WriteTableHead(mf, groups);
    var columnOffsets := mf.pos;
    ghost var gap := mf.Skip(8 * |groups|);
    SlotsReserved(m, head, gap);
    TableBytes(slot, groups, q, mf.pos, root, env);
    WriteGroups(mf, groups, root, env, columnOffsets, m, head, gap);
  }

  lemma TableBytes(slot: nat, groups: seq<Group>, q: nat, r: nat, root: nat, env: Env)
    requires slot == TABLE_SLOT && groups != [] && forall i :: 0 <= i < |groups| ==> ValidGroup(groups[i])
    requires root <= q && r == q + 2 + 16 * |groups|
    ensures EncProp(slot, Table(groups), q, root, env)
            == EncTableHead(groups) + EncWords(Offsets(GroupSizes(groups, 0), r, root), 8)
               + EncGroups(groups, 0, r, root, env)
  {
    hide Offsets, GroupSizes, EncGroups, EncWords;
  }

  /** Writes the groups; the offset of each is filled in once its header is written. */
  method WriteGroups(mf: Memfile, groups: seq<Group>, root: nat, env: Env, columnOffsets: nat,
                     ghost m: State, ghost head: seq<Byte>, ghost slots: seq<Byte>)
    requires forall i :: 0 <= i < |groups| ==> ValidGroup(groups[i])
    requires m.Ready() && root <= mf.pos && |slots| == 8 * |groups| && columnOffsets == m.pos + |head|
    requires mf.Now() == Reserved(m, head, [], slots, [])
    modifies mf
    ensures mf.Now() == After(m, head + EncWords(Offsets(GroupSizes(groups, 0), old(mf.pos), root), 8)
                                 + EncGroups(groups, 0, old(mf.pos), root, env))
    decreases groups, 1
  {
    hide Reserved, After, GroupsFrom, Offsets, EncGroups, GroupSizes, EncGroup, EncWords, EncGroupHead,
        EncGroupColumns, SizeGroup, NumObjects;
    ghost var offs: seq<nat>, gap, body: seq<Byte> := [], slots, [];
    ghost var r := mf.pos;
    NoGroups(groups, r, root, env);
    for i := 0 to |groups|
      invariant |offs| == i && |gap| == 8 * (|groups| - i)
      invariant mf.Now() == Reserved(m, head, offs, gap, body) && root <= mf.pos
      invariant GroupsFrom(groups, r, i, mf.pos, root, env, offs, body)
    {
      ghost var q := mf.pos;
      var offset: nat := mf.pos - root;
      WriteGroupHead(mf, groups[i], env);
      ghost var groupHead := EncGroupHead(groups[i], q, env);
      Extend(m, head, offs, gap, body, groupHead);
      FillSlot(mf, m, head, offs, gap, body + groupHead, columnOffsets + 8 * i, offset);
      WriteGroupColumns(mf, groups[i], q, root, env);
      ghost var groupBody := EncGroupColumns(groups[i], q, root, env);
      Extend(m, head, offs + [offset], gap[8..], body + groupHead, groupBody);
      Assoc(body, groupHead, groupBody);
      OneGroup(groups, r, i, q, mf.pos, root, env, offs, body);
      offs, gap, body := offs + [offset], gap[8..], body + EncGroup(groups[i], q, root, env);
    }
    AllGroups(groups, r, mf.pos, root, env, offs, body);
    AllFilled(m, head, offs, gap, body);
  }

  /** Of the groups that start at r, the first k are written: body holds their bytes up to q
      and offs their offsets. */
  ghost predicate GroupsFrom(groups: seq<Group>, r: nat, k: nat, q: nat, root: nat, env: Env,
                             offs: seq<nat>, body: seq<Byte>)
    requires k <= |groups| && root <= r && root <= q && forall i :: 0 <= i < |groups| ==> ValidGroup(groups[i])
  {
    && Parts(body, EncGroups(groups, k, q, root, env), EncGroups(groups, 0, r, root, env))
    && Listed(offs, Offsets(GroupSizes(groups, k), q, root), Offsets(GroupSizes(groups, 0), r, root))
  }

  lemma NoGroups(groups: seq<Group>, r: nat, root: nat, env: Env)
    requires root <= r && forall i :: 0 <= i < |groups| ==> ValidGroup(groups[i])
    ensures GroupsFrom(groups, r, 0, r, root, env, [], [])
  {
    hide Parts, Listed, EncGroups, GroupSizes, Offsets;
    NothingDone(EncGroups(groups, 0, r, root, env));
    NothingListed(Offsets(GroupSizes(groups, 0), r, root));
  }

  lemma OneGroup(groups: seq<Group>, r: nat, k: nat, q: nat, e: nat, root: nat, env: Env, offs: seq<nat>,
      body: seq<Byte>)
    requires k < |groups| && root <= r && root <= q && forall i :: 0 <= i < |groups| ==> ValidGroup(groups[i])
    requires e == q + SizeGroup(groups[k]) && GroupsFrom(groups, r, k, q, root, env, offs, body)
    ensures GroupsFrom(groups, r, k + 1, e, root, env, offs + [q - root], body + EncGroup(groups[k], q, root, env))
  {
    hide Parts, Listed, EncGroup, Offsets;
    PieceDone(body, EncGroup(groups[k], q, root, env), EncGroups(groups, k + 1, e, root, env),
              EncGroups(groups, 0, r, root, env));
    OffsetListed(SizeGroup(groups[k]), GroupSizes(groups, k + 1), q, e, root, q - root, offs,
                 Offsets(GroupSizes(groups, 0), r, root));
  }

  lemma AllGroups(groups: seq<Group>, r: nat, q: nat, root: nat, env: Env, offs: seq<nat>, body: seq<Byte>)
    requires root <= r && root <= q && forall i :: 0 <= i < |groups| ==> ValidGroup(groups[i])
    requires GroupsFrom(groups, r, |groups|, q, root, env, offs, body)
    ensures offs == Offsets(GroupSizes(groups, 0), r, root) && body == EncGroups(groups, 0, r, root, env)
  {
    hide Parts, Listed;
    AllDone(body, EncGroups(groups, 0, r, root, env));
    AllListed(offs, Offsets(GroupSizes(groups, 0), r, root));
  }

  // A column of offset slots between a head and a body, filled from the left.

  /** After m: the head, the slots filled so far, those still reserved, and the body. */
  ghost function Reserved(m: State, head: seq<Byte>, offs: seq<nat>, gap: seq<Byte>, body: seq<Byte>): (r: State)
    requires m.Ready()
    ensures r.Ready() && r.pos == m.pos + |head| + 8 * |offs| + |gap| + |body|
  {
    After(m, head + EncWords(offs, 8) + gap + body)
  }

  lemma SlotsReserved(m: State, head: seq<Byte>, gap: seq<Byte>)
    requires m.Ready()
    ensures After(After(m, head), gap) == Reserved(m, head, [], gap, [])
  {
    hide After;
    AfterBoth(m, head, gap);
    assert head + EncWords([], 8) + gap + [] == head + gap;
  }

  lemma Extend(m: State, head: seq<Byte>, offs: seq<nat>, gap: seq<Byte>, body: seq<Byte>, more: seq<Byte>)
    requires m.Ready()
    ensures After(Reserved(m, head, offs, gap, body), more) == Reserved(m, head, offs, gap, body + more)
  {
    hide After;
    AfterBoth(m, head + EncWords(offs, 8) + gap + body, more);
    Assoc(head + EncWords(offs, 8) + gap, body, more);
  }

  lemma AllFilled(m: State, head: seq<Byte>, offs: seq<nat>, gap: seq<Byte>, body: seq<Byte>)
    requires m.Ready() && gap == []
    ensures Reserved(m, head, offs, gap, body) == After(m, head + EncWords(offs, 8) + body)
  {
    hide After;
    Nothing(head + EncWords(offs, 8));
  }

  method FillSlot(mf: Memfile, ghost m: State, ghost head: seq<Byte>, ghost offs: seq<nat>, ghost gap: seq<Byte>,
                  ghost body: seq<Byte>, at: nat, offset: nat)
    requires m.Ready() && |gap| >= 8 && at == m.pos + |head| + 8 * |offs|
    requires mf.Now() == Reserved(m, head, offs, gap, body)
    modifies mf
    ensures mf.Now() == Reserved(m, head, offs + [offset], gap[8..], body)
  {
    hide After;
    PatchSplit(head, EncWords(offs, 8), gap, body, Le(offset, 8));
    mf.Patch(m, head + EncWords(offs, 8), gap[..8], gap[8..] + body, at, Le(offset, 8));
    EncWordsSnoc(offs, offset, 8);
  }

  lemma PatchSplit(head: seq<Byte>, offs: seq<Byte>, gap: seq<Byte>, body: seq<Byte>, y: seq<Byte>)
    requires |gap| >= 8 && |y| == 8
    ensures head + offs + gap + body == (head + offs) + gap[..8] + (gap[8..] + body)
    ensures (head + offs) + y + (gap[8..] + body) == head + (offs + y) + gap[8..] + body
  {
    assert gap == gap[..8] + gap[8..];
  }

  ghost function EncTableHead(groups: seq<Group>): (bs: seq<Byte>)
    ensures |bs| == 2 + 8 * |groups|
  {
    [Marker(TABLE_SLOT)] + Le(|groups|, 1) + EncWords(GroupKeys(groups, 0), 8)
  }

  method WriteTableHead(mf: Memfile, groups: seq<Group>)
    requires mf.Now().Ready()
    modifies mf
    ensures mf.Now() == After(old(mf.Now()), EncTableHead(groups))
  {
    hide After, Listed;
    ghost var m0 := mf.Now();
    mf.Write([Marker(TABLE_SLOT)] + Le(|groups|, 1));
    ghost var m, keys: seq<nat>, whole := mf.Now(), [], GroupKeys(groups, 0);
    AfterNothing(m);
    NothingListed(whole);
    for i := 0 to |groups|
      invariant mf.Now() == After(m, EncWords(keys, 8)) && Listed(keys, GroupKeys(groups, i), whole)
    {
      mf.Write(Le(groups[i].key, 8));
      AfterBoth(m, EncWords(keys, 8), Le(groups[i].key, 8));
      EncWordsSnoc(keys, groups[i].key, 8);
      ItemListed(keys, groups[i].key, GroupKeys(groups, i + 1), whole);
      keys := keys + [groups[i].key];
    }
    AllListed(keys, whole);
    AfterBoth(m0, [Marker(TABLE_SLOT)] + Le(|groups|, 1), EncWords(keys, 8));
  }

  ghost function EncGroupHead(g: Group, q: nat, env: Env): (bs: seq<Byte>)
    ensures |bs| == 9 + 8 * NumObjects(g)
  {
    [COLUMN_GROUP] + Le(|g.cols|, 4) + Le(NumObjects(g), 4) + EncWords(DrawnIds(NumObjects(g), q + 9, env), 8)
  }

  ghost function EncGroupColumns(g: Group, q: nat, root: nat, env: Env): (bs: seq<Byte>)
    requires ValidGroup(g) && root <= q
    ensures EncGroupHead(g, q, env) + bs == EncGroup(g, q, root, env)
  {
    var r := q + 9 + 8 * NumObjects(g) + 8 * |g.cols|;
    Assoc(EncGroupHead(g, q, env), EncWords(Offsets(ColumnSizes(g.cols, 0), r, root), 8),
          EncColumns(g.cols, 0, r, root, env));
    EncWords(Offsets(ColumnSizes(g.cols, 0), r, root), 8) + EncColumns(g.cols, 0, r, root, env)
  }

  /** Finds the number of objects from the columns' positions and draws an id for each. */
  method WriteGroupHead(mf: Memfile, g: Group, env: Env)
    requires mf.Now().Ready()
    modifies mf
    ensures mf.Now() == After(old(mf.Now()), EncGroupHead(g, old(mf.pos), env))
  {
    hide After;
    ghost var m, p := mf.Now(), mf.pos;
    var maxPos := LargestPosition(g);
    var numObjects := (maxPos + 1) % 0x1_0000_0000;
    mf.Write([COLUMN_GROUP] + Le(|g.cols|, 4) + Le(numObjects, 4));
    WriteObjectIds(mf, numObjects, env);
    AfterBoth(m, [COLUMN_GROUP] + Le(|g.cols|, 4) + Le(numObjects, 4), EncWords(DrawnIds(numObjects, p + 9, env), 8));
  }

  method WriteObjectIds(mf: Memfile, numObjects: nat, env: Env)
    requires mf.Now().Ready()
    modifies mf
    ensures mf.Now() == After(old(mf.Now()), EncWords(DrawnIds(numObjects, old(mf.pos), env), 8))
  {
    hide After, Listed;
    ghost var m, oids: seq<nat>, whole := mf.Now(), [], DrawnIds(numObjects, mf.pos, env);
    AfterNothing(m);
    NothingListed(whole);
    for i := 0 to numObjects
      invariant mf.Now() == After(m, EncWords(oids, 8)) && Listed(oids, DrawnIds(numObjects - i, mf.pos, env), whole)
    {
      ghost var id := env.id(mf.pos);
      ItemListed(oids, id, DrawnIds(numObjects - i - 1, mf.pos + 8, env), whole);
      mf.Write(Le(env.id(mf.pos), 8));
      AfterBoth(m, EncWords(oids, 8), Le(id, 8));
      EncWordsSnoc(oids, id, 8);
      oids := oids + [id];
    }
    AllListed(oids, whole);
  }

  method LargestPosition(g: Group) returns (maxPos: nat)
    ensures maxPos == MaxPosition(g.cols, 0)
  {
    maxPos := 0;
    for k := 0 to |g.cols|
      invariant Max(maxPos, MaxPosition(g.cols, k)) == MaxPosition(g.cols, 0)
    {
      var positions := g.cols[k].positions;
      for m := 0 to |positions|
        invariant Max(maxPos, Max(MaxOf(positions, m), MaxPosition(g.cols, k + 1))) == MaxPosition(g.cols, 0)
      {
        maxPos := Max(maxPos, positions[m]);
      }
    }
  }

  method WriteGroupColumns(mf: Memfile, g: Group, ghost q: nat, root: nat, env: Env)
    requires ValidGroup(g) && root <= q && mf.pos == q + 9 + 8 * NumObjects(g)
    requires mf.Now().Ready()
    modifies mf
    ensures mf.Now() == After(old(mf.Now()), EncGroupColumns(g, q, root, env))
    decreases g, 1
  {
    hide After, Parts, Listed;
    ghost var m := mf.Now();
    var offsetColumn := mf.pos;
    ghost var gap := mf.Skip(8 * |g.cols|);
    AfterNothing(m);
    SlotsReserved(m, [], gap);
    ghost var r := mf.pos;
    WriteColumns(mf, g.cols, root, env, offsetColumn, m, [], gap);
    GroupColumnsBytes(g, q, r, root, env);
  }

  lemma GroupColumnsBytes(g: Group, q: nat, r: nat, root: nat, env: Env)
    requires ValidGroup(g) && root <= q && r == q + 9 + 8 * NumObjects(g) + 8 * |g.cols|
    ensures [] + EncWords(Offsets(ColumnSizes(g.cols, 0), r, root), 8) + EncColumns(g.cols, 0, r, root, env)
            == EncGroupColumns(g, q, root, env)
  {
    hide EncWords, Offsets, ColumnSizes, EncColumns, NumObjects;
    Nothing(EncWords(Offsets(ColumnSizes(g.cols, 0), r, root), 8));
  }

  method WriteColumns(mf: Memfile, cols: seq<Column>, root: nat, env: Env, offsetColumn: nat,
                      ghost m: State, ghost head: seq<Byte>, ghost slots: seq<Byte>)
    requires forall i :: 0 <= i < |cols| ==> ValidColumn(cols[i])
    requires m.Ready() && root <= mf.pos && |slots| == 8 * |cols| && offsetColumn == m.pos + |head|
    requires mf.Now() == Reserved(m, head, [], slots, [])
    modifies mf
    ensures mf.Now() == After(m, head + EncWords(Offsets(ColumnSizes(cols, 0), old(mf.pos), root), 8)
                                 + EncColumns(cols, 0, old(mf.pos), root, env))
    decreases cols, 1
  {
    hide Reserved, After, ColumnsFrom, Offsets, EncColumns, ColumnSizes, EncColumn, EncWords;
    ghost var offs: seq<nat>, gap, body: seq<Byte> := [], slots, [];
    ghost var r := mf.pos;
    NoColumns(cols, r, root, env);
    for k := 0 to |cols|
      invariant |offs| == k && |gap| == 8 * (|cols| - k)
      invariant mf.Now() == Reserved(m, head, offs, gap, body) && root <= mf.pos
      invariant ColumnsFrom(cols, r, k, mf.pos, root, env, offs, body)
    {
      ghost var q := mf.pos;
      var offset: nat := mf.pos - root;
      FillSlot(mf, m, head, offs, gap, body, offsetColumn + 8 * k, offset);
      WriteColumn(mf, cols[k], root, env);
      ghost var bs := EncColumn(cols[k], q, root, env);
      Extend(m, head, offs + [offset], gap[8..], body, bs);
      OneColumn(cols, r, k, q, mf.pos, root, env, offs, body);
      offs, gap, body := offs + [offset], gap[8..], body + bs;
    }
    AllColumns(cols, r, mf.pos, root, env, offs, body);
    AllFilled(m, head, offs, gap, body);
  }

  /** Of the columns that start at r, the first k are written: body holds their bytes up to q
      and offs their offsets. */
  ghost predicate ColumnsFrom(cols: seq<Column>, r: nat, k: nat, q: nat, root: nat, env: Env,
                              offs: seq<nat>, body: seq<Byte>)
    requires k <= |cols| && root <= r && root <= q && forall i :: 0 <= i < |cols| ==> ValidColumn(cols[i])
  {
    && Parts(body, EncColumns(cols, k, q, root, env), EncColumns(cols, 0, r, root, env))
    && Listed(offs, Offsets(ColumnSizes(cols, k), q, root), Offsets(ColumnSizes(cols, 0), r, root))
  }

  lemma NoColumns(cols: seq<Column>, r: nat, root: nat, env: Env)
    requires root <= r && forall i :: 0 <= i < |cols| ==> ValidColumn(cols[i])
    ensures ColumnsFrom(cols, r, 0, r, root, env, [], [])
  {
    hide Parts, Listed, EncColumns, ColumnSizes, Offsets;
    NothingDone(EncColumns(cols, 0, r, root, env));
    NothingListed(Offsets(ColumnSizes(cols, 0), r, root));
  }

  lemma OneColumn(cols: seq<Column>, r: nat, k: nat, q: nat, e: nat, root: nat, env: Env, offs: seq<nat>,
      body: seq<Byte>)
    requires k < |cols| && root <= r && root <= q && forall i :: 0 <= i < |cols| ==> ValidColumn(cols[i])
    requires e == q + SizeColumn(cols[k]) && ColumnsFrom(cols, r, k, q, root, env, offs, body)
    ensures ColumnsFrom(cols, r, k + 1, e, root, env, offs + [q - root], body + EncColumn(cols[k], q, root, env))
  {
    hide Parts, Listed, EncColumn, Offsets;
    PieceDone(body, EncColumn(cols[k], q, root, env), EncColumns(cols, k + 1, e, root, env),
              EncColumns(cols, 0, r, root, env));
    OffsetListed(SizeColumn(cols[k]), ColumnSizes(cols, k + 1), q, e, root, q - root, offs,
                 Offsets(ColumnSizes(cols, 0), r, root));
  }

  lemma AllColumns(cols: seq<Column>, r: nat, q: nat, root: nat, env: Env, offs: seq<nat>, body: seq<Byte>)
    requires root <= r && root <= q && forall i :: 0 <= i < |cols| ==> ValidColumn(cols[i])
    requires ColumnsFrom(cols, r, |cols|, q, root, env, offs, body)
    ensures offs == Offsets(ColumnSizes(cols, 0), r, root) && body == EncColumns(cols, 0, r, root, env)
  {
    hide Parts, Listed;
    AllDone(body, EncColumns(cols, 0, r, root, env));
    AllListed(offs, Offsets(ColumnSizes(cols, 0), r, root));
  }

  method WriteColumn(mf: Memfile, c: Column, root: nat, env: Env)
    requires ValidColumn(c) && mf.Now().Ready() && root <= mf.pos
    modifies mf
    ensures mf.Now() == After(old(mf.Now()), EncColumn(c, old(mf.pos), root, env))
    decreases c, 1
  {
    hide After, Reserved, Offsets, EntrySizes, EncEntries, EncColumn, EncColumnHead, EncWords;
    ghost var m, p, head, pw := mf.Now(), mf.pos, EncColumnHead(c), EncWords(c.positions, 4);
    mf.Write(EncColumnHead(c));
    var valueEntryOffsets := mf.pos;
    ghost var gap := mf.Skip(8 * |c.entries|);
    mf.Write(EncWords(c.positions, 4));
    SlotsReserved(m, head, gap);
    Extend(m, head, [], gap, [], pw);
    Nothing(pw);
    ColumnBytes(c, p, mf.pos, root, env);
    WriteEntries(mf, c.ty, c.entries, root, env, valueEntryOffsets, m, head, gap, pw);
  }

  lemma ColumnBytes(c: Column, p: nat, r: nat, root: nat, env: Env)
    requires ValidColumn(c) && root <= p && r == p + 14 + 8 * |c.entries| + 4 * |c.positions|
    ensures EncColumn(c, p, root, env)
            == EncColumnHead(c) + EncWords(Offsets(EntrySizes(c.ty, c.entries, 0), r, root), 8)
               + EncWords(c.positions, 4) + EncEntries(c.ty, c.entries, 0, r, root, env)
  {
    hide Offsets, EntrySizes, EncEntries, EncColumnHead, EncWords;
  }

  method WriteEntries(mf: Memfile, t: FieldType, entries: seq<Entry>, root: nat, env: Env, valueEntryOffsets: nat,
                      ghost m: State, ghost head: seq<Byte>, ghost slots: seq<Byte>, ghost pw: seq<Byte>)
    requires forall i :: 0 <= i < |entries| ==> ValidEntry(t, entries[i])
    requires m.Ready() && root <= mf.pos && |slots| == 8 * |entries| && valueEntryOffsets == m.pos + |head|
    requires mf.Now() == Reserved(m, head, [], slots, pw)
    modifies mf
    ensures mf.Now() == After(m, head + EncWords(Offsets(EntrySizes(t, entries, 0), old(mf.pos), root), 8)
                                 + pw + EncEntries(t, entries, 0, old(mf.pos), root, env))
    decreases entries, 1
  {
    hide Reserved, After, EntriesFrom, Offsets, EncEntries, EntrySizes, EncEntry, EncWords, SizeEntry, SizeEntries;
    ghost var offs: seq<nat>, gap, body: seq<Byte> := [], slots, [];
    ghost var r := mf.pos;
    NoEntries(t, entries, r, root, env);
    Nothing(pw);
    for i := 0 to |entries|
      invariant |offs| == i && |gap| == 8 * (|entries| - i)
      invariant mf.Now() == Reserved(m, head, offs, gap, pw + body) && root <= mf.pos
      invariant EntriesFrom(t, entries, r, i, mf.pos, root, env, offs, body)
    {
      ghost var q := mf.pos;
      var offset: nat := mf.pos - root;
      FillSlot(mf, m, head, offs, gap, pw + body, valueEntryOffsets + 8 * i, offset);
      WriteEntry(mf, t, entries[i], root, env);
      ghost var bs := EncEntry(t, entries[i], q, root, env);
      Extend(m, head, offs + [offset], gap[8..], pw + body, bs);
      Assoc(pw, body, bs);
      OneEntry(t, entries, r, i, q, mf.pos, root, env, offs, body);
      offs, gap, body := offs + [offset], gap[8..], body + bs;
    }
    AllEntries(t, entries, r, mf.pos, root, env, offs, body);
    AllFilled(m, head, offs, gap, pw + body);
    Assoc(head + EncWords(offs, 8), pw, body);
  }

  /** Of the entries that start at r, the first k are written: body holds their bytes up to q
      and offs their offsets. */
  ghost predicate EntriesFrom(t: FieldType, entries: seq<Entry>, r: nat, k: nat, q: nat, root: nat, env: Env,
                              offs: seq<nat>, body: seq<Byte>)
    requires k <= |entries| && root <= r && root <= q && forall i :: 0 <= i < |entries| ==> ValidEntry(t, entries[i])
  {
    && Parts(body, EncEntries(t, entries, k, q, root, env), EncEntries(t, entries, 0, r, root, env))
    && Listed(offs, Offsets(EntrySizes(t, entries, k), q, root), Offsets(EntrySizes(t, entries, 0), r, root))
  }

  lemma NoEntries(t: FieldType, entries: seq<Entry>, r: nat, root: nat, env: Env)
    requires root <= r && forall i :: 0 <= i < |entries| ==> ValidEntry(t, entries[i])
    ensures EntriesFrom(t, entries, r, 0, r, root, env, [], [])
  {
    hide Parts, Listed, EncEntries, EntrySizes, Offsets;
    NothingDone(EncEntries(t, entries, 0, r, root, env));
    NothingListed(Offsets(EntrySizes(t, entries, 0), r, root));
  }

  lemma OneEntry(t: FieldType, entries: seq<Entry>, r: nat, k: nat, q: nat, e: nat, root: nat, env: Env,
                 offs: seq<nat>, body: seq<Byte>)
    requires k < |entries| && root <= r && root <= q && forall i :: 0 <= i < |entries| ==> ValidEntry(t, entries[i])
    requires e == q + SizeEntry(t, entries[k]) && EntriesFrom(t, entries, r, k, q, root, env, offs, body)
    ensures EntriesFrom(t, entries, r, k + 1, e, root, env, offs + [q - root],
                        body + EncEntry(t, entries[k], q, root, env))
  {
    hide Parts, Listed, EncEntry, Offsets;
    PieceDone(body, EncEntry(t, entries[k], q, root, env), EncEntries(t, entries, k + 1, e, root, env),
              EncEntries(t, entries, 0, r, root, env));
    OffsetListed(SizeEntry(t, entries[k]), EntrySizes(t, entries, k + 1), q, e, root, q - root, offs,
                 Offsets(EntrySizes(t, entries, 0), r, root));
  }

  lemma AllEntries(t: FieldType, entries: seq<Entry>, r: nat, q: nat, root: nat, env: Env, offs: seq<nat>,
      body: seq<Byte>)
    requires root <= r && root <= q && forall i :: 0 <= i < |entries| ==> ValidEntry(t, entries[i])
    requires EntriesFrom(t, entries, r, |entries|, q, root, env, offs, body)
    ensures offs == Offsets(EntrySizes(t, entries, 0), r, root) && body == EncEntries(t, entries, 0, r, root, env)
  {
    hide Parts, Listed;
    AllDone(body, EncEntries(t, entries, 0, r, root, env));
    AllListed(offs, Offsets(EntrySizes(t, entries, 0), r, root));
  }

  method WriteEntry(mf: Memfile, t: FieldType, e: Entry, root: nat, env: Env)
    requires ValidEntry(t, e) && mf.Now().Ready() && root <= mf.pos
    modifies mf
    ensures mf.Now() == After(old(mf.Now()), EncEntry(t, e, old(mf.pos), root, env))
    decreases e, 1
  {
    hide After;
    ghost var m, p := mf.Now(), mf.pos;
    match e
    case Vals(vals) =>
      mf.Write(Le(|vals|, 4));
      mf.Write(EncWords(vals, TypeWidth(t)));
      AfterBoth(m, Le(|vals|, 4), EncWords(vals, TypeWidth(t)));
    case Objs(objs) =>
      mf.Write(Le(|objs|, 4));
      WriteChain(mf, objs, root, env);
      AfterBoth(m, Le(|objs|, 4), EncObjs(objs, 0, p + 4, root, true, env));
  }

  /** Serialises the objects of a column entry; before each object but the first, the next
      field of the one before it is filled in. */
  method WriteChain(mf: Memfile, objs: seq<Obj>, root: nat, env: Env)
    requires ValidObjs(objs) && mf.Now().Ready() && root <= mf.pos
    modifies mf
    ensures mf.Now() == After(old(mf.Now()), EncObjs(objs, 0, old(mf.pos), root, true, env))
    decreases objs, 1
  {
    hide After, Parts, Unlinked;
    ghost var m, done: seq<Byte>, whole := mf.Now(), [], EncObjs(objs, 0, mf.pos, root, true, env);
    AfterNothing(m);
    NothingDone(whole);
    var previousNext := 0;
    for i := 0 to |objs|
      invariant mf.Now().Ready() && root <= mf.pos
      invariant previousNext == 0 <==> i == 0
      invariant i == 0 ==> mf.Now() == After(m, done) && Parts(done, EncObjs(objs, i, mf.pos, root, true, env), whole)
      invariant i > 0 ==> Unlinked(mf.Now(), m, objs, i - 1, done, whole, previousNext, root, env)
    {
      if previousNext != 0 {
        done := Link(mf, m, objs, i - 1, done, whole, previousNext, root, env);
      }
      previousNext := WriteUnlinked(mf, m, objs, i, done, whole, root, env);
    }
    if |objs| > 0 {
      LastOne(mf.Now(), m, objs, done, whole, previousNext, root, env);
    } else {
      AllDone(done, whole);
    }
  }

  /** Object k has been written at the end with an empty next field, the objects before it
      with their final one. */
  ghost predicate Unlinked(now: State, m: State, objs: seq<Obj>, k: nat, done: seq<Byte>, whole: seq<Byte>,
                           nextOffset: nat, root: nat, env: Env)
    requires k < |objs| && ValidObjs(objs)
  {
    var q := m.pos + |done|;
    && m.Ready() && root <= q
    && now == After(m, done + EncObj(objs[k], q, root, 0, env))
    && nextOffset == q + HeadSize(objs[k].props) - 8
    && Parts(done, EncObjs(objs, k, q, root, true, env), whole)
  }

  method WriteUnlinked(mf: Memfile, ghost m: State, objs: seq<Obj>, k: nat, ghost done: seq<Byte>,
                       ghost whole: seq<Byte>, root: nat, env: Env)
    returns (nextOffset: nat)
    requires k < |objs| && ValidObjs(objs) && m.Ready() && root <= mf.pos
    requires mf.Now() == After(m, done) && Parts(done, EncObjs(objs, k, mf.pos, root, true, env), whole)
    modifies mf
    ensures Unlinked(mf.Now(), m, objs, k, done, whole, nextOffset, root, env)
    ensures nextOffset > 0 && mf.Now().Ready() && root <= mf.pos
    decreases objs, 0
  {
    hide After, Parts;
    ghost var q := mf.pos;
    nextOffset := Serialize(mf, objs[k], root, env);
    AfterBoth(m, done, EncObj(objs[k], q, root, 0, env));
  }

  lemma LastOne(now: State, m: State, objs: seq<Obj>, done: seq<Byte>, whole: seq<Byte>,
                nextOffset: nat, root: nat, env: Env)
    requires ValidObjs(objs) && |objs| > 0
    requires Unlinked(now, m, objs, |objs| - 1, done, whole, nextOffset, root, env)
    ensures now == After(m, whole)
  {
    hide After, Parts;
    var k, q := |objs| - 1, m.pos + |done|;
    ObjDone(objs, k, q, q + SizeObj(objs[k]), root, true, 0, env, done, whole);
    AllDone(done + EncObj(objs[k], q, root, 0, env), whole);
  }

  /** Sets the next field of object k to the offset of the cursor. */
  method Link(mf: Memfile, ghost m: State, ghost objs: seq<Obj>, ghost k: nat, ghost done: seq<Byte>,
              ghost whole: seq<Byte>, nextOffset: nat, root: nat, ghost env: Env)
    returns (ghost done': seq<Byte>)
    requires k + 1 < |objs| && ValidObjs(objs) && root <= mf.pos
    requires Unlinked(mf.Now(), m, objs, k, done, whole, nextOffset, root, env)
    modifies mf
    ensures m.Ready() && mf.Now() == After(m, done') && mf.pos == old(mf.pos)
    ensures Parts(done', EncObjs(objs, k + 1, mf.pos, root, true, env), whole)
  {
    hide After, Parts, EncObj, EncObjs, Le, HeadSize;
    var relative: nat := mf.pos - root;
    ghost var q, h, e := m.pos + |done|, HeadSize(objs[k].props), mf.pos;
    ghost var last := EncObj(objs[k], q, root, 0, env);
    NextField(objs[k], q, root, relative, env);
    InFront(done, last[..h - 8], Le(0, 8), last[h..]);
    InFront(done, last[..h - 8], Le(relative, 8), last[h..]);
    mf.Patch(m, done + last[..h - 8], Le(0, 8), last[h..], nextOffset, Le(relative, 8));
    done' := done + EncObj(objs[k], q, root, relative, env);
    ObjDone(objs, k, q, mf.pos, root, true, relative, env, done, whole);
  }

  lemma InFront(d: seq<Byte>, a: seq<Byte>, x: seq<Byte>, c: seq<Byte>)
    ensures d + (a + x + c) == (d + a) + x + c
  {
  }

  /** The next field is the only part of an object's bytes that depends on its value. */
  lemma NextField(o: Obj, q: nat, root: nat, next: nat, env: Env)
    requires ValidObj(o) && root <= q
    ensures var h := HeadSize(o.props); var e := EncObj(o, q, root, 0, env);
      && e == e[..h - 8] + Le(0, 8) + e[h..]
      && EncObj(o, q, root, next, env) == e[..h - 8] + Le(next, 8) + e[h..]
  {
    hide EncProps, EncWords, Offsets, Le, PropSizes, Flags;
    var h := HeadSize(o.props);
    var a := [OBJECT_BEGIN] + Le(env.id(q), 8) + Le(Flags(o.props, 0), 4)
             + EncWords(Offsets(PropSizes(o.props, 0), q + h, root), 8);
    var body := EncProps(o.props, 0, q + h, root, env);
    Middle(a, Le(0, 8), body, [OBJECT_END]);
    Middle(a, Le(next, 8), body, [OBJECT_END]);
  }

  lemma Middle(a: seq<Byte>, x: seq<Byte>, b: seq<Byte>, c: seq<Byte>)
    ensures var e := a + x + b + c; var h := |a| + |x|;
      e[..|a|] == a && e[h..] == b + c && e == a + x + (b + c)
  {
  }
}
