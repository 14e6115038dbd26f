/** Object columns as linked lists: following the next fields through the raw bytes. */
module Chain {
  import opened Bytes
  import opened ColumnDoc
  import opened Format
  import opened Scan
  import opened Roundtrip

  /** The next field of the object at p; it lies behind one offset per flag that is set. */
  function NextAt(b: seq<Byte>, p: nat): nat {
    if p + 13 > |b| then 0 else
    var q := p + 13 + 8 * SetBits(Word(b, p + 9, 4), SLOTS);
    if q + 8 > |b| then 0 else Word(b, q, 8)
  }

  /** The objects that at most n steps along the next fields visit, the first at p. */
  function Follow(b: seq<Byte>, root: nat, p: nat, n: nat): (ps: seq<nat>)
    decreases n
  {
    [p] + if n == 0 || NextAt(b, p) == 0 then [] else Follow(b, root, root + NextAt(b, p), n - 1)
  }

  /** Where the objects of a list start when object i starts at q. */
  function Starts(objs: seq<Obj>, i: nat, q: nat): (ps: seq<nat>)
    requires i <= |objs|
    ensures |ps| == |objs| - i
    decreases |objs| - i
  {
    if i == |objs| then [] else [q] + Starts(objs, i + 1, q + SizeObj(objs[i]))
  }

  /** However long the next fields are followed, they visit the objects of the entry in order,
      each where it was serialised, and end at the last one. */
  lemma {:induction false} FollowVisits(b: seq<Byte>, objs: seq<Obj>, i: nat, q: nat, root: nat, env: Env, n: nat)
    requires i < |objs| && ValidObjs(objs) && root < q && n >= |objs| - i - 1
    requires q + SizeObjs(objs, i) - root <= Range(8) && At(b, q, EncObjs(objs, i, q, root, true, env))
    ensures Follow(b, root, q, n) == Starts(objs, i, q)
    decreases |objs| - i
  {
    hide At, EncObjs, EncObj, EncHead, SizeObj, SizeObjs, HeadSize, NextAt, Follow, Starts;
    var e, next := q + SizeObj(objs[i]), NextOf(objs, i, q, root, true);
    ObjsStep(objs, i, q, e, root, true, env);
    AtBoth(b, q, EncObj(objs[i], q, root, next, env), EncObjs(objs, i + 1, e, root, true, env), e);
    NextFits(objs, i, q, root);
    NextReads(b, objs[i], q, root, next, env);
    FollowStep(b, root, q, n);
    StartsStep(objs, i, q);
    if i + 1 < |objs| {
      FollowVisits(b, objs, i + 1, e, root, env, n - 1);
    }
  }

  lemma FollowStep(b: seq<Byte>, root: nat, p: nat, n: nat)
    ensures Follow(b, root, p, n)
            == if n == 0 || NextAt(b, p) == 0 then [p] else [p] + Follow(b, root, root + NextAt(b, p), n - 1)
  {
    hide NextAt;
  }

  lemma StartsStep(objs: seq<Obj>, i: nat, q: nat)
    requires i < |objs|
    ensures Starts(objs, i, q) == if i + 1 == |objs| then [q] else [q] + Starts(objs, i + 1, q + SizeObj(objs[i]))
  {
    hide SizeObj;
  }

  lemma NextReads(b: seq<Byte>, o: Obj, p: nat, root: nat, next: nat, env: Env)
    requires ValidObj(o) && root <= p && next < Range(8)
    requires p + SizeObj(o) - root <= Range(8) && At(b, p, EncObj(o, p, root, next, env))
    ensures NextAt(b, p) == next
  {
    hide At, EncObj, EncHead, EncProps, SizeObj, Word, Words, SetBits, CountProps, Offsets, PropSizes, ValidObj;
    ObjParts(b, o, p, root, next, env);
    ReadHead(b, o, p, root, next, env);
  }

  /** The chain of a column entry has exactly as many objects as the entry's element count. */
  lemma EntryChain(b: seq<Byte>, objs: seq<Obj>, q: nat, root: nat, env: Env, n: nat)
    requires ValidObjs(objs) && 0 < |objs| < Range(4) && n >= |objs| - 1 && root <= q
    requires q + SizeEntry(Object, Objs(objs)) - root <= Range(8)
        && At(b, q, EncEntry(Object, Objs(objs), q, root, env))
    ensures Follow(b, root, q + 4, n) == Starts(objs, 0, q + 4)
    ensures |Follow(b, root, q + 4, n)| == Word(b, q, 4)
  {
    hide At, EncObjs, SizeObjs, Le, Word, Follow;
    AtBoth(b, q, Le(|objs|, 4), EncObjs(objs, 0, q + 4, root, true, env), q + 4);
    ReadWord(b, q, |objs|, 4);
    FollowVisits(b, objs, 0, q + 4, root, env, n);
  }
}
