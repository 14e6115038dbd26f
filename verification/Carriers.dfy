/** The parallel string dictionary as a value: strings belong to carriers by hash, each carrier
    has a sequential dictionary of its own, and together they are one map. */
module Carriers {
  import opened Bytes
  import opened Dictionary
  import opened GlobalId
  import opened Scatter
  import SyncDict

  type Hash = string -> nat

  function Home(hash: Hash, n: nat, s: string): (c: nat)
    requires n > 0
    ensures c < n
  {
    hash(s) % n
  }

  // ----- the carriers as one map

  /** Every carrier is sound and knows only strings that belong to it. */
  ghost predicate Sound(dicts: seq<Dict>, hash: Hash) {
    && 0 < |dicts| <= MAX_CARRIERS
    && forall c :: 0 <= c < |dicts| ==> SlotsOk(dicts[c]) && IndexOk(dicts[c]) && AtHome(dicts[c], hash, |dicts|, c)
  }

  ghost predicate AtHome(d: Dict, hash: Hash, n: nat, c: nat)
    requires n > 0
  {
    forall s :: s in d.index ==> Home(hash, n, s) == c
  }

  predicate Known(dicts: seq<Dict>, hash: Hash, s: string)
    requires |dicts| > 0
  {
    s in dicts[Home(hash, |dicts|, s)].index
  }

  /** The one id of a known string. */
  function IdOf(dicts: seq<Dict>, hash: Hash, s: string): nat
    requires |dicts| > 0 && Known(dicts, hash, s)
  {
    var c := Home(hash, |dicts|, s);
    MakeGlobal(c, dicts[c].index[s])
  }

  /** The ids by which strings are encoded; those of unknown strings mean nothing. */
  function Ids(dicts: seq<Dict>, hash: Hash): string -> nat
    requires |dicts| > 0
  {
    (s: string) => if Known(dicts, hash, s) then IdOf(dicts, hash, s) else 0
  }

  lemma SoundSize(dicts: seq<Dict>, hash: Hash)
    requires Sound(dicts, hash)
    ensures 0 < |dicts| && forall c :: 0 <= c < |dicts| ==> SlotsOk(dicts[c])
  {
  }

  /** No carrier has more slots than a local id can name. */
  ghost predicate Small(dicts: seq<Dict>) {
    forall c :: 0 <= c < |dicts| ==> |dicts[c].contents| <= Pow2(LOCAL_BITS)
  }

  ghost predicate AllInStep(dicts: seq<Dict>) {
    forall c :: 0 <= c < |dicts| ==> InStep(dicts[c])
  }

  /** Known strings have different ids. */
  lemma IdsDiffer(dicts: seq<Dict>, hash: Hash, s: string, t: string)
    requires Sound(dicts, hash) && AllInStep(dicts) && Small(dicts)
    requires Known(dicts, hash, s) && Known(dicts, hash, t)
    ensures IdOf(dicts, hash, s) == IdOf(dicts, hash, t) <==> s == t
  {
    hide Pow2, SlotsOk, MakeGlobal;
    var c, k := Home(hash, |dicts|, s), Home(hash, |dicts|, t);
    Distinct(c, dicts[c].index[s], k, dicts[k].index[t]);
  }

  /** An id leads back to the carrier and slot of its string. */
  lemma IdParts(dicts: seq<Dict>, hash: Hash, s: string)
    requires Sound(dicts, hash) && Small(dicts) && Known(dicts, hash, s)
    ensures var c := Home(hash, |dicts|, s);
      GetOwner(IdOf(dicts, hash, s)) == c && GetLocal(IdOf(dicts, hash, s)) == dicts[c].index[s]
  {
    hide Pow2, SlotsOk, MakeGlobal, GetOwner, GetLocal;
    var c := Home(hash, |dicts|, s);
    FittingPartsBack(c, dicts[c].index[s]);
  }

  /** In numbers: the carrier is the remainder of the hash code, and the id says so above its lower
      54 bits. */
  lemma IdInNumbers(dicts: seq<Dict>, hash: Hash, s: string)
    requires Sound(dicts, hash) && Small(dicts) && Known(dicts, hash, s)
    ensures var c := hash(s) % |dicts|;
      s in dicts[c].index && IdOf(dicts, hash, s) == c * 0x40_0000_0000_0000 + dicts[c].index[s]
      && dicts[c].index[s] < 0x40_0000_0000_0000 && IdOf(dicts, hash, s) / 0x40_0000_0000_0000 == c
  {
    hide Pow2, SlotsOk, MakeGlobal, GetOwner, GetLocal;
    LocalRange();
    var c := Home(hash, |dicts|, s);
    var local := dicts[c].index[s];
    InNumbers(c, local);
    Quotient(c * 0x40_0000_0000_0000 + local, 0x40_0000_0000_0000, c, local);
  }

  /** The ids a caller may extract. */
  ghost predicate Readable(dicts: seq<Dict>, id: nat) {
    GetOwner(id) < |dicts| && Extractable(dicts[GetOwner(id)], GetLocal(id))
  }

  ghost function Text(dicts: seq<Dict>, id: nat): string
    requires Readable(dicts, id)
  {
    ExtractOne(dicts[GetOwner(id)], GetLocal(id))
  }

  /** The id of a known string reads back as the string exactly when its local part is not 0,
      or the string is the one that 0 stands for. */
  lemma KnownReadsBack(dicts: seq<Dict>, hash: Hash, s: string)
    requires Sound(dicts, hash) && AllInStep(dicts) && Small(dicts) && Known(dicts, hash, s)
    ensures var id := IdOf(dicts, hash, s);
      Readable(dicts, id) && (Text(dicts, id) == s <==> GetLocal(id) != 0 || s == "null")
  {
    hide Pow2, SlotsOk, IdOf, GetOwner, GetLocal;
    IdParts(dicts, hash, s);
  }

  // ----- what a batch does to the carriers

  /** Each carrier inserts its share of the batch. */
  ghost predicate Inserted(before: seq<Dict>, after: seq<Dict>, work: seq<seq<Key>>, outs: seq<seq<nat>>,
      grow: nat -> nat)
    requires Grows(grow) && forall c :: 0 <= c < |before| ==> SlotsOk(before[c])
  {
    && |after| == |work| == |outs| == |before|
    && forall c :: 0 <= c < |before| ==> InsertAll(before[c], work[c], grow) == Outcome(after[c], outs[c])
  }

  /** work[c] is carrier c's share of the batch. */
  ghost predicate Routed(keys: seq<string>, carriers: seq<nat>, work: seq<seq<Key>>, hash: Hash, n: nat)
    requires n > 0
  {
    && |carriers| == |keys| && |work| == n
    && (forall i :: 0 <= i < |keys| ==> carriers[i] == Home(hash, n, keys[i]))
    && (forall c :: 0 <= c < n ==> work[c] == Share(AsKeys(keys), carriers, c, |keys|))
  }

  lemma CarrierInserted(before: seq<Dict>, after: seq<Dict>, hash: Hash, keys: seq<string>, carriers: seq<nat>,
                        work: seq<seq<Key>>, outs: seq<seq<nat>>, grow: nat -> nat, c: nat)
    requires Grows(grow) && Sound(before, hash) && Inserted(before, after, work, outs, grow)
    requires Routed(keys, carriers, work, hash, |before|) && c < |before|
    ensures SlotsOk(after[c]) && IndexOk(after[c]) && (InStep(before[c]) <==> InStep(after[c]))
    ensures forall s :: s in before[c].index ==> s in after[c].index && after[c].index[s] == before[c].index[s]
    ensures forall s :: s in after[c].index <==> s in before[c].index || (s in keys && Home(hash, |before|, s) == c)
    ensures AtHome(after[c], hash, |before|, c)
  {
    hide SlotsOk, IndexOk, InStep, Grows, Home, InsertAll, Share, AsKeys;
    InsertAllOk(before[c], work[c], grow);
    ShareOfKeys(keys, carriers, hash, |before|, c);
  }

  /** The id that ends up at position i of the result. */
  lemma IdInserted(before: seq<Dict>, after: seq<Dict>, hash: Hash, keys: seq<string>, carriers: seq<nat>,
                   work: seq<seq<Key>>, outs: seq<seq<nat>>, grow: nat -> nat, i: nat)
    requires Grows(grow) && Sound(before, hash) && Inserted(before, after, work, outs, grow)
    requires Routed(keys, carriers, work, hash, |before|) && i < |keys|
    ensures var c := carriers[i]; var r := Rank(carriers, c, i);
      c < |before| && Known(after, hash, keys[i]) && r < |outs[c]|
      && MakeGlobal(c, outs[c][r]) == IdOf(after, hash, keys[i])
  {
    hide SlotsOk, IndexOk, InStep, Grows, Home, InsertAll, Share, AsKeys, MakeGlobal;
    var c := carriers[i];
    ShareAt(AsKeys(keys), carriers, |keys|, i);
    InsertAllOk(before[c], work[c], grow);
    assert work[c][Rank(carriers, c, i)] == Key(keys[i]);
  }

  /** A batch of insertions acts on the one map: it adds the batch's strings and nothing else,
      changes no id, and reports each string's id at the string's position. */
  lemma InsertedOk(before: seq<Dict>, after: seq<Dict>, hash: Hash, keys: seq<string>, carriers: seq<nat>,
                   work: seq<seq<Key>>, outs: seq<seq<nat>>, grow: nat -> nat)
    requires Grows(grow) && Sound(before, hash) && Inserted(before, after, work, outs, grow)
    requires |carriers| == |keys| && Routed(keys, carriers, work, hash, |before|)
    ensures Sound(after, hash) && (AllInStep(before) <==> AllInStep(after))
    ensures forall s :: Known(after, hash, s) <==> Known(before, hash, s) || s in keys
    ensures forall s :: Known(before, hash, s) ==> IdOf(after, hash, s) == IdOf(before, hash, s)
    ensures forall i :: 0 <= i < |keys| ==>
      var c := carriers[i]; var r := Rank(carriers, c, i);
      c < |outs| && r < |outs[c]| && Known(after, hash, keys[i])
          && MakeGlobal(c, outs[c][r]) == IdOf(after, hash, keys[i])
  {
    hide SlotsOk, IndexOk, InStep, MakeGlobal, Grows, Home, AtHome, Routed;
    forall c | 0 <= c < |before|
      ensures SlotsOk(after[c]) && IndexOk(after[c]) && (InStep(before[c]) <==> InStep(after[c]))
      ensures AtHome(after[c], hash, |before|, c)
      ensures forall s :: s in before[c].index ==> s in after[c].index && after[c].index[s] == before[c].index[s]
      ensures forall s :: s in after[c].index <==> s in before[c].index || (s in keys && Home(hash, |before|, s) == c)
    {
      CarrierInserted(before, after, hash, keys, carriers, work, outs, grow, c);
    }
    forall i | 0 <= i < |keys|
      ensures var c := carriers[i]; var r := Rank(carriers, c, i);
        c < |outs| && r < |outs[c]| && Known(after, hash, keys[i])
            && MakeGlobal(c, outs[c][r]) == IdOf(after, hash, keys[i])
    {
      IdInserted(before, after, hash, keys, carriers, work, outs, grow, i);
    }
  }

  function AsKeys(keys: seq<string>): (ks: seq<Key>)
    ensures |ks| == |keys| && forall i :: 0 <= i < |keys| ==> ks[i] == Key(keys[i])
  {
    if keys == [] then [] else [Key(keys[0])] + AsKeys(keys[1..])
  }

  lemma ShareOfKeys(keys: seq<string>, carriers: seq<nat>, hash: Hash, n: nat, c: nat)
    requires n > 0 && |carriers| == |keys| && forall i :: 0 <= i < |keys| ==> carriers[i] == Home(hash, n, keys[i])
    ensures forall s :: Key(s) in Share(AsKeys(keys), carriers, c, |keys|) <==> s in keys && Home(hash, n, s) == c
  {
    hide Share, AsKeys, Home;
    forall s
      ensures Key(s) in Share(AsKeys(keys), carriers, c, |keys|) <==> s in keys && Home(hash, n, s) == c
    {
      ShareHolds(AsKeys(keys), carriers, c, |keys|, Key(s));
      if s in keys && Home(hash, n, s) == c {
        var i :| 0 <= i < |keys| && keys[i] == s;
        assert carriers[i] == c && AsKeys(keys)[i] == Key(s);
      }
    }
  }

  // ----- removal

  function Owners(ids: seq<nat>): (os: seq<nat>)
    ensures |os| == |ids| && forall i :: 0 <= i < |ids| ==> os[i] == GetOwner(ids[i])
  {
    if ids == [] then [] else [GetOwner(ids[0])] + Owners(ids[1..])
  }

  function Locals(ids: seq<nat>): (ls: seq<nat>)
    ensures |ls| == |ids| && forall i :: 0 <= i < |ids| ==> ls[i] == GetLocal(ids[i])
  {
    if ids == [] then [] else [GetLocal(ids[0])] + Locals(ids[1..])
  }

  /** The local ids that carrier c gets of a batch. */
  function LocalsOf(ids: seq<nat>, c: nat): (ls: seq<nat>) {
    Share<nat>(Locals(ids), Owners(ids), c, |ids|)
  }

  lemma LocalsOfHolds(ids: seq<nat>, c: nat, local: nat)
    ensures local in LocalsOf(ids, c) <==> exists i ::
      0 <= i < |ids| && GetOwner(ids[i]) == c && GetLocal(ids[i]) == local
  {
    hide GetOwner, GetLocal, Share, Owners, Locals;
    ShareHolds<nat>(Locals(ids), Owners(ids), c, |ids|, local);
    if i :| 0 <= i < |ids| && Owners(ids)[i] == c && Locals(ids)[i] == local {
      assert GetOwner(ids[i]) == c && GetLocal(ids[i]) == local;
    }
    if i :| 0 <= i < |ids| && GetOwner(ids[i]) == c && GetLocal(ids[i]) == local {
      assert Owners(ids)[i] == c && Locals(ids)[i] == local;
    }
  }

  /** The ids that name a slot of one of the carriers. */
  ghost predicate Slots(dicts: seq<Dict>, ids: seq<nat>) {
    forall i :: 0 <= i < |ids| ==>
      ids[i] < Pow2(WORD_BITS) && GetOwner(ids[i]) < |dicts| && GetLocal(ids[i]) < |dicts[GetOwner(ids[i])].contents|
  }

  /** Whether one of the ids names a slot in use. */
  ghost predicate HitsLiveId(dicts: seq<Dict>, ids: seq<nat>)
    requires Slots(dicts, ids)
  {
    exists i :: 0 <= i < |ids| && dicts[GetOwner(ids[i])].contents[GetLocal(ids[i])].Used?
  }

  /** The share of carrier c holds the local part of an id exactly when the batch holds the id. */
  lemma ShareOfIds(ids: seq<nat>, c: nat, local: nat)
    requires c < MAX_CARRIERS && local < Pow2(LOCAL_BITS) && forall i :: 0 <= i < |ids| ==> ids[i] < Pow2(WORD_BITS)
    ensures local in LocalsOf(ids, c) <==> MakeGlobal(c, local) in ids
  {
    hide Pow2, MakeGlobal, GetOwner, GetLocal, LocalsOf;
    LocalsOfHolds(ids, c, local);
    FittingPartsBack(c, local);
    if i :| 0 <= i < |ids| && GetOwner(ids[i]) == c && GetLocal(ids[i]) == local {
      PartsMake(ids[i]);
    }
  }

  /** What carrier c removes are slots it has. */
  lemma ShareInRange(dicts: seq<Dict>, ids: seq<nat>, c: nat)
    requires c < |dicts| && Slots(dicts, ids)
    ensures forall k :: 0 <= k < |LocalsOf(ids, c)| ==> LocalsOf(ids, c)[k] < |dicts[c].contents|
  {
    hide Pow2, GetOwner, GetLocal, LocalsOf;
    var share := LocalsOf(ids, c);
    forall k | 0 <= k < |share|
      ensures share[k] < |dicts[c].contents|
    {
      LocalsOfHolds(ids, c, share[k]);
    }
  }

  /** Each carrier removes its share of the batch. */
  ghost predicate Removed(before: seq<Dict>, after: seq<Dict>, ids: seq<nat>, forgets: bool) {
    && |after| == |before|
    && forall c :: 0 <= c < |before| ==>
         var share := LocalsOf(ids, c);
         && (forall k :: 0 <= k < |share| ==> share[k] < |before[c].contents|)
         && after[c] == RemoveAll(before[c], share, forgets)
  }

  lemma CarrierRemoved(before: seq<Dict>, after: seq<Dict>, hash: Hash, ids: seq<nat>, forgets: bool, c: nat)
    requires Sound(before, hash) && AllInStep(before) && Small(before) && Slots(before, ids)
    requires Removed(before, after, ids, forgets) && c < |before|
    ensures SlotsOk(after[c]) && IndexOk(after[c]) && AtHome(after[c], hash, |before|, c)
    ensures forall s :: s in after[c].index ==> s in before[c].index && after[c].index[s] == before[c].index[s]
    ensures forall s :: s in before[c].index ==>
      (s in after[c].index <==> !forgets || MakeGlobal(c, before[c].index[s]) !in ids)
    ensures InStep(after[c]) <==> forgets || !HitsLive(before[c], LocalsOf(ids, c))
  {
    hide SlotsOk, IndexOk, InStep, HitsLive, Pow2, MakeGlobal, GetOwner, GetLocal, LocalsOf, RemoveAll, Home;
    var share := LocalsOf(ids, c);
    RemoveAllKeepsSlots(before[c], share, forgets);
    RemoveAllOk(before[c], share, forgets);
    RemoveAllShrinks(before[c], share, forgets);
    RemoveAllForgets(before[c], share, forgets);
    forall s | s in before[c].index
      ensures before[c].index[s] in share <==> MakeGlobal(c, before[c].index[s]) in ids
    {
      IndexBound(before[c], s);
      ShareOfIds(ids, c, before[c].index[s]);
    }
  }

  lemma IndexBound(d: Dict, s: string)
    requires IndexOk(d) && s in d.index
    ensures d.index[s] < |d.contents|
  {
  }

  /** A batch of removals acts on the one map: when the carriers' indexes forget, it takes away
      exactly the strings whose ids the batch holds; otherwise it takes none away, and the map
      stays in step only if the batch names no slot in use. */
  lemma RemovedOk(before: seq<Dict>, after: seq<Dict>, hash: Hash, ids: seq<nat>, forgets: bool)
    requires Sound(before, hash) && AllInStep(before) && Small(before) && Slots(before, ids)
    requires Removed(before, after, ids, forgets)
    ensures Sound(after, hash)
    ensures forall s :: Known(after, hash, s) <==>
      Known(before, hash, s) && (!forgets || IdOf(before, hash, s) !in ids)
    ensures forall s :: Known(after, hash, s) ==> IdOf(after, hash, s) == IdOf(before, hash, s)
    ensures AllInStep(after) <==> forgets || !HitsLiveId(before, ids)
  {
    hide SlotsOk, IndexOk, InStep, HitsLive, Pow2, MakeGlobal, GetOwner, GetLocal, LocalsOf, RemoveAll, Home, AtHome;
    hide Removed, Slots;
    RemovedSizes(before, after, ids, forgets);
    forall c | 0 <= c < |before|
      ensures SlotsOk(after[c]) && IndexOk(after[c]) && AtHome(after[c], hash, |before|, c)
      ensures forall s :: s in after[c].index ==> s in before[c].index && after[c].index[s] == before[c].index[s]
      ensures forall s :: s in before[c].index ==>
        (s in after[c].index <==> !forgets || MakeGlobal(c, before[c].index[s]) !in ids)
      ensures InStep(after[c]) <==> forgets || !CarrierHit(before, ids, c)
    {
      ShareInRange(before, ids, c);
      CarrierRemoved(before, after, hash, ids, forgets, c);
    }
    HitsSomewhere(before, ids);
  }

  /** Removal keeps the carriers sound, in step or not; it gives no string another id, and once
      out of step the carriers stay so. */
  lemma RemovedSound(before: seq<Dict>, after: seq<Dict>, hash: Hash, ids: seq<nat>, forgets: bool)
    requires Sound(before, hash) && Slots(before, ids) && Removed(before, after, ids, forgets)
    ensures Sound(after, hash)
    ensures forall s :: Known(after, hash, s) ==>
      Known(before, hash, s) && IdOf(after, hash, s) == IdOf(before, hash, s)
    ensures AllInStep(after) <==> AllInStep(before) && (forgets || !HitsLiveId(before, ids))
  {
    hide SlotsOk, IndexOk, InStep, HitsLive, Pow2, MakeGlobal, GetOwner, GetLocal, LocalsOf, RemoveAll, Home, Slots;
    forall c | 0 <= c < |before|
      ensures SlotsOk(after[c]) && IndexOk(after[c]) && AtHome(after[c], hash, |before|, c)
      ensures forall s :: s in after[c].index ==> s in before[c].index && after[c].index[s] == before[c].index[s]
      ensures InStep(after[c]) <==> InStep(before[c]) && (forgets || !CarrierHit(before, ids, c))
    {
      ShareInRange(before, ids, c);
      RemoveAllKeepsSlots(before[c], LocalsOf(ids, c), forgets);
      RemoveAllOk(before[c], LocalsOf(ids, c), forgets);
      RemoveAllShrinks(before[c], LocalsOf(ids, c), forgets);
    }
    HitsSomewhere(before, ids);
  }

  lemma RemovedSizes(before: seq<Dict>, after: seq<Dict>, ids: seq<nat>, forgets: bool)
    requires Removed(before, after, ids, forgets)
    ensures |after| == |before|
  {
  }

  ghost predicate CarrierHit(dicts: seq<Dict>, ids: seq<nat>, c: nat)
    requires c < |dicts| && Slots(dicts, ids)
  {
    ShareInRange(dicts, ids, c);
    HitsLive(dicts[c], LocalsOf(ids, c))
  }

  lemma HitsSomewhere(dicts: seq<Dict>, ids: seq<nat>)
    requires Slots(dicts, ids)
    ensures HitsLiveId(dicts, ids) <==> exists c :: 0 <= c < |dicts| && CarrierHit(dicts, ids, c)
  {
    hide Pow2, GetOwner, GetLocal, LocalsOf;
    if i :| 0 <= i < |ids| && dicts[GetOwner(ids[i])].contents[GetLocal(ids[i])].Used? {
      var c := GetOwner(ids[i]);
      ShareInRange(dicts, ids, c);
      LocalsOfHolds(ids, c, GetLocal(ids[i]));
      var k :| 0 <= k < |LocalsOf(ids, c)| && LocalsOf(ids, c)[k] == GetLocal(ids[i]);
      assert dicts[c].contents[LocalsOf(ids, c)[k]].Used?;
      assert CarrierHit(dicts, ids, c);
    }
    if c :| 0 <= c < |dicts| && CarrierHit(dicts, ids, c) {
      var share := LocalsOf(ids, c);
      ShareInRange(dicts, ids, c);
      var k :| 0 <= k < |share| && dicts[c].contents[share[k]].Used?;
      LocalsOfHolds(ids, c, share[k]);
      var i :| 0 <= i < |ids| && GetOwner(ids[i]) == c && GetLocal(ids[i]) == share[k];
      assert dicts[GetOwner(ids[i])].contents[GetLocal(ids[i])].Used?;
    }
  }

  // ----- runs

  datatype Batch = Inserts(keys: seq<string>) | Removes(ids: seq<nat>)

  /** What a batch can make of sound carriers. */
  ghost predicate BatchStep(before: seq<Dict>, after: seq<Dict>, hash: Hash, batch: Batch, grow: nat -> nat,
                            forgets: bool)
    requires Grows(grow) && Sound(before, hash)
  {
    match batch
    case Inserts(keys) => exists carriers, work, outs ::
      Routed(keys, carriers, work, hash, |before|) && Inserted(before, after, work, outs, grow)
    case Removes(ids) => Slots(before, ids) && Removed(before, after, ids, forgets)
  }

  /** The states that a run of batches goes through; of carriers that are not sound, nothing is
      assumed. */
  ghost predicate IsRun(states: seq<seq<Dict>>, hash: Hash, batches: seq<Batch>, grow: nat -> nat, forgets: bool)
    requires Grows(grow)
  {
    && |states| == |batches| + 1
    && forall i :: 0 <= i < |batches| && Sound(states[i], hash) ==>
         BatchStep(states[i], states[i + 1], hash, batches[i], grow, forgets)
  }

  /** A batch of the first n removes a live string. */
  ghost predicate RemovesLive(states: seq<seq<Dict>>, batches: seq<Batch>, n: nat)
    requires n <= |batches| < |states|
  {
    exists i :: 0 <= i < n && RemovesLiveAt(states[i], batches[i])
  }

  ghost predicate RemovesLiveAt(dicts: seq<Dict>, batch: Batch) {
    batch.Removes? && Slots(dicts, batch.ids) && HitsLiveId(dicts, batch.ids)
  }

  lemma InsertStep(before: seq<Dict>, after: seq<Dict>, hash: Hash, keys: seq<string>, carriers: seq<nat>,
                   work: seq<seq<Key>>, outs: seq<seq<nat>>, grow: nat -> nat, forgets: bool)
    requires Grows(grow) && Sound(before, hash) && |before| > 0
    requires Routed(keys, carriers, work, hash, |before|) && Inserted(before, after, work, outs, grow)
    ensures BatchStep(before, after, hash, Inserts(keys), grow, forgets)
  {
    hide Sound, Routed, Inserted;
  }

  lemma BatchOk(before: seq<Dict>, after: seq<Dict>, hash: Hash, batch: Batch, grow: nat -> nat, forgets: bool)
    requires Grows(grow) && Sound(before, hash) && BatchStep(before, after, hash, batch, grow, forgets)
    ensures Sound(after, hash) && |after| == |before|
    ensures AllInStep(after) <==> AllInStep(before) && (forgets || !RemovesLiveAt(before, batch))
    ensures forall s :: Known(before, hash, s) && Known(after, hash, s) ==>
      IdOf(after, hash, s) == IdOf(before, hash, s)
  {
    hide Sound, AllInStep, Known, IdOf, HitsLiveId, Slots;
    SoundSize(before, hash);
    match batch
    case Inserts(keys) =>
      var carriers, work, outs :|
        Routed(keys, carriers, work, hash, |before|) && Inserted(before, after, work, outs, grow);
      InsertedOk(before, after, hash, keys, carriers, work, outs, grow);
    case Removes(ids) => RemovedSound(before, after, hash, ids, forgets);
  }

  /** Over every run the carriers stay sound, no batch gives a string another id, and the carriers
      are in step, one exact map, if and only if their indexes forget removed strings or no batch
      removed a live one. */
  lemma {:induction false} RunOk(states: seq<seq<Dict>>, hash: Hash, batches: seq<Batch>, grow: nat -> nat,
                                 forgets: bool, n: nat)
    requires Grows(grow) && IsRun(states, hash, batches, grow, forgets) && n <= |batches|
    requires Sound(states[0], hash) && AllInStep(states[0])
    ensures Sound(states[n], hash) && |states[n]| == |states[0]|
    ensures AllInStep(states[n]) <==> forgets || !RemovesLive(states, batches, n)
    ensures n > 0 ==> Sound(states[n - 1], hash) && forall s ::
      Known(states[n - 1], hash, s) && Known(states[n], hash, s) ==>
        IdOf(states[n], hash, s) == IdOf(states[n - 1], hash, s)
    decreases n
  {
    hide Sound, AllInStep, Known, IdOf, BatchStep, RemovesLiveAt;
    if n > 0 {
      RunOk(states, hash, batches, grow, forgets, n - 1);
      BatchOk(states[n - 1], states[n], hash, batches[n - 1], grow, forgets);
    }
  }

  // ----- the contents

  /** A carrier's listing with compound ids. */
  function Tagged(c: nat, l: seq<(string, nat)>): (t: seq<(string, nat)>)
    ensures |t| == |l| && forall i :: 0 <= i < |l| ==> t[i] == (l[i].0, MakeGlobal(c, l[i].1))
  {
    if l == [] then [] else [(l[0].0, MakeGlobal(c, l[0].1))] + Tagged(c, l[1..])
  }

  /** The contents of the first k carriers. */
  function Contents(dicts: seq<Dict>, k: nat): (l: seq<(string, nat)>)
    requires k <= |dicts|
    decreases k
  {
    if k == 0 then []
    else Contents(dicts, k - 1)
         + Tagged(k - 1, SyncDict.Listing(dicts[k - 1].contents, |dicts[k - 1].contents|))
  }

  lemma ListedIndexed(d: Dict, i: nat)
    requires IndexOk(d) && i < |SyncDict.Listing(d.contents, |d.contents|)|
    ensures var (s, id) := SyncDict.Listing(d.contents, |d.contents|)[i]; s in d.index && d.index[s] == id
  {
    hide SyncDict.Listing;
    var l := SyncDict.Listing(d.contents, |d.contents|);
    SyncDict.ListingOk(d.contents, |d.contents|);
    assert (l[i].0, l[i].1) in l;
  }

  /** What is listed is known under the listed id. */
  lemma {:induction false} ContentsKnown(dicts: seq<Dict>, hash: Hash, k: nat)
    requires Sound(dicts, hash) && k <= |dicts|
    ensures forall i :: 0 <= i < |Contents(dicts, k)| ==>
      var (s, id) := Contents(dicts, k)[i];
        Known(dicts, hash, s) && IdOf(dicts, hash, s) == id && Home(hash, |dicts|, s) < k
    decreases k
  {
    hide SlotsOk, IndexOk, Home, MakeGlobal, Tagged, SyncDict.Listing;
    if k > 0 {
      ContentsKnown(dicts, hash, k - 1);
      var d := dicts[k - 1];
      var l := SyncDict.Listing(d.contents, |d.contents|);
      forall i | 0 <= i < |l|
        ensures l[i].0 in d.index && d.index[l[i].0] == l[i].1 && Home(hash, |dicts|, l[i].0) == k - 1
      {
        ListedIndexed(d, i);
      }
    }
  }

  /** No string is listed twice. */
  lemma {:induction false} ContentsDistinct(dicts: seq<Dict>, hash: Hash, k: nat)
    requires Sound(dicts, hash) && k <= |dicts|
    ensures SyncDict.NoRepeats(Contents(dicts, k))
    decreases k
  {
    hide SlotsOk, Home, MakeGlobal, IndexOk, IdOf, Known, SyncDict.Listing;
    if k > 0 {
      ContentsDistinct(dicts, hash, k - 1);
      ContentsKnown(dicts, hash, k - 1);
      SyncDict.ListingDistinct(dicts[k - 1]);
      TaggedAtHome(dicts, hash, k - 1);
      var a := Contents(dicts, k - 1);
      var t := Tagged(k - 1, SyncDict.Listing(dicts[k - 1].contents, |dicts[k - 1].contents|));
      TaggedNoRepeats(k - 1, SyncDict.Listing(dicts[k - 1].contents, |dicts[k - 1].contents|));
      assert forall i :: 0 <= i < |a| ==> Home(hash, |dicts|, a[i].0) != k - 1;
      AppendDistinct(a, t, hash, |dicts|, k - 1);
    }
  }

  lemma TaggedNoRepeats(c: nat, l: seq<(string, nat)>)
    requires SyncDict.NoRepeats(l)
    ensures SyncDict.NoRepeats(Tagged(c, l))
  {
    hide MakeGlobal;
    var t := Tagged(c, l);
    forall i, j | 0 <= i < j < |t|
      ensures t[i].0 != t[j].0
    {
      assert t[i].0 == l[i].0 && t[j].0 == l[j].0;
    }
  }

  lemma AppendDistinct(a: seq<(string, nat)>, t: seq<(string, nat)>, hash: Hash, n: nat, c: nat)
    requires n > 0 && SyncDict.NoRepeats(a) && SyncDict.NoRepeats(t)
    requires forall i :: 0 <= i < |a| ==> Home(hash, n, a[i].0) != c
    requires forall i :: 0 <= i < |t| ==> Home(hash, n, t[i].0) == c
    ensures SyncDict.NoRepeats(a + t)
  {
    hide Home;
  }

  lemma TaggedAtHome(dicts: seq<Dict>, hash: Hash, c: nat)
    requires Sound(dicts, hash) && c < |dicts|
    ensures forall i :: 0 <= i < |Tagged(c, SyncDict.Listing(dicts[c].contents, |dicts[c].contents|))| ==>
      Home(hash, |dicts|, Tagged(c, SyncDict.Listing(dicts[c].contents, |dicts[c].contents|))[i].0) == c
  {
    hide SlotsOk, Home, MakeGlobal;
    var l := SyncDict.Listing(dicts[c].contents, |dicts[c].contents|);
    SyncDict.ListingOk(dicts[c].contents, |dicts[c].contents|);
    forall i | 0 <= i < |l|
      ensures Home(hash, |dicts|, l[i].0) == c
    {
      assert (l[i].0, l[i].1) in l;
    }
  }

  lemma OwnListed(dicts: seq<Dict>, hash: Hash, s: string)
    requires Sound(dicts, hash) && AllInStep(dicts) && Known(dicts, hash, s)
    ensures var c := Home(hash, |dicts|, s);
      c < |dicts| && (s, IdOf(dicts, hash, s)) in Tagged(c, SyncDict.Listing(dicts[c].contents, |dicts[c].contents|))
  {
    hide SlotsOk, IndexOk, Home, MakeGlobal, Tagged, SyncDict.Listing;
    var c := Home(hash, |dicts|, s);
    var d := dicts[c];
    var l := SyncDict.Listing(d.contents, |d.contents|);
    SyncDict.ListingOk(d.contents, |d.contents|);
    assert (s, d.index[s]) in l;
    var i :| 0 <= i < |l| && l[i] == (s, d.index[s]);
    assert Tagged(c, l)[i] == (s, IdOf(dicts, hash, s));
  }

  /** Every known string is listed, with its id. */
  lemma {:induction false} KnownListed(dicts: seq<Dict>, hash: Hash, k: nat, s: string)
    requires Sound(dicts, hash) && AllInStep(dicts) && Known(dicts, hash, s) && Home(hash, |dicts|, s) < k <= |dicts|
    ensures (s, IdOf(dicts, hash, s)) in Contents(dicts, k)
    decreases k
  {
    hide Sound, AllInStep, Known, IdOf, Home, Tagged, SyncDict.Listing;
    if Home(hash, |dicts|, s) < k - 1 {
      KnownListed(dicts, hash, k - 1, s);
    } else {
      OwnListed(dicts, hash, s);
    }
  }
}
