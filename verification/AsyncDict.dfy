/** The parallel string dictionary: a batch is spread over the carriers, worked off by one
    thread per carrier in any interleaving of their steps, and gathered in input order. */
module AsyncDict {
  import opened Bytes
  import opened Dictionary
  import opened GlobalId
  import opened Scatter
  import opened Carriers
  import Assignment
  import SyncDict

  class AsyncDict {
    var dicts: seq<Dict>
    const hash: Hash
    const grow: nat -> nat
    /** Whether the carriers' string indexes drop the strings they are told to remove. */
    const forgets: bool

    ghost predicate Valid()
      reads this
    {
      Grows(grow) && Sound(dicts, hash)
    }

    constructor (capacity: nat, numThreads: nat, hash: Hash, grow: nat -> nat, forgets: bool)
      requires 0 < numThreads <= MAX_CARRIERS && Grows(grow)
      ensures Valid() && AllInStep(dicts) && |dicts| == numThreads && (forall s :: !Known(dicts, hash, s))
      ensures this.hash == hash && this.grow == grow && this.forgets == forgets
    {
      this.hash, this.grow, this.forgets := hash, grow, forgets;
      dicts := seq(numThreads, _ => Create(capacity));
      new;
      CreateOk(capacity);
    }

    /** Which carrier each key belongs to, found by concurrent workers. */
    method AssignCarriers(keys: seq<string>) returns (carriers: seq<nat>)
      requires |dicts| > 0
      ensures |carriers| == |keys| && forall i :: 0 <= i < |keys| ==> carriers[i] == Home(hash, |dicts|, keys[i])
      ensures forall i :: 0 <= i < |keys| ==> carriers[i] == hash(keys[i]) % |dicts|
    {
      var hashes := seq(|keys|, i requires 0 <= i < |keys| => hash(keys[i]));
      var workers := new Assignment.Workers(Assignment.Task(hashes, |dicts|));
      workers.Run();
      carriers := workers.mapping;
    }

    /** Inserts a batch; ids come back in the order of the keys. */
    method Insert(keys: seq<string>) returns (ids: seq<nat>)
      requires Valid()
      modifies this
      ensures Valid() && |dicts| == old(|dicts|) && (AllInStep(dicts) <==> old(AllInStep(dicts)))
      ensures forall s :: Known(dicts, hash, s) <==> old(Known(dicts, hash, s)) || s in keys
      ensures forall s :: old(Known(dicts, hash, s)) ==> IdOf(dicts, hash, s) == old(IdOf(dicts, hash, s))
      ensures |ids| == |keys| && forall i :: 0 <= i < |keys| ==> ids[i] == IdOf(dicts, hash, keys[i])
      ensures BatchStep(old(dicts), dicts, hash, Inserts(keys), grow, forgets)
      ensures Small(dicts) ==> forall i :: 0 <= i < |keys| ==>
        ids[i] / 0x40_0000_0000_0000 == hash(keys[i]) % |dicts|
    {
      hide Sound, Known, IdOf, Rank, MakeGlobal, AllInStep, Inserted, Routed, Home, BatchStep, Small;
      ghost var before := dicts;
      SoundSize(before, hash);
      var carriers := AssignCarriers(keys);
      var work, places := Spread(AsKeys(keys), carriers, |dicts|);
      assert Routed(keys, carriers, work, hash, |before|) by {
        RoutedBy(keys, carriers, work, hash, |before|);
      }
      var outs := RunInserts(work);
      InsertedOk(before, dicts, hash, keys, carriers, work, outs, grow);
      InsertStep(before, dicts, hash, keys, carriers, work, outs, grow, forgets);
      ids := [];
      for i := 0 to |keys|
        invariant |ids| == i && forall k :: 0 <= k < i ==> ids[k] == IdOf(dicts, hash, keys[k])
      {
        ids := ids + [MakeGlobal(carriers[i], outs[carriers[i]][places[i]])];
      }
      forall i | 0 <= i < |keys| && Small(dicts)
        ensures ids[i] / 0x40_0000_0000_0000 == hash(keys[i]) % |dicts|
      {
        IdInNumbers(dicts, hash, keys[i]);
      }
    }

    /** The threads of an insertion: as long as one has keys left, any of those inserts one. */
    method RunInserts(work: seq<seq<Key>>) returns (outs: seq<seq<nat>>)
      requires Grows(grow) && |work| == |dicts| && forall c :: 0 <= c < |dicts| ==> SlotsOk(dicts[c])
      modifies this
      ensures |dicts| == old(|dicts|) && Inserted(old(dicts), dicts, work, outs, grow)
    {
      hide SlotsOk, Grows, Pending, InsertAll, InsertedUpTo;
      ghost var before := dicts;
      outs := seq(|work|, _ => []);
      var at: seq<nat> := seq(|work|, _ => 0);
      assert InsertedUpTo(before, dicts, work, at, outs, grow) by {
        NothingInserted(before, work, grow);
      }
      while exists c :: 0 <= c < |work| && at[c] < |work[c]|
        invariant |dicts| == |work| == |at| == |outs| == |before|
        invariant InsertedUpTo(before, dicts, work, at, outs, grow)
        invariant forall c :: 0 <= c < |work| ==> at[c] <= |work[c]|
        decreases Pending(work, at, |work|)
      {
        var c :| 0 <= c < |work| && at[c] < |work[c]|;
        PendingShrinks(work, at, c, |work|);
        PendingPositive(work, at, |work|);
        OneInserted(before, dicts, work, at, outs, grow, c);
        var (d, id) := InsertOne(dicts[c], work[c][at[c]], grow);
        dicts := dicts[c := d];
        outs := outs[c := outs[c] + [id]];
        at := at[c := at[c] + 1];
      }
      AllInserted(before, dicts, work, at, outs, grow);
    }

    /** Removes the strings of a batch of ids. */
    method Remove(ids: seq<nat>)
      requires Valid() && Slots(dicts, ids)
      modifies this
      ensures Valid() && |dicts| == old(|dicts|) && Removed(old(dicts), dicts, ids, forgets)
      ensures old(AllInStep(dicts) && Small(dicts)) ==>
        forall s :: Known(dicts, hash, s) <==>
          old(Known(dicts, hash, s)) && (!forgets || old(IdOf(dicts, hash, s)) !in ids)
      ensures old(AllInStep(dicts) && Small(dicts)) ==>
        forall s :: Known(dicts, hash, s) ==> IdOf(dicts, hash, s) == old(IdOf(dicts, hash, s))
      ensures old(AllInStep(dicts) && Small(dicts)) ==>
        (AllInStep(dicts) <==> forgets || !old(HitsLiveId(dicts, ids)))
      ensures BatchStep(old(dicts), dicts, hash, Removes(ids), grow, forgets)
    {
      hide Sound, Share, LocalsOf, GetOwner, GetLocal, Removed, Known, IdOf, AllInStep, Small, HitsLiveId, Slots;
      SlotOwners(dicts, ids);
      var work, _ := Spread(Locals(ids), Owners(ids), |dicts|);
      forall c | 0 <= c < |dicts|
        ensures work[c] == LocalsOf(ids, c) && forall k :: 0 <= k < |work[c]| ==> work[c][k] < |dicts[c].contents|
      {
        LocalsAre(ids, c);
        ShareInRange(dicts, ids, c);
      }
      ghost var before := dicts;
      RunRemoves(work);
      RemovedBy(before, dicts, ids, work, forgets);
      RemovedSound(before, dicts, hash, ids, forgets);
      if AllInStep(before) && Small(before) {
        RemovedOk(before, dicts, hash, ids, forgets);
      }
    }

    method RunRemoves(work: seq<seq<nat>>)
      requires |work| == |dicts|
      requires forall c :: 0 <= c < |dicts| ==> forall k :: 0 <= k < |work[c]| ==> work[c][k] < |dicts[c].contents|
      modifies this
      ensures |dicts| == old(|dicts|)
      ensures forall c :: 0 <= c < |dicts| ==> dicts[c] == RemoveAll(old(dicts)[c], work[c], forgets)
    {
      hide Pending;
      ghost var before := dicts;
      var at: seq<nat> := seq(|work|, _ => 0);
      while exists c :: 0 <= c < |work| && at[c] < |work[c]|
        invariant |dicts| == |work| == |at| == |before|
        invariant forall c :: 0 <= c < |work| ==>
          at[c] <= |work[c]| && dicts[c] == RemoveAll(before[c], work[c][..at[c]], forgets)
        decreases Pending(work, at, |work|)
      {
        var c :| 0 <= c < |work| && at[c] < |work[c]|;
        PendingShrinks(work, at, c, |work|);
        PendingPositive(work, at, |work|);
        assert work[c][..at[c] + 1][..at[c]] == work[c][..at[c]];
        dicts := dicts[c := RemoveOne(dicts[c], work[c][at[c]], forgets)];
        at := at[c := at[c] + 1];
      }
      assert forall c :: 0 <= c < |work| ==> work[c][..at[c]] == work[c];
    }

    /** Looks up a batch; only the ids of keys that are found mean something. The number of keys
        not found is summed over all carriers, and that of a carrier without work is whatever
        memory held. */
    method LocateSafe(keys: seq<string>, idle: nat -> nat)
      returns (ids: seq<nat>, found: seq<bool>, numNotFound: nat)
      requires Valid()
      ensures |ids| == |found| == |keys|
      ensures forall i :: 0 <= i < |keys| ==> (found[i] <==> Known(dicts, hash, keys[i]))
      ensures forall i :: 0 <= i < |keys| && found[i] ==> ids[i] == IdOf(dicts, hash, keys[i])
      ensures numNotFound == |Missed(found)| + IdleSum(keys, hash, |dicts|, idle, |dicts|)
    {
      hide Sound, Share, Rank, MakeGlobal, Home, Known, IdOf, Routed, SyncDict.ValueOf, SyncDict.Knows, IdleSum, Misses;
      SoundSize(dicts, hash);
      var carriers := AssignCarriers(keys);
      var work, places := Spread(AsKeys(keys), carriers, |dicts|);
      RoutedBy(keys, carriers, work, hash, |dicts|);
      var outs := RunLocates(work);
      ids, found := Gather(keys, carriers, places, work, outs);
      numNotFound := SumNotFound(outs, idle);
      NotFoundIs(dicts, hash, keys, carriers, work, outs, found, idle);
      MissesCount(found);
    }

    /** Puts what the carriers found in the order of the keys. */
    method Gather(keys: seq<string>, carriers: seq<nat>, places: seq<nat>, ghost work: seq<seq<Key>>,
                  outs: seq<seq<(nat, bool)>>) returns (ids: seq<nat>, found: seq<bool>)
      requires |dicts| > 0 && |carriers| == |places| == |keys| && Routed(keys, carriers, work, hash, |dicts|)
      requires forall i :: 0 <= i < |keys| ==> places[i] == Rank(carriers, carriers[i], i)
      requires |outs| == |work| == |dicts| && forall c :: 0 <= c < |work| ==> |outs[c]| == |work[c]|
      requires forall c :: 0 <= c < |work| ==> forall k :: 0 <= k < |work[c]| ==>
        outs[c][k] == (SyncDict.ValueOf(dicts[c].index, work[c][k]), SyncDict.Knows(dicts[c].index, work[c][k]))
      ensures |ids| == |found| == |keys|
      ensures forall i :: 0 <= i < |keys| ==> (found[i] <==> Known(dicts, hash, keys[i]))
      ensures forall i :: 0 <= i < |keys| && found[i] ==> ids[i] == IdOf(dicts, hash, keys[i])
    {
      hide Rank, MakeGlobal, Known, IdOf, Routed, SyncDict.ValueOf, SyncDict.Knows;
      ids, found := [], [];
      for i := 0 to |keys|
        invariant |ids| == |found| == i
        invariant forall k :: 0 <= k < i ==> (found[k] <==> Known(dicts, hash, keys[k]))
        invariant forall k :: 0 <= k < i && found[k] ==> ids[k] == IdOf(dicts, hash, keys[k])
      {
        KeyAt(dicts, hash, keys, carriers, work, i);
        var c := carriers[i];
        var (local, contained) := outs[c][places[i]];
        ids := ids + [MakeGlobal(c, local)];
        found := found + [contained];
      }
    }

    static method SumNotFound(outs: seq<seq<(nat, bool)>>, idle: nat -> nat) returns (n: nat)
      ensures n == NotFound(outs, idle, |outs|)
    {
      hide Misses, Flags;
      n := 0;
      for c := 0 to |outs|
        invariant n == NotFound(outs, idle, c)
      {
        n := n + if outs[c] == [] then idle(c) else Misses(Flags(outs[c]));
      }
    }

    method RunLocates(work: seq<seq<Key>>) returns (outs: seq<seq<(nat, bool)>>)
      requires |work| == |dicts|
      ensures |outs| == |work| && forall c :: 0 <= c < |work| ==> |outs[c]| == |work[c]|
      ensures forall c :: 0 <= c < |work| ==> forall k :: 0 <= k < |work[c]| ==>
        outs[c][k] == (SyncDict.ValueOf(dicts[c].index, work[c][k]), SyncDict.Knows(dicts[c].index, work[c][k]))
    {
      hide Pending, SyncDict.ValueOf, SyncDict.Knows;
      outs := seq(|work|, _ => []);
      var at: seq<nat> := seq(|work|, _ => 0);
      while exists c :: 0 <= c < |work| && at[c] < |work[c]|
        invariant |work| == |outs| == |at|
        invariant forall c :: 0 <= c < |work| ==> at[c] == |outs[c]| <= |work[c]|
        invariant forall c :: 0 <= c < |work| ==> forall k :: 0 <= k < |outs[c]| ==>
          outs[c][k] == (SyncDict.ValueOf(dicts[c].index, work[c][k]), SyncDict.Knows(dicts[c].index, work[c][k]))
        decreases Pending(work, at, |work|)
      {
        var c :| 0 <= c < |work| && at[c] < |work[c]|;
        PendingShrinks(work, at, c, |work|);
        PendingPositive(work, at, |work|);
        var key := work[c][at[c]];
        outs := outs[c := outs[c] + [(SyncDict.ValueOf(dicts[c].index, key), SyncDict.Knows(dicts[c].index, key))]];
        at := at[c := at[c] + 1];
      }
    }

    /** Reads back a batch of ids, in their order. */
    method Extract(ids: seq<nat>) returns (strings: seq<string>)
      requires Valid() && forall i :: 0 <= i < |ids| ==> Readable(dicts, ids[i])
      ensures |strings| == |ids| && forall i :: 0 <= i < |ids| ==> strings[i] == Text(dicts, ids[i])
    {
      hide Sound, Share, Rank, GetOwner, GetLocal;
      var owners := Owners(ids);
      var work, places := Spread<nat>(Locals(ids), owners, |dicts|);
      forall c | 0 <= c < |dicts|
        ensures work[c] == LocalsOf(ids, c) && forall k :: 0 <= k < |work[c]| ==> Extractable(dicts[c], work[c][k])
      {
        LocalsAre(ids, c);
        ReadableShare(dicts, ids, c);
      }
      var outs := RunExtracts(work);
      strings := [];
      for i := 0 to |ids|
        invariant |strings| == i && forall k :: 0 <= k < i ==> strings[k] == Text(dicts, ids[k])
      {
        ShareAt<nat>(Locals(ids), owners, |ids|, i);
        assert work[owners[i]][places[i]] == GetLocal(ids[i]);
        strings := strings + [outs[owners[i]][places[i]]];
      }
    }

    method RunExtracts(work: seq<seq<nat>>) returns (outs: seq<seq<string>>)
      requires |work| == |dicts|
      requires forall c :: 0 <= c < |work| ==> forall k :: 0 <= k < |work[c]| ==> Extractable(dicts[c], work[c][k])
      ensures |outs| == |work| && forall c :: 0 <= c < |work| ==> |outs[c]| == |work[c]|
      ensures forall c :: 0 <= c < |work| ==> forall k :: 0 <= k < |work[c]| ==>
          outs[c][k] == ExtractOne(dicts[c], work[c][k])
    {
      hide Pending, Extractable, ExtractOne;
      outs := seq(|work|, _ => []);
      var at: seq<nat> := seq(|work|, _ => 0);
      while exists c :: 0 <= c < |work| && at[c] < |work[c]|
        invariant |work| == |outs| == |at|
        invariant forall c :: 0 <= c < |work| ==> at[c] == |outs[c]| <= |work[c]|
        invariant forall c :: 0 <= c < |work| ==> forall k :: 0 <= k < |outs[c]| ==>
            outs[c][k] == ExtractOne(dicts[c], work[c][k])
        decreases Pending(work, at, |work|)
      {
        var c :| 0 <= c < |work| && at[c] < |work[c]|;
        PendingShrinks(work, at, c, |work|);
        PendingPositive(work, at, |work|);
        outs := outs[c := outs[c] + [ExtractOne(dicts[c], work[c][at[c]])]];
        at := at[c := at[c] + 1];
      }
    }

    /** The live strings of all carriers with their ids. */
    method GetContents() returns (strings: seq<(string, nat)>)
      ensures strings == Contents(dicts, |dicts|)
    {
      strings := [];
      for c := 0 to |dicts|
        invariant strings == Contents(dicts, c)
      {
        strings := strings + Tagged(c, SyncDict.Listing(dicts[c].contents, |dicts[c].contents|));
      }
    }
  }

  // ----- keys not found

  function Flags(outs: seq<(nat, bool)>): (flags: seq<bool>)
    ensures |flags| == |outs| && forall i :: 0 <= i < |outs| ==> flags[i] == outs[i].1
  {
    if outs == [] then [] else Flags(outs[..|outs| - 1]) + [outs[|outs| - 1].1]
  }

  /** What the counters of the first k carriers sum up to. */
  function NotFound(outs: seq<seq<(nat, bool)>>, idle: nat -> nat, k: nat): nat
    requires k <= |outs|
    decreases k
  {
    if k == 0 then 0
    else NotFound(outs, idle, k - 1) + if outs[k - 1] == [] then idle(k - 1) else Misses(Flags(outs[k - 1]))
  }

  /** The counters of those of the first k carriers that no key belongs to. */
  ghost function IdleSum(keys: seq<string>, hash: Hash, n: nat, idle: nat -> nat, k: nat): nat
    requires n > 0
    decreases k
  {
    if k == 0 then 0
    else IdleSum(keys, hash, n, idle, k - 1)
         + if exists i :: 0 <= i < |keys| && Home(hash, n, keys[i]) == k - 1 then 0 else idle(k - 1)
  }

  /** Those of the first k carriers that no key belongs to. */
  ghost function Idle(keys: seq<string>, hash: Hash, n: nat, k: nat): set<nat>
    requires n > 0
  {
    set c | 0 <= c < k && NoKey(keys, hash, n, c)
  }

  ghost predicate NoKey(keys: seq<string>, hash: Hash, n: nat, c: nat)
    requires n > 0
  {
    forall i :: 0 <= i < |keys| ==> hash(keys[i]) % n != c
  }

  /** With 1 in each of their counters the sum is the number of carriers without a key. */
  lemma {:induction false} IdleCarriers(keys: seq<string>, hash: Hash, n: nat, k: nat)
    requires n > 0
    ensures IdleSum(keys, hash, n, (c: nat) => 1, k) == |Idle(keys, hash, n, k)|
    decreases k
  {
    if k == 0 {
      assert Idle(keys, hash, n, k) == {};
    } else {
      IdleCarriers(keys, hash, n, k - 1);
      if exists i :: 0 <= i < |keys| && Home(hash, n, keys[i]) == k - 1 {
        assert Idle(keys, hash, n, k) == Idle(keys, hash, n, k - 1);
      } else {
        assert Idle(keys, hash, n, k) == Idle(keys, hash, n, k - 1) + {k - 1};
      }
    }
  }

  lemma {:induction false} NotFoundSum(keys: seq<string>, hash: Hash, carriers: seq<nat>,
                                       outs: seq<seq<(nat, bool)>>, found: seq<bool>, idle: nat -> nat, k: nat)
    requires k <= |outs| && |outs| > 0 && |found| == |carriers| == |keys|
    requires forall i :: 0 <= i < |keys| ==> carriers[i] == Home(hash, |outs|, keys[i])
    requires forall c :: 0 <= c < |outs| ==> Flags(outs[c]) == Share(found, carriers, c, |keys|)
    ensures NotFound(outs, idle, k)
            == ShareMisses(found, carriers, |keys|, k) + IdleSum(keys, hash, |outs|, idle, k)
    decreases k
  {
    hide Share, Home, Flags, Misses;
    if k > 0 {
      NotFoundSum(keys, hash, carriers, outs, found, idle, k - 1);
      ShareEmpty(carriers, k - 1, |keys|);
      NoFlags();
      if outs[k - 1] == [] {
        assert !exists i :: 0 <= i < |keys| && Home(hash, |outs|, keys[i]) == k - 1;
      } else {
        var i :| 0 <= i < |keys| && carriers[i] == k - 1;
        assert Home(hash, |outs|, keys[i]) == k - 1;
      }
    }
  }

  lemma NoFlags()
    ensures Misses([]) == 0
  {
  }

  /** Each carrier's flags are its share of all flags. */
  lemma {:induction false} FlagsShared(index: map<string, nat>, keys: seq<Key>, carriers: seq<nat>, found: seq<bool>,
                                       c: nat, n: nat)
    requires n <= |keys| == |carriers| == |found|
    requires forall i :: 0 <= i < |keys| && carriers[i] == c ==> (found[i] <==> SyncDict.Knows(index, keys[i]))
    ensures forall k :: 0 <= k < Rank(carriers, c, n) ==>
      Share(found, carriers, c, n)[k] == SyncDict.Knows(index, Share(keys, carriers, c, n)[k])
    decreases n
  {
    hide SyncDict.Knows;
    if n > 0 {
      FlagsShared(index, keys, carriers, found, c, n - 1);
    }
  }

  lemma NotFoundIs(dicts: seq<Dict>, hash: Hash, keys: seq<string>, carriers: seq<nat>, work: seq<seq<Key>>,
                   outs: seq<seq<(nat, bool)>>, found: seq<bool>, idle: nat -> nat)
    requires |dicts| > 0 && |carriers| == |keys| == |found| && Routed(keys, carriers, work, hash, |dicts|)
    requires |outs| == |work| && forall c :: 0 <= c < |work| ==> |outs[c]| == |work[c]|
    requires forall i :: 0 <= i < |keys| ==> (found[i] <==> Known(dicts, hash, keys[i]))
    requires |work| == |dicts| && forall c :: 0 <= c < |work| ==> forall k :: 0 <= k < |work[c]| ==>
      outs[c][k].1 == SyncDict.Knows(dicts[c].index, work[c][k])
    ensures NotFound(outs, idle, |outs|) == Misses(found) + IdleSum(keys, hash, |dicts|, idle, |dicts|)
  {
    hide Share, Home, Flags, Misses, NotFound, IdleSum, ShareMisses, Rank;
    forall c | 0 <= c < |outs|
      ensures Flags(outs[c]) == Share(found, carriers, c, |keys|)
    {
      KnownFlags(dicts, hash, keys, carriers, found, c);
      FlagsShared(dicts[c].index, AsKeys(keys), carriers, found, c, |keys|);
    }
    NotFoundSum(keys, hash, carriers, outs, found, idle, |outs|);
    SharesMiss(found, carriers, |keys|, |dicts|);
    assert found[..|keys|] == found;
  }

  lemma KnownFlags(dicts: seq<Dict>, hash: Hash, keys: seq<string>, carriers: seq<nat>, found: seq<bool>, c: nat)
    requires |dicts| > 0 && c < |dicts| && |carriers| == |keys| == |found|
    requires forall i :: 0 <= i < |keys| ==> carriers[i] == Home(hash, |dicts|, keys[i])
    requires forall i :: 0 <= i < |keys| ==> (found[i] <==> Known(dicts, hash, keys[i]))
    ensures forall i :: 0 <= i < |keys| && carriers[i] == c ==>
      (found[i] <==> SyncDict.Knows(dicts[c].index, AsKeys(keys)[i]))
  {
    hide Home;
  }

  /** Each thread c has inserted the first at[c] keys of its list. */
  ghost predicate InsertedUpTo(before: seq<Dict>, dicts: seq<Dict>, work: seq<seq<Key>>, at: seq<nat>,
                               outs: seq<seq<nat>>, grow: nat -> nat)
    requires Grows(grow) && |dicts| == |work| == |at| == |outs| == |before|
    requires forall c :: 0 <= c < |before| ==> SlotsOk(before[c])
  {
    forall c :: 0 <= c < |work| ==>
      at[c] <= |work[c]| && InsertAll(before[c], work[c][..at[c]], grow) == Outcome(dicts[c], outs[c])
  }

  lemma NothingInserted(before: seq<Dict>, work: seq<seq<Key>>, grow: nat -> nat)
    requires Grows(grow) && |work| == |before| && forall c :: 0 <= c < |before| ==> SlotsOk(before[c])
    ensures InsertedUpTo(before, before, work, seq(|work|, _ => 0), seq(|work|, _ => []), grow)
  {
    hide SlotsOk, Grows, InsertAll;
    forall c | 0 <= c < |before|
      ensures InsertAll(before[c], work[c][..0], grow) == Outcome(before[c], [])
    {
      SyncDict.InsertNone(before[c], work[c], grow);
    }
  }

  /** One step of thread c. */
  lemma OneInserted(before: seq<Dict>, dicts: seq<Dict>, work: seq<seq<Key>>, at: seq<nat>,
                    outs: seq<seq<nat>>, grow: nat -> nat, c: nat)
    requires Grows(grow) && |dicts| == |work| == |at| == |outs| == |before|
    requires forall k :: 0 <= k < |before| ==> SlotsOk(before[k])
    requires InsertedUpTo(before, dicts, work, at, outs, grow) && c < |work| && at[c] < |work[c]|
    ensures var g := Grown(dicts[c], grow); g.free != [] && g.free[|g.free| - 1] < |g.contents|
    ensures var (d, id) := InsertOne(dicts[c], work[c][at[c]], grow);
      InsertedUpTo(before, dicts[c := d], work, at[c := at[c] + 1], outs[c := outs[c] + [id]], grow)
  {
    hide SlotsOk, Grows, InsertAll, Grown;
    SyncDict.InsertNext(before[c], work[c], at[c], grow);
  }

  lemma AllInserted(before: seq<Dict>, dicts: seq<Dict>, work: seq<seq<Key>>, at: seq<nat>,
                    outs: seq<seq<nat>>, grow: nat -> nat)
    requires Grows(grow) && |dicts| == |work| == |at| == |outs| == |before|
    requires forall k :: 0 <= k < |before| ==> SlotsOk(before[k])
    requires InsertedUpTo(before, dicts, work, at, outs, grow) && forall c :: 0 <= c < |work| ==> at[c] >= |work[c]|
    ensures Inserted(before, dicts, work, outs, grow)
  {
    hide SlotsOk, Grows, InsertAll;
    assert forall c :: 0 <= c < |work| ==> work[c][..at[c]] == work[c];
  }

  lemma RoutedBy(keys: seq<string>, carriers: seq<nat>, work: seq<seq<Key>>, hash: Hash, n: nat)
    requires n > 0 && |carriers| == |keys| && |work| == n
    requires forall i :: 0 <= i < |keys| ==> carriers[i] == Home(hash, n, keys[i])
    requires forall c :: 0 <= c < n ==> work[c] == Share(AsKeys(keys), carriers, c, |keys|)
    ensures Routed(keys, carriers, work, hash, n)
  {
  }

  /** Key i lies in its carrier's share, and the carrier knows it under its id. */
  lemma KeyAt(dicts: seq<Dict>, hash: Hash, keys: seq<string>, carriers: seq<nat>, work: seq<seq<Key>>, i: nat)
    requires |dicts| > 0 && |carriers| == |keys| && Routed(keys, carriers, work, hash, |dicts|) && i < |keys|
    ensures var c := carriers[i]; var r := Rank(carriers, c, i);
      && c < |work| == |dicts| && r < |work[c]|
      && (SyncDict.Knows(dicts[c].index, work[c][r]) <==> Known(dicts, hash, keys[i]))
      && (Known(dicts, hash, keys[i]) ==>
            MakeGlobal(c, SyncDict.ValueOf(dicts[c].index, work[c][r])) == IdOf(dicts, hash, keys[i]))
  {
    hide Share, MakeGlobal, Home;
    ShareAt(AsKeys(keys), carriers, |keys|, i);
  }

  lemma SlotOwners(dicts: seq<Dict>, ids: seq<nat>)
    requires Slots(dicts, ids)
    ensures forall i :: 0 <= i < |ids| ==> Owners(ids)[i] < |dicts|
  {
    hide Pow2, GetLocal;
  }

  lemma LocalsAre(ids: seq<nat>, c: nat)
    ensures LocalsOf(ids, c) == Share<nat>(Locals(ids), Owners(ids), c, |ids|)
  {
  }

  lemma RemovedBy(before: seq<Dict>, after: seq<Dict>, ids: seq<nat>, work: seq<seq<nat>>, forgets: bool)
    requires Slots(before, ids) && |after| == |before| == |work|
    requires forall c :: 0 <= c < |before| ==> work[c] == LocalsOf(ids, c)
    requires forall c :: 0 <= c < |before| ==> forall k :: 0 <= k < |work[c]| ==> work[c][k] < |before[c].contents|
    requires forall c :: 0 <= c < |before| ==> after[c] == RemoveAll(before[c], work[c], forgets)
    ensures Removed(before, after, ids, forgets)
  {
    hide LocalsOf, RemoveAll;
  }

  lemma ReadableShare(dicts: seq<Dict>, ids: seq<nat>, c: nat)
    requires c < |dicts| && forall i :: 0 <= i < |ids| ==> Readable(dicts, ids[i])
    ensures forall k :: 0 <= k < |LocalsOf(ids, c)| ==> Extractable(dicts[c], LocalsOf(ids, c)[k])
  {
    hide LocalsOf, GetOwner, GetLocal, Extractable;
    forall k | 0 <= k < |LocalsOf(ids, c)|
      ensures Extractable(dicts[c], LocalsOf(ids, c)[k])
    {
      LocalsOfHolds(ids, c, LocalsOf(ids, c)[k]);
    }
  }
}
