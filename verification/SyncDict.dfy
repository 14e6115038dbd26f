/** The sequential string dictionary: slots, free list and index, updated in place. */
module SyncDict {
  import opened Dictionary

  /** The value the index reports for a key it does not know. */
  const NOT_FOUND: nat := 0xFFFF_FFFF_FFFF_FFFF

  // ----- what a lookup of many keys reports

  predicate Knows(index: map<string, nat>, key: Key) { key == Missing || key.str in index }

  function ValueOf(index: map<string, nat>, key: Key): nat {
    match key
    case Missing => 0
    case Key(s) => if s in index then index[s] else NOT_FOUND
  }

  ghost function Unknown(index: map<string, nat>, keys: seq<Key>): set<nat> {
    set i | 0 <= i < |keys| && !Knows(index, keys[i])
  }

  // ----- the contents as a list

  /** The strings of the first n slots with their ids, in slot order. */
  function Listing(contents: seq<Entry>, n: nat): (l: seq<(string, nat)>)
    requires n <= |contents|
    decreases n
  {
    if n == 0 then []
    else Listing(contents, n - 1) + (if contents[n - 1].Used? then [(contents[n - 1].str, n - 1)] else [])
  }

  /** Every live string is listed exactly once, with its id, and nothing else is. */
  lemma {:induction false} ListingOk(contents: seq<Entry>, n: nat)
    requires n <= |contents|
    ensures forall s: string, k: nat :: (s, k) in Listing(contents, n) <==> k < n && contents[k] == Used(s)
    ensures forall i, j :: 0 <= i < j < |Listing(contents, n)| ==> Listing(contents, n)[i].1 < Listing(contents, n)[j].1
    decreases n
  {
    if n > 0 {
      ListingOk(contents, n - 1);
      var l := Listing(contents, n - 1);
      var last := if contents[n - 1].Used? then [(contents[n - 1].str, n - 1)] else [];
      assert forall s: string, k: nat :: (s, k) in l + last <==> (s, k) in l || (s, k) in last;
      forall i | 0 <= i < |l|
        ensures l[i].1 < n - 1
      {
        assert (l[i].0, l[i].1) in l;
      }
    }
  }

  ghost predicate NoRepeats(l: seq<(string, nat)>) {
    forall i, j :: 0 <= i < j < |l| ==> l[i].0 != l[j].0
  }

  /** No string is listed twice. */
  lemma ListingDistinct(d: Dict)
    requires IndexOk(d)
    ensures NoRepeats(Listing(d.contents, |d.contents|))
  {
    ListingOk(d.contents, |d.contents|);
    var l := Listing(d.contents, |d.contents|);
    forall i, j | 0 <= i < j < |l|
      ensures l[i].0 != l[j].0
    {
      assert (l[i].0, l[i].1) in l && (l[j].0, l[j].1) in l;
      assert d.contents[l[i].1] == Used(l[i].0) && d.contents[l[j].1] == Used(l[j].0);
    }
  }

  lemma {:induction false} NumbersSnoc(lo: nat, hi: nat)
    requires lo <= hi
    ensures Numbers(lo, hi + 1) == Numbers(lo, hi) + [hi]
    decreases hi - lo
  {
    if lo < hi {
      NumbersSnoc(lo + 1, hi);
    }
  }

  lemma NoneYet(n: nat)
    ensures Blank(0) == [] && Numbers(n, n) == []
  {
  }

  lemma BlankSnoc(n: nat)
    ensures Blank(n + 1) == Blank(n) + [Unused]
  {
  }

  class SyncDict {
    var contents: seq<Entry>
    var freelist: seq<nat>
    var index: map<string, nat>
    /** Whether the string index drops the strings it is told to remove. */
    const forgets: bool
    /** The capacity a full slot vector grows to. */
    const grow: nat -> nat

    ghost function Now(): Dict
      reads this
    {
      Dict(contents, freelist, index)
    }

    constructor (capacity: nat, forgets: bool, grow: nat -> nat)
      ensures Now() == Create(capacity) && this.forgets == forgets && this.grow == grow
    {
      contents, freelist, index, this.forgets, this.grow := [], [], map[], forgets, grow;
      new;
      for i := 0 to capacity
        invariant contents == Blank(i) && freelist == Numbers(0, i) && index == map[]
        invariant this.forgets == forgets && this.grow == grow
      {
        BlankSnoc(i);
        NumbersSnoc(0, i);
        contents := contents + [Unused];
        freelist := freelist + [i];
      }
    }

    /** Takes the last free slot; both vectors grow first when there is none. */
    method FreelistPop() returns (id: nat)
      requires Grows(grow) && SlotsOk(Now())
      modifies this`contents, this`freelist
      ensures var g := Grown(old(Now()), grow);
        && g.free != [] && contents == g.contents && freelist == g.free[..|g.free| - 1] && id == g.free[|g.free| - 1]
    {
      hide SlotsOk;
      GrownOk(Now(), grow);
      if freelist == [] {
        GrowSlots();
      }
      id := freelist[|freelist| - 1];
      freelist := freelist[..|freelist| - 1];
    }

    method GrowSlots()
      requires Grows(grow) && freelist == []
      modifies this`contents, this`freelist
      ensures var n := |old(contents)|;
        contents == old(contents) + Blank(grow(n) - n) && freelist == Numbers(n, grow(n))
    {
      hide Blank, Numbers;
      ghost var n, before := |contents|, contents;
      NoneYet(n);
      var numNewPos := grow(|contents|) - |contents|;
      while numNewPos > 0
        invariant 0 <= numNewPos <= grow(n) - n
        invariant var k := grow(n) - n - numNewPos; contents == before + Blank(k) && freelist == Numbers(n, n + k)
      {
        ghost var k := grow(n) - n - numNewPos;
        NumbersSnoc(n, n + k);
        BlankSnoc(k);
        var newPos := |contents|;
        freelist := freelist + [newPos];
        contents := contents + [Unused];
        numNewPos := numNewPos - 1;
      }
    }

    /** Looks up many keys: per key whether it is known and its id, and how many are not. */
    method LocateSafe(keys: seq<Key>) returns (values: seq<nat>, found: seq<bool>, numNotFound: nat)
      ensures |values| == |found| == |keys| && numNotFound == |set i | 0 <= i < |found| && !found[i]|
      ensures forall i :: 0 <= i < |keys| ==> found[i] == Knows(index, keys[i]) && values[i] == ValueOf(index, keys[i])
      ensures forall i :: 0 <= i < |keys| && !found[i] ==> values[i] == 0xFFFF_FFFF_FFFF_FFFF
      ensures forall i :: 0 <= i < |keys| && keys[i].Missing? ==> found[i] && values[i] == 0
    {
      values, found, numNotFound := [], [], 0;
      for i := 0 to |keys|
        invariant |values| == |found| == i && numNotFound == |Unknown(index, keys[..i])|
        invariant forall k :: 0 <= k < i ==> found[k] == Knows(index, keys[k]) && values[k] == ValueOf(index, keys[k])
      {
        OneMoreKey(index, keys, i);
        var contained := keys[i] == Missing || keys[i].str in index;
        var value := if keys[i] == Missing then 0 else if contained then index[keys[i].str] else NOT_FOUND;
        numNotFound := numNotFound + (if contained then 0 else 1);
        values, found := values + [value], found + [contained];
      }
      assert keys[..|keys|] == keys;
      assert Unknown(index, keys) == set i | 0 <= i < |found| && !found[i];
    }

    /** Inserts a batch. Which keys are new is looked up once for the whole batch; a key that
        was new is looked up again only when the filter may have seen it. positions are the
        filter bits of a string, whatever they are. */
    method Insert(keys: seq<Key>, positions: string -> set<nat>) returns (ids: seq<nat>)
      requires Grows(grow) && SlotsOk(Now())
      modifies this
      ensures Outcome(Now(), ids) == InsertAll(old(Now()), keys, grow)
    {
      hide SlotsOk, Grown, Grows, InsertAll;
      ghost var d := Now();
      InsertNone(d, keys, grow);
      var values, found, _ := LocateSafe(keys);
      var filter: set<nat> := {};
      ids := [];
      for i := 0 to |keys|
        invariant SlotsOk(Now()) && InsertAll(d, keys[..i], grow) == Outcome(Now(), ids)
        invariant forall s :: s in d.index ==> s in index && index[s] == d.index[s]
        invariant forall s :: s in index && s !in d.index ==> positions(s) <= filter
      {
        InsertKeepsSlots(Now(), keys[i], grow);
        InsertNext(d, keys, i, grow);
        if found[i] {
          ids := ids + [values[i]];
        } else {
          var s := keys[i].str;
          var maybeSeen := positions(s) <= filter;
          filter := filter + positions(s);
          if maybeSeen && s in index {
            ids := ids + [index[s]];
          } else {
            ghost var e := Now();
            PutKeepsSlots(e, s, grow);
            var id := FreelistPop();
            assert contents[id] == Unused by {
              GrownOk(e, grow);
              FreeSlot(Grown(e, grow));
            }
            contents := contents[id := Used(s)];
            ids := ids + [id];
            index := index[s := id];
          }
        }
      }
      assert keys[..|keys|] == keys;
    }

    /** Frees the slots of the ids that are in use, then tells the index. */
    method Remove(ids: seq<nat>)
      requires forall i :: 0 <= i < |ids| ==> ids[i] < |contents|
      modifies this
      ensures Now() == RemoveAll(old(Now()), ids, forgets)
    {
      ghost var d := Now();
      var toDelete: set<string> := {};
      for i := 0 to |ids|
        invariant index == d.index && |contents| == |d.contents|
        invariant Dict(contents, freelist, if forgets then index - toDelete else index)
            == RemoveAll(d, ids[..i], forgets)
      {
        assert ids[..i + 1][..i] == ids[..i];
        if contents[ids[i]].Used? {
          var s := contents[ids[i]].str;
          assert index - toDelete - {s} == index - (toDelete + {s});
          toDelete := toDelete + {s};
          contents := contents[ids[i] := Unused];
          freelist := freelist + [ids[i]];
        }
      }
      assert ids[..|ids|] == ids;
      if forgets {
        index := index - toDelete;
      }
    }

    method Extract(ids: seq<nat>) returns (strings: seq<string>)
      requires forall i :: 0 <= i < |ids| ==> Extractable(Now(), ids[i])
      ensures |strings| == |ids| && forall i :: 0 <= i < |ids| ==> strings[i] == ExtractOne(Now(), ids[i])
    {
      strings := [];
      for i := 0 to |ids|
        invariant |strings| == i && forall k :: 0 <= k < i ==> strings[k] == ExtractOne(Now(), ids[k])
      {
        var text := if ids[i] != 0 then contents[ids[i]].str else NULL_TEXT;
        strings := strings + [text];
      }
    }

    method GetContents() returns (strings: seq<(string, nat)>)
      ensures strings == Listing(contents, |contents|)
    {
      strings := [];
      for i := 0 to |contents|
        invariant strings == Listing(contents, i)
      {
        if contents[i].Used? {
          strings := strings + [(contents[i].str, i)];
        }
      }
    }
  }

  lemma OneMoreKey(index: map<string, nat>, keys: seq<Key>, i: nat)
    requires i < |keys|
    ensures |Unknown(index, keys[..i + 1])| == |Unknown(index, keys[..i])| + if Knows(index, keys[i]) then 0 else 1
  {
    assert Unknown(index, keys[..i + 1]) == Unknown(index, keys[..i]) + if Knows(index, keys[i]) then {} else {i};
  }

  lemma InsertNone(d: Dict, keys: seq<Key>, grow: nat -> nat)
    requires Grows(grow) && SlotsOk(d)
    ensures InsertAll(d, keys[..0], grow) == Outcome(d, [])
  {
  }

  lemma InsertNext(d: Dict, keys: seq<Key>, i: nat, grow: nat -> nat)
    requires Grows(grow) && SlotsOk(d) && i < |keys|
    ensures var o := InsertAll(d, keys[..i], grow);
      var g := Grown(o.dict, grow); g.free != [] && g.free[|g.free| - 1] < |g.contents|
    ensures var o := InsertAll(d, keys[..i], grow); var (e, id) := InsertOne(o.dict, keys[i], grow);
      InsertAll(d, keys[..i + 1], grow) == Outcome(e, o.ids + [id])
  {
    hide SlotsOk, Grown, Grows;
    assert keys[..i + 1][..i] == keys[..i];
    InsertKeepsSlots(InsertAll(d, keys[..i], grow).dict, keys[i], grow);
  }

  lemma FreeSlot(g: Dict)
    requires SlotsOk(g) && g.free != []
    ensures g.free[|g.free| - 1] < |g.contents| && g.contents[g.free[|g.free| - 1]] == Unused
  {
  }
}
