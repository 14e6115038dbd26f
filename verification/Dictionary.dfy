/** The string dictionary as a value: slots, their free list, and the string index. */
module Dictionary {

  datatype Entry = Unused | Used(str: string)

  datatype Dict = Dict(contents: seq<Entry>, free: seq<nat>, index: map<string, nat>)

  /** A key of a batch; the index finds a missing key with id 0. */
  datatype Key = Missing | Key(str: string)

  /** The text that id 0 stands for. */
  const NULL_TEXT: string := "null"

  datatype Outcome = Outcome(dict: Dict, ids: seq<nat>)

  /** How a full slot vector grows. */
  ghost predicate Grows(grow: nat -> nat) {
    forall c: nat :: grow(c) > c
  }

  function Numbers(lo: nat, hi: nat): (ns: seq<nat>)
    requires lo <= hi
    ensures |ns| == hi - lo && forall k :: 0 <= k < |ns| ==> ns[k] == lo + k
    decreases hi - lo
  {
    if lo == hi then [] else [lo] + Numbers(lo + 1, hi)
  }

  function Blank(n: nat): (es: seq<Entry>)
    ensures |es| == n && forall k :: 0 <= k < n ==> es[k] == Unused
  {
    if n == 0 then [] else [Unused] + Blank(n - 1)
  }

  function Create(capacity: nat): Dict {
    Dict(Blank(capacity), Numbers(0, capacity), map[])
  }

  /** The number of slots in use. */
  function Live(contents: seq<Entry>): (n: nat)
    ensures n <= |contents|
  {
    if contents == [] then 0 else Live(contents[..|contents| - 1]) + (if contents[|contents| - 1].Used? then 1 else 0)
  }

  // ----- invariants

  /** The free list holds each unused slot exactly once; free and live slots make up all. */
  ghost predicate SlotsOk(d: Dict) {
    && (forall i, j :: 0 <= i < j < |d.free| ==> d.free[i] != d.free[j])
    && (forall i :: 0 <= i < |d.free| ==> d.free[i] < |d.contents| && d.contents[d.free[i]] == Unused)
    && (forall k :: 0 <= k < |d.contents| && d.contents[k] == Unused ==> k in d.free)
    && |d.free| + Live(d.contents) == |d.contents|
  }

  /** The index knows every live string under its slot, and no slot that does not exist. */
  ghost predicate IndexOk(d: Dict) {
    && (forall k :: 0 <= k < |d.contents| && d.contents[k].Used? ==>
          d.contents[k].str in d.index && d.index[d.contents[k].str] == k)
    && (forall s :: s in d.index ==> d.index[s] < |d.contents|)
  }

  /** The index knows live strings only: with IndexOk, it is the bijection between live strings
      and used slots. */
  ghost predicate InStep(d: Dict) {
    forall s :: s in d.index ==> d.index[s] < |d.contents| && d.contents[d.index[s]] == Used(s)
  }

  // ----- operations

  /** A slot vector that has no free slot left grows; the new slots are free. */
  function Grown(d: Dict, grow: nat -> nat): Dict {
    var n := |d.contents|;
    if d.free != [] || grow(n) <= n then d
    else Dict(d.contents + Blank(grow(n) - n), Numbers(n, grow(n)), d.index)
  }

  /** Puts a new string into the slot at the end of the free list. */
  function Put(d: Dict, s: string, grow: nat -> nat): (Dict, nat)
    requires var g := Grown(d, grow); g.free != [] && g.free[|g.free| - 1] < |g.contents|
  {
    var g := Grown(d, grow);
    var id := g.free[|g.free| - 1];
    (Dict(g.contents[id := Used(s)], g.free[..|g.free| - 1], g.index[s := id]), id)
  }

  function InsertOne(d: Dict, key: Key, grow: nat -> nat): (Dict, nat)
    requires var g := Grown(d, grow); g.free != [] && g.free[|g.free| - 1] < |g.contents|
  {
    match key
    case Missing => (d, 0)
    case Key(s) => if s in d.index then (d, d.index[s]) else Put(d, s, grow)
  }

  /** A batch means: its keys, inserted one after the other. */
  ghost function InsertAll(d: Dict, keys: seq<Key>, grow: nat -> nat): (o: Outcome)
    requires Grows(grow) && SlotsOk(d)
    ensures SlotsOk(o.dict) && |o.ids| == |keys|
    decreases |keys|
  {
    if keys == [] then Outcome(d, [])
    else
      var o := InsertAll(d, keys[..|keys| - 1], grow);
      InsertKeepsSlots(o.dict, keys[|keys| - 1], grow);
      var (e, id) := InsertOne(o.dict, keys[|keys| - 1], grow);
      Outcome(e, o.ids + [id])
  }

  /** Frees a slot, if it is in use. forgets says whether the string index then drops the
      string: the one in this repository does not. */
  function RemoveOne(d: Dict, id: nat, forgets: bool): Dict
    requires id < |d.contents|
  {
    match d.contents[id]
    case Unused => d
    case Used(s) => Dict(d.contents[id := Unused], d.free + [id], if forgets then d.index - {s} else d.index)
  }

  function RemoveAll(d: Dict, ids: seq<nat>, forgets: bool): (e: Dict)
    requires forall i :: 0 <= i < |ids| ==> ids[i] < |d.contents|
    ensures |e.contents| == |d.contents|
    decreases |ids|
  {
    if ids == [] then d else RemoveOne(RemoveAll(d, ids[..|ids| - 1], forgets), ids[|ids| - 1], forgets)
  }

  /** The ids the caller may extract: those in use, and 0. */
  predicate Extractable(d: Dict, id: nat) {
    id < |d.contents| && (id == 0 || d.contents[id].Used?)
  }

  function ExtractOne(d: Dict, id: nat): string
    requires Extractable(d, id)
  {
    if id != 0 then d.contents[id].str else NULL_TEXT
  }

  // ----- slots

  lemma {:induction false} LiveUpdate(contents: seq<Entry>, i: nat, e: Entry)
    requires i < |contents|
    ensures Live(contents[i := e]) == Live(contents) - (if contents[i].Used? then 1 else 0) + (if e.Used? then 1 else 0)
    decreases |contents|
  {
    var n := |contents| - 1;
    if i < n {
      LiveUpdate(contents[..n], i, e);
      assert contents[i := e][..n] == contents[..n][i := e];
    } else {
      assert contents[i := e][..n] == contents[..n];
    }
  }

  lemma {:induction false} LiveBlank(contents: seq<Entry>, n: nat)
    ensures Live(contents + Blank(n)) == Live(contents)
    decreases n
  {
    if n > 0 {
      LiveBlank(contents, n - 1);
      assert (contents + Blank(n))[..|contents| + n - 1] == contents + Blank(n - 1);
    } else {
      assert contents + Blank(0) == contents;
    }
  }

  lemma CreateOk(capacity: nat)
    ensures SlotsOk(Create(capacity)) && IndexOk(Create(capacity)) && InStep(Create(capacity))
  {
    var d := Create(capacity);
    assert Live(d.contents) == 0 by {
      LiveBlank([], capacity);
      assert [] + Blank(capacity) == Blank(capacity);
    }
    hide Numbers, Blank, Live;
    forall k | 0 <= k < |d.contents|
      ensures k in d.free
    {
      assert d.free[k] == k;
    }
  }

  lemma GrownOk(d: Dict, grow: nat -> nat)
    requires Grows(grow) && SlotsOk(d)
    ensures var g := Grown(d, grow);
      && SlotsOk(g) && g.free != [] && g.index == d.index && d.contents <= g.contents
      && forall k :: |d.contents| <= k < |g.contents| ==> g.contents[k] == Unused
  {
    var n := |d.contents|;
    hide Numbers, Blank, Live;
    if d.free == [] {
      LiveBlank(d.contents, grow(n) - n);
      var g := Grown(d, grow);
      assert forall k :: 0 <= k < n ==> d.contents[k] != Unused;
      assert forall k :: 0 <= k < n ==> g.contents[k] == d.contents[k];
      forall k | n <= k < |g.contents|
        ensures k in g.free
      {
        assert g.free[k - n] == k;
      }
    }
  }

  /** A new string takes a slot that was unused; nothing else moves. */
  lemma PutKeepsSlots(d: Dict, s: string, grow: nat -> nat)
    requires Grows(grow) && SlotsOk(d)
    ensures var g := Grown(d, grow); g.free != [] && g.free[|g.free| - 1] < |g.contents|
    ensures var (e, id) := Put(d, s, grow);
      && SlotsOk(e) && id < |e.contents| && |d.contents| <= |e.contents| && e.contents[id] == Used(s)
      && e.index == d.index[s := id]
      && (id < |d.contents| ==> d.contents[id] == Unused)
      && (forall k :: 0 <= k < |d.contents| && k != id ==> e.contents[k] == d.contents[k])
      && (forall k :: |d.contents| <= k < |e.contents| && k != id ==> e.contents[k] == Unused)
  {
    hide Grown, Live;
    GrownOk(d, grow);
    var g := Grown(d, grow);
    var last := |g.free| - 1;
    var id := g.free[last];
    LiveUpdate(g.contents, id, Used(s));
    var e := Put(d, s, grow).0;
    forall k | 0 <= k < |e.contents| && e.contents[k] == Unused
      ensures k in e.free
    {
      assert k in g.free;
      var j :| 0 <= j < |g.free| && g.free[j] == k;
      assert e.free[j] == k;
    }
  }

  lemma InsertKeepsSlots(d: Dict, key: Key, grow: nat -> nat)
    requires Grows(grow) && SlotsOk(d)
    ensures var g := Grown(d, grow); g.free != [] && g.free[|g.free| - 1] < |g.contents|
    ensures SlotsOk(InsertOne(d, key, grow).0)
  {
    PutKeepsSlots(d, match key case Missing => "" case Key(s) => s, grow);
  }

  lemma RemoveKeepsSlots(d: Dict, id: nat, forgets: bool)
    requires SlotsOk(d) && id < |d.contents|
    ensures SlotsOk(RemoveOne(d, id, forgets))
  {
    hide Live;
    var e := RemoveOne(d, id, forgets);
    if d.contents[id].Used? {
      LiveUpdate(d.contents, id, Unused);
      assert id !in d.free;
      forall k | 0 <= k < |e.contents| && e.contents[k] == Unused
        ensures k in e.free
      {
        if k == id {
          assert e.free[|d.free|] == id;
        } else {
          assert k in d.free;
        }
      }
    }
  }

  lemma {:induction false} RemoveAllKeepsSlots(d: Dict, ids: seq<nat>, forgets: bool)
    requires SlotsOk(d) && forall i :: 0 <= i < |ids| ==> ids[i] < |d.contents|
    ensures SlotsOk(RemoveAll(d, ids, forgets))
    decreases |ids|
  {
    if ids != [] {
      RemoveAllKeepsSlots(d, ids[..|ids| - 1], forgets);
      RemoveKeepsSlots(RemoveAll(d, ids[..|ids| - 1], forgets), ids[|ids| - 1], forgets);
    }
  }

  // ----- the index

  /** What an insertion leaves alone: every string of the index keeps its id, every used slot
      its string. */
  ghost predicate Extends(d: Dict, e: Dict) {
    && |d.contents| <= |e.contents|
    && (forall s :: s in d.index ==> s in e.index && e.index[s] == d.index[s])
    && (forall k :: 0 <= k < |d.contents| && d.contents[k].Used? ==> e.contents[k] == d.contents[k])
  }

  lemma InsertOneOk(d: Dict, key: Key, grow: nat -> nat)
    requires Grows(grow) && SlotsOk(d) && IndexOk(d)
    ensures var g := Grown(d, grow); g.free != [] && g.free[|g.free| - 1] < |g.contents|
    ensures var (e, id) := InsertOne(d, key, grow);
      && SlotsOk(e) && IndexOk(e) && Extends(d, e) && (InStep(d) <==> InStep(e))
      && (key.Key? ==> key.str in e.index && e.index[key.str] == id)
      && (forall s :: s in e.index <==> s in d.index || key == Key(s))
  {
    hide SlotsOk, Grown, Grows;
    match key
    case Missing =>
      PutKeepsSlots(d, "", grow);
    case Key(s) =>
      PutKeepsSlots(d, s, grow);
      if s !in d.index {
        var (e, id) := Put(d, s, grow);
        if InStep(e) {
          forall t | t in d.index
            ensures d.contents[d.index[t]] == Used(t)
          {
            assert t in e.index && e.contents[e.index[t]] == Used(t);
          }
        }
      }
  }

  /** A batch keeps all invariants, changes no earlier id or string, and reports for each of its
      keys the id under which the index then knows it. */
  lemma {:induction false} InsertAllOk(d: Dict, keys: seq<Key>, grow: nat -> nat)
    requires Grows(grow) && SlotsOk(d) && IndexOk(d)
    ensures var o := InsertAll(d, keys, grow);
      && IndexOk(o.dict) && Extends(d, o.dict) && (InStep(d) <==> InStep(o.dict))
      && (forall i :: 0 <= i < |keys| && keys[i].Key? ==>
            keys[i].str in o.dict.index && o.dict.index[keys[i].str] == o.ids[i])
      && (forall s :: s in o.dict.index <==> s in d.index || Key(s) in keys)
    decreases |keys|
  {
    hide SlotsOk, IndexOk, InStep, Grown, Grows;
    if keys != [] {
      assert keys == keys[..|keys| - 1] + [keys[|keys| - 1]];
      InsertAllOk(d, keys[..|keys| - 1], grow);
      InsertOneOk(InsertAll(d, keys[..|keys| - 1], grow).dict, keys[|keys| - 1], grow);
    }
  }

  /** Removal keeps the index usable, and in step exactly when the index forgets the string or
      the slot was not in use. */
  lemma RemoveOneOk(d: Dict, id: nat, forgets: bool)
    requires IndexOk(d) && id < |d.contents|
    ensures var e := RemoveOne(d, id, forgets);
      && IndexOk(e) && (InStep(e) ==> InStep(d))
      && (InStep(d) ==> (InStep(e) <==> forgets || d.contents[id] == Unused))
  {
    var e := RemoveOne(d, id, forgets);
    if d.contents[id].Used? {
      var s := d.contents[id].str;
      assert s in d.index && d.index[s] == id;
      if !forgets {
        assert s in e.index && e.contents[e.index[s]] == Unused;
      } else {
        forall t | t in d.index && InStep(e)
          ensures d.contents[d.index[t]] == Used(t)
        {
          if t != s {
            assert t in e.index;
          }
        }
        forall k | 0 <= k < |e.contents| && e.contents[k].Used?
          ensures e.contents[k].str in e.index
        {
          assert d.contents[k].str in d.index && d.index[d.contents[k].str] == k;
        }
      }
    }
  }

  /** Whether one of the ids is in use. */
  ghost predicate HitsLive(d: Dict, ids: seq<nat>)
    requires forall i :: 0 <= i < |ids| ==> ids[i] < |d.contents|
  {
    exists i :: 0 <= i < |ids| && d.contents[ids[i]].Used?
  }

  /** Over a batch, repeated ids included: the index stays in step if and only if it forgets
      removed strings or no id of the batch was in use. */
  lemma {:induction false} RemoveAllOk(d: Dict, ids: seq<nat>, forgets: bool)
    requires IndexOk(d) && forall i :: 0 <= i < |ids| ==> ids[i] < |d.contents|
    ensures var e := RemoveAll(d, ids, forgets);
      && IndexOk(e) && (InStep(e) ==> InStep(d)) && (InStep(d) ==> (InStep(e) <==> forgets || !HitsLive(d, ids)))
      && (forall k :: 0 <= k < |d.contents| ==> e.contents[k] == if k in ids then Unused else d.contents[k])
    decreases |ids|
  {
    hide IndexOk, InStep;
    if ids != [] {
      var n := |ids| - 1;
      var init := ids[..n];
      RemoveAllOk(d, init, forgets);
      RemoveOneOk(RemoveAll(d, init, forgets), ids[n], forgets);
      assert ids == init + [ids[n]];
      assert HitsLive(d, ids) <==> HitsLive(d, init) || d.contents[ids[n]].Used? by {
        assert HitsLive(d, init) ==> HitsLive(d, ids) by {
          if i :| 0 <= i < |init| && d.contents[init[i]].Used? {
            assert d.contents[ids[i]].Used?;
          }
        }
        if i :| 0 <= i < |ids| && d.contents[ids[i]].Used? {
          if i < n {
            assert d.contents[init[i]].Used?;
          }
        }
      }
    }
  }

  /** A batch of removals teaches the index nothing. */
  lemma {:induction false} RemoveAllShrinks(d: Dict, ids: seq<nat>, forgets: bool)
    requires forall i :: 0 <= i < |ids| ==> ids[i] < |d.contents|
    ensures var e := RemoveAll(d, ids, forgets);
      forall s :: s in e.index ==> s in d.index && e.index[s] == d.index[s]
    decreases |ids|
  {
    if ids != [] {
      RemoveAllShrinks(d, ids[..|ids| - 1], forgets);
    }
  }

  /** What the index still knows after a batch of removals. */
  lemma {:induction false} RemoveAllForgets(d: Dict, ids: seq<nat>, forgets: bool)
    requires IndexOk(d) && InStep(d) && forall i :: 0 <= i < |ids| ==> ids[i] < |d.contents|
    ensures var e := RemoveAll(d, ids, forgets);
      forall s :: s in d.index ==> (s in e.index <==> !forgets || d.index[s] !in ids)
    decreases |ids|
  {
    if ids != [] {
      var n := |ids| - 1;
      RemoveAllShrinks(d, ids[..n], forgets);
      RemoveAllForgets(d, ids[..n], forgets);
      RemoveAllOk(d, ids[..n], forgets);
      assert ids == ids[..n] + [ids[n]];
    }
  }

  /** Two strings never share an id, and equal strings never get two. */
  lemma Injective(d: Dict, s: string, t: string)
    requires InStep(d) && s in d.index && t in d.index
    ensures d.index[s] == d.index[t] <==> s == t
  {
  }

  // ----- extraction

  /** Extracting the id that an insertion reported gives the string back exactly when the id is
      not 0, or the string is the one that id 0 stands for. */
  lemma ExtractInserted(d: Dict, keys: seq<Key>, i: nat, grow: nat -> nat)
    requires Grows(grow) && SlotsOk(d) && IndexOk(d) && InStep(d) && i < |keys| && keys[i].Key?
    ensures var o := InsertAll(d, keys, grow);
      && Extractable(o.dict, o.ids[i])
      && (ExtractOne(o.dict, o.ids[i]) == keys[i].str <==> o.ids[i] != 0 || keys[i].str == "null")
  {
    hide SlotsOk, Grown, Grows;
    InsertAllOk(d, keys, grow);
  }

  /** The first string of a dictionary with one slot gets id 0 and is lost on extraction. */
  lemma SlotZeroIsLost(s: string, grow: nat -> nat)
    requires Grows(grow) && s != "null"
    ensures SlotsOk(Create(1))
    ensures var o := InsertAll(Create(1), [Key(s)], grow);
      o.ids == [0] && Extractable(o.dict, 0) && ExtractOne(o.dict, 0) != s
  {
    CreateOk(1);
    assert [Key(s)][..0] == [];
    assert Create(1).free == [0];
    assert InsertAll(Create(1), [], grow) == Outcome(Create(1), []);
  }

  // ----- which slot a new string gets

  /** A new dictionary hands its slots out from the last one down. */
  lemma {:induction false} FreshIds(n: nat, keys: seq<Key>, grow: nat -> nat)
    requires Grows(grow) && |keys| <= n && (forall i :: 0 <= i < |keys| ==> keys[i].Key?)
    requires forall i, j :: 0 <= i < j < |keys| ==> keys[i] != keys[j]
    ensures SlotsOk(Create(n))
    ensures var o := InsertAll(Create(n), keys, grow);
      && (forall i :: 0 <= i < |keys| ==> o.ids[i] == n - 1 - i)
      && o.dict.free == Numbers(0, n - |keys|) && forall s :: s in o.dict.index <==> Key(s) in keys
    decreases |keys|
  {
    hide SlotsOk, Live, Grows, InsertOne, Create, Numbers;
    CreateOk(n);
    NoneInserted(n, grow);
    if keys != [] {
      var k := |keys| - 1;
      FreshIds(n, keys[..k], grow);
      assert keys == keys[..k] + [keys[k]];
      LastSlot(InsertAll(Create(n), keys[..k], grow).dict, keys[k].str, n - k - 1, grow);
    }
  }

  lemma NoneInserted(n: nat, grow: nat -> nat)
    requires Grows(grow) && SlotsOk(Create(n))
    ensures var o := InsertAll(Create(n), [], grow);
      o.ids == [] && o.dict.free == Numbers(0, n) && o.dict.index == map[]
  {
  }

  lemma LastSlot(d: Dict, s: string, m: nat, grow: nat -> nat)
    requires SlotsOk(d) && Grows(grow) && d.free == Numbers(0, m + 1) && s !in d.index
    ensures var g := Grown(d, grow); g.free != [] && g.free[|g.free| - 1] < |g.contents|
    ensures var (e, id) := InsertOne(d, Key(s), grow);
      id == m && e.free == Numbers(0, m) && e.index == d.index[s := m]
  {
    assert Numbers(0, m + 1)[..m] == Numbers(0, m);
  }

  /** When no slot is free, the slots grow first, and a new string gets the last one. */
  lemma GrownId(d: Dict, s: string, grow: nat -> nat)
    requires Grows(grow) && d.free == [] && s !in d.index
    ensures var g := Grown(d, grow); g.free != [] && g.free[|g.free| - 1] < |g.contents|
    ensures var (e, id) := InsertOne(d, Key(s), grow);
      id == grow(|d.contents|) - 1 && |e.contents| == grow(|d.contents|) && e.index == d.index[s := id]
  {
    hide Numbers, Blank;
  }

  /** The slot that was freed last is the first to be used again. */
  lemma LastFreed(d: Dict, id: nat, s: string, grow: nat -> nat, forgets: bool)
    requires id < |d.contents| && d.contents[id].Used?
    requires s !in RemoveOne(d, id, forgets).index
    ensures var r := RemoveOne(d, id, forgets); var g := Grown(r, grow);
      && g.free != [] && g.free[|g.free| - 1] < |g.contents|
      && var (e, k) := InsertOne(r, Key(s), grow);
         k == id && e.contents == d.contents[id := Used(s)] && e.free == d.free
  {
  }

  // ----- runs

  datatype Op = Insert(keys: seq<Key>) | Remove(ids: seq<nat>)

  /** The dictionary after a run; removed ids must be slots, as the callers promise. */
  ghost predicate Allowed(d: Dict, ops: seq<Op>, grow: nat -> nat, forgets: bool)
    requires Grows(grow) && SlotsOk(d)
    decreases |ops|, 0
  {
    ops == [] ||
    (var init := ops[..|ops| - 1];
     Allowed(d, init, grow, forgets) &&
     match ops[|ops| - 1]
     case Insert(_) => true
     case Remove(ids) => var e := Run(d, init, grow, forgets); forall i :: 0 <= i < |ids| ==> ids[i] < |e.contents|)
  }

  ghost function Run(d: Dict, ops: seq<Op>, grow: nat -> nat, forgets: bool): (e: Dict)
    requires Grows(grow) && SlotsOk(d) && Allowed(d, ops, grow, forgets)
    ensures SlotsOk(e)
    decreases |ops|, 1
  {
    if ops == [] then d
    else
      var e := Run(d, ops[..|ops| - 1], grow, forgets);
      match ops[|ops| - 1]
      case Insert(keys) => InsertAll(e, keys, grow).dict
      case Remove(ids) => RemoveAllKeepsSlots(e, ids, forgets); RemoveAll(e, ids, forgets)
  }

  /** Whether some removal of the run hits a live string. */
  ghost predicate RemovesLive(d: Dict, ops: seq<Op>, grow: nat -> nat, forgets: bool)
    requires Grows(grow) && SlotsOk(d) && Allowed(d, ops, grow, forgets)
    decreases |ops|
  {
    ops != [] &&
    var init := ops[..|ops| - 1];
    || RemovesLive(d, init, grow, forgets)
    || match ops[|ops| - 1]
       case Insert(_) => false
       case Remove(ids) => HitsLive(Run(d, init, grow, forgets), ids)
  }

  /** Over every run: the slots are always right, live strings are always found under their own
      slot, and the index stays the exact bijection if and only if it forgets removed strings or
      the run never removes a live one. */
  lemma {:induction false} RunOk(d: Dict, ops: seq<Op>, grow: nat -> nat, forgets: bool)
    requires Grows(grow) && SlotsOk(d) && IndexOk(d) && InStep(d) && Allowed(d, ops, grow, forgets)
    ensures var e := Run(d, ops, grow, forgets);
      SlotsOk(e) && IndexOk(e) && (InStep(e) <==> forgets || !RemovesLive(d, ops, grow, forgets))
    decreases |ops|
  {
    hide SlotsOk, IndexOk, InStep, HitsLive, Grows;
    if ops != [] {
      var init := ops[..|ops| - 1];
      RunOk(d, init, grow, forgets);
      var e := Run(d, init, grow, forgets);
      match ops[|ops| - 1]
      case Insert(keys) => InsertAllOk(e, keys, grow);
      case Remove(ids) => RemoveAllOk(e, ids, forgets);
    }
  }

  /** Inserting a string, removing it and inserting it again: without forgetting, the second
      insertion reports a slot that is not in use. */
  lemma RemovedThenInserted(s: string, grow: nat -> nat)
    requires Grows(grow)
    ensures SlotsOk(Create(2)) && var d := InsertAll(Create(2), [Key(s)], grow).dict;
      d.contents == [Unused, Used(s)] && var e := RemoveAll(d, [1], false);
        && SlotsOk(e) && InsertAll(e, [Key(s)], grow) == Outcome(e, [1]) && !Extractable(e, 1)
  {
    hide SlotsOk, Live;
    CreateOk(2);
    assert [Key(s)][..0] == [];
    assert Create(2).free == [0, 1] && Create(2).contents == [Unused, Unused];
    assert InsertAll(Create(2), [], grow) == Outcome(Create(2), []);
    var d := InsertAll(Create(2), [Key(s)], grow).dict;
    assert d.contents == [Unused, Used(s)];
    RemoveAllKeepsSlots(d, [1], false);
    var e := RemoveAll(d, [1], false);
    assert [1][..0] == [];
    assert InsertAll(e, [], grow) == Outcome(e, []);
  }
}
